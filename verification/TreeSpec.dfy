/** The file system that the users are to see: requests on a tree of files, with no disk, no junk and no
    cache. An answered request of the server is one of these, exactly unless junk changes it. */
module TreeSpec {
  import opened Content
  import opened Namespace
  import opened CrashAtomicity
  import opened ServerRuns
  import opened NameRuns
  import opened Junk
  import opened JunkRuns

  /** All files but the root: each with its directory, its names there, its kind and content. */
  type Tree = map<Fid, Entry>

  predicate InTree(t: Tree, f: Fid) {
    f == ROOT || f in t
  }

  predicate IsDirectory(t: Tree, f: Fid) {
    f == ROOT || (f in t && t[f].node.Dir?)
  }

  /** The file lies in the directory under this name. */
  predicate HasName(t: Tree, f: Fid, dir: Fid, name: Name) {
    f in t && t[f].parent == dir && name in t[f].names
  }

  predicate InUse(t: Tree, dir: Fid, name: Name) {
    exists f | f in t :: HasName(t, f, dir, name)
  }

  predicate HasFiles(t: Tree, dir: Fid) {
    exists f | f in t :: t[f].parent == dir
  }

  /** The way down from the root. */
  predicate IsWay(t: Tree, p: Path) {
    |p| > 0 && p[0] == ROOT && forall i | 0 < i < |p| :: p[i] in t && t[p[i]].parent == p[i - 1]
  }

  /** The file is the directory, or a directory above it. */
  ghost predicate Above(t: Tree, f: Fid, dir: Fid) {
    exists p :: IsWay(t, p) && Last(p) == dir && f in p
  }

  // ---------- What the requests do ----------

  ghost predicate SpecLookup(t: Tree, dir: Fid, name: Name, reply: Reply) {
    if !InTree(t, dir) then reply == Fail(STALE)
    else if !IsDirectory(t, dir) then reply == Fail(NOTDIR)
    else if !InUse(t, dir, name) then reply == Fail(NOENT)
    else reply.Done? && HasName(t, reply.fid, dir, name)
  }

  ghost predicate SpecMake(t: Tree, dir: Fid, name: Name, isFile: bool, reply: Reply, t': Tree) {
    if !InTree(t, dir) then reply == Fail(STALE) && t' == t
    else if !IsDirectory(t, dir) then reply == Fail(NOTDIR) && t' == t
    else if InUse(t, dir, name) then reply == Fail(EXIST) && t' == t
    else
      && reply.Done? && !InTree(t, reply.fid)
      && t' == t[reply.fid := Entry(dir, {name}, if isFile then File([]) else Dir)]
  }

  /** REMOVE of a file, RMDIR of a directory with nothing in it. */
  ghost predicate SpecUnmake(t: Tree, dir: Fid, name: Name, isFile: bool, reply: Reply, t': Tree) {
    if !InTree(t, dir) then reply == Fail(STALE) && t' == t
    else if !IsDirectory(t, dir) then reply == Fail(NOTDIR) && t' == t
    else if !InUse(t, dir, name) then reply == Fail(NOENT) && t' == t
    else exists f :: HasName(t, f, dir, name) && SpecUnmakeFile(t, f, isFile, reply, t')
  }

  ghost predicate SpecUnmakeFile(t: Tree, f: Fid, isFile: bool, reply: Reply, t': Tree) {
    if isFile && IsDirectory(t, f) then reply == Fail(ISDIR) && t' == t
    else if !isFile && !IsDirectory(t, f) then reply == Fail(NOTDIR) && t' == t
    else if !isFile && HasFiles(t, f) then reply == Fail(NOTEMPTY) && t' == t
    else reply == Done(f) && t' == t - {f}
  }

  /** RENAME to a free name; not of a directory to a place below itself. */
  ghost predicate SpecRename(t: Tree, od: Fid, on: Name, nd: Fid, nn: Name, reply: Reply, t': Tree) {
    if !InTree(t, od) || !InTree(t, nd) then reply == Fail(STALE) && t' == t
    else if !InUse(t, od, on) then reply == Fail(NOENT) && t' == t
    else exists f :: HasName(t, f, od, on) && SpecRenameFile(t, f, od, on, nd, nn, reply, t')
  }

  ghost predicate SpecRenameFile(
      t: Tree, f: Fid, od: Fid, on: Name, nd: Fid, nn: Name, reply: Reply, t': Tree)
    requires f in t
  {
    if InUse(t, nd, nn) then reply == Fail(EXIST) && t' == t
    else if Above(t, f, nd) then reply == Fail(IOERR) && t' == t
    else
      && reply == Done(f)
      && t' == t[f := Entry(nd, if nd == od then t[f].names - {on} + {nn} else {nn}, t[f].node)]
  }

  /** The request, asked of tree t, is answered so and leaves tree t'. */
  ghost predicate Spec(t: Tree, rpc: Rpc, reply: Reply, t': Tree) {
    match rpc
    case Make(dir, name, isFile) => SpecMake(t, dir, name, isFile, reply, t')
    case Unmake(dir, name, isFile) => SpecUnmake(t, dir, name, isFile, reply, t')
    case Rename(od, on, nd, nn) => SpecRename(t, od, on, nd, nn, reply, t')
    case Lookup(dir, name) => SpecLookup(t, dir, name, reply) && t' == t
  }

  // ---------- The disk, as a tree ----------

  lemma TreeLive(d: Disk, f: Fid)
    requires TreeInv(d)
    ensures Live(d, f) <==> InTree(View(d), f)
    ensures InTree(View(d), f) ==> (IsDir(d, f) <==> IsDirectory(View(d), f))
  {
    LinkedIsLive(d, f);
  }

  lemma TreeCalled(d: Disk, f: Fid, dir: Fid, name: Name)
    requires Rooted(d) && dir != 0
    ensures HasName(View(d), f, dir, name) <==> Called(d, Named(dir, f, name), dir, name)
  {
    if f in d.objs {
      NamesAt(d, f, name);
    }
    if Called(d, Named(dir, f, name), dir, name) {
      assert Linked(d, f);
    }
  }

  lemma TreeTaken(d: Disk, dir: Fid, name: Name)
    requires Rooted(d) && dir != 0
    ensures Taken(d, dir, name) <==> InUse(View(d), dir, name)
  {
    if Taken(d, dir, name) {
      var x :| x in d.names && x.dir == dir && x.name == name && Paired(d, x);
      assert x == Named(dir, x.fid, name);
      TreeCalled(d, x.fid, dir, name);
    }
    if InUse(View(d), dir, name) {
      var f :| f in View(d) && HasName(View(d), f, dir, name);
      TreeCalled(d, f, dir, name);
    }
  }

  lemma TreeWay(d: Disk, p: Path)
    requires TreeInv(d)
    ensures IsPath(d, p) <==> IsWay(View(d), p)
  {
    forall a, c | c != ROOT ensures Edge(d, a, c) <==> c in View(d) && View(d)[c].parent == a {}
    if IsPath(d, p) {
      forall i | 0 < i < |p| ensures p[i] in View(d) && View(d)[p[i]].parent == p[i - 1] {
        assert Edge(d, p[i - 1], p[i]);
      }
    }
    if IsWay(View(d), p) {
      forall i | 0 < i < |p| ensures Edge(d, p[i - 1], p[i]) {}
    }
  }

  lemma TreeAbove(d: Disk, f: Fid, dir: Fid)
    requires TreeInv(d) && Live(d, dir)
    ensures f in PathTo(d, dir) <==> Above(View(d), f, dir)
  {
    TreeWay(d, PathTo(d, dir));
    if Above(View(d), f, dir) {
      var p :| IsWay(View(d), p) && Last(p) == dir && f in p;
      TreeWay(d, p);
      PathUnique(d, p, PathTo(d, dir));
    }
  }

  // ---------- One answered request ----------

  /** The tree after an answered request other than a finished rename. */
  lemma TreeAfter(s: State, t: Step, s': State)
    requires ServerInv(s) && Next(s, t, s') && t.Answer? && (!t.rpc.Rename? || t.reply.Fail?)
    ensures View(s'.disk) == Shown(s.disk, t.rpc, t.reply)
  {
    assert t.plan[..|t.plan|] == t.plan;
    CrashAtomic(s.disk, s.next, t.rpc, t.plan, t.reply, |t.plan|);
  }

  lemma LookupMeetsSpec(s: State, t: Step, s': State)
    requires ServerInv(s) && Next(s, t, s') && t.Answer? && t.rpc.Lookup?
    ensures Spec(View(s.disk), t.rpc, t.reply, View(s'.disk))
  {
    TreeLive(s.disk, t.rpc.dir);
    if Live(s.disk, t.rpc.dir) {
      TreeTaken(s.disk, t.rpc.dir, t.rpc.name);
      if t.reply.Done? {
        var x :| Called(s.disk, x, t.rpc.dir, t.rpc.name) && t.reply == Done(x.fid);
        assert x == Named(t.rpc.dir, x.fid, t.rpc.name);
        TreeCalled(s.disk, x.fid, t.rpc.dir, t.rpc.name);
      }
    }
    TreeAfter(s, t, s');
  }

  lemma MakeMeetsSpec(s: State, t: Step, s': State)
    requires ServerInv(s) && Next(s, t, s') && t.Answer? && t.rpc.Make?
    ensures Spec(View(s.disk), t.rpc, t.reply, View(s'.disk))
  {
    TreeLive(s.disk, t.rpc.dir);
    if Live(s.disk, t.rpc.dir) {
      TreeTaken(s.disk, t.rpc.dir, t.rpc.name);
    }
    TreeAfter(s, t, s');
    assert s.next !in s.disk.objs;
  }

  /** REMOVE and RMDIR of a file that has the name. */
  lemma UnmakeFileMeetsSpec(d: Disk, dir: Fid, name: Name, isFile: bool, f: Fid, plan: seq<DiskStep>, reply: Reply)
    requires TreeInv(d) && HasName(View(d), f, dir, name) && DecidesUnmake(d, dir, name, isFile, f, plan, reply)
    ensures reply != Fail(NOTEMPTY) ==>
      SpecUnmakeFile(View(d), f, isFile, reply, Shown(d, Unmake(dir, name, isFile), reply))
    ensures reply == Fail(NOTEMPTY) ==> !isFile
  {
    TreeLive(d, f);
    SweptEmpty(d, f);
  }

  /** What junk is to blame for: no directory of that name has files in it. */
  lemma NotEmptyExactly(d: Disk, dir: Fid, name: Name)
    requires TreeInv(d) && dir != 0
    ensures JunkMatters(d, Unmake(dir, name, false), Fail(NOTEMPTY), 0)
      <==> !exists f :: HasName(View(d), f, dir, name) && IsDirectory(View(d), f) && HasFiles(View(d), f)
  {
    var v := View(d);
    forall f ensures HasName(v, f, dir, name) && IsDirectory(v, f) && HasFiles(v, f)
        <==> Called(d, Named(dir, f, name), dir, name) && IsDir(d, f) && !ShowsEmpty(d, f) {
      TreeCalled(d, f, dir, name);
      TreeLive(d, f);
    }
    forall x | Called(d, x, dir, name) ensures x == Named(dir, x.fid, name) {}
  }

  lemma UnmakeMeetsSpec(s: State, t: Step, s': State)
    requires ServerInv(s) && Next(s, t, s') && t.Answer? && t.rpc.Unmake?
    ensures Spec(View(s.disk), t.rpc, t.reply, View(s'.disk)) <==> !Spoils(s, t)
  {
    var d, dir, name, isFile := s.disk, t.rpc.dir, t.rpc.name, t.rpc.isFile;
    TreeLive(d, dir);
    TreeAfter(s, t, s');
    if Live(d, dir) && IsDir(d, dir) {
      TreeTaken(d, dir, name);
      if Taken(d, dir, name) {
        UnmakeFoundMeetsSpec(s, t, s');
      }
    }
  }

  lemma UnmakeFoundMeetsSpec(s: State, t: Step, s': State)
    requires ServerInv(s) && Next(s, t, s') && t.Answer? && t.rpc.Unmake?
    requires View(s'.disk) == Shown(s.disk, t.rpc, t.reply)
    requires Live(s.disk, t.rpc.dir) && IsDir(s.disk, t.rpc.dir) && Taken(s.disk, t.rpc.dir, t.rpc.name)
    ensures (exists f :: HasName(View(s.disk), f, t.rpc.dir, t.rpc.name) &&
               SpecUnmakeFile(View(s.disk), f, t.rpc.isFile, t.reply, View(s'.disk))) <==> !Spoils(s, t)
  {
    var d, dir, name, isFile := s.disk, t.rpc.dir, t.rpc.name, t.rpc.isFile;
    var x :| Called(d, x, dir, name) && DecidesUnmake(d, dir, name, isFile, x.fid, t.plan, t.reply);
    assert x == Named(dir, x.fid, name);
    TreeCalled(d, x.fid, dir, name);
    UnmakeFileMeetsSpec(d, dir, name, isFile, x.fid, t.plan, t.reply);
    if t.reply == Fail(NOTEMPTY) {
      NotEmptyExactly(d, dir, name);
    }
  }

  /** A finished rename of the file that has the name. */
  lemma RenameFileMeetsSpec(d: Disk, f: Fid, od: Fid, on: Name, nd: Fid, nn: Name)
    requires TreeInv(d) && Renamable(d, f, od, on, nd, nn) && !Taken(d, nd, nn) && Live(d, nd) && f !in PathTo(d, nd)
    ensures var t, t' := View(d), View(After(d, RenamePlan(f, od, on, nd, nn), 3));
      && HasName(t, f, od, on)
      && (SpecRenameFile(t, f, od, on, nd, nn, Done(f), t') <==> od == nd || Leftovers(d, f, nd, nn) == {})
  {
    var t, t' := View(d), View(After(d, RenamePlan(f, od, on, nd, nn), 3));
    RenameShows(d, f, od, on, nd, nn, 3);
    PathShape(d, PathTo(d, nd));
    TreeTaken(d, nd, nn);
    TreeAbove(d, f, nd);
    NamesAt(d, f, on);
    NamesAt(d, f, nn);
    var now := RenamedNames(d, f, od, on, nd, nn, 3);
    assert t[f] == Entry(od, Names(d, f), d.objs[f].node) && t'[f] == Entry(nd, now, d.objs[f].node);
    if od == nd {
      assert now == t[f].names - {on} + {nn};
    } else {
      forall n ensures n in Leftovers(d, f, nd, nn) ==> n != nn {
        LeftoversAt(d, f, nd, nn, n);
      }
      assert now == {nn} <==> Leftovers(d, f, nd, nn) == {};
    }
  }

  /** A rename that reports a file is the rename of that file. */
  lemma RenamesReported(t: Tree, f: Fid, od: Fid, on: Name, nd: Fid, nn: Name, t': Tree)
    requires InTree(t, od) && InTree(t, nd) && HasName(t, f, od, on)
    ensures SpecRename(t, od, on, nd, nn, Done(f), t') <==> SpecRenameFile(t, f, od, on, nd, nn, Done(f), t')
  {
    assert InUse(t, od, on);
    if SpecRename(t, od, on, nd, nn, Done(f), t') {
      var g :| HasName(t, g, od, on) && SpecRenameFile(t, g, od, on, nd, nn, Done(f), t');
    }
  }

  lemma RenameDoneMeetsSpec(s: State, t: Step, s': State)
    requires ServerInv(s) && Next(s, t, s') && t.Answer? && t.rpc.Rename? && t.reply.Done?
    ensures Spec(View(s.disk), t.rpc, t.reply, View(s'.disk)) <==> !Spoils(s, t)
  {
    var d, rpc := s.disk, t.rpc;
    assert t.plan[..|t.plan|] == t.plan;
    var f := FoundFile(d, s.next, rpc, t.plan, t.reply);
    RenameFileMeetsSpec(d, f, rpc.od, rpc.on, rpc.nd, rpc.nn);
    RenameDecidedLive(d, s.next, rpc, t.plan, t.reply);
    RenamesReported(View(d), f, rpc.od, rpc.on, rpc.nd, rpc.nn, View(s'.disk));
  }

  lemma RenameDecidedLive(d: Disk, next: Fid, rpc: Rpc, plan: seq<DiskStep>, reply: Reply)
    requires TreeInv(d) && rpc.Rename? && reply.Done? && Decides(d, next, rpc, plan, reply)
    ensures InTree(View(d), rpc.od) && InTree(View(d), rpc.nd)
  {
    TreeLive(d, rpc.od);
    TreeLive(d, rpc.nd);
  }

  lemma RenameFailMeetsSpec(s: State, t: Step, s': State)
    requires ServerInv(s) && Next(s, t, s') && t.Answer? && t.rpc.Rename? && t.reply.Fail?
    ensures Spec(View(s.disk), t.rpc, t.reply, View(s'.disk))
  {
    var d, rpc := s.disk, t.rpc;
    TreeAfter(s, t, s');
    TreeLive(d, rpc.od);
    TreeLive(d, rpc.nd);
    if Live(d, rpc.od) && Live(d, rpc.nd) {
      TreeTaken(d, rpc.od, rpc.on);
      TreeTaken(d, rpc.nd, rpc.nn);
      if Taken(d, rpc.od, rpc.on) {
        var x :| Called(d, x, rpc.od, rpc.on) &&
          DecidesRename(d, x.fid, rpc.od, rpc.on, rpc.nd, rpc.nn, t.plan, t.reply);
        assert x == Named(rpc.od, x.fid, rpc.on);
        TreeCalled(d, x.fid, rpc.od, rpc.on);
        TreeAbove(d, x.fid, rpc.nd);
        assert SpecRenameFile(View(d), x.fid, rpc.od, rpc.on, rpc.nd, rpc.nn, t.reply, View(d));
      }
    }
  }

  /** Every answered request, with its reply, its error code or the file it names, and the tree it leaves, is
      what the users are to see, exactly if it is not one that junk changes. */
  lemma AnswerMeetsSpec(s: State, t: Step, s': State)
    requires ServerInv(s) && Next(s, t, s') && t.Answer?
    ensures Spec(View(s.disk), t.rpc, t.reply, View(s'.disk)) <==> !Spoils(s, t)
  {
    match t.rpc
    case Make(_, _, _) => MakeMeetsSpec(s, t, s');
    case Unmake(_, _, _) => UnmakeMeetsSpec(s, t, s');
    case Rename(_, _, _, _) =>
      if t.reply.Done? {
        RenameDoneMeetsSpec(s, t, s');
      } else {
        RenameFailMeetsSpec(s, t, s');
      }
    case Lookup(_, _) => LookupMeetsSpec(s, t, s');
  }

  /** A crash of CREATE, MKDIR, REMOVE or RMDIR shows the old tree, or the one the request is to leave. */
  lemma CrashMeetsSpec(s: State, t: Step, s': State)
    requires ServerInv(s) && Next(s, t, s') && t.Crash? && !t.rpc.Rename?
    ensures View(s'.disk) == View(s.disk) || Spec(View(s.disk), t.rpc, t.reply, View(s'.disk))
  {
    CrashAtomic(s.disk, s.next, t.rpc, t.plan, t.reply, t.k);
    if View(s'.disk) != View(s.disk) {
      var whole := Answer(t.rpc, t.plan, t.reply, s.cache);
      var s1 := State(Exec(s.disk, t.plan), s.next + Used(t.plan), Cached(s.cache, t.rpc, t.reply), s.epoch);
      assert Next(s, whole, s1);
      TreeAfter(s, whole, s1);
      AnswerMeetsSpec(s, whole, s1);
    }
  }
}
