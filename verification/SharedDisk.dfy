/** COMMIT on the disk that it shares with CREATE, REMOVE and RENAME: it looks its file up once and
    in the end renames the new content onto the path it found, whatever has happened in between. */
module SharedDisk {
  import opened Content
  import opened Namespace
  import opened CrashAtomicity
  import opened ServerRuns
  import opened NameRuns
  import P = Protocol
  import D = Durability

  predicate Inside(d: Disk, dir: Fid, f: Fid) {
    IsDir(d, dir) && f in d.objs && d.objs[f].parent == dir
  }

  /** The numbered files along the path are where it says: what the host finds under the path. */
  predicate Resolves(d: Disk, p: Path) {
    |p| > 0 && p[0] == ROOT && ROOT in d.objs && forall i | 0 < i < |p| :: Inside(d, p[i - 1], p[i])
  }

  function Written(d: Disk, f: Fid, content: Bytes): Disk
    requires f in d.objs
  {
    d.(objs := d.objs[f := d.objs[f].(node := File(content))])
  }

  /** How a COMMIT ends: no such file; an error of the host; or Ok, and the new content is either
      in its file, or in a second numbered file of the same fid that the rename has made. */
  datatype CommitEnd = NoFile | HostError | InPlace(disk: Disk) | Beside(disk: Disk, dir: Fid, content: Bytes)

  predicate IsFile(d: Disk, f: Fid) {
    f in d.objs && d.objs[f].node.File?
  }

  /** COMMIT of buffered writes, with other disk steps between lookup and copy, and between copy
      and the final rename. */
  ghost function CommitThrough(d: Disk, f: Fid, ws: seq<Write>, early: seq<DiskStep>, late: seq<DiskStep>): CommitEnd {
    if !Live(d, f) then NoFile
    else
      var p := PathTo(d, f);
      var d1 := Exec(d, early);
      if !Resolves(d1, p) || !IsFile(d1, f) then HostError
      else
        var content := ApplyAll(d1.objs[f].node.content, ws);
        var d2 := Exec(d1, late);
        if !Resolves(d2, p[..|p| - 1]) || !IsDir(d2, Last(p[..|p| - 1])) then HostError
        else if Resolves(d2, p) && IsFile(d2, f) then InPlace(Written(d2, f, content))
        else Beside(d2, Last(p[..|p| - 1]), content)
  }

  /** A COMMIT is answered with no such file exactly if the tree did not show one when it looked. */
  lemma NoFileExactly(d: Disk, f: Fid, ws: seq<Write>, early: seq<DiskStep>, late: seq<DiskStep>)
    requires TreeInv(d) && f != ROOT
    ensures CommitThrough(d, f, ws, early, late).NoFile? <==> f !in View(d)
  {
    LinkedIsLive(d, f);
  }

  // ---------- What other operations do to the file meanwhile ----------

  lemma {:induction false} ExecConcat(d: Disk, a: seq<DiskStep>, b: seq<DiskStep>)
    ensures Exec(d, a + b) == Exec(Exec(d, a), b)
    decreases a
  {
    if a == [] {
      assert a + b == b;
    } else {
      assert (a + b)[1..] == a[1..] + b;
      ExecConcat(Do(d, a[0]), a[1..], b);
    }
  }

  /** An Ok, and every buffered write is in the one numbered file that there is. */
  predicate Kept(o: CommitEnd, f: Fid, content: Bytes) {
    o.InPlace? && f in o.disk.objs && o.disk.objs[f].node == File(content)
  }

  /** An Ok means durable exactly if, when the commit renames its copy into place, the path it has
      looked up still leads to the file. Otherwise the file, if it still exists, has its old content
      at its new place, and the new content lies in a second numbered file at the old one. */
  lemma DurableExactly(d: Disk, f: Fid, ws: seq<Write>, early: seq<DiskStep>, late: seq<DiskStep>)
    requires Live(d, f) && IsFile(d, f) && NoNew(early + late, f)
    ensures var o, now := CommitThrough(d, f, ws, early, late), Exec(d, early + late);
      var content := ApplyAll(d.objs[f].node.content, ws);
      o.InPlace? || o.Beside? ==>
        && (Kept(o, f, content) <==> Resolves(now, PathTo(d, f)))
        && (o.Beside? ==>
              o.disk == now && o.content == content && (f in now.objs ==> now.objs[f].node == d.objs[f].node))
  {
    ExecConcat(d, early, late);
    forall s | s in early || s in late ensures s.AddNumbered? ==> s.fid != f {
      assert s in early + late;
    }
    ContentKept(d, early, f);
    ContentKept(Exec(d, early), late, f);
    if Resolves(Exec(d, early + late), PathTo(d, f)) {
      ResolvedIsThere(Exec(d, early + late), PathTo(d, f));
    }
  }

  lemma ResolvedIsThere(d: Disk, p: Path)
    requires Resolves(d, p)
    ensures Last(p) in d.objs
  {
    if |p| > 1 {
      assert Inside(d, p[|p| - 1 - 1], p[|p| - 1]);
    }
  }

  /** The step leaves every file of the path where it is. */
  predicate Spares(s: DiskStep, p: Path) {
    match s
    case AddNumbered(f, _, _) => f !in p
    case AddNamed(_) => true
    case DelNumbered(f) => f !in p
    case DelNamed(_) => true
    case Move(f, _) => f !in p
  }

  lemma {:induction false} SparedResolves(d: Disk, steps: seq<DiskStep>, p: Path)
    requires Resolves(d, p) && forall s | s in steps :: Spares(s, p)
    ensures Resolves(Exec(d, steps), p)
    decreases steps
  {
    if steps == [] {
    } else {
      var s, d' := steps[0], Do(d, steps[0]);
      assert s in steps && ROOT in p;
      forall i | 0 < i < |p| ensures Inside(d', p[i - 1], p[i]) {
        assert Inside(d, p[i - 1], p[i]) && p[i] in p && p[i - 1] in p;
      }
      SparedResolves(d', steps[1..], p);
    }
  }

  lemma PathResolves(d: Disk, p: Path)
    requires Rooted(d) && IsPath(d, p)
    ensures Resolves(d, p)
  {
    forall i | 0 < i < |p| ensures Inside(d, p[i - 1], p[i]) {
      assert Edge(d, p[i - 1], p[i]);
    }
  }

  lemma PrefixResolves(d: Disk, p: Path)
    requires Resolves(d, p) && |p| > 1
    ensures Resolves(d, p[..|p| - 1]) && IsDir(d, Last(p[..|p| - 1]))
  {
    assert Inside(d, p[|p| - 1 - 1], p[|p| - 1]);
  }

  /** While nobody moves or removes the file or a directory above it, COMMIT is durable, whatever
      else is created, renamed and removed. */
  lemma SparedIsDurable(d: Disk, f: Fid, ws: seq<Write>, early: seq<DiskStep>, late: seq<DiskStep>)
    requires Rooted(d) && Live(d, f) && IsFile(d, f)
    requires forall s | s in early + late :: Spares(s, PathTo(d, f))
    ensures Kept(CommitThrough(d, f, ws, early, late), f, ApplyAll(d.objs[f].node.content, ws))
  {
    var p := PathTo(d, f);
    assert f in p;
    forall s | s in early || s in late ensures Spares(s, p) {
      assert s in early + late;
    }
    PathResolves(d, p);
    PathShape(d, p);
    SparedResolves(d, early, p);
    SparedResolves(Exec(d, early), late, p);
    PrefixResolves(Exec(Exec(d, early), late), p);
    ResolvedIsThere(Exec(d, early), p);
    ResolvedIsThere(Exec(Exec(d, early), late), p);
    ContentKept(d, early, f);
    ContentKept(Exec(d, early), late, f);
  }

  // ---------- Where the file is in the tree ----------

  /** There is one path to a file that the host can follow: back from directory to directory. */
  lemma {:induction false} ResolvedUnique(d: Disk, p: Path, q: Path)
    requires Rooted(d) && Resolves(d, p) && Resolves(d, q) && Last(p) == Last(q)
    ensures p == q
    decreases |p|
  {
    var m, n := |p| - 1, |q| - 1;
    assert m > 0 ==> Inside(d, p[m - 1], p[m]);
    assert n > 0 ==> Inside(d, q[n - 1], q[n]);
    if m > 0 && n > 0 {
      ResolvedUnique(d, p[..m], q[..n]);
      assert p == p[..m] + [p[m]] && q == q[..n] + [q[n]];
    }
  }

  /** Seen from the tree: for a file that is still there, an Ok means durable exactly if in the end the file
      has the path that it had when the COMMIT looked it up. */
  lemma DurableInPlace(d: Disk, f: Fid, ws: seq<Write>, early: seq<DiskStep>, late: seq<DiskStep>)
    requires Live(d, f) && IsFile(d, f) && NoNew(early + late, f)
    requires Rooted(Exec(d, early + late)) && Live(Exec(d, early + late), f)
    ensures var o := CommitThrough(d, f, ws, early, late);
      o.InPlace? || o.Beside? ==>
        (Kept(o, f, ApplyAll(d.objs[f].node.content, ws)) <==> PathTo(Exec(d, early + late), f) == PathTo(d, f))
  {
    var now := Exec(d, early + late);
    DurableExactly(d, f, ws, early, late);
    PathResolves(now, PathTo(now, f));
    if Resolves(now, PathTo(d, f)) {
      ResolvedUnique(now, PathTo(now, f), PathTo(d, f));
    }
  }

  // ---------- One RENAME of a directory above the file in between ----------

  /** A directory above the file moves to another directory while the COMMIT is under way: the path is
      gone, and the COMMIT fails, when it copies the file or when it renames the copy. */
  lemma AncestorBetween(d: Disk, f: Fid, ws: seq<Write>, g: Fid, od: Fid, on: Name, nd: Fid, nn: Name)
    requires Rooted(d) && IsFile(d, f) && Live(d, f) && Renamable(d, g, od, on, nd, nn)
    requires g in PathTo(d, f) && g != f && od != nd
    ensures CommitThrough(d, f, ws, RenamePlan(g, od, on, nd, nn), []) == HostError
    ensures CommitThrough(d, f, ws, [], RenamePlan(g, od, on, nd, nn)) == HostError
  {
    var plan, p := RenamePlan(g, od, on, nd, nn), PathTo(d, f);
    assert plan[..3] == plan && Exec(d, []) == d;
    RenameSteps(d, g, od, on, nd, nn, 3);
    PathResolves(d, p);
    var i :| 0 <= i < |p| && p[i] == g;
    assert Inside(d, p[i - 1], p[i]);
    NotResolved(Exec(d, plan), p, i);
    NotResolved(Exec(d, plan), p[..|p| - 1], i);
  }

  lemma NotResolved(d: Disk, p: Path, i: nat)
    requires 0 < i < |p| && !Inside(d, p[i - 1], p[i])
    ensures !Resolves(d, p)
  {}

  // ---------- One RENAME of the file in between ----------

  /** After the file alone has moved, the path to its old directory still resolves, and the path to
      the file does exactly if it has not left the directory. */
  lemma MovedResolves(d: Disk, d': Disk, f: Fid, nd: Fid, p: Path)
    requires Rooted(d) && IsPath(d, p) && f == Last(p) != ROOT && f in d.objs
    requires d'.objs == d.objs[f := Obj(nd, d.objs[f].node)]
    ensures |p| > 1 && Resolves(d', p[..|p| - 1]) && IsDir(d', Last(p[..|p| - 1])) &&
      Last(p[..|p| - 1]) == d.objs[f].parent
    ensures Resolves(d', p) <==> nd == d.objs[f].parent
  {
    var n := |p| - 1;
    PathShape(d, p);
    PathResolves(d, p);
    forall i | 0 <= i < n ensures p[i] != f {
      if p[i] == f {
        PathNoRepeat(d, p, i, n);
      }
    }
    forall i | 0 < i < n ensures Inside(d', p[i - 1], p[i]) {
      assert Inside(d, p[i - 1], p[i]);
    }
    assert Inside(d, p[n - 1], p[n]);
    assert Inside(d', p[n - 1], p[n]) <==> nd == d.objs[f].parent;
  }

  /** The case that goes wrong: a RENAME of the file between the copy and the final rename of a
      COMMIT that answers Ok. The commit is durable exactly if the RENAME stays in the directory;
      otherwise the file keeps its old content, and the next COMMIT finds nothing to write. */
  lemma RenameBetween(d: Disk, f: Fid, ws: seq<Write>, od: Fid, on: Name, nd: Fid, nn: Name)
    requires Rooted(d) && IsFile(d, f) && Live(d, f) && Renamable(d, f, od, on, nd, nn)
    ensures var o := CommitThrough(d, f, ws, [], RenamePlan(f, od, on, nd, nn));
      var content := ApplyAll(d.objs[f].node.content, ws);
      && (o.InPlace? || o.Beside?)
      && (Kept(o, f, content) <==> od == nd)
      && (od != nd ==>
            o == Beside(o.disk, od, content) && f in o.disk.objs && o.disk.objs[f] == Obj(nd, d.objs[f].node))
  {
    var plan := RenamePlan(f, od, on, nd, nn);
    assert plan[..3] == plan;
    RenameSteps(d, f, od, on, nd, nn, 3);
    PathResolves(d, PathTo(d, f));
    MovedResolves(d, Exec(d, plan), f, nd, PathTo(d, f));
    assert Exec(d, []) == d;
  }

  /** It happens on a disk that a run has left, after MKDIR a and CREATE x: while x is committed, it is
      renamed to a/y, and the write misses it. */
  lemma CommitMisses(w: Write) returns (states: seq<State>, steps: seq<Step>, s: State)
    ensures RunTo(states, steps, s) && |steps| == 2 && 3 in s.disk.objs
    ensures var o := CommitThrough(s.disk, 3, [w], [], RenamePlan(3, ROOT, "x", 2, "y"));
      o.Beside? && o.dir == ROOT && o.content == ApplyAll([], [w]) && 3 in o.disk.objs &&
        o.disk.objs[3] == Obj(2, File([]))
  {
    states, steps, s := SmallRun();
    XIsThere(s.disk);
    InRoot(s.disk, 3, "x");
    assert !Paired(s.disk, Named(2, 3, "y"));
    RenameBetween(s.disk, 3, [w], ROOT, "x", 2, "y");
  }

  // ---------- One disk for both models ----------

  /** The contents that the write protocol sees. */
  function Contents(d: Disk): map<Fid, Bytes> {
    map f | f in View(d) && View(d)[f].node.File? :: View(d)[f].node.content
  }

  lemma WrittenView(d: Disk, f: Fid, content: Bytes)
    requires f in View(d)
    ensures View(Written(d, f, content)) == View(d)[f := View(d)[f].(node := File(content))]
  {
    var d' := Written(d, f, content);
    forall g | g in d.objs ensures Names(d', g) == Names(d, g) && (Linked(d', g) <==> Linked(d, g)) {
      forall n ensures n in Names(d', g) <==> n in Names(d, g) {
        NamesAt(d, g, n);
        NamesAt(d', g, n);
      }
      LinkedAt(d, g);
      LinkedAt(d', g);
    }
  }

  lemma WrittenContents(d: Disk, f: Fid, content: Bytes)
    requires f in View(d) && IsFile(d, f)
    ensures f in Contents(d) && Contents(d)[f] == d.objs[f].node.content
    ensures Contents(Written(d, f, content)) == Contents(d)[f := content]
  {
    WrittenView(d, f, content);
  }

  /** A COMMIT that is left alone changes the tree in the content of its file and nothing else,
      and to the contents it does what COMMIT does in the write protocol. */
  lemma CommitIsHandleCommit(d: Disk, f: Fid, s: P.Server)
    requires TreeInv(d) && f in View(d) && IsFile(d, f) && s.files == Contents(d)
    ensures var o := CommitThrough(d, f, P.Pending(s, f), [], []);
      && o.InPlace? && f in s.files
      && View(o.disk) == View(d)[f := View(d)[f].(node := File(D.Virtual(s, f)))]
      && Contents(o.disk) == P.HandleCommit(s, f).files
  {
    var content := ApplyAll(d.objs[f].node.content, P.Pending(s, f));
    LinkedIsLive(d, f);
    AloneInPlace(d, f, P.Pending(s, f));
    WrittenView(d, f, content);
    WrittenContents(d, f, content);
    CommittedContents(s, f, content);
  }

  lemma CommittedContents(s: P.Server, f: Fid, content: Bytes)
    requires f in s.files && content == ApplyAll(s.files[f], P.Pending(s, f))
    ensures P.HandleCommit(s, f).files == s.files[f := content] && content == D.Virtual(s, f)
  {
    D.CommitIsVirtual(s, f);
  }

  lemma AloneInPlace(d: Disk, f: Fid, ws: seq<Write>)
    requires Rooted(d) && Live(d, f) && IsFile(d, f)
    ensures CommitThrough(d, f, ws, [], []) == InPlace(Written(d, f, ApplyAll(d.objs[f].node.content, ws)))
  {
    PathResolves(d, PathTo(d, f));
    PathShape(d, PathTo(d, f));
    PrefixResolves(d, PathTo(d, f));
    assert Exec(d, []) == d;
  }
}
