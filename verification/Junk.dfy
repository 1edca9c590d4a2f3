/** What junk left by crashes can do: exactly which requests are answered otherwise, or show
    another tree, than on a disk from which all junk has been swept. */
module Junk {
  import opened Content
  import opened Namespace
  import opened CrashAtomicity
  import opened ServerRuns
  import opened NameRuns

  /** The disk without junk: linked numbered files, and named files beside their numbered file. */
  function Swept(d: Disk): Disk {
    Disk(map f | f in d.objs && (f == ROOT || Linked(d, f)) :: d.objs[f], set x | x in d.names && Paired(d, x))
  }

  // ---------- What sweeping keeps ----------

  lemma SweptPairs(d: Disk, x: Named)
    ensures x in d.names && Paired(d, x) <==> x in Swept(d).names && Paired(Swept(d), x)
  {
    if x in d.names && Paired(d, x) {
      assert Linked(d, x.fid);
    }
  }

  lemma SweptLinks(d: Disk, f: Fid)
    ensures Linked(Swept(d), f) <==> Linked(d, f)
  {
    if Linked(d, f) {
      var x :| x in d.names && x.fid == f && Paired(d, x);
      SweptPairs(d, x);
    }
    if Linked(Swept(d), f) {
      var x :| x in Swept(d).names && x.fid == f && Paired(Swept(d), x);
      SweptPairs(d, x);
    }
  }

  lemma SweptView(d: Disk)
    ensures View(Swept(d)) == View(d)
  {
    forall f | f in d.objs && Linked(d, f) ensures Linked(Swept(d), f) && Names(Swept(d), f) == Names(d, f) {
      SweptLinks(d, f);
      forall n ensures n in Names(Swept(d), f) <==> n in Names(d, f) {
        NamesAt(d, f, n);
        NamesAt(Swept(d), f, n);
        SweptPairs(d, Named(d.objs[f].parent, f, n));
      }
    }
    forall f | f in Swept(d).objs && Linked(Swept(d), f) ensures Linked(d, f) {
      SweptLinks(d, f);
    }
  }

  lemma SweptPaths(d: Disk, p: Path)
    requires Rooted(d)
    ensures Rooted(Swept(d)) && (IsPath(Swept(d), p) <==> IsPath(d, p))
  {
    forall a, b ensures Edge(Swept(d), a, b) ==> Edge(d, a, b) {
      SweptLinks(d, b);
    }
    if IsPath(d, p) {
      forall i | 0 < i < |p| ensures Edge(Swept(d), p[i - 1], p[i]) {
        assert Edge(d, p[i - 1], p[i]);
        SweptLinks(d, p[i]);
        if i > 1 {
          assert Edge(d, p[i - 1 - 1], p[i - 1]);
        }
      }
    }
  }

  lemma SweptLive(d: Disk, f: Fid)
    requires Rooted(d)
    ensures Live(Swept(d), f) <==> Live(d, f)
    ensures Live(d, f) ==> PathTo(Swept(d), f) == PathTo(d, f) && (IsDir(Swept(d), f) <==> IsDir(d, f))
  {
    SweptPaths(d, []);
    if Live(d, f) {
      SweptPaths(d, PathTo(d, f));
      PathUnique(Swept(d), PathTo(Swept(d), f), PathTo(d, f));
      PathShape(d, PathTo(d, f));
    }
    if Live(Swept(d), f) {
      SweptPaths(d, PathTo(Swept(d), f));
    }
  }

  lemma SweptCalled(d: Disk, x: Named, dir: Fid, name: Name)
    ensures Called(Swept(d), x, dir, name) <==> Called(d, x, dir, name)
    ensures Called(d, x, dir, name) ==> (IsDir(Swept(d), x.fid) <==> IsDir(d, x.fid))
  {
    SweptPairs(d, x);
  }

  lemma SweptTaken(d: Disk, dir: Fid, name: Name)
    ensures Taken(Swept(d), dir, name) <==> Taken(d, dir, name)
  {
    forall x ensures Called(Swept(d), x, dir, name) <==> Called(d, x, dir, name) {
      SweptCalled(d, x, dir, name);
    }
    if Taken(d, dir, name) {
      var x :| x in d.names && x.dir == dir && x.name == name && Paired(d, x);
      assert Called(d, x, dir, name);
    }
    if Taken(Swept(d), dir, name) {
      var x :| x in Swept(d).names && x.dir == dir && x.name == name && Paired(Swept(d), x);
      assert Called(Swept(d), x, dir, name);
    }
  }

  /** No file of the tree is in the directory. */
  predicate ShowsEmpty(d: Disk, dir: Fid) {
    forall f | f in View(d) :: View(d)[f].parent != dir
  }

  lemma SweptEmpty(d: Disk, dir: Fid)
    requires Rooted(d) && dir != 0
    ensures Empty(Swept(d), dir) <==> ShowsEmpty(d, dir)
    ensures Empty(d, dir) ==> ShowsEmpty(d, dir)
  {
    if ShowsEmpty(d, dir) {
      forall x | x in Swept(d).names ensures x.dir != dir {
        assert Linked(d, x.fid);
        assert x.fid != ROOT ==> x.fid in View(d);
      }
      assert forall f | f in Swept(d).objs :: f == ROOT || f in View(d);
    }
  }

  // ---------- What junk changes ----------

  /** RMDIR of what shows as an empty directory is refused, although the tree holds nothing in it; or
      a RENAME across directories has brought the file to where leftover names of it are waiting. */
  ghost predicate JunkMatters(d: Disk, rpc: Rpc, reply: Reply, k: nat) {
    match rpc
    case Unmake(dir, name, isFile) =>
      && !isFile && reply == Fail(NOTEMPTY)
      && forall x | Called(d, x, dir, name) && IsDir(d, x.fid) :: ShowsEmpty(d, x.fid)
    case Rename(od, _, nd, nn) => reply.Done? && od != nd && k >= 2 && Leftovers(d, reply.fid, nd, nn) != {}
    case _ => false
  }

  /** A decision and its first k steps, as they are on the swept disk. */
  ghost predicate AsSwept(d: Disk, next: Fid, rpc: Rpc, plan: seq<DiskStep>, reply: Reply, k: nat)
    requires k <= |plan|
  {
    Decides(Swept(d), next, rpc, plan, reply) && View(After(Swept(d), plan, k)) == View(After(d, plan, k))
  }

  lemma SweptAsserted(d: Disk, rpc: Rpc)
    requires Rooted(d)
    ensures Asserted(Swept(d), rpc) <==> Asserted(d, rpc)
  {
    match rpc
    case Make(dir, _, _) => SweptLive(d, dir);
    case Unmake(dir, _, _) => SweptLive(d, dir);
    case Rename(od, on, nd, _) =>
      SweptLive(d, od);
      SweptLive(d, nd);
      SweptTaken(d, od, on);
    case Lookup(dir, _) => SweptLive(d, dir);
  }

  /** What REMOVE and RMDIR decide about one file they may have found. */
  lemma SweptUnmake(d: Disk, dir: Fid, name: Name, isFile: bool, x: Named, plan: seq<DiskStep>, reply: Reply)
    requires Rooted(d) && Called(d, x, dir, name)
    ensures reply != Fail(NOTEMPTY) && DecidesUnmake(d, dir, name, isFile, x.fid, plan, reply)
      ==> DecidesUnmake(Swept(d), dir, name, isFile, x.fid, plan, reply)
    ensures DecidesUnmake(Swept(d), dir, name, isFile, x.fid, [], Fail(NOTEMPTY))
      <==> !isFile && IsDir(d, x.fid) && !ShowsEmpty(d, x.fid)
  {
    SweptCalled(d, x, dir, name);
    SweptEmpty(d, x.fid);
  }

  lemma SweptDecidesUnmake(d: Disk, next: Fid, dir: Fid, name: Name, isFile: bool, plan: seq<DiskStep>, reply: Reply)
    requires Rooted(d) && Decides(d, next, Unmake(dir, name, isFile), plan, reply)
    ensures Decides(Swept(d), next, Unmake(dir, name, isFile), plan, reply) <==>
      !JunkMatters(d, Unmake(dir, name, isFile), reply, 0)
  {
    SweptLive(d, dir);
    SweptTaken(d, dir, name);
    forall x ensures Called(Swept(d), x, dir, name) <==> Called(d, x, dir, name) {
      SweptCalled(d, x, dir, name);
    }
    if Live(d, dir) && IsDir(d, dir) && Taken(d, dir, name) {
      forall x | Called(d, x, dir, name)
        ensures reply != Fail(NOTEMPTY) && DecidesUnmake(d, dir, name, isFile, x.fid, plan, reply)
          ==> DecidesUnmake(Swept(d), dir, name, isFile, x.fid, plan, reply)
        ensures DecidesUnmake(Swept(d), dir, name, isFile, x.fid, [], Fail(NOTEMPTY))
          <==> !isFile && IsDir(d, x.fid) && !ShowsEmpty(d, x.fid)
      {
        SweptUnmake(d, dir, name, isFile, x, plan, reply);
      }
      var x0 :| Called(d, x0, dir, name) && DecidesUnmake(d, dir, name, isFile, x0.fid, plan, reply);
      if reply == Fail(NOTEMPTY) && !JunkMatters(d, Unmake(dir, name, isFile), reply, 0) {
        var x :| Called(d, x, dir, name) && IsDir(d, x.fid) && !ShowsEmpty(d, x.fid);
        assert DecidesUnmake(Swept(d), dir, name, isFile, x.fid, plan, reply);
      }
    }
  }

  lemma SweptDecidesRename(d: Disk, next: Fid, od: Fid, on: Name, nd: Fid, nn: Name, plan: seq<DiskStep>, reply: Reply)
    requires Rooted(d) && Decides(d, next, Rename(od, on, nd, nn), plan, reply)
    ensures Decides(Swept(d), next, Rename(od, on, nd, nn), plan, reply)
  {
    SweptLive(d, od);
    SweptLive(d, nd);
    SweptTaken(d, od, on);
    SweptTaken(d, nd, nn);
    if Live(d, od) && Live(d, nd) && Taken(d, od, on) {
      var x :| Called(d, x, od, on) && DecidesRename(d, x.fid, od, on, nd, nn, plan, reply);
      SweptCalled(d, x, od, on);
      assert DecidesRename(Swept(d), x.fid, od, on, nd, nn, plan, reply);
    }
  }

  lemma SweptDecides(d: Disk, next: Fid, rpc: Rpc, plan: seq<DiskStep>, reply: Reply)
    requires Rooted(d) && Decides(d, next, rpc, plan, reply)
    ensures Decides(Swept(d), next, rpc, plan, reply) <==> !(rpc.Unmake? && JunkMatters(d, rpc, reply, 0))
  {
    match rpc
    case Make(dir, name, _) =>
      SweptLive(d, dir);
      SweptTaken(d, dir, name);
    case Unmake(dir, name, isFile) => SweptDecidesUnmake(d, next, dir, name, isFile, plan, reply);
    case Rename(od, on, nd, nn) => SweptDecidesRename(d, next, od, on, nd, nn, plan, reply);
    case Lookup(dir, name) =>
      SweptLive(d, dir);
      SweptTaken(d, dir, name);
      forall x ensures Called(Swept(d), x, dir, name) <==> Called(d, x, dir, name) {
        SweptCalled(d, x, dir, name);
      }
  }

  // ---------- The trees that show ----------

  lemma SweptRename(d: Disk, f: Fid, od: Fid, on: Name, nd: Fid, nn: Name, k: nat)
    requires Renamable(d, f, od, on, nd, nn) && k <= 3
    ensures var plan := RenamePlan(f, od, on, nd, nn);
      View(After(Swept(d), plan, k)) == View(After(d, plan, k)) <==>
        !(od != nd && k >= 2 && Leftovers(d, f, nd, nn) != {})
  {
    var plan := RenamePlan(f, od, on, nd, nn);
    var e := Swept(d);
    SweptPairs(d, Named(od, f, on));
    SweptPairs(d, Named(nd, f, nn));
    SweptView(d);
    RenameShows(d, f, od, on, nd, nn, k);
    RenameShows(e, f, od, on, nd, nn, k);
    assert Names(d, f) == View(d)[f].names && Names(e, f) == View(e)[f].names;
    if od != nd {
      assert Leftovers(e, f, nd, nn) == {};
      forall n ensures n in Leftovers(d, f, nd, nn) ==> n != nn {
        LeftoversAt(d, f, nd, nn, n);
      }
      assert View(After(e, plan, k))[f].names == RenamedNames(e, f, od, on, nd, nn, k);
      assert View(After(d, plan, k))[f].names == RenamedNames(d, f, od, on, nd, nn, k);
      assert {nn} + Leftovers(d, f, nd, nn) == {nn} <==> Leftovers(d, f, nd, nn) == {};
    }
  }

  lemma SweptMake(d: Disk, dir: Fid, f: Fid, name: Name, node: Node, k: nat)
    requires Unused(d, f) && f != ROOT && k <= 2
    ensures View(After(Swept(d), CreatePlan(dir, f, name, node), k)) ==
      View(After(d, CreatePlan(dir, f, name, node), k))
  {
    SweptView(d);
    CreateAtomic(d, dir, f, name, node, k);
    CreateAtomic(Swept(d), dir, f, name, node, k);
  }

  lemma SweptRemove(d: Disk, dir: Fid, f: Fid, name: Name, k: nat)
    requires Paired(d, Named(dir, f, name)) && f != ROOT && k <= 2
    ensures View(After(Swept(d), RemovePlan(dir, f, name), k)) == View(After(d, RemovePlan(dir, f, name), k))
  {
    SweptPairs(d, Named(dir, f, name));
    SweptView(d);
    RemoveAtomic(d, dir, f, name, k);
    RemoveAtomic(Swept(d), dir, f, name, k);
  }

  lemma SweptRefused(d: Disk, f: Fid, od: Fid, on: Name, nd: Fid, nn: Name, k: nat)
    requires Renamable(d, f, od, on, nd, nn) && od != nd && k <= 1
    ensures View(After(Swept(d), [AddNamed(Named(nd, f, nn))], k)) == View(After(d, [AddNamed(Named(nd, f, nn))], k))
  {
    var plan := [AddNamed(Named(nd, f, nn))];
    SweptPairs(d, Named(od, f, on));
    SweptView(d);
    AfterStep(d, plan, 0);
    AfterStep(Swept(d), plan, 0);
    NewNameHidden(d, f, nd, nn);
    NewNameHidden(Swept(d), f, nd, nn);
  }

  lemma SweptShows(d: Disk, next: Fid, rpc: Rpc, plan: seq<DiskStep>, reply: Reply, k: nat)
    requires TreeInv(d) && FreshAbove(d, next) && Asserted(d, rpc) && Decides(d, next, rpc, plan, reply) && k <= |plan|
    ensures View(After(Swept(d), plan, k)) == View(After(d, plan, k)) <==>
      !(rpc.Rename? && JunkMatters(d, rpc, reply, k))
  {
    if plan == [] {
      assert plan[..k] == [];
      SweptView(d);
    } else if rpc.Make? {
      SweptMake(d, rpc.dir, next, rpc.name, NewNode(rpc.isFile), k);
    } else {
      var f := FoundFile(d, next, rpc, plan, reply);
      if rpc.Unmake? {
        SweptRemove(d, rpc.dir, f, rpc.name, k);
      } else if reply.Fail? {
        SweptRefused(d, f, rpc.od, rpc.on, rpc.nd, rpc.nn, k);
      } else {
        SweptRename(d, f, rpc.od, rpc.on, rpc.nd, rpc.nn, k);
      }
    }
  }

  /** The exact reach of junk: every decision, and the tree after any number of its disk steps, is the
      same on the swept disk, unless the request is an RMDIR refused because of junk alone, or a
      RENAME across directories that has moved its file to where leftovers of it are waiting. */
  lemma JunkExactly(d: Disk, next: Fid, rpc: Rpc, plan: seq<DiskStep>, reply: Reply, k: nat)
    requires TreeInv(d) && FreshAbove(d, next) && Asserted(d, rpc) && Decides(d, next, rpc, plan, reply) && k <= |plan|
    ensures AsSwept(d, next, rpc, plan, reply, k) <==> !JunkMatters(d, rpc, reply, k)
  {
    SweptDecides(d, next, rpc, plan, reply);
    SweptShows(d, next, rpc, plan, reply, k);
  }
}
