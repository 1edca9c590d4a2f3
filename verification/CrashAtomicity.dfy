/** What a crash between two disk steps of an operation can show: the logical tree, the plans
    of the operations, and exactly when they are atomic. */
module CrashAtomicity {
  import opened Content
  import opened Namespace

  /** A file of the logical tree: its directory, its names there, and its kind and content. */
  datatype Entry = Entry(parent: Fid, names: set<Name>, node: Node)

  function Names(d: Disk, f: Fid): set<Name> {
    set x | x in d.names && x.fid == f && Paired(d, x) :: x.name
  }

  /** The logical tree: all linked files below the root. Junk does not show. */
  function View(d: Disk): map<Fid, Entry> {
    map f | f in d.objs && f != ROOT && Linked(d, f) :: Entry(d.objs[f].parent, Names(d, f), d.objs[f].node)
  }

  lemma NamesAt(d: Disk, f: Fid, n: Name)
    requires f in d.objs
    ensures n in Names(d, f) <==> Named(d.objs[f].parent, f, n) in d.names
  {
    if Named(d.objs[f].parent, f, n) in d.names {
      assert Paired(d, Named(d.objs[f].parent, f, n));
    }
  }

  lemma LinkedAt(d: Disk, f: Fid)
    requires f in d.objs
    ensures Linked(d, f) <==> Names(d, f) != {}
  {
    if Linked(d, f) {
      var x :| x in d.names && x.fid == f && Paired(d, x);
      assert x.name in Names(d, f);
    }
  }

  /** Two disks show the same file if its place, its names there and its content agree. */
  lemma SameFile(d: Disk, d': Disk, f: Fid)
    requires f in d.objs <==> f in d'.objs
    requires f in d.objs ==>
      && d'.objs[f] == d.objs[f]
      && forall n :: Named(d.objs[f].parent, f, n) in d.names <==> Named(d.objs[f].parent, f, n) in d'.names
    ensures f in View(d) <==> f in View(d')
    ensures f in View(d) ==> View(d)[f] == View(d')[f]
  {
    if f in d.objs {
      forall n ensures n in Names(d, f) <==> n in Names(d', f) {
        NamesAt(d, f, n);
        NamesAt(d', f, n);
      }
      assert Names(d, f) == Names(d', f);
      LinkedAt(d, f);
      LinkedAt(d', f);
    }
  }

  // ---------- The plans of the operations ----------

  function CreatePlan(dir: Fid, f: Fid, name: Name, node: Node): seq<DiskStep> {
    [AddNumbered(f, dir, node), AddNamed(Named(dir, f, name))]
  }

  function RemovePlan(dir: Fid, f: Fid, name: Name): seq<DiskStep> {
    [DelNumbered(f), DelNamed(Named(dir, f, name))]
  }

  function RenamePlan(f: Fid, od: Fid, on: Name, nd: Fid, nn: Name): seq<DiskStep> {
    [AddNamed(Named(nd, f, nn)), Move(f, nd), DelNamed(Named(od, f, on))]
  }

  /** The disk after the first k steps of a plan. */
  function After(d: Disk, plan: seq<DiskStep>, k: nat): Disk
    requires k <= |plan|
  {
    Exec(d, plan[..k])
  }

  lemma {:induction false} ExecSnoc(d: Disk, plan: seq<DiskStep>, s: DiskStep)
    ensures Exec(d, plan + [s]) == Do(Exec(d, plan), s)
    decreases plan
  {
    if plan == [] {
      assert [s][1..] == [];
    } else {
      assert (plan + [s])[1..] == plan[1..] + [s];
      ExecSnoc(Do(d, plan[0]), plan[1..], s);
    }
  }

  lemma AfterStep(d: Disk, plan: seq<DiskStep>, k: nat)
    requires k < |plan|
    ensures After(d, plan, 0) == d
    ensures After(d, plan, k + 1) == Do(After(d, plan, k), plan[k])
  {
    assert plan[..0] == [] && plan[..k + 1] == plan[..k] + [plan[k]];
    ExecSnoc(d, plan[..k], plan[k]);
  }

  lemma ExecTwo(d: Disk, s0: DiskStep, s1: DiskStep)
    ensures Exec(d, [s0, s1]) == Do(Do(d, s0), s1)
  {
    assert [s0, s1][1..] == [s1];
    assert Exec(Do(d, s0), [s1]) == Exec(Do(Do(d, s0), s1), []);
  }

  lemma ExecThree(d: Disk, s0: DiskStep, s1: DiskStep, s2: DiskStep)
    ensures Exec(d, [s0, s1, s2]) == Do(Do(Do(d, s0), s1), s2)
  {
    assert [s0, s1, s2][1..] == [s1, s2];
    ExecTwo(Do(d, s0), s1, s2);
  }

  /** Fids are never handed out twice, so that nobody creates this file again. */
  predicate NoNew(steps: seq<DiskStep>, f: Fid) {
    forall s | s in steps :: s.AddNumbered? ==> s.fid != f
  }

  /** Operations move and remove files; they do not change what they are and what is in them. */
  lemma {:induction false} ContentKept(d: Disk, steps: seq<DiskStep>, f: Fid)
    requires NoNew(steps, f)
    ensures f in Exec(d, steps).objs ==> f in d.objs && Exec(d, steps).objs[f].node == d.objs[f].node
    decreases steps
  {
    if steps == [] {
    } else {
      assert steps[0] in steps;
      ContentKept(Do(d, steps[0]), steps[1..], f);
    }
  }

  /** No trace of the fid on disk: what the persistent counter guarantees for a new one. */
  predicate Unused(d: Disk, f: Fid) {
    f !in d.objs && forall x | x in d.names :: x.fid != f
  }

  /** CREATE and MKDIR: at every step the tree is the old one or the old one plus the file. */
  lemma CreateAtomic(d: Disk, dir: Fid, f: Fid, name: Name, node: Node, k: nat)
    requires Unused(d, f) && f != ROOT && k <= 2
    ensures View(After(d, CreatePlan(dir, f, name, node), k)) ==
      if k < 2 then View(d) else View(d)[f := Entry(dir, {name}, node)]
  {
    var plan := CreatePlan(dir, f, name, node);
    AfterStep(d, plan, 0);
    AfterStep(d, plan, 1);
    var d' := After(d, plan, k);
    assert d' == [d, Do(d, plan[0]), Do(Do(d, plan[0]), plan[1])][k];
    forall g | g != f ensures (g in View(d') <==> g in View(d)) && (g in View(d) ==> View(d')[g] == View(d)[g]) {
      SameFile(d, d', g);
    }
    assert f !in View(d);
    if k == 1 {
      assert !Linked(d', f);
    } else if k == 2 {
      assert Paired(d', Named(dir, f, name));
      assert Names(d', f) == {name};
    }
  }

  /** REMOVE and RMDIR: the first step takes the file out of the tree, the second tidies up. */
  lemma RemoveAtomic(d: Disk, dir: Fid, f: Fid, name: Name, k: nat)
    requires f in d.objs && f != ROOT && k <= 2
    ensures View(After(d, RemovePlan(dir, f, name), k)) == if k == 0 then View(d) else View(d) - {f}
  {
    var plan := RemovePlan(dir, f, name);
    AfterStep(d, plan, 0);
    AfterStep(d, plan, 1);
    var d' := After(d, plan, k);
    assert d' == [d, Do(d, plan[0]), Do(Do(d, plan[0]), plan[1])][k];
    forall g | g != f ensures (g in View(d') <==> g in View(d)) && (g in View(d) ==> View(d')[g] == View(d)[g]) {
      SameFile(d, d', g);
    }
  }

  // ---------- RENAME ----------

  /** What RENAME has found when it starts to change the disk: the file is in the old directory under the old name,
      and nothing is there under the new name. */
  predicate Renamable(d: Disk, f: Fid, od: Fid, on: Name, nd: Fid, nn: Name) {
    && f != ROOT && Paired(d, Named(od, f, on))
    && !Paired(d, Named(nd, f, nn))
  }

  /** The disk after k steps of a rename, spelled out. */
  lemma RenameSteps(d: Disk, f: Fid, od: Fid, on: Name, nd: Fid, nn: Name, k: nat)
    requires Renamable(d, f, od, on, nd, nn) && k <= 3
    ensures var d' := After(d, RenamePlan(f, od, on, nd, nn), k);
      && d'.names ==
           (if k == 0 then d.names else d.names + {Named(nd, f, nn)}) - (if k < 3 then {} else {Named(od, f, on)})
      && d'.objs == if k < 2 then d.objs else d.objs[f := Obj(nd, d.objs[f].node)]
  {
    var plan := RenamePlan(f, od, on, nd, nn);
    AfterStep(d, plan, 0);
    AfterStep(d, plan, 1);
    AfterStep(d, plan, 2);
  }

  /** Names of the file waiting in the destination, left there by an interrupted rename. */
  function Leftovers(d: Disk, f: Fid, nd: Fid, nn: Name): set<Name> {
    set x | x in d.names && x.fid == f && x.dir == nd && x.name != nn :: x.name
  }

  lemma LeftoversAt(d: Disk, f: Fid, nd: Fid, nn: Name, n: Name)
    ensures n in Leftovers(d, f, nd, nn) <==> n != nn && Named(nd, f, n) in d.names
  {
    if n != nn && Named(nd, f, n) in d.names {
      assert Named(nd, f, n).name in Leftovers(d, f, nd, nn);
    }
  }

  /** The names under which the file shows after k steps. */
  function RenamedNames(d: Disk, f: Fid, od: Fid, on: Name, nd: Fid, nn: Name, k: nat): set<Name> {
    if od != nd then if k < 2 then Names(d, f) else {nn} + Leftovers(d, f, nd, nn)
    else (if k == 0 then Names(d, f) else Names(d, f) + {nn}) - (if k < 3 then {} else {on})
  }

  lemma RenamedNamesShow(d: Disk, f: Fid, od: Fid, on: Name, nd: Fid, nn: Name, k: nat)
    requires Renamable(d, f, od, on, nd, nn) && k <= 3
    ensures var d' := After(d, RenamePlan(f, od, on, nd, nn), k);
      f in d'.objs && Names(d', f) == RenamedNames(d, f, od, on, nd, nn, k)
  {
    var d' := After(d, RenamePlan(f, od, on, nd, nn), k);
    RenameSteps(d, f, od, on, nd, nn, k);
    forall n ensures n in Names(d', f) <==> n in RenamedNames(d, f, od, on, nd, nn, k) {
      NamesAt(d, f, n);
      NamesAt(d', f, n);
      LeftoversAt(d, f, nd, nn, n);
    }
  }

  lemma RenameSpares(d: Disk, f: Fid, od: Fid, on: Name, nd: Fid, nn: Name, k: nat, g: Fid)
    requires Renamable(d, f, od, on, nd, nn) && k <= 3 && g != f
    ensures var v, v' := View(d), View(After(d, RenamePlan(f, od, on, nd, nn), k));
      (g in v' <==> g in v) && (g in v ==> v'[g] == v[g])
  {
    RenameSteps(d, f, od, on, nd, nn, k);
    SameFile(d, After(d, RenamePlan(f, od, on, nd, nn), k), g);
  }

  /** Every disk step of any rename keeps all files, their contents and everybody else's name
      and place; the file itself shows, under these names, in the old directory before the
      move and in the new one after it. */
  lemma RenameShows(d: Disk, f: Fid, od: Fid, on: Name, nd: Fid, nn: Name, k: nat)
    requires Renamable(d, f, od, on, nd, nn) && k <= 3
    ensures f in View(d)
    ensures View(After(d, RenamePlan(f, od, on, nd, nn), k)) ==
      View(d)[f := Entry(if k < 2 then od else nd, RenamedNames(d, f, od, on, nd, nn, k), d.objs[f].node)]
  {
    var d' := After(d, RenamePlan(f, od, on, nd, nn), k);
    RenameSteps(d, f, od, on, nd, nn, k);
    RenamedNamesShow(d, f, od, on, nd, nn, k);
    forall g | g != f ensures (g in View(d') <==> g in View(d)) && (g in View(d) ==> View(d')[g] == View(d)[g]) {
      RenameSpares(d, f, od, on, nd, nn, k, g);
    }
    NamesAt(d, f, on);
    NamesAt(d', f, if k < 2 then on else nn);
    LinkedAt(d, f);
    LinkedAt(d', f);
  }

  /** Rename conserves files: at every disk step, the same files with the same contents are
      there, only the moved file may change its name and place, and it keeps one of the two. */
  lemma RenameConserves(d: Disk, f: Fid, od: Fid, on: Name, nd: Fid, nn: Name, k: nat)
    requires Renamable(d, f, od, on, nd, nn) && k <= 3
    ensures var v, v' := View(d), View(After(d, RenamePlan(f, od, on, nd, nn), k));
      && v'.Keys == v.Keys
      && (forall g | g in v :: v'[g].node == v[g].node && (g != f ==> v'[g] == v[g]))
      && ((v'[f].parent == od && on in v'[f].names) || (v'[f].parent == nd && nn in v'[f].names))
  {
    RenameShows(d, f, od, on, nd, nn, k);
    NamesAt(d, f, on);
    assert on == nn ==> od != nd;
  }

  /** What a rename is meant to do: the file leaves its old name and place for the new ones. */
  function RenamedView(d: Disk, f: Fid, nd: Fid, nn: Name): map<Fid, Entry>
    requires f in d.objs
  {
    View(d)[f := Entry(nd, {nn}, d.objs[f].node)]
  }

  /** Rename is crash-atomic exactly between different directories and without leftover names
      of the file in the destination. */
  lemma RenameAtomicExactly(d: Disk, f: Fid, od: Fid, on: Name, nd: Fid, nn: Name)
    requires Renamable(d, f, od, on, nd, nn)
    ensures (forall k: nat | k <= 3 ::
               var v := View(After(d, RenamePlan(f, od, on, nd, nn), k));
               v == View(d) || v == RenamedView(d, f, nd, nn))
      <==> od != nd && Leftovers(d, f, nd, nn) == {}
  {
    var plan := RenamePlan(f, od, on, nd, nn);
    forall k: nat | k <= 3
      ensures View(After(d, plan, k)) ==
        View(d)[f := Entry(if k < 2 then od else nd, RenamedNames(d, f, od, on, nd, nn, k), d.objs[f].node)]
    {
      RenameShows(d, f, od, on, nd, nn, k);
    }
    NamesAt(d, f, on);
    NamesAt(d, f, nn);
    assert View(d)[f] == Entry(od, Names(d, f), d.objs[f].node);
    if od != nd && Leftovers(d, f, nd, nn) == {} {
      assert {nn} + Leftovers(d, f, nd, nn) == {nn};
    } else {
      var k: nat := if od == nd then 1 else 2;
      var v := View(After(d, plan, k));
      assert v[f].names == RenamedNames(d, f, od, on, nd, nn, k);
      if od != nd {
        var n :| n in Leftovers(d, f, nd, nn);
        LeftoversAt(d, f, nd, nn, n);
      }
    }
  }

  // ---------- One name, one file ----------

  /** No directory shows one name for two files. */
  predicate UniqueNames(d: Disk) {
    forall x, y | x in d.names && y in d.names && Paired(d, x) && Paired(d, y) && x.dir == y.dir && x.name == y.name ::
      x.fid == y.fid
  }

  /** The name is in use in the directory, by some file or by a file other than f. */
  predicate Taken(d: Disk, dir: Fid, name: Name) {
    exists x | x in d.names :: x.dir == dir && x.name == name && Paired(d, x)
  }

  predicate TakenByOther(d: Disk, dir: Fid, name: Name, f: Fid) {
    exists x | x in d.names :: x.dir == dir && x.name == name && Paired(d, x) && x.fid != f
  }

  /** The names of the file that wait in the destination are not in use there by others. */
  predicate LeftoversFree(d: Disk, f: Fid, nd: Fid, nn: Name) {
    forall n | n in Leftovers(d, f, nd, nn) :: !TakenByOther(d, nd, n, f)
  }

  lemma FewerPairs(d: Disk, d': Disk)
    requires UniqueNames(d) && forall x | x in d'.names && Paired(d', x) :: Paired(d, x)
    ensures UniqueNames(d')
  {}

  lemma RenamePairs(d: Disk, f: Fid, od: Fid, on: Name, nd: Fid, nn: Name, k: nat, x: Named)
    requires Renamable(d, f, od, on, nd, nn) && k <= 3
    requires x in After(d, RenamePlan(f, od, on, nd, nn), k).names &&
      Paired(After(d, RenamePlan(f, od, on, nd, nn), k), x)
    ensures Paired(d, x) ||
      (x.fid == f && x.dir == nd && (x.name == nn || (od != nd && k >= 2 && x.name in Leftovers(d, f, nd, nn))))
    ensures x.fid == f && od != nd && k >= 2 ==> x.dir == nd
  {
    RenameSteps(d, f, od, on, nd, nn, k);
    LeftoversAt(d, f, nd, nn, x.name);
  }

  /** A rename to a free name keeps names unique, at every step, exactly if it stays in the
      directory, or has not moved the file yet, or no leftover of the file in the destination
      clashes with a name in use there. */
  lemma RenameUniqueExactly(d: Disk, f: Fid, od: Fid, on: Name, nd: Fid, nn: Name, k: nat)
    requires Renamable(d, f, od, on, nd, nn) && UniqueNames(d) && !Taken(d, nd, nn) && k <= 3
    ensures UniqueNames(After(d, RenamePlan(f, od, on, nd, nn), k))
      <==> od == nd || k < 2 || LeftoversFree(d, f, nd, nn)
  {
    var d' := After(d, RenamePlan(f, od, on, nd, nn), k);
    if od != nd && k >= 2 && !LeftoversFree(d, f, nd, nn) {
      var n :| n in Leftovers(d, f, nd, nn) && TakenByOther(d, nd, n, f);
      var x :| x in d.names && x.dir == nd && x.name == n && Paired(d, x) && x.fid != f;
      LeftoversAt(d, f, nd, nn, n);
      RenameSteps(d, f, od, on, nd, nn, k);
      assert Paired(d', x) && Paired(d', Named(nd, f, n));
    } else {
      forall x, y | x in d'.names && y in d'.names && Paired(d', x) && Paired(d', y) && x.dir == y.dir &&
        x.name == y.name && x.fid == f
        ensures y.fid == f
      {
        RenamePairs(d, f, od, on, nd, nn, k, x);
        RenamePairs(d, f, od, on, nd, nn, k, y);
        if y.fid != f && !Paired(d, x) {
          assert x.name == nn ==> Taken(d, nd, nn);
          assert x.name != nn ==> TakenByOther(d, nd, x.name, f);
        }
      }
      forall x | x in d'.names && Paired(d', x) && x.fid != f ensures Paired(d, x) {
        RenamePairs(d, f, od, on, nd, nn, k, x);
      }
    }
  }

  /** Creating a file under a free name keeps names unique. */
  lemma CreateUnique(d: Disk, dir: Fid, f: Fid, name: Name, node: Node)
    requires UniqueNames(d) && Unused(d, f) && !Taken(d, dir, name)
    ensures UniqueNames(After(d, CreatePlan(dir, f, name, node), 2))
  {
    var plan := CreatePlan(dir, f, name, node);
    AfterStep(d, plan, 0);
    AfterStep(d, plan, 1);
    var d' := After(d, plan, 2);
    forall x | x in d'.names && Paired(d', x) ensures x == Named(dir, f, name) || Paired(d, x) {
      assert x.fid != f ==> x in d.names;
    }
  }
}
