/** Names over whole runs with crashes: when they stay unique, and runs from an empty disk in
    which they do not. */
module NameRuns {
  import opened Content
  import opened Namespace
  import opened CrashAtomicity
  import opened ServerRuns

  /** An answered rename, or one that crashed after its move, brought the file into a directory
      where a leftover name of it is in use by another file. */
  predicate Clashes(d: Disk, t: Step) {
    && t.rpc.Rename? && t.reply.Done? && t.rpc.od != t.rpc.nd && (t.Crash? ==> t.k >= 2)
    && !LeftoversFree(d, t.reply.fid, t.rpc.nd, t.rpc.nn)
  }

  lemma MakeUnique(d: Disk, dir: Fid, f: Fid, name: Name, node: Node, k: nat)
    requires UniqueNames(d) && Unused(d, f) && !Taken(d, dir, name) && k <= 2
    ensures UniqueNames(After(d, CreatePlan(dir, f, name, node), k))
  {
    var plan := CreatePlan(dir, f, name, node);
    AfterStep(d, plan, 0);
    AfterStep(d, plan, 1);
    if k == 2 {
      CreateUnique(d, dir, f, name, node);
    } else {
      FewerPairs(d, After(d, plan, k));
    }
  }

  lemma UnmakeUnique(d: Disk, dir: Fid, f: Fid, name: Name, k: nat)
    requires UniqueNames(d) && k <= 2
    ensures UniqueNames(After(d, RemovePlan(dir, f, name), k))
  {
    var plan := RemovePlan(dir, f, name);
    AfterStep(d, plan, 0);
    AfterStep(d, plan, 1);
    FewerPairs(d, After(d, plan, k));
  }

  lemma RenameUnique(s: State, t: Step, s': State)
    requires ServerInv(s) && Next(s, t, s') && UniqueNames(s.disk) && t.rpc.Rename? && t.plan != []
    ensures UniqueNames(s'.disk) <==> !Clashes(s.disk, t)
  {
    var k := if t.Answer? then |t.plan| else t.k;
    assert t.plan[..|t.plan|] == t.plan;
    var f := FoundFile(s.disk, s.next, t.rpc, t.plan, t.reply);
    if t.reply.Done? {
      RenameUniqueExactly(s.disk, f, t.rpc.od, t.rpc.on, t.rpc.nd, t.rpc.nn, k);
    } else {
      AfterStep(s.disk, t.plan, 0);
      FewerPairs(s.disk, s'.disk);
    }
  }

  /** One step, answered or cut short: names stay unique exactly if it is not a clashing rename. */
  lemma StepUnique(s: State, t: Step, s': State)
    requires ServerInv(s) && Next(s, t, s') && UniqueNames(s.disk)
    ensures UniqueNames(s'.disk) <==> !Clashes(s.disk, t)
  {
    var k := if t.Answer? then |t.plan| else t.k;
    assert t.plan[..|t.plan|] == t.plan;
    if t.plan == [] {
      assert t.plan[..k] == [];
    } else {
      match t.rpc
      case Make(dir, name, isFile) => MakeUnique(s.disk, dir, s.next, name, NewNode(isFile), k);
      case Unmake(dir, name, isFile) =>
        var f := FoundFile(s.disk, s.next, t.rpc, t.plan, t.reply);
        UnmakeUnique(s.disk, dir, f, name, k);
      case Rename(_, _, _, _) => RenameUnique(s, t, s');
      case Lookup(_, _) =>
    }
  }

  /** Unique names come and go only with clashing renames. */
  ghost predicate Careful(states: seq<State>, steps: seq<Step>) {
    |states| == |steps| + 1 && forall j | 0 <= j < |steps| ::
      UniqueNames(states[j].disk) ==> (UniqueNames(states[j + 1].disk) <==> !Clashes(states[j].disk, steps[j]))
  }

  lemma {:induction false} CarefulRun(states: seq<State>, steps: seq<Step>, i: nat)
    requires Careful(states, steps) && UniqueNames(states[0].disk) && i < |states|
    ensures (forall j | 0 <= j <= i :: UniqueNames(states[j].disk)) <==>
      forall j | 0 <= j < i :: !Clashes(states[j].disk, steps[j])
    decreases i
  {
    if i == 0 {
    } else {
      CarefulRun(states, steps, i - 1);
      assert UniqueNames(states[i - 1].disk) ==>
        (UniqueNames(states[i - 1 + 1].disk) <==> !Clashes(states[i - 1].disk, steps[i - 1]));
    }
  }

  /** Over all runs, crashes included: every state so far has unique names exactly if no rename so
      far has met a clashing leftover. */
  lemma UniqueInEveryRun(states: seq<State>, steps: seq<Step>, i: nat)
    requires IsRun(states, steps) && ServerInv(states[0]) && UniqueNames(states[0].disk) && i < |states|
    ensures (forall j | 0 <= j <= i :: UniqueNames(states[j].disk)) <==>
      forall j | 0 <= j < i :: !Clashes(states[j].disk, steps[j])
  {
    forall j | 0 <= j < |steps|
      ensures UniqueNames(states[j].disk) ==> (UniqueNames(states[j + 1].disk) <==> !Clashes(states[j].disk, steps[j]))
    {
      RunKeepsInv(states, steps, j);
      if UniqueNames(states[j].disk) {
        StepUnique(states[j], steps[j], states[j + 1]);
      }
    }
    CarefulRun(states, steps, i);
  }

  // ---------- Runs from an empty disk ----------

  /** A server that has just been set up. */
  const BEGIN := State(EMPTY_DISK, 2, map[], 0)

  /** An answered CREATE or MKDIR under a free name. */
  lemma Makes(s: State, dir: Fid, name: Name, isFile: bool) returns (t: Step, s': State)
    requires ServerInv(s) && Live(s.disk, dir) && IsDir(s.disk, dir) && !Taken(s.disk, dir, name) && name != ""
    ensures Next(s, t, s') && ServerInv(s') && t.Answer? && t.rpc == Make(dir, name, isFile) && t.reply == Done(s.next)
    ensures s' ==
      State(Disk(s.disk.objs[s.next := Obj(dir, NewNode(isFile))], s.disk.names + {Named(dir, s.next, name)}),
                        s.next + 1, s.cache[s.next := dir], s.epoch)
  {
    var plan := CreatePlan(dir, s.next, name, NewNode(isFile));
    t := Answer(Make(dir, name, isFile), plan, Done(s.next), s.cache);
    s' := State(Exec(s.disk, plan), s.next + 1, s.cache[s.next := dir], s.epoch);
    ExecTwo(s.disk, plan[0], plan[1]);
    StepKeepsInv(s, t, s');
  }

  /** A run from the empty disk to a state, and what it was asked to do. */
  ghost predicate RunTo(states: seq<State>, steps: seq<Step>, s: State) {
    IsRun(states, steps) && states[0] == BEGIN && states[|steps|] == s
  }

  lemma RunToInv(states: seq<State>, steps: seq<Step>, s: State)
    requires RunTo(states, steps, s)
    ensures ServerInv(s)
  {
    EmptyDiskInv(2, 0);
    RunKeepsInv(states, steps, |steps|);
  }

  lemma RunSnoc(states: seq<State>, steps: seq<Step>, s: State, t: Step, s': State)
    requires RunTo(states, steps, s) && Next(s, t, s')
    ensures RunTo(states + [s'], steps + [t], s')
  {}

  lemma RootLives(d: Disk)
    ensures Live(d, ROOT)
  {
    assert IsPath(d, [ROOT]) && Last([ROOT]) == ROOT;
  }

  /** A directory in the root has a path of two. */
  lemma InRoot(d: Disk, f: Fid, name: Name)
    requires Rooted(d) && f in d.objs && d.objs[f].parent == ROOT && Named(ROOT, f, name) in d.names
    ensures Live(d, f) && PathTo(d, f) == [ROOT, f]
  {
    assert Paired(d, Named(ROOT, f, name)) && Edge(d, ROOT, f);
    assert IsPath(d, [ROOT, f]) && Last([ROOT, f]) == f;
    PathUnique(d, PathTo(d, f), [ROOT, f]);
  }

  lemma ThenMakes(states: seq<State>, steps: seq<Step>, s: State, dir: Fid, name: Name, isFile: bool)
      returns (t: Step, s': State)
    requires RunTo(states, steps, s) && Live(s.disk, dir) && IsDir(s.disk, dir) && !Taken(s.disk, dir, name) &&
      name != ""
    ensures RunTo(states + [s'], steps + [t], s') && t.rpc == Make(dir, name, isFile) && t.Answer?
    ensures s'.disk == Disk(s.disk.objs[s.next := Obj(dir, NewNode(isFile))], s.disk.names + {Named(dir, s.next, name)})
    ensures s'.next == s.next + 1
  {
    RunToInv(states, steps, s);
    t, s' := Makes(s, dir, name, isFile);
    RunSnoc(states, steps, s, t, s');
  }

  /** Directory a and file x in the root, and nothing else but what is named. */
  predicate Small(d: Disk) {
    && Rooted(d) && 2 in d.objs && d.objs[2] == Obj(ROOT, Dir) && 3 in d.objs && d.objs[3] == Obj(ROOT, File([]))
    && {Named(ROOT, 2, "a"), Named(ROOT, 3, "x")} <= d.names
    && forall x | x in d.names && x.dir == ROOT :: x.name in {"a", "x"} && (x.name == "x" ==> x.fid == 3)
  }

  lemma XIsThere(d: Disk)
    requires Small(d)
    ensures Paired(d, Named(ROOT, 3, "x")) && Taken(d, ROOT, "x")
    ensures Live(d, ROOT) && PathTo(d, ROOT) == [ROOT] && Live(d, 2) && PathTo(d, 2) == [ROOT, 2] && IsDir(d, ROOT) &&
      IsDir(d, 2)
  {
    RootLives(d);
    assert IsPath(d, [ROOT]);
    PathUnique(d, PathTo(d, ROOT), [ROOT]);
    InRoot(d, 2, "a");
    assert Paired(d, Named(ROOT, 3, "x"));
  }

  lemma RenameXDecided(d: Disk, next: Fid, nd: Fid, nn: Name)
    requires Small(d) && nd in {ROOT, 2} && !Taken(d, nd, nn) && nn != ""
    ensures var rpc := Rename(ROOT, "x", nd, nn);
      Asserted(d, rpc) && Decides(d, next, rpc, RenamePlan(3, ROOT, "x", nd, nn), Done(3))
  {
    XIsThere(d);
    var x := Named(ROOT, 3, "x");
    assert Called(d, x, ROOT, "x") && 3 !in PathTo(d, nd);
    assert DecidesRename(d, x.fid, ROOT, "x", nd, nn, RenamePlan(3, ROOT, "x", nd, nn), Done(3));
  }

  /** A crash one step into renaming x. */
  lemma ThenCrashes(states: seq<State>, steps: seq<Step>, s: State, nd: Fid, nn: Name) returns (t: Step, s': State)
    requires RunTo(states, steps, s) && Small(s.disk) && nd in {ROOT, 2} && !Taken(s.disk, nd, nn) && nn != ""
    ensures RunTo(states + [s'], steps + [t], s') && t.Crash? && t.rpc == Rename(ROOT, "x", nd, nn) && t.k == 1
    ensures s'.disk == Disk(s.disk.objs, s.disk.names + {Named(nd, 3, nn)}) ==
      After(s.disk, RenamePlan(3, ROOT, "x", nd, nn), 1)
    ensures s'.next == s.next + 1
  {
    var plan := RenamePlan(3, ROOT, "x", nd, nn);
    RenameXDecided(s.disk, s.next, nd, nn);
    t := Crash(Rename(ROOT, "x", nd, nn), plan, Done(3), 1, s.next);
    s' := State(After(s.disk, plan, 1), s.next + 1, map[], s.next);
    AfterStep(s.disk, plan, 0);
    RunSnoc(states, steps, s, t, s');
  }

  /** Within a directory, one step into a rename, the file shows under both names. */
  lemma BothNamesShow(d: Disk, f: Fid, dir: Fid, on: Name, nn: Name)
    requires Renamable(d, f, dir, on, dir, nn)
    ensures var v := View(After(d, RenamePlan(f, dir, on, dir, nn), 1));
      && f in v && {on, nn} <= v[f].names && v != View(d) && v != RenamedView(d, f, dir, nn)
  {
    RenameShows(d, f, dir, on, dir, nn, 1);
    NamesAt(d, f, on);
    NamesAt(d, f, nn);
    assert on in RenamedNames(d, f, dir, on, dir, nn, 1) && nn in RenamedNames(d, f, dir, on, dir, nn, 1);
  }

  /** MKDIR a and CREATE x, from the empty disk. */
  lemma SmallRun() returns (states: seq<State>, steps: seq<Step>, s: State)
    ensures RunTo(states, steps, s) && |steps| == 2 && steps[0].rpc.Make? && steps[1].rpc.Make?
    ensures Small(s.disk) && s.next == 4 && forall x | x in s.disk.names :: x.dir != 2
  {
    RootLives(EMPTY_DISK);
    var t0, s1 := ThenMakes([BEGIN], [], BEGIN, ROOT, "a", false);
    RootLives(s1.disk);
    var t1;
    t1, s := ThenMakes([BEGIN] + [s1], [] + [t0], s1, ROOT, "x", true);
    states, steps := [BEGIN] + [s1] + [s], [] + [t0] + [t1];
  }

  /** Within a directory rename is not atomic: MKDIR a, CREATE x, and a crash one step into
      renaming x to y. The tree shows x and y for one file, neither the old tree nor the new. */
  lemma RenameInPlaceShowsBoth() returns (states: seq<State>, steps: seq<Step>, s: State, s': State)
    ensures RunTo(states, steps, s') && |steps| == 3 && states[2] == s
    ensures steps[2].Crash? && steps[2].rpc == Rename(ROOT, "x", ROOT, "y") && steps[2].k == 1
    ensures 3 in s.disk.objs && View(s'.disk) != View(s.disk) && View(s'.disk) != RenamedView(s.disk, 3, ROOT, "y")
    ensures 3 in View(s'.disk) && {"x", "y"} <= View(s'.disk)[3].names
  {
    states, steps, s := SmallRun();
    var t;
    t, s' := ThenCrashes(states, steps, s, ROOT, "y");
    XIsThere(s.disk);
    BothNamesShow(s.disk, 3, ROOT, "x", "y");
    states, steps := states + [s'], steps + [t];
  }

  /** A leftover of the file in the destination, under a name that another file has there: after
      the move the tree is neither the old nor the intended one, and in the end two files share
      the name. */
  lemma LeftoverShows(d: Disk, f: Fid, od: Fid, on: Name, nd: Fid, nn: Name, n: Name, g: Fid)
    requires Renamable(d, f, od, on, nd, nn) && UniqueNames(d) && !Taken(d, nd, nn) && od != nd
    requires n != nn && Named(nd, f, n) in d.names && g != f && Paired(d, Named(nd, g, n))
    ensures var plan := RenamePlan(f, od, on, nd, nn);
      && !UniqueNames(After(d, plan, 3))
      && View(After(d, plan, 2)) != View(d) && View(After(d, plan, 2)) != RenamedView(d, f, nd, nn)
  {
    LeftoversAt(d, f, nd, nn, n);
    assert TakenByOther(d, nd, n, f);
    RenameUniqueExactly(d, f, od, on, nd, nn, 3);
    RenameShows(d, f, od, on, nd, nn, 2);
    assert n in RenamedNames(d, f, od, on, nd, nn, 2);
  }

  lemma LeftDisk(d: Disk, d3: Disk, d4: Disk)
    requires Small(d) && 5 !in d.objs && forall x | x in d.names :: x.dir != 2
    requires d3 == Disk(d.objs, d.names + {Named(2, 3, "n")})
    requires d4 == Disk(d3.objs[5 := Obj(2, File([]))], d3.names + {Named(2, 5, "n")})
    ensures Small(d3) && !Taken(d3, 2, "n")
    ensures Small(d4) && Named(2, 3, "n") in d4.names && Paired(d4, Named(2, 5, "n"))
    ensures forall x | x in d4.names && x.dir == 2 :: x.name == "n"
  {}

  /** MKDIR a, CREATE x, a crash one step into renaming x to a/n, and CREATE a/n. */
  lemma LeftRun() returns (states: seq<State>, steps: seq<Step>, s: State)
    ensures RunTo(states, steps, s) && |steps| == 4
    ensures steps[0].rpc.Make? && steps[1].rpc.Make? && steps[3].rpc.Make?
    ensures steps[2].Crash? && steps[2].rpc == Rename(ROOT, "x", 2, "n") && steps[2].k == 1
    ensures Small(s.disk) && Named(2, 3, "n") in s.disk.names && Paired(s.disk, Named(2, 5, "n"))
    ensures forall x | x in s.disk.names && x.dir == 2 :: x.name == "n"
  {
    var s2;
    states, steps, s2 := SmallRun();
    var t2, s3 := ThenCrashes(states, steps, s2, 2, "n");
    RunToInv(states, steps, s2);
    LeftDisk(s2.disk, s3.disk, Disk(s3.disk.objs[5 := Obj(2, File([]))], s3.disk.names + {Named(2, 5, "n")}));
    XIsThere(s3.disk);
    var t3;
    t3, s := ThenMakes(states + [s3], steps + [t2], s3, 2, "n", true);
    states, steps := states + [s3] + [s], steps + [t2] + [t3];
  }

  lemma LeftUnique(states: seq<State>, steps: seq<Step>, s: State)
    requires RunTo(states, steps, s) && |steps| == 4
    requires steps[0].rpc.Make? && steps[1].rpc.Make? && steps[3].rpc.Make? && steps[2].Crash? && steps[2].k == 1
    ensures UniqueNames(s.disk)
  {
    EmptyDiskInv(2, 0);
    assert forall j | 0 <= j < 4 :: !Clashes(states[j].disk, steps[j]);
    UniqueInEveryRun(states, steps, 4);
  }

  lemma ThenRenames(states: seq<State>, steps: seq<Step>, s: State) returns (t: Step, s': State)
    requires RunTo(states, steps, s) && Small(s.disk) && !Taken(s.disk, 2, "m")
    ensures RunTo(states + [s'], steps + [t], s') && t.Answer? && t.rpc == Rename(ROOT, "x", 2, "m") &&
      t.reply == Done(3)
    ensures t.plan == RenamePlan(3, ROOT, "x", 2, "m") && s'.disk == After(s.disk, t.plan, 3)
  {
    var plan := RenamePlan(3, ROOT, "x", 2, "m");
    RenameXDecided(s.disk, s.next, 2, "m");
    assert plan[..3] == plan;
    t := Answer(Rename(ROOT, "x", 2, "m"), plan, Done(3), s.cache);
    s' := State(Exec(s.disk, plan), s.next, s.cache[3 := 2], s.epoch);
    RunSnoc(states, steps, s, t, s');
  }

  lemma LeftClash(d: Disk)
    requires Small(d) && UniqueNames(d) && Named(2, 3, "n") in d.names && Paired(d, Named(2, 5, "n"))
    requires forall x | x in d.names && x.dir == 2 :: x.name == "n"
    ensures var plan := RenamePlan(3, ROOT, "x", 2, "m");
      && !Taken(d, 2, "m") && !UniqueNames(After(d, plan, 3))
      && View(After(d, plan, 2)) != View(d) && View(After(d, plan, 2)) != RenamedView(d, 3, 2, "m")
  {
    XIsThere(d);
    LeftoverShows(d, 3, ROOT, "x", 2, "m", "n", 5);
  }

  lemma LeftReady() returns (states: seq<State>, steps: seq<Step>, s: State)
    ensures RunTo(states, steps, s) && |steps| == 4
    ensures steps[2].Crash? && steps[2].rpc == Rename(ROOT, "x", 2, "n") && steps[2].k == 1
    ensures Small(s.disk) && UniqueNames(s.disk) && Named(2, 3, "n") in s.disk.names
    ensures Paired(s.disk, Named(2, 5, "n")) && forall x | x in s.disk.names && x.dir == 2 :: x.name == "n"
  {
    states, steps, s := LeftRun();
    LeftUnique(states, steps, s);
  }

  /** Junk does matter: after that run, an answered rename of x to a/m brings the leftover a/n
      back to life. Names were unique before it; in the end two files are called a/n, and one step
      before the end the tree was neither the old one nor the intended one. */
  lemma LeftoverClashes() returns (states: seq<State>, steps: seq<Step>, s: State, s': State)
    ensures RunTo(states, steps, s') && |steps| == 5 && states[4] == s
    ensures steps[2].Crash? && steps[2].rpc == Rename(ROOT, "x", 2, "n") && steps[2].k == 1
    ensures steps[4].Answer? && steps[4].rpc == Rename(ROOT, "x", 2, "m") && steps[4].reply == Done(3) &&
      |steps[4].plan| == 3
    ensures UniqueNames(s.disk) && !UniqueNames(s'.disk)
    ensures var v := View(After(s.disk, steps[4].plan, 2));
      3 in s.disk.objs && v != View(s.disk) && v != RenamedView(s.disk, 3, 2, "m")
  {
    states, steps, s := LeftReady();
    LeftClash(s.disk);
    var t;
    t, s' := ThenRenames(states, steps, s);
    states, steps := states + [s'], steps + [t];
  }
}
