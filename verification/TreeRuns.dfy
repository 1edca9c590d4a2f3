/** The file system that users are to see, over whole runs: what an answer is worth later on, and that a
    server that never crashes is just that file system. */
module TreeRuns {
  import opened Content
  import opened Namespace
  import opened CrashAtomicity
  import opened ServerRuns
  import opened NameRuns
  import opened Junk
  import opened JunkRuns
  import opened TreeSpec

  // ---------- Whole runs ----------

  /** If the step is an answer, it is what the users are to see. */
  ghost predicate Meets(s: State, t: Step, s': State) {
    t.Answer? ==> Spec(View(s.disk), t.rpc, t.reply, View(s'.disk))
  }

  lemma MeetsAt(states: seq<State>, steps: seq<Step>, j: nat)
    requires IsRun(states, steps) && ServerInv(states[0]) && j < |steps|
    ensures Meets(states[j], steps[j], states[j + 1]) <==> !(steps[j].Answer? && Spoils(states[j], steps[j]))
  {
    RunKeepsInv(states, steps, j);
    if steps[j].Answer? {
      AnswerMeetsSpec(states[j], steps[j], states[j + 1]);
    }
  }

  /** Over all runs: the answered requests do what the users are to see, exactly as long as none is one that
      junk changes. */
  lemma RunMeetsSpec(states: seq<State>, steps: seq<Step>, i: nat)
    requires IsRun(states, steps) && ServerInv(states[0]) && i <= |steps|
    ensures (forall j | 0 <= j < i :: Meets(states[j], steps[j], states[j + 1]))
      <==> forall j | 0 <= j < i :: !(steps[j].Answer? && Spoils(states[j], steps[j]))
  {
    if forall j | 0 <= j < i :: Meets(states[j], steps[j], states[j + 1]) {
      forall j | 0 <= j < i ensures !(steps[j].Answer? && Spoils(states[j], steps[j])) {
        MeetsAt(states, steps, j);
      }
    }
    if forall j | 0 <= j < i :: !(steps[j].Answer? && Spoils(states[j], steps[j])) {
      forall j | 0 <= j < i ensures Meets(states[j], steps[j], states[j + 1]) {
        MeetsAt(states, steps, j);
      }
    }
  }

  lemma UniqueInTree(d: Disk, f: Fid, g: Fid, dir: Fid, name: Name)
    requires Rooted(d) && dir != 0 && UniqueNames(d) && HasName(View(d), f, dir, name) && HasName(View(d), g, dir, name)
    ensures f == g
  {
    TreeCalled(d, f, dir, name);
    TreeCalled(d, g, dir, name);
    assert Paired(d, Named(dir, f, name)) && Paired(d, Named(dir, g, name));
  }

  /** LOOKUP in a directory of the tree answers a fid exactly if a file there has the name; the fid is that
      of such a file, and of the only one where names are unique. */
  lemma LookupFinds(s: State, t: Step, s': State)
    requires ServerInv(s) && Next(s, t, s') && t.Answer? && t.rpc.Lookup?
    requires IsDirectory(View(s.disk), t.rpc.dir)
    ensures t.reply.Done? <==> InUse(View(s.disk), t.rpc.dir, t.rpc.name)
    ensures t.reply.Done? ==> HasName(View(s.disk), t.reply.fid, t.rpc.dir, t.rpc.name)
    ensures UniqueNames(s.disk) ==>
      forall f | HasName(View(s.disk), f, t.rpc.dir, t.rpc.name) :: t.reply == Done(f)
    ensures t.reply.Fail? ==> t.reply == Fail(NOENT)
  {
    LookupMeetsSpec(s, t, s');
    TreeLive(s.disk, t.rpc.dir);
    if UniqueNames(s.disk) {
      forall f | HasName(View(s.disk), f, t.rpc.dir, t.rpc.name) ensures t.reply == Done(f) {
        assert InUse(View(s.disk), t.rpc.dir, t.rpc.name);
        UniqueInTree(s.disk, f, t.reply.fid, t.rpc.dir, t.rpc.name);
      }
    }
  }

  /** The request is to remove or rename this file. */
  predicate Touches(t: Step, f: Fid) {
    (t.rpc.Unmake? || t.rpc.Rename?) && t.reply == Done(f)
  }

  lemma PlanSparesEntry(d: Disk, next: Fid, rpc: Rpc, plan: seq<DiskStep>, reply: Reply, k: nat, f: Fid)
    requires TreeInv(d) && FreshAbove(d, next) && Asserted(d, rpc) && Decides(d, next, rpc, plan, reply) && k <= |plan|
    requires f in View(d) && !((rpc.Unmake? || rpc.Rename?) && reply == Done(f))
    ensures f in View(After(d, plan, k)) && View(After(d, plan, k))[f] == View(d)[f]
  {
    if rpc.Rename? && reply.Done? {
      var g := FoundFile(d, next, rpc, plan, reply);
      RenameSpares(d, g, rpc.od, rpc.on, rpc.nd, rpc.nn, k, f);
    } else {
      CrashAtomic(d, next, rpc, plan, reply, k);
      if rpc.Make? && reply.Done? {
        assert next !in d.objs;
      }
    }
  }

  /** Requests about others, answered or cut short by a crash, leave a file with its directory, its names, its
      kind and its content. */
  lemma EntryStays(s: State, t: Step, s': State, f: Fid)
    requires ServerInv(s) && Next(s, t, s') && f in View(s.disk) && !Touches(t, f)
    ensures f in View(s'.disk) && View(s'.disk)[f] == View(s.disk)[f]
  {
    assert t.plan[..|t.plan|] == t.plan;
    PlanSparesEntry(s.disk, s.next, t.rpc, t.plan, t.reply, Taking(t), f);
  }

  /** The file is there as before. */
  predicate SameEntry(t: Tree, t': Tree, f: Fid) {
    f in t ==> f in t' && t'[f] == t[f]
  }

  lemma {:induction false} SameLong(ts: seq<Tree>, i: nat, j: nat, f: Fid)
    requires i <= j < |ts| && forall m | i <= m < j :: SameEntry(ts[m], ts[m + 1], f)
    ensures SameEntry(ts[i], ts[j], f)
    decreases j
  {
    if i < j {
      SameLong(ts, i, j - 1, f);
      assert SameEntry(ts[j - 1], ts[j - 1 + 1], f);
    }
  }

  lemma EntryStaysAt(states: seq<State>, steps: seq<Step>, m: nat, f: Fid)
    requires IsRun(states, steps) && ServerInv(states[0]) && m < |steps| && !Touches(steps[m], f)
    ensures SameEntry(View(states[m].disk), View(states[m + 1].disk), f)
  {
    RunKeepsInv(states, steps, m);
    if f in View(states[m].disk) {
      EntryStays(states[m], steps[m], states[m + 1], f);
    }
  }

  lemma EntryStaysLong(states: seq<State>, steps: seq<Step>, i: nat, j: nat, f: Fid)
    requires IsRun(states, steps) && ServerInv(states[0]) && i <= j < |states|
    requires forall m | i <= m < j :: !Touches(steps[m], f)
    ensures SameEntry(View(states[i].disk), View(states[j].disk), f)
  {
    var ts := seq(|states|, m requires 0 <= m < |states| => View(states[m].disk));
    forall m | i <= m < j ensures SameEntry(ts[m], ts[m + 1], f) {
      EntryStaysAt(states, steps, m, f);
    }
    SameLong(ts, i, j, f);
  }

  /** Over all runs with crashes: what an answered CREATE or MKDIR has made is there, under its name and of its
      kind, until it is removed or renamed; and where names are unique LOOKUP answers with its fid. */
  lemma CreatedIsFound(states: seq<State>, steps: seq<Step>, i: nat, j: nat)
    requires IsRun(states, steps) && ServerInv(states[0]) && i < j < |steps|
    requires steps[i].Answer? && steps[i].rpc.Make? && steps[i].reply.Done?
    requires forall m | i < m < j :: !Touches(steps[m], steps[i].reply.fid)
    ensures var f, rpc, v := steps[i].reply.fid, steps[i].rpc, View(states[j].disk);
      && f in v && v[f] == Entry(rpc.dir, {rpc.name}, if rpc.isFile then File([]) else Dir)
      && (steps[j].Answer? && steps[j].rpc == Lookup(rpc.dir, rpc.name) && UniqueNames(states[j].disk) ==>
            steps[j].reply == Done(f))
  {
    var f, rpc := steps[i].reply.fid, steps[i].rpc;
    RunKeepsInv(states, steps, i);
    RunKeepsInv(states, steps, j);
    MakeMeetsSpec(states[i], steps[i], states[i + 1]);
    EntryStaysLong(states, steps, i + 1, j, f);
    if steps[j].Answer? && steps[j].rpc == Lookup(rpc.dir, rpc.name) {
      ParentIsDirectory(states[j].disk, f);
      LookupFinds(states[j], steps[j], states[j + 1]);
    }
  }

  lemma ParentIsDirectory(d: Disk, f: Fid)
    requires TreeInv(d) && f in View(d)
    ensures IsDirectory(View(d), View(d)[f].parent) && View(d)[f].parent != 0
  {
    TreeLive(d, View(d)[f].parent);
  }

  // ---------- Without crashes ----------

  /** No junk: every numbered file but the root's is linked, every named file has its partner, and a file has
      one name. */
  predicate Tidy(d: Disk) {
    && (forall f | f in d.objs :: Linked(d, f) || f == ROOT)
    && (forall x | x in d.names :: Paired(d, x))
    && (forall x, y | x in d.names && y in d.names && x.fid == y.fid :: x == y)
  }

  lemma MakeKeepsTidy(d: Disk, dir: Fid, f: Fid, name: Name, node: Node)
    requires Tidy(d) && Unused(d, f)
    ensures Tidy(After(d, CreatePlan(dir, f, name, node), 2))
  {
    var plan, x := CreatePlan(dir, f, name, node), Named(dir, f, name);
    AfterStep(d, plan, 0);
    AfterStep(d, plan, 1);
    var d' := After(d, plan, 2);
    assert Paired(d', x);
    forall g | g in d.objs && Linked(d, g) ensures Linked(d', g) {
      LinkedKept(d, d', g);
    }
  }

  lemma UnmakeKeepsTidy(d: Disk, dir: Fid, f: Fid, name: Name)
    requires Tidy(d) && f != ROOT && Paired(d, Named(dir, f, name))
    ensures Tidy(After(d, RemovePlan(dir, f, name), 2))
  {
    var plan := RemovePlan(dir, f, name);
    AfterStep(d, plan, 0);
    AfterStep(d, plan, 1);
    var d' := After(d, plan, 2);
    forall x | x in d'.names ensures x.fid != f {
      assert x in d.names && Named(dir, f, name) in d.names;
    }
    forall g | g in d'.objs && g != ROOT ensures Linked(d', g) {
      var x :| x in d.names && x.fid == g && Paired(d, x);
      assert Paired(d', x);
    }
  }

  lemma RenameKeepsTidy(d: Disk, f: Fid, od: Fid, on: Name, nd: Fid, nn: Name)
    requires Tidy(d) && Renamable(d, f, od, on, nd, nn)
    ensures Tidy(After(d, RenamePlan(f, od, on, nd, nn), 3))
    ensures od != nd ==> Leftovers(d, f, nd, nn) == {}
  {
    RenameSteps(d, f, od, on, nd, nn, 3);
    var d', before, now := After(d, RenamePlan(f, od, on, nd, nn), 3), Named(od, f, on), Named(nd, f, nn);
    assert before != now;
    forall x | x in d.names && x.fid == f ensures x == before {}
    assert Paired(d', now);
    forall g | g in d'.objs && g != ROOT && g != f ensures Linked(d', g) {
      var x :| x in d.names && x.fid == g && Paired(d, x);
      assert Paired(d', x);
    }
  }

  /** The request was answered, and the host did not refuse a move, which leaves the new name behind. */
  predicate LeavesNoJunk(t: Step) {
    t.Answer? && t.reply != Fail(IOERR)
  }

  lemma PlanKeepsTidy(d: Disk, next: Fid, rpc: Rpc, plan: seq<DiskStep>, reply: Reply)
    requires TreeInv(d) && FreshAbove(d, next) && Asserted(d, rpc) && Decides(d, next, rpc, plan, reply)
    requires Tidy(d) && reply != Fail(IOERR)
    ensures Tidy(Exec(d, plan))
  {
    assert plan[..|plan|] == plan;
    if plan == [] {
    } else if rpc.Make? {
      MakeKeepsTidy(d, rpc.dir, next, rpc.name, NewNode(rpc.isFile));
    } else {
      var f := FoundFile(d, next, rpc, plan, reply);
      if rpc.Unmake? {
        UnmakeKeepsTidy(d, rpc.dir, f, rpc.name);
      } else {
        RenameKeepsTidy(d, f, rpc.od, rpc.on, rpc.nd, rpc.nn);
      }
    }
  }

  lemma TidyIsEmpty(d: Disk, f: Fid)
    requires Rooted(d) && Tidy(d) && f != 0
    ensures Empty(d, f) <==> ShowsEmpty(d, f)
  {
    SweptEmpty(d, f);
    if ShowsEmpty(d, f) {
      forall g | g in d.objs ensures d.objs[g].parent != f {
        assert g != ROOT ==> g in View(d);
      }
      forall x | x in d.names ensures x.dir != f {
        assert Paired(d, x) ==> Linked(d, x.fid) && d.objs[x.fid].parent == x.dir;
      }
    }
  }

  lemma TidyIsClean(s: State, t: Step, s': State)
    requires ServerInv(s) && Next(s, t, s') && LeavesNoJunk(t) && Tidy(s.disk)
    ensures !Spoils(s, t) && !Clashes(s.disk, t)
  {
    var d := s.disk;
    if t.rpc.Rename? && t.reply.Done? {
      var f := FoundFile(d, s.next, t.rpc, t.plan, t.reply);
      RenameKeepsTidy(d, f, t.rpc.od, t.rpc.on, t.rpc.nd, t.rpc.nn);
    } else if t.rpc.Unmake? && t.reply == Fail(NOTEMPTY) {
      var x :| Called(d, x, t.rpc.dir, t.rpc.name) &&
        DecidesUnmake(d, t.rpc.dir, t.rpc.name, t.rpc.isFile, x.fid, t.plan, t.reply);
      assert x.fid in d.objs;
      TidyIsEmpty(d, x.fid);
    }
  }

  lemma AnswerKeepsTidy(s: State, t: Step, s': State)
    requires ServerInv(s) && Next(s, t, s') && LeavesNoJunk(t) && Tidy(s.disk) && UniqueNames(s.disk)
    ensures Tidy(s'.disk) && UniqueNames(s'.disk)
  {
    PlanKeepsTidy(s.disk, s.next, t.rpc, t.plan, t.reply);
    TidyIsClean(s, t, s');
    StepUnique(s, t, s');
  }

  /** No junk, and no name for two files. */
  predicate Neat(d: Disk) {
    Tidy(d) && UniqueNames(d)
  }

  lemma {:induction false} NeatLong(disks: seq<Disk>, i: nat)
    requires i < |disks| && Neat(disks[0]) && forall m | 0 <= m < i :: Neat(disks[m]) ==> Neat(disks[m + 1])
    ensures Neat(disks[i])
    decreases i
  {
    if i > 0 {
      NeatLong(disks, i - 1);
      assert Neat(disks[i - 1]) ==> Neat(disks[i - 1 + 1]);
    }
  }

  lemma NeatAt(states: seq<State>, steps: seq<Step>, m: nat)
    requires IsRun(states, steps) && ServerInv(states[0]) && m < |steps| && LeavesNoJunk(steps[m])
    ensures Neat(states[m].disk) ==> Neat(states[m + 1].disk)
  {
    RunKeepsInv(states, steps, m);
    if Neat(states[m].disk) {
      AnswerKeepsTidy(states[m], steps[m], states[m + 1]);
    }
  }

  lemma TidyUpTo(states: seq<State>, steps: seq<Step>, i: nat)
    requires IsRun(states, steps) && ServerInv(states[0]) && Tidy(states[0].disk) && UniqueNames(states[0].disk)
    requires i <= |steps| && forall j | 0 <= j < i :: LeavesNoJunk(steps[j])
    ensures Tidy(states[i].disk) && UniqueNames(states[i].disk)
  {
    var disks := seq(|states|, m requires 0 <= m < |states| => states[m].disk);
    forall m | 0 <= m < i ensures Neat(disks[m]) ==> Neat(disks[m + 1]) {
      NeatAt(states, steps, m);
    }
    NeatLong(disks, i);
  }

  /** A server that never crashes leaves no junk, keeps names unique, and is the file system that the users are
      to see: every one of its answers and trees is as the meaning of the requests says. */
  lemma WithoutCrashes(states: seq<State>, steps: seq<Step>, i: nat)
    requires IsRun(states, steps) && ServerInv(states[0]) && Tidy(states[0].disk) && UniqueNames(states[0].disk)
    requires i <= |steps| && forall j | 0 <= j < i :: LeavesNoJunk(steps[j])
    ensures Tidy(states[i].disk) && UniqueNames(states[i].disk)
    ensures forall j | 0 <= j < i :: Meets(states[j], steps[j], states[j + 1])
  {
    TidyUpTo(states, steps, i);
    forall j | 0 <= j < i ensures Meets(states[j], steps[j], states[j + 1]) {
      TidyUpTo(states, steps, j);
      RunKeepsInv(states, steps, j);
      TidyIsClean(states[j], steps[j], states[j + 1]);
      MeetsAt(states, steps, j);
    }
  }

  /** The empty file system is a place to start from. */
  lemma EmptyIsTidy()
    ensures Tidy(BEGIN.disk) && UniqueNames(BEGIN.disk) && ServerInv(BEGIN)
  {
    EmptyDiskInv(2, 0);
  }
}
