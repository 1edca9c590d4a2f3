/** Junk over whole runs: a server that swept its disk after every request would answer alike and
    show the same trees, exactly as long as no request is one that junk changes; and a run in which
    a directory that shows as empty can never be removed. */
module JunkRuns {
  import opened Content
  import opened Namespace
  import opened CrashAtomicity
  import opened ServerRuns
  import opened NameRuns
  import opened Junk

  // ---------- The file that a request is about ----------

  function Subject(s: DiskStep): Fid {
    match s
    case AddNumbered(f, _, _) => f
    case AddNamed(x) => x.fid
    case DelNumbered(f) => f
    case DelNamed(x) => x.fid
    case Move(f, _) => f
  }

  /** Steps about other files leave a file where it is, and its names. */
  ghost predicate Spared(d: Disk, d': Disk, f: Fid) {
    && (f in d'.objs <==> f in d.objs) && (f in d.objs ==> d'.objs[f] == d.objs[f])
    && forall x: Named | x.fid == f :: x in d'.names <==> x in d.names
  }

  lemma {:induction false} OthersSpare(d: Disk, steps: seq<DiskStep>, f: Fid)
    requires forall s | s in steps :: Subject(s) != f
    ensures Spared(d, Exec(d, steps), f)
    decreases steps
  {
    if steps == [] {
    } else {
      assert steps[0] in steps;
      OthersSpare(Do(d, steps[0]), steps[1..], f);
    }
  }

  /** All steps of a plan are about one file: a new one, or one that was found by its name. */
  lemma PlanSubject(d: Disk, next: Fid, rpc: Rpc, plan: seq<DiskStep>, reply: Reply) returns (g: Fid)
    requires TreeInv(d) && FreshAbove(d, next) && Asserted(d, rpc) && Decides(d, next, rpc, plan, reply)
    ensures g != ROOT && forall s | s in plan :: Subject(s) == g
    ensures g == next || Linked(d, g)
    ensures rpc.Unmake? && reply.Done? ==> reply.fid == g
  {
    g := next;
    if plan != [] && !rpc.Make? {
      g := FoundFile(d, next, rpc, plan, reply);
      assert Paired(d, Named(if rpc.Unmake? then rpc.dir else rpc.od, g, if rpc.Unmake? then rpc.name else rpc.on));
    }
  }

  lemma PlanSpares(d: Disk, next: Fid, rpc: Rpc, plan: seq<DiskStep>, reply: Reply, k: nat, e: Disk, f: Fid)
    requires TreeInv(d) && FreshAbove(d, next) && Asserted(d, rpc) && Decides(d, next, rpc, plan, reply) && k <= |plan|
    requires f != next && (f == ROOT || !Linked(d, f))
    ensures Spared(e, After(e, plan, k), f)
  {
    var g := PlanSubject(d, next, rpc, plan, reply);
    forall s | s in plan[..k] ensures Subject(s) != f {
      assert s in plan;
    }
    OthersSpare(e, plan[..k], f);
  }

  // ---------- A server that sweeps ----------

  /** How many disk steps the step takes. */
  function Taking(t: Step): nat {
    if t.Answer? then |t.plan| else t.k
  }

  function SweptState(s: State): State {
    s.(disk := Swept(s.disk))
  }

  /** From the swept state the same step, with the same reply or the same crash, leads to a state
      that is the same once it is swept. */
  ghost predicate StepSwept(s: State, t: Step, s': State) {
    && Taking(t) <= |t.plan|
    && var mid := s'.(disk := After(Swept(s.disk), t.plan, Taking(t)));
       Next(SweptState(s), t, mid) && SweptState(mid) == SweptState(s')
  }

  /** A tree and the names of the root make up a swept disk. */
  lemma SweptFromView(d: Disk, e: Disk)
    requires View(d) == View(e) && Rooted(d) && Rooted(e)
    requires forall x: Named | x.fid == ROOT && x.dir == 0 :: x in d.names <==> x in e.names
    ensures Swept(d) == Swept(e)
  {
    SameObjs(d, e);
    SameObjs(e, d);
    assert Swept(d).objs == Swept(e).objs;
    forall x ensures x in Swept(d).names <==> x in Swept(e).names {
      if x in Swept(d).names {
        SameNames(d, e, x);
      } else if x in Swept(e).names {
        SameNames(e, d, x);
      }
    }
  }

  lemma SameObjs(d: Disk, e: Disk)
    requires View(d) == View(e) && Rooted(d) && Rooted(e)
    ensures forall f | f in Swept(d).objs :: f in Swept(e).objs && Swept(e).objs[f] == Swept(d).objs[f]
  {
    forall f | f in Swept(d).objs ensures f in Swept(e).objs && Swept(e).objs[f] == Swept(d).objs[f] {
      assert f != ROOT ==> f in View(d) && View(d)[f] == View(e)[f];
    }
  }

  lemma SameNames(d: Disk, e: Disk, x: Named)
    requires View(d) == View(e) && Rooted(d) && Rooted(e) && x in Swept(d).names
    requires x.fid == ROOT && x.dir == 0 ==> x in e.names
    ensures x in Swept(e).names
  {
    if x.fid != ROOT {
      assert Linked(d, x.fid) && x.fid in View(d) && View(d)[x.fid] == View(e)[x.fid];
      NamesAt(d, x.fid, x.name);
      NamesAt(e, x.fid, x.name);
    }
  }

  lemma SweptAlike(s: State, t: Step, s': State)
    requires ServerInv(s) && Next(s, t, s') && View(After(Swept(s.disk), t.plan, Taking(t))) == View(s'.disk)
    ensures Swept(After(Swept(s.disk), t.plan, Taking(t))) == Swept(s'.disk)
  {
    var d, e, k := s.disk, Swept(s.disk), Taking(t);
    assert t.plan[..|t.plan|] == t.plan;
    assert ROOT in e.objs;
    PlanSpares(d, s.next, t.rpc, t.plan, t.reply, k, d, ROOT);
    PlanSpares(d, s.next, t.rpc, t.plan, t.reply, k, e, ROOT);
    StepKeepsInv(s, t, s');
    NoZero(s, t, k, e);
    SweptFromView(After(e, t.plan, k), s'.disk);
  }

  /** No step makes a file with the number that is no fid. */
  lemma NoZero(s: State, t: Step, k: nat, e: Disk)
    requires ServerInv(s) && Asserted(s.disk, t.rpc) && Decides(s.disk, s.next, t.rpc, t.plan, t.reply) && k <= |t.plan|
    requires 0 !in e.objs
    ensures 0 !in After(e, t.plan, k).objs
  {
    assert !Linked(s.disk, 0);
    PlanSpares(s.disk, s.next, t.rpc, t.plan, t.reply, k, e, 0);
  }

  /** Junk changes this step. */
  ghost predicate Spoils(s: State, t: Step) {
    JunkMatters(s.disk, t.rpc, t.reply, Taking(t))
  }

  lemma NextSwept(s: State, t: Step, s': State)
    requires ServerInv(s) && Next(s, t, s') && Decides(Swept(s.disk), s.next, t.rpc, t.plan, t.reply)
    ensures Next(SweptState(s), t, s'.(disk := After(Swept(s.disk), t.plan, Taking(t))))
  {
    assert t.plan[..|t.plan|] == t.plan;
    SweptAsserted(s.disk, t.rpc);
    SweptView(s.disk);
  }

  lemma SweptShowsAlike(s: State, t: Step, s': State)
    requires StepSwept(s, t, s')
    ensures View(After(Swept(s.disk), t.plan, Taking(t))) == View(s'.disk)
  {
    SweptView(s'.disk);
    SweptView(After(Swept(s.disk), t.plan, Taking(t)));
  }

  /** One step, answered or cut short by a crash: it is as on the swept disk exactly if it is not one
      that junk changes. */
  lemma StepJunkExactly(s: State, t: Step, s': State)
    requires ServerInv(s) && Next(s, t, s')
    ensures StepSwept(s, t, s') <==> !Spoils(s, t)
  {
    assert t.plan[..|t.plan|] == t.plan;
    JunkExactly(s.disk, s.next, t.rpc, t.plan, t.reply, Taking(t));
    if !Spoils(s, t) {
      NextSwept(s, t, s');
      SweptAlike(s, t, s');
    } else if StepSwept(s, t, s') {
      SweptShowsAlike(s, t, s');
      assert false;
    }
  }

  /** Over all runs: step by step the run is that of a server that sweeps its disk after every
      request and every crash, exactly as long as no step is one that junk changes. */
  lemma JunkInEveryRun(states: seq<State>, steps: seq<Step>, i: nat)
    requires IsRun(states, steps) && ServerInv(states[0]) && i <= |steps|
    ensures (forall j | 0 <= j < i :: StepSwept(states[j], steps[j], states[j + 1]))
      <==> forall j | 0 <= j < i :: !Spoils(states[j], steps[j])
  {
    if forall j | 0 <= j < i :: StepSwept(states[j], steps[j], states[j + 1]) {
      forall j | 0 <= j < i ensures !Spoils(states[j], steps[j]) {
        JunkAt(states, steps, j);
      }
    }
    if forall j | 0 <= j < i :: !Spoils(states[j], steps[j]) {
      forall j | 0 <= j < i ensures StepSwept(states[j], steps[j], states[j + 1]) {
        JunkAt(states, steps, j);
      }
    }
  }

  lemma JunkAt(states: seq<State>, steps: seq<Step>, j: nat)
    requires IsRun(states, steps) && ServerInv(states[0]) && j < |steps|
    ensures StepSwept(states[j], steps[j], states[j + 1]) <==> !Spoils(states[j], steps[j])
  {
    RunKeepsInv(states, steps, j);
    StepJunkExactly(states[j], steps[j], states[j + 1]);
  }

  // ---------- Junk for good ----------

  /** A numbered file without any name: what a CREATE leaves that crashes before its last step. */
  predicate Nameless(d: Disk, f: Fid) {
    f in d.objs && f != ROOT && forall x | x in d.names :: x.fid != f
  }

  lemma NamelessStays(s: State, t: Step, s': State, f: Fid)
    requires ServerInv(s) && Next(s, t, s') && Nameless(s.disk, f)
    ensures Nameless(s'.disk, f) && s'.disk.objs[f] == s.disk.objs[f]
    ensures t.rpc.Unmake? && t.reply.Done? ==> t.reply.fid != s.disk.objs[f].parent
  {
    assert t.plan[..|t.plan|] == t.plan && !Linked(s.disk, f);
    PlanSpares(s.disk, s.next, t.rpc, t.plan, t.reply, Taking(t), s.disk, f);
    if t.rpc.Unmake? && t.reply.Done? {
      var g := FoundFile(s.disk, s.next, t.rpc, t.plan, t.reply);
      assert IsDir(s.disk, s.disk.objs[f].parent);
    }
  }

  /** The nameless file stays, and its directory is not what the step removes. */
  predicate Stays(s: State, t: Step, s': State, f: Fid) {
    Nameless(s.disk, f) ==>
      && Nameless(s'.disk, f) && s'.disk.objs[f] == s.disk.objs[f]
      && (t.rpc.Unmake? && t.reply.Done? ==> t.reply.fid != s.disk.objs[f].parent)
  }

  lemma {:induction false} StaysLong(states: seq<State>, steps: seq<Step>, i: nat, j: nat, f: Fid)
    requires |states| == |steps| + 1 && i <= j < |states| && Nameless(states[i].disk, f)
    requires forall m | 0 <= m < |steps| :: Stays(states[m], steps[m], states[m + 1], f)
    ensures Nameless(states[j].disk, f) && states[j].disk.objs[f] == states[i].disk.objs[f]
    decreases j
  {
    if i == j {
    } else {
      StaysLong(states, steps, i, j - 1, f);
      assert Stays(states[j - 1], steps[j - 1], states[j - 1 + 1], f);
    }
  }

  /** Junk of this kind is there for good: it is never linked, moved or removed, and the directory it
      lies in can no longer be removed either. */
  lemma JunkStays(states: seq<State>, steps: seq<Step>, i: nat, j: nat, f: Fid)
    requires IsRun(states, steps) && ServerInv(states[0]) && i <= j < |states| && Nameless(states[i].disk, f)
    ensures Nameless(states[j].disk, f) && states[j].disk.objs[f] == states[i].disk.objs[f]
    ensures j < |steps| && steps[j].rpc.Unmake? && steps[j].reply.Done? ==>
      steps[j].reply.fid != states[i].disk.objs[f].parent
  {
    forall m | 0 <= m < |steps| ensures Stays(states[m], steps[m], states[m + 1], f) {
      RunKeepsInv(states, steps, m);
      if Nameless(states[m].disk, f) {
        NamelessStays(states[m], steps[m], states[m + 1], f);
      }
    }
    StaysLong(states, steps, i, j, f);
    assert j < |steps| ==> Stays(states[j], steps[j], states[j + 1], f);
  }

  // ---------- Junk has a place ----------

  /** Every named file, junk included, lies in a directory that is there; the root's lies beside the root. */
  predicate Housed(d: Disk) {
    forall x | x in d.names :: x.dir == 0 || IsDir(d, x.dir)
  }

  lemma MakeKeepsHoused(d: Disk, dir: Fid, f: Fid, name: Name, node: Node, k: nat)
    requires Housed(d) && IsDir(d, dir) && f !in d.objs && k <= 2
    ensures Housed(After(d, CreatePlan(dir, f, name, node), k))
  {
    var plan := CreatePlan(dir, f, name, node);
    AfterStep(d, plan, 0);
    AfterStep(d, plan, 1);
  }

  lemma UnmakeKeepsHoused(d: Disk, dir: Fid, f: Fid, name: Name, k: nat)
    requires Housed(d) && (IsDir(d, f) ==> Empty(d, f)) && k <= 2
    ensures Housed(After(d, RemovePlan(dir, f, name), k))
  {
    var plan := RemovePlan(dir, f, name);
    AfterStep(d, plan, 0);
    AfterStep(d, plan, 1);
  }

  lemma RenameKeepsHoused(d: Disk, f: Fid, od: Fid, on: Name, nd: Fid, nn: Name, k: nat)
    requires Housed(d) && Renamable(d, f, od, on, nd, nn) && IsDir(d, nd) && k <= 3
    ensures Housed(After(d, RenamePlan(f, od, on, nd, nn), k))
    ensures k <= 1 ==> Housed(After(d, [AddNamed(Named(nd, f, nn))], k))
  {
    RenameSteps(d, f, od, on, nd, nn, k);
    AfterStep(d, [AddNamed(Named(nd, f, nn))], 0);
  }

  lemma PlanKeepsHoused(d: Disk, next: Fid, rpc: Rpc, plan: seq<DiskStep>, reply: Reply, k: nat)
    requires TreeInv(d) && FreshAbove(d, next) && Asserted(d, rpc) && Decides(d, next, rpc, plan, reply) && k <= |plan|
    requires Housed(d)
    ensures Housed(After(d, plan, k))
  {
    if plan == [] {
      assert plan[..k] == [];
    } else if rpc.Make? {
      MakeKeepsHoused(d, rpc.dir, next, rpc.name, NewNode(rpc.isFile), k);
    } else {
      var f := FoundFile(d, next, rpc, plan, reply);
      if rpc.Unmake? {
        UnmakeKeepsHoused(d, rpc.dir, f, rpc.name, k);
      } else {
        RenameKeepsHoused(d, f, rpc.od, rpc.on, rpc.nd, rpc.nn, k);
      }
    }
  }

  /** Over all runs with crashes no directory is ever removed from under a file, not even from under junk. */
  lemma {:induction false} HousedInEveryRun(states: seq<State>, steps: seq<Step>, i: nat)
    requires IsRun(states, steps) && ServerInv(states[0]) && Housed(states[0].disk) && i < |states|
    ensures Housed(states[i].disk)
  {
    if i > 0 {
      HousedInEveryRun(states, steps, i - 1);
      RunKeepsInv(states, steps, i - 1);
      var s, t := states[i - 1], steps[i - 1];
      assert Next(s, t, states[i - 1 + 1]) && t.plan[..|t.plan|] == t.plan;
      PlanKeepsHoused(s.disk, s.next, t.rpc, t.plan, t.reply, Taking(t));
    }
  }

  // ---------- A run in which junk matters ----------

  /** A crash one step into a CREATE: the numbered file is there, its name is not. */
  lemma ThenMakeCrashes(states: seq<State>, steps: seq<Step>, s: State, dir: Fid, name: Name)
      returns (t: Step, s': State)
    requires RunTo(states, steps, s) && Live(s.disk, dir) && IsDir(s.disk, dir) && !Taken(s.disk, dir, name) &&
      name != ""
    ensures RunTo(states + [s'], steps + [t], s') && t.Crash? && t.rpc == Make(dir, name, true) && t.k == 1
    ensures s'.disk == Disk(s.disk.objs[s.next := Obj(dir, File([]))], s.disk.names)
  {
    var plan := CreatePlan(dir, s.next, name, File([]));
    t := Crash(Make(dir, name, true), plan, Done(s.next), 1, s.next + 1);
    s' := State(After(s.disk, plan, 1), s.next + 2, map[], s.next + 1);
    AfterStep(s.disk, plan, 0);
    RunSnoc(states, steps, s, t, s');
  }

  /** An RMDIR that finds something in the directory. */
  lemma ThenNotEmpty(states: seq<State>, steps: seq<Step>, s: State, f: Fid, name: Name) returns (t: Step)
    requires RunTo(states, steps, s) && name != "" && IsDir(s.disk, f) && !Empty(s.disk, f)
    requires Called(s.disk, Named(ROOT, f, name), ROOT, name) && IsDir(s.disk, ROOT)
    ensures RunTo(states + [s], steps + [t], s) && t.Answer? && t.rpc == Unmake(ROOT, name, false) &&
      t.reply == Fail(NOTEMPTY)
  {
    RootLives(s.disk);
    t := Answer(Unmake(ROOT, name, false), [], Fail(NOTEMPTY), s.cache);
    assert DecidesUnmake(s.disk, ROOT, name, false, Named(ROOT, f, name).fid, [], Fail(NOTEMPTY));
    RunSnoc(states, steps, s, t, s);
  }

  /** MKDIR a, from the empty disk. */
  lemma OneDirectory() returns (states: seq<State>, steps: seq<Step>, s: State)
    ensures RunTo(states, steps, s) && |steps| == 1 && steps[0].rpc == Make(ROOT, "a", false)
    ensures Rooted(s.disk) && s.disk.objs.Keys == {ROOT, 2} && s.disk.objs[2] == Obj(ROOT, Dir) && s.next == 3
    ensures s.disk.names == {Named(0, ROOT, "root"), Named(ROOT, 2, "a")}
  {
    RootLives(EMPTY_DISK);
    var t;
    t, s := ThenMakes([BEGIN], [], BEGIN, ROOT, "a", false);
    states, steps := [BEGIN] + [s], [] + [t];
  }

  /** The disk on which directory a holds only junk. */
  predicate JunkInA(d: Disk) {
    && Rooted(d) && d.objs.Keys == {ROOT, 2, 3} && d.objs[2] == Obj(ROOT, Dir) && d.objs[3] == Obj(2, File([]))
    && d.names == {Named(0, ROOT, "root"), Named(ROOT, 2, "a")}
  }

  lemma JunkInAMatters(d: Disk)
    requires JunkInA(d)
    ensures 2 in View(d) && ShowsEmpty(d, 2) && Nameless(d, 3) && !Empty(d, 2)
    ensures Called(d, Named(ROOT, 2, "a"), ROOT, "a") && JunkMatters(d, Unmake(ROOT, "a", false), Fail(NOTEMPTY), 0)
  {
    assert Paired(d, Named(ROOT, 2, "a")) && d.objs[3].parent == 2;
    assert !Linked(d, 3) && Linked(d, 2);
    assert forall x | Called(d, x, ROOT, "a") :: x == Named(ROOT, 2, "a");
  }

  /** MKDIR a, a crash one step into CREATE a/x, RMDIR a: the tree shows a as empty, and yet RMDIR
      answers that it is not. No name clashes anywhere, so junk matters in this way too. */
  lemma EmptyLooksFull() returns (states: seq<State>, steps: seq<Step>, s: State)
    ensures RunTo(states, steps, s) && |steps| == 3 && states[2] == s
    ensures steps[1].Crash? && steps[1].rpc == Make(2, "x", true) && steps[1].k == 1
    ensures steps[2].Answer? && steps[2].rpc == Unmake(ROOT, "a", false) && steps[2].reply == Fail(NOTEMPTY)
    ensures 2 in View(s.disk) && ShowsEmpty(s.disk, 2) && Nameless(s.disk, 3) && s.disk.objs[3].parent == 2
    ensures JunkMatters(s.disk, steps[2].rpc, steps[2].reply, 0)
  {
    var s1;
    states, steps, s1 := OneDirectory();
    InRoot(s1.disk, 2, "a");
    var t1;
    t1, s := ThenMakeCrashes(states, steps, s1, 2, "x");
    states, steps := states + [s], steps + [t1];
    JunkInAMatters(s.disk);
    var t2 := ThenNotEmpty(states, steps, s, 2, "a");
    states, steps := states + [s], steps + [t2];
  }
}
