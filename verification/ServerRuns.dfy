/** Runs of the name server: what each RPC decides, what it does to disk, counter and cache,
    and what a crash after any of its disk steps leaves for the next incarnation. */
module ServerRuns {
  import opened Content
  import opened Namespace
  import opened CrashAtomicity

  datatype Option<+T> = None | Some(value: T)

  datatype Rpc =
    | Make(dir: Fid, name: Name, isFile: bool)
    | Unmake(dir: Fid, name: Name, isFile: bool)
    | Rename(od: Fid, on: Name, nd: Fid, nn: Name)
    | Lookup(dir: Fid, name: Name)

  datatype Code = STALE | NOTDIR | EXIST | NOENT | ISDIR | NOTEMPTY | IOERR

  datatype Reply = Done(fid: Fid) | Fail(code: Code)

  /** Nothing at all lies in the directory, not even junk. */
  predicate Empty(d: Disk, f: Fid) {
    (forall g | g in d.objs :: d.objs[g].parent != f) && (forall x | x in d.names :: x.dir != f)
  }

  /** The named file gives its file this name in this directory. */
  predicate Called(d: Disk, x: Named, dir: Fid, name: Name) {
    x in d.names && x.dir == dir && x.name == name && Paired(d, x)
  }

  function NewNode(isFile: bool): Node {
    if isFile then File([]) else Dir
  }

  /** Why a CREATE or MKDIR fails, if it does. */
  ghost function MakeError(d: Disk, dir: Fid, name: Name): Option<Code> {
    if !Live(d, dir) then Some(STALE)
    else if !IsDir(d, dir) then Some(NOTDIR)
    else if Taken(d, dir, name) then Some(EXIST)
    else None
  }

  ghost predicate DecidesUnmake(d: Disk, dir: Fid, name: Name, isFile: bool, f: Fid, plan: seq<DiskStep>,
                                reply: Reply) {
    if isFile && IsDir(d, f) then plan == [] && reply == Fail(ISDIR)
    else if !isFile && !IsDir(d, f) then plan == [] && reply == Fail(NOTDIR)
    else if !isFile && !Empty(d, f) then plan == [] && reply == Fail(NOTEMPTY)
    else plan == RemovePlan(dir, f, name) && reply == Done(f)
  }

  /** The host refuses to move a directory into itself; the new named file is there by then. */
  ghost predicate DecidesRename(d: Disk, f: Fid, od: Fid, on: Name, nd: Fid, nn: Name, plan: seq<DiskStep>,
                                reply: Reply)
    requires Live(d, nd)
  {
    if Taken(d, nd, nn) then plan == [] && reply == Fail(EXIST)
    else if f in PathTo(d, nd) then plan == [AddNamed(Named(nd, f, nn))] && reply == Fail(IOERR)
    else plan == RenamePlan(f, od, on, nd, nn) && reply == Done(f)
  }

  /** The disk steps an RPC takes and its reply, by the checks of the handlers in their order.
      Where leftovers let two files share a name, either may be found. */
  ghost predicate Decides(d: Disk, next: Fid, rpc: Rpc, plan: seq<DiskStep>, reply: Reply) {
    match rpc
    case Make(dir, name, isFile) =>
      var error := MakeError(d, dir, name);
      if error.Some? then plan == [] && reply == Fail(error.value)
      else plan == CreatePlan(dir, next, name, NewNode(isFile)) && reply == Done(next)
    case Unmake(dir, name, isFile) =>
      if !Live(d, dir) then plan == [] && reply == Fail(STALE)
      else if !IsDir(d, dir) then plan == [] && reply == Fail(NOTDIR)
      else if !Taken(d, dir, name) then plan == [] && reply == Fail(NOENT)
      else exists x :: Called(d, x, dir, name) && DecidesUnmake(d, dir, name, isFile, x.fid, plan, reply)
    case Rename(od, on, nd, nn) =>
      if !Live(d, od) || !Live(d, nd) then plan == [] && reply == Fail(STALE)
      else if !Taken(d, od, on) then plan == [] && reply == Fail(NOENT)
      else exists x :: Called(d, x, od, on) && DecidesRename(d, x.fid, od, on, nd, nn, plan, reply)
    case Lookup(dir, name) =>
      plan == [] &&
      if !Live(d, dir) then reply == Fail(STALE)
      else if !IsDir(d, dir) then reply == Fail(NOTDIR)
      else if !Taken(d, dir, name) then reply == Fail(NOENT)
      else exists x :: Called(d, x, dir, name) && reply == Done(x.fid)
  }

  /** What the handlers assert of a request once they have found its directories: names are not
      empty, and RENAME is between directories. A handler that fails an assertion panics. */
  ghost predicate Asserted(d: Disk, rpc: Rpc) {
    match rpc
    case Make(dir, name, _) => Live(d, dir) && IsDir(d, dir) ==> name != ""
    case Unmake(dir, name, _) => Live(d, dir) && IsDir(d, dir) ==> name != ""
    case Rename(od, on, nd, nn) =>
      Live(d, od) && Live(d, nd) ==> on != "" && IsDir(d, od) && (Taken(d, od, on) ==> nn != "" && IsDir(d, nd))
    case Lookup(dir, name) => Live(d, dir) && IsDir(d, dir) ==> name != ""
  }

  // ---------- States and steps ----------

  datatype State = State(disk: Disk, next: Fid, cache: map<Fid, Fid>, epoch: nat)

  /** Lookups by fid add parent links of files that are there, and change no entry. */
  ghost predicate Learned(d: Disk, cache: map<Fid, Fid>, cache': map<Fid, Fid>) {
    && cache.Keys <= cache'.Keys
    && forall f | f in cache' ::
         if f in cache then cache'[f] == cache[f] else f in View(d) && cache'[f] == View(d)[f].parent
  }

  function Cached(cache: map<Fid, Fid>, rpc: Rpc, reply: Reply): map<Fid, Fid> {
    if reply.Fail? then cache
    else
      match rpc
      case Make(dir, _, _) => cache[reply.fid := dir]
      case Unmake(_, _, _) => cache - {reply.fid}
      case Rename(_, _, nd, _) => cache[reply.fid := nd]
      case Lookup(_, _) => cache
  }

  datatype Step =
    | Answer(rpc: Rpc, plan: seq<DiskStep>, reply: Reply, learned: map<Fid, Fid>)
    | Crash(rpc: Rpc, plan: seq<DiskStep>, reply: Reply, k: nat, newEpoch: nat)

  function Used(plan: seq<DiskStep>): nat {
    if plan != [] && plan[0].AddNumbered? then 1 else 0
  }

  /** One RPC answered in full; or a crash after k of its disk steps and a restart, which keeps
      the disk, empties the cache, and takes a new epoch that the counter never gave out. */
  ghost predicate Next(s: State, t: Step, s': State) {
    && Asserted(s.disk, t.rpc)
    && Decides(s.disk, s.next, t.rpc, t.plan, t.reply)
    && match t
       case Answer(rpc, plan, reply, learned) =>
         && Learned(s.disk, s.cache, learned)
         && s' == State(Exec(s.disk, plan), s.next + Used(plan), Cached(learned, rpc, reply), s.epoch)
       case Crash(rpc, plan, reply, k, newEpoch) =>
         && k <= |plan|
         && s.next + (if k > 0 then Used(plan) else 0) <= newEpoch
         && s' == State(After(s.disk, plan, k), newEpoch + 1, map[], newEpoch)
  }

  // ---------- The invariant ----------

  ghost predicate CacheRight(d: Disk, cache: map<Fid, Fid>) {
    forall f | f in cache :: f in View(d) && cache[f] == View(d)[f].parent
  }

  predicate FreshAbove(d: Disk, next: Fid) {
    ROOT < next && (forall f | f in d.objs :: f < next) && (forall x | x in d.names :: x.fid < next)
  }

  ghost predicate ServerInv(s: State) {
    TreeInv(s.disk) && CacheRight(s.disk, s.cache) && FreshAbove(s.disk, s.next) && s.epoch < s.next
  }

  lemma MakeKeepsTree(d: Disk, dir: Fid, f: Fid, name: Name, node: Node, k: nat)
    requires TreeInv(d) && Unused(d, f) && f != 0 && Live(d, dir) && IsDir(d, dir) && k <= 2
    ensures TreeInv(After(d, CreatePlan(dir, f, name, node), k))
  {
    var plan := CreatePlan(dir, f, name, node);
    AfterStep(d, plan, 0);
    AfterStep(d, plan, 1);
    AddNumberedKeepsTree(d, f, dir, node);
    AddNamedKeepsTree(Do(d, plan[0]), Named(dir, f, name));
  }

  lemma UnmakeKeepsTree(d: Disk, dir: Fid, f: Fid, name: Name, k: nat)
    requires TreeInv(d) && Paired(d, Named(dir, f, name)) && dir in d.objs && k <= 2
    requires !IsDir(d, f) || Empty(d, f)
    ensures TreeInv(After(d, RemovePlan(dir, f, name), k))
  {
    var plan := RemovePlan(dir, f, name);
    AfterStep(d, plan, 0);
    AfterStep(d, plan, 1);
    StepKeepsTree(d, plan[0]);
    StepKeepsTree(Do(d, plan[0]), plan[1]);
  }

  /** Adding the new named file does not disturb the path to the destination. */
  lemma MoveIsAllowed(d: Disk, f: Fid, nd: Fid, nn: Name)
    requires TreeInv(d) && f in d.objs && f != ROOT
    requires Live(d, nd) && IsDir(d, nd) && f !in PathTo(d, nd)
    ensures Allowed(Do(d, AddNamed(Named(nd, f, nn))), Move(f, nd))
  {
    var d1 := Do(d, AddNamed(Named(nd, f, nn)));
    forall g | g in d.objs && Linked(d, g) ensures Linked(d1, g) {
      LinkedKept(d, d1, g);
    }
    PathKept(d, d1, PathTo(d, nd));
    PathUnique(d1, PathTo(d, nd), PathTo(d1, nd));
    var x := Named(nd, f, nn);
    assert x in d1.names && x.fid == f && x.dir == nd;
  }

  lemma RenameStagesKeepTree(d: Disk, f: Fid, od: Fid, on: Name, nd: Fid, nn: Name)
    requires TreeInv(d) && Renamable(d, f, od, on, nd, nn)
    requires Live(d, nd) && IsDir(d, nd) && f !in PathTo(d, nd)
    ensures var d1 := Do(d, AddNamed(Named(nd, f, nn)));
      var d2 := Do(d1, Move(f, nd));
      TreeInv(d1) && TreeInv(d2) && TreeInv(Do(d2, DelNamed(Named(od, f, on))))
  {
    var d1 := Do(d, AddNamed(Named(nd, f, nn)));
    var d2 := Do(d1, Move(f, nd));
    AddNamedKeepsTree(d, Named(nd, f, nn));
    MoveIsAllowed(d, f, nd, nn);
    MoveKeepsTree(d1, f, nd);
    assert Paired(d2, Named(nd, f, nn));
    DelNamedKeepsTree(d2, Named(od, f, on));
  }

  lemma RenameKeepsTree(d: Disk, f: Fid, od: Fid, on: Name, nd: Fid, nn: Name, k: nat)
    requires TreeInv(d) && Renamable(d, f, od, on, nd, nn) && k <= 3
    requires Live(d, nd) && IsDir(d, nd) && f !in PathTo(d, nd)
    ensures TreeInv(After(d, RenamePlan(f, od, on, nd, nn), k))
  {
    var plan := RenamePlan(f, od, on, nd, nn);
    AfterStep(d, plan, 0);
    AfterStep(d, plan, 1);
    AfterStep(d, plan, 2);
    RenameStagesKeepTree(d, f, od, on, nd, nn);
  }

  /** The file an answered Unmake or Rename is about: found under its name, in its directory. */
  lemma FoundFile(d: Disk, next: Fid, rpc: Rpc, plan: seq<DiskStep>, reply: Reply) returns (f: Fid)
    requires TreeInv(d) && Asserted(d, rpc) && Decides(d, next, rpc, plan, reply)
    requires plan != [] && !rpc.Make?
    ensures match rpc
      case Unmake(dir, name, isFile) =>
        && Paired(d, Named(dir, f, name)) && dir in d.objs && f != ROOT
        && plan == RemovePlan(dir, f, name) && reply == Done(f) && (IsDir(d, f) ==> Empty(d, f))
      case Rename(od, on, nd, nn) =>
        && Renamable(d, f, od, on, nd, nn) && !Taken(d, nd, nn) && Live(d, nd) && IsDir(d, nd)
        && (if f in PathTo(d, nd) then plan == [AddNamed(Named(nd, f, nn))] && reply == Fail(IOERR) && od != nd
            else plan == RenamePlan(f, od, on, nd, nn) && reply == Done(f))
      case _ => false
  {
    match rpc
    case Unmake(dir, name, isFile) =>
      var x :| Called(d, x, dir, name) && DecidesUnmake(d, dir, name, isFile, x.fid, plan, reply);
      assert x == Named(dir, x.fid, name);
      f := x.fid;
    case Rename(od, on, nd, nn) =>
      var x :| Called(d, x, od, on) && DecidesRename(d, x.fid, od, on, nd, nn, plan, reply);
      assert x == Named(od, x.fid, on);
      f := x.fid;
      if f in PathTo(d, nd) && od == nd {
        NotOwnAncestor(d, f, nd);
      }
    case Lookup(_, _) =>
  }

  lemma NotOwnAncestor(d: Disk, f: Fid, dir: Fid)
    requires TreeInv(d) && f in d.objs && d.objs[f].parent == dir && Live(d, dir) && Linked(d, f) && IsDir(d, dir)
    ensures f !in PathTo(d, dir)
  {
    var p := PathTo(d, dir);
    PathStep(d, p, f);
    if i :| 0 <= i < |p| && p[i] == f {
      PathNoRepeat(d, p + [f], i, |p|);
    }
  }

  /** Crash or no crash, the disk is a tree of live directories. */
  lemma PlanKeepsTree(d: Disk, next: Fid, rpc: Rpc, plan: seq<DiskStep>, reply: Reply, k: nat)
    requires TreeInv(d) && FreshAbove(d, next) && Asserted(d, rpc) && Decides(d, next, rpc, plan, reply) && k <= |plan|
    ensures TreeInv(After(d, plan, k))
  {
    if plan == [] {
      assert plan[..k] == [];
    } else {
      match rpc
      case Make(dir, name, isFile) =>
        MakeKeepsTree(d, dir, next, name, NewNode(isFile), k);
      case Unmake(dir, name, isFile) =>
        var f := FoundFile(d, next, rpc, plan, reply);
        UnmakeKeepsTree(d, dir, f, name, k);
      case Rename(od, on, nd, nn) =>
        RenamePlanKeepsTree(d, next, rpc, plan, reply, k);
      case Lookup(_, _) =>
    }
  }

  lemma RenamePlanKeepsTree(d: Disk, next: Fid, rpc: Rpc, plan: seq<DiskStep>, reply: Reply, k: nat)
    requires TreeInv(d) && Asserted(d, rpc) && Decides(d, next, rpc, plan, reply) && k <= |plan| && rpc.Rename? &&
      plan != []
    ensures TreeInv(After(d, plan, k))
  {
    var f := FoundFile(d, next, rpc, plan, reply);
    if f in PathTo(d, rpc.nd) {
      AfterStep(d, plan, 0);
      AddNamedKeepsTree(d, Named(rpc.nd, f, rpc.nn));
    } else {
      RenameKeepsTree(d, f, rpc.od, rpc.on, rpc.nd, rpc.nn, k);
    }
  }

  /** A step that names only fids the counter has handed out. */
  predicate Known(s: DiskStep, next: Fid) {
    match s
    case AddNumbered(f, _, _) => f < next
    case AddNamed(x) => x.fid < next
    case DelNumbered(_) => true
    case DelNamed(_) => true
    case Move(_, _) => true
  }

  lemma StepKeepsFresh(d: Disk, s: DiskStep, next: Fid)
    requires FreshAbove(d, next) && Known(s, next)
    ensures FreshAbove(Do(d, s), next)
    ensures forall f | f in Do(d, s).objs :: f in d.objs || (s.AddNumbered? && f == s.fid)
  {}

  lemma {:induction false} AfterKeepsFresh(d: Disk, plan: seq<DiskStep>, k: nat, next: Fid)
    requires FreshAbove(d, next) && k <= |plan| && forall i | 0 <= i < k :: Known(plan[i], next)
    ensures FreshAbove(After(d, plan, k), next)
    ensures forall f | f in After(d, plan, k).objs ::
      f in d.objs || exists i :: 0 <= i < k && plan[i].AddNumbered? && f == plan[i].fid
    decreases k
  {
    if k == 0 {
      assert plan[..0] == [];
    } else {
      AfterKeepsFresh(d, plan, k - 1, next);
      AfterStep(d, plan, k - 1);
      StepKeepsFresh(After(d, plan, k - 1), plan[k - 1], next);
    }
  }

  /** A plan creates nothing but the fid it was given, and names no fid beyond it. */
  lemma PlanKnown(d: Disk, next: Fid, rpc: Rpc, plan: seq<DiskStep>, reply: Reply, i: nat)
    requires TreeInv(d) && FreshAbove(d, next) && Asserted(d, rpc) && Decides(d, next, rpc, plan, reply) && i < |plan|
    ensures Known(plan[i], next + Used(plan))
    ensures plan[i].AddNumbered? ==> plan[i].fid == next && Used(plan) == 1
  {
    if !rpc.Make? {
      var f := FoundFile(d, next, rpc, plan, reply);
      assert f < next;
    }
  }

  lemma PlanKeepsFresh(d: Disk, next: Fid, rpc: Rpc, plan: seq<DiskStep>, reply: Reply, k: nat)
    requires TreeInv(d) && FreshAbove(d, next) && Asserted(d, rpc) && Decides(d, next, rpc, plan, reply) && k <= |plan|
    ensures FreshAbove(After(d, plan, k), next + if k > 0 then Used(plan) else 0)
    ensures forall f | f in After(d, plan, k).objs :: f in d.objs || (f == next && k > 0 && Used(plan) == 1)
  {
    if k == 0 {
      assert plan[..0] == [];
    } else {
      forall i | 0 <= i < k
        ensures Known(plan[i], next + Used(plan)) && (plan[i].AddNumbered? ==> plan[i].fid == next && Used(plan) == 1)
      {
        PlanKnown(d, next, rpc, plan, reply, i);
      }
      AfterKeepsFresh(d, plan, k, next + Used(plan));
    }
  }

  /** The tree that an answered RPC other than a finished rename leaves. */
  function Shown(d: Disk, rpc: Rpc, reply: Reply): map<Fid, Entry> {
    if reply.Fail? then View(d)
    else if rpc.Make? then View(d)[reply.fid := Entry(rpc.dir, {rpc.name}, NewNode(rpc.isFile))]
    else if rpc.Unmake? then View(d) - {reply.fid}
    else View(d)
  }

  /** The tree after k steps is the old one, or the one the answered RPC is to leave. */
  ghost predicate ShowsAtomically(d: Disk, rpc: Rpc, plan: seq<DiskStep>, reply: Reply, k: nat)
    requires k <= |plan|
  {
    && (View(After(d, plan, k)) == View(d) || View(After(d, plan, k)) == Shown(d, rpc, reply))
    && (k == |plan| ==> View(After(d, plan, k)) == Shown(d, rpc, reply))
    && (rpc.Unmake? && reply.Done? ==> reply.fid in View(d))
  }

  lemma UnmakeAtomic(d: Disk, next: Fid, rpc: Rpc, plan: seq<DiskStep>, reply: Reply, k: nat)
    requires TreeInv(d) && Asserted(d, rpc) && Decides(d, next, rpc, plan, reply) && k <= |plan| && rpc.Unmake? &&
      plan != []
    ensures ShowsAtomically(d, rpc, plan, reply, k)
  {
    var f := FoundFile(d, next, rpc, plan, reply);
    RemoveAtomic(d, rpc.dir, f, rpc.name, k);
    assert Paired(d, Named(rpc.dir, f, rpc.name));
  }

  lemma RefusedRenameAtomic(d: Disk, next: Fid, rpc: Rpc, plan: seq<DiskStep>, reply: Reply, k: nat)
    requires TreeInv(d) && Asserted(d, rpc) && Decides(d, next, rpc, plan, reply) && k <= |plan| && rpc.Rename? &&
      reply.Fail? && plan != []
    ensures ShowsAtomically(d, rpc, plan, reply, k)
  {
    var f := FoundFile(d, next, rpc, plan, reply);
    AfterStep(d, plan, 0);
    NewNameHidden(d, f, rpc.nd, rpc.nn);
  }

  /** The tree shown after k steps of any plan but a finished rename is the old one or the final
      one: CREATE, MKDIR, REMOVE and RMDIR are crash-atomic whatever junk lies around. */
  lemma CrashAtomic(d: Disk, next: Fid, rpc: Rpc, plan: seq<DiskStep>, reply: Reply, k: nat)
    requires TreeInv(d) && FreshAbove(d, next) && Asserted(d, rpc) && Decides(d, next, rpc, plan, reply) && k <= |plan|
    requires !rpc.Rename? || reply.Fail?
    ensures ShowsAtomically(d, rpc, plan, reply, k)
  {
    if plan == [] {
      assert plan[..k] == [];
    } else if rpc.Make? {
      CreateAtomic(d, rpc.dir, next, rpc.name, NewNode(rpc.isFile), k);
    } else if rpc.Unmake? {
      UnmakeAtomic(d, next, rpc, plan, reply, k);
    } else {
      RefusedRenameAtomic(d, next, rpc, plan, reply, k);
    }
  }

  /** A named file away from its numbered file does not show. */
  lemma NewNameHidden(d: Disk, f: Fid, dir: Fid, name: Name)
    requires f in d.objs && d.objs[f].parent != dir
    ensures View(Do(d, AddNamed(Named(dir, f, name)))) == View(d)
  {
    var d' := Do(d, AddNamed(Named(dir, f, name)));
    forall g ensures (g in View(d') <==> g in View(d)) && (g in View(d) ==> View(d')[g] == View(d)[g]) {
      SameFile(d, d', g);
    }
  }

  lemma AnswerKeepsCache(s: State, t: Step, s': State)
    requires ServerInv(s) && Next(s, t, s') && t.Answer?
    ensures CacheRight(s'.disk, s'.cache)
  {
    var d, plan, reply := s.disk, t.plan, t.reply;
    assert CacheRight(d, t.learned);
    assert plan[..|plan|] == plan;
    if t.rpc.Rename? && reply.Done? {
      var f := FoundFile(d, s.next, t.rpc, plan, reply);
      RenameShows(d, f, t.rpc.od, t.rpc.on, t.rpc.nd, t.rpc.nn, 3);
    } else {
      CrashAtomic(d, s.next, t.rpc, plan, reply, |plan|);
    }
  }

  /** The counter moves on, a restart takes a later epoch, and a fid appears on disk only by
      being handed out then and there. */
  predicate Grows(s: State, t: Step, s': State) {
    && s.next <= s'.next
    && (if t.Crash? then s.epoch < s'.epoch else s.epoch == s'.epoch)
    && forall f | f in s'.disk.objs && f !in s.disk.objs :: s.next <= f < s'.next
  }

  /** Every step, crashes included, keeps the invariant. */
  lemma StepKeepsInv(s: State, t: Step, s': State)
    requires ServerInv(s) && Next(s, t, s')
    ensures ServerInv(s') && Grows(s, t, s')
  {
    var k := if t.Answer? then |t.plan| else t.k;
    assert t.plan[..|t.plan|] == t.plan;
    PlanKeepsTree(s.disk, s.next, t.rpc, t.plan, t.reply, k);
    PlanKeepsFresh(s.disk, s.next, t.rpc, t.plan, t.reply, k);
    if t.Answer? {
      AnswerKeepsCache(s, t, s');
    }
  }

  /** The epoch is a value of the counter that no file has and none will get. */
  lemma EpochApart(s: State, t: Step, s': State)
    requires ServerInv(s) && Next(s, t, s') && (t.Answer? ==> s.epoch !in s.disk.objs)
    ensures s'.epoch !in s'.disk.objs && s'.epoch < s'.next
  {
    var k := if t.Answer? then |t.plan| else t.k;
    assert t.plan[..|t.plan|] == t.plan;
    PlanKeepsFresh(s.disk, s.next, t.rpc, t.plan, t.reply, k);
  }

  // ---------- Whole runs ----------

  /** The states of a run: any RPCs in any order, each answered or cut short by a crash. */
  ghost predicate IsRun(states: seq<State>, steps: seq<Step>) {
    |states| == |steps| + 1 && forall i | 0 <= i < |steps| :: Next(states[i], steps[i], states[i + 1])
  }

  lemma {:induction false} RunKeepsInv(states: seq<State>, steps: seq<Step>, i: nat)
    requires IsRun(states, steps) && ServerInv(states[0]) && i < |states|
    ensures ServerInv(states[i])
    decreases i
  {
    if i == 0 {
    } else {
      RunKeepsInv(states, steps, i - 1);
      StepKeepsInv(states[i - 1], steps[i - 1], states[i]);
    }
  }

  lemma AbsentIsDead(d: Disk, f: Fid)
    requires TreeInv(d) && f !in d.objs
    ensures !Live(d, f)
  {
    if Live(d, f) {
      PathShape(d, PathTo(d, f));
    }
  }

  predicate Growing(states: seq<State>, steps: seq<Step>) {
    |states| == |steps| + 1 && forall i | 0 <= i < |steps| :: Grows(states[i], steps[i], states[i + 1])
  }

  lemma RunGrows(states: seq<State>, steps: seq<Step>)
    requires IsRun(states, steps) && ServerInv(states[0])
    ensures Growing(states, steps)
  {
    forall i | 0 <= i < |steps| ensures Grows(states[i], steps[i], states[i + 1]) {
      RunKeepsInv(states, steps, i);
      StepKeepsInv(states[i], steps[i], states[i + 1]);
    }
  }

  lemma {:induction false} GrowingNeverReuses(states: seq<State>, steps: seq<Step>, i: nat, j: nat, f: Fid)
    requires Growing(states, steps) && i <= j < |states|
    requires f < states[i].next && f !in states[i].disk.objs
    ensures f !in states[j].disk.objs && f < states[j].next
    decreases j
  {
    if i == j {
    } else {
      GrowingNeverReuses(states, steps, i, j - 1, f);
      assert Grows(states[j - 1], steps[j - 1], states[j - 1 + 1]);
    }
  }

  lemma {:induction false} GrowingEpochs(states: seq<State>, steps: seq<Step>, i: nat, j: nat)
    requires Growing(states, steps) && i <= j < |states|
    ensures if exists m | i <= m < j :: steps[m].Crash? then states[i].epoch < states[j].epoch
            else states[i].epoch == states[j].epoch
    decreases j
  {
    if i == j {
    } else {
      GrowingEpochs(states, steps, i, j - 1);
      assert Grows(states[j - 1], steps[j - 1], states[j - 1 + 1]);
    }
  }

  /** FIDs are never reused and epochs never repeat: what the counter had passed at one moment
      and is not on disk never comes back, and the epoch stays through answered RPCs and grows
      with every restart. */
  lemma NeverReused(states: seq<State>, steps: seq<Step>, i: nat, j: nat, f: Fid)
    requires IsRun(states, steps) && ServerInv(states[0]) && i <= j < |states|
    requires f < states[i].next && f !in states[i].disk.objs
    ensures f !in states[j].disk.objs && f < states[j].next && !Live(states[j].disk, f)
    ensures if exists m | i <= m < j :: steps[m].Crash? then states[i].epoch < states[j].epoch
            else states[i].epoch == states[j].epoch
  {
    RunGrows(states, steps);
    GrowingNeverReuses(states, steps, i, j, f);
    GrowingEpochs(states, steps, i, j);
    RunKeepsInv(states, steps, j);
    AbsentIsDead(states[j].disk, f);
  }

  /** The data directory as it is first set up: the root and its named file. */
  const EMPTY_DISK := Disk(map[ROOT := Obj(0, Dir)], {Named(0, ROOT, "root")})

  lemma EmptyDiskInv(next: Fid, epoch: nat)
    requires ROOT < next && epoch < next
    ensures ServerInv(State(EMPTY_DISK, next, map[], epoch))
  {}

  /** A file that shows has one parent, which is a directory, and exactly one chain of parents,
      which reaches the root. */
  ghost predicate OneChain(d: Disk, f: Fid)
    requires f in View(d)
  {
    var parent := View(d)[f].parent;
    && IsDir(d, parent) && Live(d, parent)
    && IsPath(d, PathTo(d, parent) + [f])
    && forall p | IsPath(d, p) && Last(p) == f :: p == PathTo(d, parent) + [f]
  }

  lemma TreeHasOneChain(d: Disk, f: Fid)
    requires TreeInv(d) && f in View(d)
    ensures OneChain(d, f)
  {
    ParentDepth(d, f);
    forall p | IsPath(d, p) && Last(p) == f ensures p == PathTo(d, f) {
      PathUnique(d, p, PathTo(d, f));
    }
  }

  /** The tree in every state of every run, crashes in the middle of operations included. */
  lemma TreeInEveryRun(states: seq<State>, steps: seq<Step>, i: nat, f: Fid)
    requires IsRun(states, steps) && ServerInv(states[0]) && i < |states| && f in View(states[i].disk)
    ensures OneChain(states[i].disk, f)
  {
    RunKeepsInv(states, steps, i);
    TreeHasOneChain(states[i].disk, f);
  }

  /** After an answered remove the file is gone from every later state. */
  lemma RemovedForGood(states: seq<State>, steps: seq<Step>, i: nat, j: nat)
    requires IsRun(states, steps) && ServerInv(states[0]) && i < j < |states|
    requires steps[i].Answer? && steps[i].rpc.Unmake? && steps[i].reply.Done?
    ensures !Live(states[j].disk, steps[i].reply.fid)
  {
    var s, t, f := states[i], steps[i], steps[i].reply.fid;
    RunKeepsInv(states, steps, i);
    RunKeepsInv(states, steps, i + 1);
    var g := FoundFile(s.disk, s.next, t.rpc, t.plan, t.reply);
    AfterStep(s.disk, t.plan, 0);
    AfterStep(s.disk, t.plan, 1);
    assert t.plan[..2] == t.plan;
    NeverReused(states, steps, i + 1, j, f);
  }

  // ---------- Lookup by fid: the cache against the search ----------

  /** What a search of the whole tree finds. */
  ghost function Search(d: Disk, f: Fid): Option<Path> {
    if Live(d, f) then Some(PathTo(d, f)) else None
  }

  ghost function Depth(d: Disk, f: Fid): nat {
    if Live(d, f) then |PathTo(d, f)| else 0
  }

  lemma ParentDepth(d: Disk, f: Fid)
    requires TreeInv(d) && f in View(d)
    ensures var p := View(d)[f].parent;
      Live(d, f) && Live(d, p) && PathTo(d, f) == PathTo(d, p) + [f] && Depth(d, p) < Depth(d, f)
  {
    var p := View(d)[f].parent;
    LinkedIsLive(d, f);
    PathStep(d, PathTo(d, p), f);
    PathUnique(d, PathTo(d, f), PathTo(d, p) + [f]);
  }

  /** The reverse lookup through the cache, with a search where the cache has no entry. */
  ghost function FindCached(d: Disk, cache: map<Fid, Fid>, f: Fid): Option<Path>
    requires TreeInv(d) && CacheRight(d, cache)
    decreases Depth(d, f)
  {
    if f == ROOT then Some([ROOT])
    else if f in cache then
      ParentDepth(d, f);
      var r := FindCached(d, cache, cache[f]);
      if r.None? then None else Some(r.value + [f])
    else Search(d, f)
  }

  lemma {:induction false} CachedIsSearch(d: Disk, cache: map<Fid, Fid>, f: Fid)
    requires TreeInv(d) && CacheRight(d, cache)
    ensures FindCached(d, cache, f) == Search(d, f)
    decreases Depth(d, f)
  {
    LinkedIsLive(d, f);
    if f == ROOT {
      assert IsPath(d, [ROOT]);
      PathUnique(d, PathTo(d, ROOT), [ROOT]);
    } else if f in cache {
      ParentDepth(d, f);
      CachedIsSearch(d, cache, cache[f]);
    }
  }

  /** In every state of every run the cached lookup of every fid is the search, and the parent
      that a rename finds in the cache is the old directory. */
  lemma CacheAgreesInEveryRun(states: seq<State>, steps: seq<Step>, i: nat, f: Fid)
    requires IsRun(states, steps) && ServerInv(states[0]) && i < |states|
    ensures ServerInv(states[i]) && FindCached(states[i].disk, states[i].cache, f) == Search(states[i].disk, f)
    ensures i < |steps| && steps[i].Answer? && steps[i].rpc.Rename? && steps[i].reply.Done? &&
      steps[i].reply.fid in steps[i].learned
      ==> steps[i].learned[steps[i].reply.fid] == steps[i].rpc.od
  {
    RunKeepsInv(states, steps, i);
    CachedIsSearch(states[i].disk, states[i].cache, f);
    if i < |steps| && steps[i].Answer? && steps[i].rpc.Rename? && steps[i].reply.Done? {
      var s, t := states[i], steps[i];
      assert Next(s, t, states[i + 1]);
      var g := FoundFile(s.disk, s.next, t.rpc, t.plan, t.reply);
      assert CacheRight(s.disk, t.learned);
    }
  }

  /** An answered CREATE, MKDIR or RENAME leaves the file in the cache, with its new directory, and an
      answered REMOVE or RMDIR leaves it out; other entries stay. */
  lemma AnsweredIsCached(s: State, t: Step, s': State)
    requires ServerInv(s) && Next(s, t, s') && t.Answer? && t.reply.Done? && !t.rpc.Lookup?
    ensures match t.rpc
      case Make(dir, _, _) => t.reply.fid in s'.cache && s'.cache[t.reply.fid] == dir
      case Rename(_, _, nd, _) => t.reply.fid in s'.cache && s'.cache[t.reply.fid] == nd
      case _ => t.reply.fid !in s'.cache
    ensures forall f | f in s.cache && f != t.reply.fid :: f in s'.cache && s'.cache[f] == s.cache[f]
  {
    assert forall f | f in s.cache :: f in t.learned && t.learned[f] == s.cache[f];
  }

  lemma PlanLosesNothing(d: Disk, next: Fid, rpc: Rpc, plan: seq<DiskStep>, reply: Reply, k: nat, f: Fid)
    requires TreeInv(d) && FreshAbove(d, next) && Asserted(d, rpc) && Decides(d, next, rpc, plan, reply) && k <= |plan|
    requires f in View(d) && !(rpc.Unmake? && reply == Done(f))
    ensures f in View(After(d, plan, k)) && View(After(d, plan, k))[f].node == View(d)[f].node
  {
    if rpc.Rename? && reply.Done? {
      var g := FoundFile(d, next, rpc, plan, reply);
      RenameConserves(d, g, rpc.od, rpc.on, rpc.nd, rpc.nn, k);
    } else {
      CrashAtomic(d, next, rpc, plan, reply, k);
      if rpc.Make? && reply.Done? {
        assert next !in d.objs;
      }
    }
  }

  /** No step of any run loses a file: whatever showed before shows afterwards, reachable and
      with the same kind and content, except the one file that a remove was asked to take away. */
  lemma NothingLost(s: State, t: Step, s': State, f: Fid)
    requires ServerInv(s) && Next(s, t, s')
    requires f in View(s.disk) && !(t.rpc.Unmake? && t.reply == Done(f))
    ensures f in View(s'.disk) && View(s'.disk)[f].node == View(s.disk)[f].node && Live(s'.disk, f)
  {
    var k := if t.Answer? then |t.plan| else t.k;
    assert t.plan[..|t.plan|] == t.plan;
    StepKeepsInv(s, t, s');
    PlanLosesNothing(s.disk, s.next, t.rpc, t.plan, t.reply, k, f);
    LinkedIsLive(s'.disk, f);
  }
}
