/** What a handler of the name server does between two moments of an incarnation: a step of the
    model, or a panic, which may leave a name locked for good. */
module Handlers {
  import opened Content
  import opened Namespace
  import opened CrashAtomicity
  import opened ServerRuns

  type LockKey = (Path, Name)

  /** The server between two requests: its state, the disk steps it has taken, the locked names. */
  datatype Moment = Moment(s: State, taken: seq<DiskStep>, lock: set<LockKey>)

  /** A request, its reply if there is one, and the step of the model that it is. */
  datatype Handling = Handling(rpc: Rpc, reply: Option<Reply>, t: Step)

  // ---------- Requests that fail an assertion ----------

  /** The name is locked and never released; a handler that finds it locked answers EXIST. */
  predicate LeavesLocked(key: LockKey, lock: set<LockKey>, reply: Option<Reply>, lock': set<LockKey>) {
    lock' == lock + {key} && reply == if key in lock then Some(Fail(EXIST)) else None
  }

  /** What becomes of a request that fails an assertion: the handler panics, without a reply. CREATE
      and MKDIR have locked the name by then, and RENAME the new name, if only that one is wrong. */
  ghost predicate MayPanic(d: Disk, rpc: Rpc, lock: set<LockKey>, reply: Option<Reply>, lock': set<LockKey>)
    requires !Asserted(d, rpc)
  {
    match rpc
    case Make(dir, name, _) => LeavesLocked((PathTo(d, dir), name), lock, reply, lock')
    case Rename(od, on, nd, nn) =>
      if on == "" || !IsDir(d, od) then reply.None? && lock' == lock
      else LeavesLocked((PathTo(d, nd), nn), lock, reply, lock')
    case _ => reply.None? && lock' == lock
  }

  /** The names that panics have left locked are empty or in something that is no directory, and
      that will never be one, since its fid has been handed out. */
  predicate Stuck(d: Disk, next: Fid, lock: set<LockKey>) {
    forall key | key in lock :: key.1 == "" || (Last(key.0) < next && !IsDir(d, Last(key.0)))
  }

  lemma StuckMore(d: Disk, next: Fid, dir: Fid, name: Name, lock: set<LockKey>)
    requires Rooted(d) && FreshAbove(d, next) && Stuck(d, next, lock) && Live(d, dir) && (name == "" || !IsDir(d, dir))
    ensures Stuck(d, next, lock + {(PathTo(d, dir), name)})
  {
    PathShape(d, PathTo(d, dir));
  }

  // ---------- Outcomes ----------

  /** What a handler has done between two moments: one step of the model, taking the disk steps of
      its plan in order; or a panic, which changes no more than the cache and perhaps the lock. */
  ghost predicate Handled(m: Moment, h: Handling, m': Moment) {
    if Asserted(m.s.disk, h.rpc) then
      && h.t.Answer? && h.t.rpc == h.rpc && Some(h.t.reply) == h.reply && Next(m.s, h.t, m'.s)
      && m'.taken == m.taken + h.t.plan && m'.lock == m.lock
    else
      && m'.s == m.s.(cache := m'.s.cache) && Learned(m.s.disk, m.s.cache, m'.s.cache) && m'.taken == m.taken
      && MayPanic(m.s.disk, h.rpc, m.lock, h.reply, m'.lock)
  }

  /** The invariant of the object. */
  ghost predicate Sane(m: Moment) {
    ServerInv(m.s) && Stuck(m.s.disk, m.s.next, m.lock)
  }

  function AnsweredAs(rpc: Rpc, plan: seq<DiskStep>, reply: Reply, learned: map<Fid, Fid>): Handling {
    Handling(rpc, Some(reply), Answer(rpc, plan, reply, learned))
  }

  /** The moment after an answer: the steps of the plan are taken and the cache is brought up to date. */
  function AfterAnswer(m: Moment, disk: Disk, next: Fid, cache: map<Fid, Fid>, plan: seq<DiskStep>): Moment {
    Moment(State(disk, next, cache, m.s.epoch), m.taken + plan, m.lock)
  }

  function Learning(m: Moment, learned: map<Fid, Fid>): Moment {
    m.(s := m.s.(cache := learned))
  }

  /** A request that ends before any disk step, with what the lookups have added to the cache. */
  lemma NoSteps(m: Moment, rpc: Rpc, reply: Reply, learned: map<Fid, Fid>)
    requires Sane(m) && Asserted(m.s.disk, rpc) && Learned(m.s.disk, m.s.cache, learned)
    requires Decides(m.s.disk, m.s.next, rpc, [], reply) && (reply.Done? ==> rpc.Lookup?)
    ensures Handled(m, AnsweredAs(rpc, [], reply, learned), Learning(m, learned)) && Sane(Learning(m, learned))
  {
    StepKeepsInv(m.s, Answer(rpc, [], reply, learned), m.s.(cache := learned));
    assert m.taken + [] == m.taken;
  }

  /** A panic, and what it leaves in the lock. */
  lemma Panicked(m: Moment, h: Handling, learned: map<Fid, Fid>, lock: set<LockKey>)
    requires Sane(m) && !Asserted(m.s.disk, h.rpc) && Learned(m.s.disk, m.s.cache, learned)
    requires MayPanic(m.s.disk, h.rpc, m.lock, h.reply, lock)
    ensures Handled(m, h, Learning(m, learned).(lock := lock)) && Sane(Learning(m, learned).(lock := lock))
  {
    var d := m.s.disk;
    match h.rpc
    case Make(dir, name, _) => StuckMore(d, m.s.next, dir, name, m.lock);
    case Rename(od, on, nd, nn) => StuckMore(d, m.s.next, nd, if nn == "" || !IsDir(d, nd) then nn else "", m.lock);
    case _ =>
  }

  /** A step of the model that makes no directory of an old fid keeps the invariant of the object. */
  lemma StepKeepsSane(m: Moment, t: Step, m': Moment)
    requires Sane(m) && Next(m.s, t, m'.s) && m'.lock == m.lock
    requires forall f: Fid | f < m.s.next && IsDir(m'.s.disk, f) :: IsDir(m.s.disk, f)
    ensures Sane(m')
  {
    StepKeepsInv(m.s, t, m'.s);
  }

  /** An answered CREATE or MKDIR, as the object reaches it. */
  lemma MakeDone(m: Moment, dir: Fid, name: Name, isFile: bool)
    requires Sane(m) && Live(m.s.disk, dir) && IsDir(m.s.disk, dir) && name != "" && !Taken(m.s.disk, dir, name)
    ensures var a, b := AddNumbered(m.s.next, dir, NewNode(isFile)), AddNamed(Named(dir, m.s.next, name));
      var m' := AfterAnswer(m, Do(Do(m.s.disk, a), b), m.s.next + 1, m.s.cache[m.s.next := dir], [a, b]);
      Handled(m, AnsweredAs(Make(dir, name, isFile), [a, b], Done(m.s.next), m.s.cache), m') && Sane(m')
  {
    var a, b := AddNumbered(m.s.next, dir, NewNode(isFile)), AddNamed(Named(dir, m.s.next, name));
    ExecTwo(m.s.disk, a, b);
    StepKeepsSane(m, Answer(Make(dir, name, isFile), [a, b], Done(m.s.next), m.s.cache),
                  AfterAnswer(m, Do(Do(m.s.disk, a), b), m.s.next + 1, m.s.cache[m.s.next := dir], [a, b]));
  }

  lemma UnmakeDone(m: Moment, dir: Fid, name: Name, isFile: bool, f: Fid)
    requires Sane(m) && Live(m.s.disk, dir) && IsDir(m.s.disk, dir) && name != ""
    requires Called(m.s.disk, Named(dir, f, name), dir, name)
    requires if isFile then !IsDir(m.s.disk, f) else IsDir(m.s.disk, f) && Empty(m.s.disk, f)
    ensures var a, b := DelNumbered(f), DelNamed(Named(dir, f, name));
      var m' := AfterAnswer(m, Do(Do(m.s.disk, a), b), m.s.next, m.s.cache - {f}, [a, b]);
      Handled(m, AnsweredAs(Unmake(dir, name, isFile), [a, b], Done(f), m.s.cache), m') && Sane(m')
  {
    var a, b := DelNumbered(f), DelNamed(Named(dir, f, name));
    ExecTwo(m.s.disk, a, b);
    StepKeepsSane(m, Answer(Unmake(dir, name, isFile), [a, b], Done(f), m.s.cache),
                  AfterAnswer(m, Do(Do(m.s.disk, a), b), m.s.next, m.s.cache - {f}, [a, b]));
  }

  /** What RENAME has found out by the time it changes the disk. */
  ghost predicate MayRename(s: State, f: Fid, od: Fid, on: Name, nd: Fid, nn: Name) {
    && Asserted(s.disk, Rename(od, on, nd, nn)) && Live(s.disk, od) && Live(s.disk, nd)
    && Called(s.disk, Named(od, f, on), od, on) && !Taken(s.disk, nd, nn)
  }

  /** A RENAME that the host refuses, after the new named file has been made. */
  lemma RenameRefused(m: Moment, f: Fid, od: Fid, on: Name, nd: Fid, nn: Name)
    requires Sane(m) && MayRename(m.s, f, od, on, nd, nn) && f in PathTo(m.s.disk, nd)
    ensures var a := AddNamed(Named(nd, f, nn));
      var m' := AfterAnswer(m, Do(m.s.disk, a), m.s.next, m.s.cache, [a]);
      Handled(m, AnsweredAs(Rename(od, on, nd, nn), [a], Fail(IOERR), m.s.cache), m') && Sane(m')
  {
    var a := AddNamed(Named(nd, f, nn));
    assert Exec(m.s.disk, [a]) == Exec(Do(m.s.disk, a), []);
    StepKeepsSane(m, Answer(Rename(od, on, nd, nn), [a], Fail(IOERR), m.s.cache),
                  AfterAnswer(m, Do(m.s.disk, a), m.s.next, m.s.cache, [a]));
  }

  lemma RenameDecided(d: Disk, next: Fid, f: Fid, od: Fid, on: Name, nd: Fid, nn: Name)
    requires Live(d, od) && Live(d, nd) && Called(d, Named(od, f, on), od, on) && !Taken(d, nd, nn) &&
      f !in PathTo(d, nd)
    ensures Decides(d, next, Rename(od, on, nd, nn), RenamePlan(f, od, on, nd, nn), Done(f))
  {
    assert DecidesRename(d, f, od, on, nd, nn, RenamePlan(f, od, on, nd, nn), Done(f));
    assert Called(d, Named(od, f, on), od, on) && Named(od, f, on).fid == f;
  }

  /** The disk after the three steps of a RENAME. */
  function Renamed(d: Disk, f: Fid, od: Fid, on: Name, nd: Fid, nn: Name): Disk {
    Do(Do(Do(d, AddNamed(Named(nd, f, nn))), Move(f, nd)), DelNamed(Named(od, f, on)))
  }

  lemma RenameNext(s: State, f: Fid, od: Fid, on: Name, nd: Fid, nn: Name)
    requires MayRename(s, f, od, on, nd, nn) && f !in PathTo(s.disk, nd)
    ensures Next(s, Answer(Rename(od, on, nd, nn), RenamePlan(f, od, on, nd, nn), Done(f), s.cache),
                 State(Renamed(s.disk, f, od, on, nd, nn), s.next, s.cache[f := nd], s.epoch))
  {
    ExecThree(s.disk, AddNamed(Named(nd, f, nn)), Move(f, nd), DelNamed(Named(od, f, on)));
    RenameDecided(s.disk, s.next, f, od, on, nd, nn);
  }

  lemma RenameFinished(m: Moment, f: Fid, od: Fid, on: Name, nd: Fid, nn: Name)
    requires Sane(m) && MayRename(m.s, f, od, on, nd, nn) && f !in PathTo(m.s.disk, nd)
    ensures var plan := RenamePlan(f, od, on, nd, nn);
      var m' := AfterAnswer(m, Renamed(m.s.disk, f, od, on, nd, nn), m.s.next, m.s.cache[f := nd], plan);
      Handled(m, AnsweredAs(Rename(od, on, nd, nn), plan, Done(f), m.s.cache), m') && Sane(m')
  {
    var plan := RenamePlan(f, od, on, nd, nn);
    RenameNext(m.s, f, od, on, nd, nn);
    StepKeepsSane(m, Answer(Rename(od, on, nd, nn), plan, Done(f), m.s.cache),
                  AfterAnswer(m, Renamed(m.s.disk, f, od, on, nd, nn), m.s.next, m.s.cache[f := nd], plan));
  }

  /** Lookups by fid come first and only add to the cache. */
  lemma AfterLookups(m: Moment, learned: map<Fid, Fid>, h: Handling, m': Moment)
    requires Learned(m.s.disk, m.s.cache, learned) && h.t.Answer? && h.t.learned == learned
    requires !Asserted(m.s.disk, h.rpc) ==> m'.s.cache == learned
    requires Handled(Learning(m, learned), h, m')
    ensures Handled(m, h, m')
  {}

  // ---------- An incarnation at work ----------

  /** A request that is handled leaves the object in its invariant. */
  lemma HandledKeepsSane(m: Moment, h: Handling, m': Moment)
    requires Sane(m) && Handled(m, h, m')
    ensures Sane(m') && m.lock <= m'.lock
  {
    if Asserted(m.s.disk, h.rpc) {
      forall i | 0 <= i < |h.t.plan| ensures h.t.plan[i].AddNumbered? ==> h.t.plan[i].fid == m.s.next {
        PlanKnown(m.s.disk, m.s.next, h.rpc, h.t.plan, h.t.reply, i);
      }
      forall f: Fid | f < m.s.next && IsDir(m'.s.disk, f) ensures IsDir(m.s.disk, f) {
        ContentKept(m.s.disk, h.t.plan, f);
      }
      StepKeepsSane(m, h.t, m');
    } else {
      Panicked(m, h, m'.s.cache, m'.lock);
    }
  }

  /** Any requests, one after the other. */
  ghost predicate Works(ms: seq<Moment>, hs: seq<Handling>) {
    |ms| == |hs| + 1 && Sane(ms[0]) && forall i | 0 <= i < |hs| :: Handled(ms[i], hs[i], ms[i + 1])
  }

  lemma {:induction false} WorkKeepsSane(ms: seq<Moment>, hs: seq<Handling>, i: nat, j: nat)
    requires Works(ms, hs) && i <= j < |ms|
    ensures Sane(ms[j]) && ms[i].lock <= ms[j].lock
    decreases j
  {
    if j == 0 {
    } else {
      WorkKeepsSane(ms, hs, if i < j then i else j - 1, j - 1);
      HandledKeepsSane(ms[j - 1], hs[j - 1], ms[j - 1 + 1]);
    }
  }

  /** The name that a request which meets its assertions goes on to lock, if it gets so far. */
  ghost predicate Acquires(d: Disk, rpc: Rpc, key: LockKey) {
    match rpc
    case Make(dir, name, _) => Live(d, dir) && IsDir(d, dir) && key == (PathTo(d, dir), name)
    case Rename(od, on, nd, nn) => Live(d, od) && Live(d, nd) && Taken(d, od, on) && key == (PathTo(d, nd), nn)
    case _ => false
  }

  /** Over all requests that an incarnation handles: a name that a panic has left locked stays
      locked, and yet no later request that meets its assertions finds its name locked. */
  lemma LeaksAreHarmless(ms: seq<Moment>, hs: seq<Handling>, i: nat, j: nat, leaked: LockKey, key: LockKey)
    requires Works(ms, hs) && i <= j < |hs| && leaked in ms[i].lock
    ensures leaked in ms[j].lock
    ensures Asserted(ms[j].s.disk, hs[j].rpc) && Acquires(ms[j].s.disk, hs[j].rpc, key) ==> key !in ms[j].lock
  {
    WorkKeepsSane(ms, hs, i, j);
  }

  /** RENAME of an existing file into something that is no directory. */
  ghost predicate IntoFile(d: Disk, rpc: Rpc, key: LockKey) {
    && rpc.Rename? && rpc.on != "" && Live(d, rpc.od) && IsDir(d, rpc.od) && Taken(d, rpc.od, rpc.on)
    && Live(d, rpc.nd) && !IsDir(d, rpc.nd) && key == (PathTo(d, rpc.nd), rpc.nn)
  }

  /** Over all requests that an incarnation handles: the first RENAME to a name in something that is
      no directory panics and leaves the name locked; every later one to that name, of whatever file,
      is answered that the name exists. None of them changes the disk. */
  lemma RenameIntoFile(ms: seq<Moment>, hs: seq<Handling>, i: nat, j: nat, key: LockKey)
    requires Works(ms, hs) && i < j < |hs|
    requires IntoFile(ms[i].s.disk, hs[i].rpc, key) && IntoFile(ms[j].s.disk, hs[j].rpc, key)
    ensures hs[i].reply == (if key in ms[i].lock then Some(Fail(EXIST)) else None) && ms[i + 1].s.disk == ms[i].s.disk
    ensures hs[j].reply == Some(Fail(EXIST)) && ms[j + 1].s.disk == ms[j].s.disk
  {
    assert Handled(ms[i], hs[i], ms[i + 1]) && Handled(ms[j], hs[j], ms[j + 1]);
    WorkKeepsSane(ms, hs, i + 1, j);
  }
}
