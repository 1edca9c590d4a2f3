/** The cache of parents under concurrency: searches, renames, creates and removes interleave on it,
    and what a search has found may be out of date by the time it is added. */
module CacheRace {
  import opened Content
  import opened Namespace
  import Server = ServerRuns
  import Crash = CrashAtomicity

  type Thread = nat

  /** held: the pairs that a search or a create has yet to add to the cache; removing: files whose
      numbered file is gone, while the cache entry has yet to go; poisoned: a thread has panicked
      while it held the write lock of the cache. */
  datatype State = State(
    disk: Disk, next: Fid, cache: map<Fid, Fid>, held: map<Thread, map<Fid, Fid>>, removing: set<Fid>, poisoned: bool)

  /** A create puts its files on disk; a search reads one link; a thread adds what it holds to the
      cache; a rename moves the numbered file and updates the cache, all under the write lock; a remove
      takes the numbered file, and then the cache entry; named files come and go; the server restarts. */
  datatype Step =
    | Create(t: Thread, dir: Fid, node: Node)
    | Learn(t: Thread, f: Fid)
    | Extend(t: Thread)
    | Rename(f: Fid, od: Fid, nd: Fid)
    | Remove(f: Fid)
    | Forget(f: Fid)
    | NameStep(change: DiskStep)
    | Restart

  /** The file is in this directory. */
  predicate Link(d: Disk, f: Fid, dir: Fid) {
    f in d.objs && d.objs[f].parent == dir
  }

  function Held(s: State, t: Thread): map<Fid, Fid> {
    if t in s.held then s.held[t] else map[]
  }

  predicate NeedsLock(step: Step) {
    step.Extend? || step.Rename? || step.Forget?
  }

  /** The entry that a rename finds is not the old directory: its assertion fails. */
  predicate AssertFails(s: State, step: Step) {
    step.Rename? && step.f in s.cache && s.cache[step.f] != step.od
  }

  /** The write lock of a panicked thread is refused to everybody. A rename of a file that is no
      longer in its old directory is refused by the host and changes nothing. */
  ghost predicate Next(s: State, step: Step, s': State) {
    && (NeedsLock(step) ==> !s.poisoned)
    && match step
       case Create(t, dir, node) =>
         && t !in s.held
         && s' == s.(disk := Do(s.disk, AddNumbered(s.next, dir, node)), next := s.next + 1,
                     held := s.held[t := map[s.next := dir]])
       case Learn(t, f) =>
         && f != ROOT && f in s.disk.objs && Linked(s.disk, f)
         && s' == s.(held := s.held[t := Held(s, t)[f := s.disk.objs[f].parent]])
       case Extend(t) => t in s.held && s' == s.(cache := s.cache + s.held[t], held := s.held - {t})
       case Rename(f, od, nd) =>
         && f != ROOT && Link(s.disk, f, od)
         && s' == s.(disk := Do(s.disk, Move(f, nd)), cache := s.cache[f := nd], poisoned := AssertFails(s, step))
       case Remove(f) =>
         && f != ROOT && f in s.disk.objs
         && s' == s.(disk := Do(s.disk, DelNumbered(f)), removing := s.removing + {f})
       case Forget(f) => f in s.removing && s' == s.(cache := s.cache - {f}, removing := s.removing - {f})
       case NameStep(change) => (change.AddNamed? || change.DelNamed?) && s' == s.(disk := Do(s.disk, change))
       case Restart => s' == s.(cache := map[], held := map[], removing := {}, poisoned := false)
  }

  ghost predicate IsRun(states: seq<State>, steps: seq<Step>) {
    |states| == |steps| + 1 && forall i | 0 <= i < |steps| :: Next(states[i], steps[i], states[i + 1])
  }

  /** Only fids that were handed out are about, and what is being removed is gone. */
  ghost predicate Fresh(s: State) {
    && ROOT < s.next
    && (forall f | f in s.disk.objs || f in s.cache || f in s.removing :: f < s.next)
    && (forall t | t in s.held :: forall f | f in s.held[t] :: f < s.next)
    && (forall f | f in s.removing :: f !in s.disk.objs)
  }

  lemma FreshKept(s: State, step: Step, s': State)
    requires Fresh(s) && Next(s, step, s')
    ensures Fresh(s') && s.next <= s'.next
  {}

  // ---------- When the cache is right ----------

  /** The entry leads to the directory of the file, or is about to go. */
  predicate EntryRight(s: State, f: Fid, dir: Fid) {
    f in s.removing || Link(s.disk, f, dir)
  }

  predicate Right(s: State) {
    forall f | f in s.cache :: EntryRight(s, f, s.cache[f])
  }

  /** Pairs that are not true any more are added. */
  predicate AddsStale(s: State, step: Step) {
    step.Extend? && exists f | f in Held(s, step.t) :: !EntryRight(s, f, Held(s, step.t)[f])
  }

  lemma StaleSpoils(s: State, t: Thread, s': State)
    requires AddsStale(s, Extend(t)) && Next(s, Extend(t), s')
    ensures !Right(s')
  {
    var f :| f in s.held[t] && !EntryRight(s, f, s.held[t][f]);
    assert f in s'.cache && s'.cache[f] == s.held[t][f];
  }

  lemma ExtendKeeps(s: State, t: Thread, s': State)
    requires Right(s) && Next(s, Extend(t), s') && !AddsStale(s, Extend(t))
    ensures Right(s')
  {
    forall f | f in s'.cache ensures EntryRight(s', f, s'.cache[f]) {
      if f in s.held[t] {
        assert f in Held(s, t) && Held(s, t)[f] == s.held[t][f];
      } else {
        assert EntryRight(s, f, s.cache[f]);
      }
    }
  }

  lemma OthersKeep(s: State, step: Step, s': State)
    requires Fresh(s) && Right(s) && Next(s, step, s') && !step.Extend?
    ensures Right(s')
  {
    forall f | f in s'.cache ensures EntryRight(s', f, s'.cache[f]) {
      assert f in s.cache ==> EntryRight(s, f, s.cache[f]);
    }
  }

  /** One step, whosever it is, keeps the cache right exactly if it adds no pair that has become untrue. */
  lemma StepRightExactly(s: State, step: Step, s': State)
    requires Fresh(s) && Right(s) && Next(s, step, s')
    ensures Right(s') <==> !AddsStale(s, step)
  {
    if !step.Extend? {
      OthersKeep(s, step, s');
    } else if AddsStale(s, step) {
      StaleSpoils(s, step.t, s');
    } else {
      ExtendKeeps(s, step.t, s');
    }
  }

  /** Without stale pairs no rename finds another directory in the cache than the old one. */
  lemma NoPanic(s: State, step: Step)
    requires Fresh(s) && Right(s) && step.Rename? && Link(s.disk, step.f, step.od)
    ensures !AssertFails(s, step)
  {}

  lemma {:induction false} FreshInRun(states: seq<State>, steps: seq<Step>, i: nat)
    requires IsRun(states, steps) && Fresh(states[0]) && i < |states|
    ensures Fresh(states[i])
  {
    if i > 0 {
      FreshInRun(states, steps, i - 1);
      assert Next(states[i - 1], steps[i - 1], states[i - 1 + 1]);
      FreshKept(states[i - 1], steps[i - 1], states[i]);
    }
  }

  lemma {:induction false} RightUpTo(states: seq<State>, steps: seq<Step>, i: nat)
    requires IsRun(states, steps) && Fresh(states[0]) && Right(states[0]) && i < |states|
    requires forall j | 0 <= j < i :: !AddsStale(states[j], steps[j])
    ensures Right(states[i])
  {
    if i > 0 {
      RightUpTo(states, steps, i - 1);
      FreshInRun(states, steps, i - 1);
      assert Next(states[i - 1], steps[i - 1], states[i - 1 + 1]);
      StepRightExactly(states[i - 1], steps[i - 1], states[i]);
    }
  }

  /** In every interleaving the cache is right all the way exactly if whatever is added to it is still
      true when it is added; and then no rename panics. */
  lemma RightExactly(states: seq<State>, steps: seq<Step>)
    requires IsRun(states, steps) && Fresh(states[0]) && Right(states[0])
    ensures (forall i | 0 <= i < |states| :: Right(states[i])) <==>
      forall j | 0 <= j < |steps| :: !AddsStale(states[j], steps[j])
    ensures (forall j | 0 <= j < |steps| :: !AddsStale(states[j], steps[j])) ==>
      forall j | 0 <= j < |steps| :: !AssertFails(states[j], steps[j])
  {
    if j :| 0 <= j < |steps| && AddsStale(states[j], steps[j]) {
      FreshInRun(states, steps, j);
      assert Next(states[j], steps[j], states[j + 1]);
      if Right(states[j]) {
        StepRightExactly(states[j], steps[j], states[j + 1]);
      }
    } else {
      forall i | 0 <= i < |states| ensures Right(states[i]) && (i < |steps| ==> !AssertFails(states[i], steps[i])) {
        RightUpTo(states, steps, i);
        FreshInRun(states, steps, i);
        if i < |steps| && steps[i].Rename? {
          assert Next(states[i], steps[i], states[i + 1]);
          NoPanic(states[i], steps[i]);
        }
      }
    }
  }

  /** A pair goes stale only by a rename or a remove of its own file after the search has read it. */
  lemma {:induction false} StaysTrue(states: seq<State>, steps: seq<Step>, i: nat, j: nat, f: Fid, dir: Fid)
    requires IsRun(states, steps) && Fresh(states[0]) && i <= j < |states| && Link(states[i].disk, f, dir)
    requires forall m | i <= m < j :: steps[m] != Remove(f) && !(steps[m].Rename? && steps[m].f == f)
    ensures Link(states[j].disk, f, dir)
    decreases j
  {
    if i < j {
      StaysTrue(states, steps, i, j - 1, f, dir);
      FreshInRun(states, steps, j - 1);
      assert Next(states[j - 1], steps[j - 1], states[j - 1 + 1]);
    }
  }

  /** With no remove under way and every cached file in the tree, this is what the lookups of the
      sequential server rely on: there the cached lookup of every fid is the search. */
  lemma RightFinds(s: State, f: Fid)
    requires TreeInv(s.disk) && Right(s) && s.removing == {}
    requires forall g | g in s.cache :: g in Crash.View(s.disk)
    ensures Server.CacheRight(s.disk, s.cache)
    ensures Server.FindCached(s.disk, s.cache, f) == Server.Search(s.disk, f)
  {
    Server.CachedIsSearch(s.disk, s.cache, f);
  }

  /** What a thread holds stays with it until it acts. */
  lemma {:induction false} HeldStays(states: seq<State>, steps: seq<Step>, i: nat, j: nat, t: Thread)
    requires IsRun(states, steps) && i <= j < |states|
    requires forall m | i <= m < j ::
      steps[m] != Extend(t) && steps[m] != Restart && !(steps[m].Learn? && steps[m].t == t)
    requires t in states[i].held
    ensures t in states[j].held && states[j].held[t] == states[i].held[t]
    decreases j
  {
    if i < j {
      HeldStays(states, steps, i, j - 1, t);
      assert Next(states[j - 1], steps[j - 1], states[j - 1 + 1]);
    }
  }

  /** The directory of a created file gets into the cache, however long that takes. */
  lemma CreatedIsCached(states: seq<State>, steps: seq<Step>, i: nat, j: nat)
    requires IsRun(states, steps) && i < j < |steps| && steps[i].Create? && steps[j] == Extend(steps[i].t)
    requires forall m | i < m < j ::
      steps[m] != Extend(steps[i].t) && steps[m] != Restart && !(steps[m].Learn? && steps[m].t == steps[i].t)
    ensures var f, cache := states[i].next, states[j + 1].cache;
      && Link(states[i + 1].disk, f, steps[i].dir) && f in cache && cache[f] == steps[i].dir
  {
    assert Next(states[i], steps[i], states[i + 1]) && Next(states[j], steps[j], states[j + 1]);
    HeldStays(states, steps, i + 1, j, steps[i].t);
  }

  // ---------- What a wrong entry does ----------

  predicate Wrong(s: State, f: Fid) {
    f in s.cache && !EntryRight(s, f, s.cache[f])
  }

  /** The step may set the entry right: it adds a pair for the file, or removes it, or the server restarts. */
  predicate MayMend(s: State, step: Step, f: Fid) {
    || step == Restart || step == Remove(f)
    || (step.Extend? && f in Held(s, step.t))
  }

  /** A wrong entry stays wrong, whatever the others do, or a rename of its file panics, exactly then. */
  lemma WrongStays(s: State, step: Step, s': State, f: Fid)
    requires Fresh(s) && Next(s, step, s') && Wrong(s, f) && !MayMend(s, step, f)
    ensures if step.Rename? && step.f == f then AssertFails(s, step) && s'.poisoned else Wrong(s', f)
  {}

  /** Once a rename has panicked, nobody changes the cache or moves a file, until the server restarts. */
  lemma {:induction false} PoisonStays(states: seq<State>, steps: seq<Step>, i: nat, j: nat)
    requires IsRun(states, steps) && i <= j < |states| && states[i].poisoned
    requires forall m | i <= m < j :: steps[m] != Restart
    ensures states[j].poisoned && states[j].cache == states[i].cache
    ensures forall m | i <= m < j :: !NeedsLock(steps[m])
    decreases j
  {
    if i < j {
      PoisonStays(states, steps, i, j - 1);
      assert Next(states[j - 1], steps[j - 1], states[j - 1 + 1]);
    }
  }

  /** The fid was handed out, its file is gone, and the remove is over: and yet the cache knows it. */
  predicate Haunted(s: State, f: Fid) {
    f < s.next && f !in s.disk.objs && f !in s.removing && f in s.cache
  }

  /** The entry of a removed file that was added too late stays until the server restarts: its fid never
      comes back, and no search can mend what is not there. */
  lemma {:induction false} HauntedForGood(states: seq<State>, steps: seq<Step>, i: nat, j: nat, f: Fid)
    requires IsRun(states, steps) && Fresh(states[0]) && i <= j < |states| && Haunted(states[i], f)
    requires forall m | i <= m < j :: steps[m] != Restart
    ensures Haunted(states[j], f) && Wrong(states[j], f)
    decreases j
  {
    if i < j {
      HauntedForGood(states, steps, i, j - 1, f);
      FreshInRun(states, steps, j - 1);
      assert Next(states[j - 1], steps[j - 1], states[j - 1 + 1]);
    }
  }

  // ---------- Both really happen ----------

  /** A search has found a file in the root; before it adds the pair, the file is renamed into a
      directory; the next rename of the file panics, and the cache is closed to all. */
  lemma StalePairPanics(s: State, f: Fid, dir: Fid, t: Thread) returns (states: seq<State>, steps: seq<Step>)
    requires Fresh(s) && Right(s) && !s.poisoned && t !in s.held
    requires f != ROOT && dir != ROOT && Link(s.disk, f, ROOT) && Linked(s.disk, f)
    ensures IsRun(states, steps) && states[0] == s &&
      steps == [Learn(t, f), Rename(f, ROOT, dir), Extend(t), Rename(f, dir, ROOT)]
    ensures (forall i | 0 <= i < 3 :: Right(states[i])) && AddsStale(states[2], steps[2]) && Wrong(states[3], f)
    ensures AssertFails(states[3], steps[3]) && states[4].poisoned
  {
    var s1 := s.(held := s.held[t := map[f := ROOT]]);
    var s2 := s1.(disk := Do(s.disk, Move(f, dir)), cache := s.cache[f := dir]);
    var s3 := s2.(cache := s2.cache + s2.held[t], held := s2.held - {t});
    var s4 := s3.(disk := Do(s2.disk, Move(f, ROOT)), cache := s3.cache[f := ROOT], poisoned := true);
    steps := [Learn(t, f), Rename(f, ROOT, dir), Extend(t), Rename(f, dir, ROOT)];
    states := [s, s1, s2, s3, s4];
    assert Held(s, t)[f := ROOT] == map[f := ROOT];
    assert f in Held(s2, t) && !EntryRight(s2, f, Held(s2, t)[f]);
  }

  /** A search has found a file; before it adds the pair, the file is removed: its entry is there for good. */
  lemma StalePairHaunts(s: State, f: Fid, t: Thread) returns (states: seq<State>, steps: seq<Step>)
    requires Fresh(s) && Right(s) && !s.poisoned && t !in s.held
    requires f != ROOT && f in s.disk.objs && Linked(s.disk, f)
    ensures IsRun(states, steps) && states[0] == s && steps == [Learn(t, f), Remove(f), Forget(f), Extend(t)]
    ensures (forall i | 0 <= i < 4 :: Right(states[i])) && AddsStale(states[3], steps[3]) && Haunted(states[4], f)
  {
    var dir: Fid := s.disk.objs[f].parent;
    var s1 := s.(held := s.held[t := map[f := dir]]);
    var s2 := s1.(disk := Do(s.disk, DelNumbered(f)), removing := s.removing + {f});
    var s3 := s2.(cache := s.cache - {f}, removing := s2.removing - {f});
    var s4 := s3.(cache := s3.cache + s3.held[t], held := s3.held - {t});
    steps := [Learn(t, f), Remove(f), Forget(f), Extend(t)];
    states := [s, s1, s2, s3, s4];
    assert Held(s, t)[f := dir] == map[f := dir];
    assert f in Held(s3, t) && !EntryRight(s3, f, Held(s3, t)[f]);
  }
}
