/** The persistent counter that hands out file ids and epochs: one word in a mapped file,
    incremented under a lock and flushed before its old value is returned. */
module Counter {

  /** The number of values of the machine word that holds the counter. */
  const WORD: nat := 0x1_0000_0000_0000_0000

  type Caller = nat

  /** How far a thread is in a call: the lock is held, the word is incremented, it is flushed. */
  datatype Phase = Locked | Added(v: nat) | Flushed(v: nat)

  /** The counts are kept unwrapped; the word in memory and on disk is the count modulo WORD.
      returned lists the results of all finished calls of all incarnations, oldest first. */
  datatype State = State(mem: nat, disk: nat, calls: map<Caller, Phase>, returned: seq<nat>)

  datatype Step =
    | Acquire(t: Caller)
    | Add(t: Caller)
    | Flush(t: Caller)
    | Return(t: Caller)
    | WriteBack(count: nat)
    | Crash

  /** The mutex is free: no call is between taking and releasing it. */
  predicate Free(s: State) {
    s.calls == map[]
  }

  /** The host may write the mapped page back at any time; a crash keeps what reached the disk. */
  predicate Next(s: State, step: Step, s': State) {
    match step
    case Acquire(t) => Free(s) && s' == s.(calls := map[t := Locked])
    case Add(t) => t in s.calls && s.calls[t] == Locked &&
      s' == s.(mem := s.mem + 1, calls := s.calls[t := Added(s.mem)])
    case Flush(t) => t in s.calls && s.calls[t].Added? &&
      s' == s.(disk := s.mem, calls := s.calls[t := Flushed(s.calls[t].v)])
    case Return(t) => t in s.calls && s.calls[t].Flushed? &&
      s' == s.(calls := s.calls - {t}, returned := s.returned + [s.calls[t].v])
    case WriteBack(count) => s.disk <= count <= s.mem && s' == s.(disk := count)
    case Crash => s' == s.(mem := s.disk, calls := map[])
  }

  predicate Increasing(vs: seq<nat>) {
    forall i, j | 0 <= i < j < |vs| :: vs[i] < vs[j]
  }

  /** No call is between incrementing the word and flushing it. */
  predicate NoneUnflushed(s: State) {
    forall t | t in s.calls :: !s.calls[t].Added?
  }

  predicate Inv(s: State) {
    && s.disk <= s.mem
    && (NoneUnflushed(s) ==> s.disk == s.mem)
    && (forall t, u | t in s.calls && u in s.calls :: t == u)
    && (forall t | t in s.calls && s.calls[t].Added? :: s.calls[t].v + 1 == s.mem)
    && (forall t | t in s.calls && s.calls[t].Flushed? :: s.calls[t].v + 1 == s.mem == s.disk)
    && (forall v | v in s.returned :: v < s.disk && forall t | t in s.calls && !s.calls[t].Locked? :: v < s.calls[t].v)
    && Increasing(s.returned)
  }

  lemma StepKeepsInv(s: State, step: Step, s': State)
    requires Inv(s) && Next(s, step, s')
    ensures Inv(s')
  {
    if step.Add? {
      assert s'.calls[step.t].Added?;
    } else if step.Acquire? || step.WriteBack? {
      assert NoneUnflushed(s') ==> NoneUnflushed(s);
    } else if step.Return? {
      var v := s.calls[step.t].v;
      forall u | u in s.returned ensures u < v {
        assert step.t in s.calls && !s.calls[step.t].Locked?;
      }
      assert forall i | 0 <= i < |s.returned| :: s.returned[i] in s.returned;
      assert forall u | u in s.returned + [v] :: u in s.returned || u == v;
    }
  }

  predicate IsRun(states: seq<State>, steps: seq<Step>) {
    |states| == |steps| + 1 && forall i | 0 <= i < |steps| :: Next(states[i], steps[i], states[i + 1])
  }

  /** A fresh machine: nothing running, nothing handed out. */
  predicate Init(s: State) {
    s.mem == s.disk && s.calls == map[] && s.returned == []
  }

  lemma {:induction false} RunKeepsInv(states: seq<State>, steps: seq<Step>, i: nat)
    requires IsRun(states, steps) && Init(states[0]) && i < |states|
    ensures Inv(states[i])
    decreases i
  {
    if i == 0 {
    } else {
      RunKeepsInv(states, steps, i - 1);
      StepKeepsInv(states[i - 1], steps[i - 1], states[i]);
    }
  }

  /** What a caller sees of a count. */
  function Word(count: nat): nat {
    count % WORD
  }

  lemma SameWord(a: nat, b: nat)
    requires a < b
    ensures Word(a) == Word(b) ==> WORD <= b - a
  {
    assert a == WORD * (a / WORD) + a % WORD && b == WORD * (b / WORD) + b % WORD;
    if Word(a) == Word(b) {
      assert b - a == WORD * (b / WORD - a / WORD);
    }
  }

  /** No reuse across crashes: in any interleaving of threads, with crashes between any two
      steps, later results are larger, and two calls see the same word only if the counter has
      gone all the way around between them. */
  lemma NeverReturnsTwice(states: seq<State>, steps: seq<Step>, k: nat, i: nat, j: nat)
    requires IsRun(states, steps) && Init(states[0]) && k < |states|
    requires i < j < |states[k].returned|
    ensures var vs := states[k].returned;
      vs[i] < vs[j] && (Word(vs[i]) == Word(vs[j]) ==> WORD <= vs[j] - vs[i])
  {
    RunKeepsInv(states, steps, k);
    SameWord(states[k].returned[i], states[k].returned[j]);
  }

  lemma Quotient(a: nat, q: nat, r: nat)
    requires r < WORD && a == WORD * q + r
    ensures a % WORD == r
  {
    assert a == WORD * (a / WORD) + a % WORD;
    assert WORD * (a / WORD - q) == r - a % WORD;
  }

  lemma WordComesBack(v: nat)
    ensures Word(v) == Word(v + WORD)
  {
    Quotient(v + WORD, v / WORD + 1, v % WORD);
  }

  lemma RunSnoc(states: seq<State>, steps: seq<Step>, step: Step, s: State)
    requires IsRun(states, steps) && Next(states[|steps|], step, s)
    ensures IsRun(states + [s], steps + [step])
  {}

  /** Whole calls, one after the other, hand out one count after the other. */
  lemma {:induction false} CallsInARow(s: State, n: nat) returns (states: seq<State>, steps: seq<Step>)
    requires Free(s) && s.mem == s.disk
    ensures IsRun(states, steps) && states[0] == s
    ensures states[|steps|] == State(s.mem + n, s.mem + n, map[], s.returned + seq(n, i => s.mem + i))
    decreases n
  {
    if n == 0 {
      states, steps := [s], [];
      assert s.returned + seq(n, i => s.mem + i) == s.returned;
    } else {
      states, steps := CallsInARow(s, n - 1);
      var v, returned := s.mem + n - 1, states[|steps|].returned;
      var locked := State(v, v, map[0 := Locked], returned);
      var added := State(v + 1, v, map[0 := Added(v)], returned);
      var flushed := State(v + 1, v + 1, map[0 := Flushed(v)], returned);
      var done := State(v + 1, v + 1, map[], returned + [v]);
      assert flushed.calls - {0} == map[];
      RunSnoc(states, steps, Acquire(0), locked);
      RunSnoc(states + [locked], steps + [Acquire(0)], Add(0), added);
      RunSnoc(states + [locked] + [added], steps + [Acquire(0)] + [Add(0)], Flush(0), flushed);
      RunSnoc(states + [locked] + [added] + [flushed], steps + [Acquire(0)] + [Add(0)] + [Flush(0)], Return(0), done);
      states := states + [locked] + [added] + [flushed] + [done];
      steps := steps + [Acquire(0)] + [Add(0)] + [Flush(0)] + [Return(0)];
      assert s.returned + seq(n, i => s.mem + i) == (s.returned + seq(n - 1, i => s.mem + i)) + [v];
    }
  }

  /** The bound is exact: from every count there is a run in which the word that is returned first
      is returned again, WORD calls later. */
  lemma WrapsAround(v: nat) returns (states: seq<State>, steps: seq<Step>)
    ensures IsRun(states, steps) && Init(states[0]) && states[0].mem == v
    ensures var vs := states[|steps|].returned;
      |vs| == WORD + 1 && vs[0] == v && Word(vs[0]) == Word(vs[WORD]) &&
        forall i | 0 < i < WORD :: Word(vs[i]) != Word(vs[0])
  {
    states, steps := CallsInARow(State(v, v, map[], []), WORD + 1);
    WordComesBack(v);
    var vs := states[|steps|].returned;
    forall i | 0 < i < WORD ensures Word(vs[i]) != Word(vs[0]) {
      SameWord(v, vs[i]);
    }
  }

  // ---------- What one stretch of a run hands out ----------

  /** How many calls have incremented the word and not returned yet. */
  function Underway(s: State): nat {
    if exists t | t in s.calls :: !s.calls[t].Locked? then 1 else 0
  }

  /** Every step but a crash keeps the balance of counts handed out. */
  lemma Balance(s: State, step: Step, s': State)
    requires Inv(s) && Next(s, step, s') && step != Crash
    ensures s'.mem - Underway(s') - |s'.returned| == s.mem - Underway(s) - |s.returned|
  {
    match step
    case Acquire(t) => assert s'.calls[t].Locked?;
    case Add(t) => assert s.calls[t].Locked? && s'.calls[t].Added?;
    case Flush(t) => assert s.calls[t].Added? && s'.calls[t].Flushed?;
    case Return(t) => assert s.calls[t].Flushed? && s'.calls == map[];
    case WriteBack(_) =>
  }

  /** What has been returned between two states. */
  function New(s: State, s': State): seq<nat>
    requires s.returned <= s'.returned
  {
    s'.returned[|s.returned|..]
  }

  /** Without a crash the counts come out one by one, from the one in memory at the start. */
  lemma {:induction false} InOrder(states: seq<State>, steps: seq<Step>, i: nat, j: nat)
    requires IsRun(states, steps) && Init(states[0]) && i <= j < |states| && Free(states[i])
    requires forall m | i <= m < j :: steps[m] != Crash
    ensures var s, s' := states[i], states[j];
      && s.returned <= s'.returned && s'.mem == s.mem + |New(s, s')| + Underway(s')
      && New(s, s') == seq(|New(s, s')|, n => s.mem + n)
    decreases j
  {
    RunKeepsInv(states, steps, j);
    if i == j {
    } else {
      InOrder(states, steps, i, j - 1);
      RunKeepsInv(states, steps, j - 1);
      var s, s1, s', step := states[i], states[j - 1], states[j], steps[j - 1];
      assert Next(s1, step, states[j - 1 + 1]);
      Balance(s1, step, s');
      if step.Return? {
        assert s1.calls[step.t].v + 1 == s1.mem && Underway(s1) == 1;
        assert New(s, s') == New(s, s1) + [s1.calls[step.t].v];
      }
    }
  }

  lemma {:induction false} DiskKept(states: seq<State>, steps: seq<Step>, i: nat, j: nat)
    requires IsRun(states, steps) && Init(states[0]) && i <= j < |states| && Free(states[i])
    requires forall m | i <= m < j :: steps[m] != Crash
    ensures states[i].mem <= states[j].disk
    decreases j
  {
    RunKeepsInv(states, steps, i);
    if i == j {
    } else {
      DiskKept(states, steps, i, j - 1);
      RunKeepsInv(states, steps, j - 1);
      assert Next(states[j - 1], steps[j - 1], states[j - 1 + 1]);
    }
  }

  /** A restart: what is handed out next, as the epoch of the new incarnation, is no earlier than
      the count at the start and than everything returned before the crash. */
  lemma AfterRestart(states: seq<State>, steps: seq<Step>, i: nat, c: nat, j: nat)
    requires IsRun(states, steps) && Init(states[0]) && i <= c < j < |states| && Free(states[i]) && Free(states[j])
    requires forall m | i <= m < j :: steps[m] == Crash <==> m == c
    requires states[c + 1].returned <= states[j].returned && |New(states[c + 1], states[j])| == 1
    ensures states[i].returned <= states[c].returned
    ensures var epoch := New(states[c + 1], states[j])[0];
      states[i].mem + |New(states[i], states[c])| <= epoch && states[j].mem == epoch + 1
  {
    InOrder(states, steps, i, c);
    RunKeepsInv(states, steps, i);
    RunKeepsInv(states, steps, c);
    assert Next(states[c], steps[c], states[c + 1]);
    InOrder(states, steps, c + 1, j);
    assert states[j].mem == states[c].disk + 1;
    var before := New(states[i], states[c]);
    if before != [] {
      assert before[|before| - 1] == states[i].mem + |before| - 1;
      assert states[c].returned[|states[c].returned| - 1] == before[|before| - 1];
      assert before[|before| - 1] in states[c].returned;
    } else {
      DiskKept(states, steps, i, c);
    }
    assert states[i].disk == states[i].mem && New(states[c + 1], states[j])[0] == states[c].disk;
  }

  /** The counter as the object that one thread at a time uses. */
  class AtomicPersistentUsize {
    var counter: nat
    var flushed: nat

    ghost predicate Valid()
      reads this
    {
      counter < WORD && flushed < WORD
    }

    constructor FromFile(onDisk: nat)
      requires onDisk < WORD
      ensures Valid() && counter == flushed == onDisk
    {
      counter, flushed := onDisk, onDisk;
    }

    /** Fetch, add one with wrap-around, flush, and return the old value. */
    method FetchInc() returns (val: nat)
      requires Valid()
      modifies this
      ensures Valid() && val == old(counter) && counter == flushed == Word(val + 1)
    {
      val := counter;
      counter := if counter + 1 == WORD then 0 else counter + 1;
      assert counter == Word(val + 1) by {
        Quotient(val + 1, if val + 1 == WORD then 1 else 0, counter);
      }
      flushed := counter;
    }
  }
}
