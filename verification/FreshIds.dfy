/** Where fids and epochs come from: a name server whose ids are results of the persistent counter
    takes just the steps of the model, and its restarts are restarts of the write protocol. */
module FreshIds {
  import opened Content
  import opened Namespace
  import opened CrashAtomicity
  import opened ServerRuns
  import C = Counter
  import P = Protocol

  /** The fid a plan uses up. */
  function Fids(plan: seq<DiskStep>): seq<nat> {
    if Used(plan) == 1 then [plan[0].fid] else []
  }

  /** A step of the server in which fids and epochs may be anything. */
  ghost predicate NextAny(s: State, t: Step, s': State) {
    && Asserted(s.disk, t.rpc)
    && (exists fid :: Decides(s.disk, fid, t.rpc, t.plan, t.reply))
    && match t
       case Answer(rpc, plan, reply, learned) =>
         && Learned(s.disk, s.cache, learned)
         && s'.disk == Exec(s.disk, plan) && s'.cache == Cached(learned, rpc, reply) && s'.epoch == s.epoch
       case Crash(rpc, plan, reply, k, newEpoch) =>
         && k <= |plan|
         && s'.disk == After(s.disk, plan, k) && s'.cache == map[] && s'.epoch == newEpoch
  }

  /** What happens at the counter during a step, from its state i to its state j: an answered
      request draws its fid, if it needs one. A crash at step c may come before the fid is drawn,
      if no disk step has been taken yet, and the plan is then the one it would have had; the next
      incarnation draws its epoch. */
  ghost predicate Draws(cs: seq<C.State>, csteps: seq<C.Step>, i: nat, c: nat, j: nat, t: Step)
    requires C.IsRun(cs, csteps)
  {
    && i <= j < |cs| && C.Free(cs[i]) && C.Free(cs[j])
    && match t
       case Answer(_, plan, _, _) =>
         && (forall m | i <= m < j :: csteps[m] != C.Crash)
         && cs[i].returned <= cs[j].returned && C.New(cs[i], cs[j]) == Fids(plan)
       case Crash(_, plan, _, k, newEpoch) =>
         && i <= c < j && (forall m | i <= m < j :: csteps[m] == C.Crash <==> m == c)
         && cs[i].returned <= cs[c].returned && cs[c + 1].returned <= cs[j].returned
         && (C.New(cs[i], cs[c]) == Fids(plan) ||
               (k == 0 && C.New(cs[i], cs[c]) == [] && (Used(plan) == 1 ==> plan[0].fid == cs[i].mem)))
         && C.New(cs[c + 1], cs[j]) == [newEpoch]
  }

  lemma DecidesFid(d: Disk, fid: Fid, rpc: Rpc, plan: seq<DiskStep>, reply: Reply, next: Fid)
    requires Decides(d, fid, rpc, plan, reply) && (Used(plan) == 1 ==> plan[0].fid == next)
    ensures Decides(d, next, rpc, plan, reply)
  {}

  /** Ids drawn from the counter are the fresh ones that the model asks for. */
  lemma StepFromCounter(s: State, t: Step, s': State, cs: seq<C.State>, csteps: seq<C.Step>, i: nat, c: nat, j: nat)
    requires C.IsRun(cs, csteps) && C.Init(cs[0]) && Draws(cs, csteps, i, c, j, t)
    requires NextAny(s, t, s') && s.next == cs[i].mem && s'.next == cs[j].mem
    ensures Next(s, t, s')
  {
    var upto := if t.Crash? then c else j;
    C.InOrder(cs, csteps, i, upto);
    var fid :| Decides(s.disk, fid, t.rpc, t.plan, t.reply);
    if C.New(cs[i], cs[upto]) != [] {
      assert C.New(cs[i], cs[upto])[0] == s.next;
    }
    DecidesFid(s.disk, fid, t.rpc, t.plan, t.reply, s.next);
    if t.Crash? {
      C.AfterRestart(cs, csteps, i, c, j);
    }
  }

  /** Where each step begins at the counter, and where its crash is, if it has one. */
  ghost predicate Driven(states: seq<State>, steps: seq<Step>, cs: seq<C.State>, csteps: seq<C.Step>, marks: seq<nat>,
                         crashes: seq<nat>) {
    && C.IsRun(cs, csteps) && C.Init(cs[0])
    && |states| == |marks| == |steps| + 1 && |crashes| == |steps|
    && (forall i | 0 <= i < |states| :: marks[i] < |cs| && states[i].next == cs[marks[i]].mem)
    && (forall i | 0 <= i < |steps| ::
          NextAny(states[i], steps[i], states[i + 1]) &&
            Draws(cs, csteps, marks[i], crashes[i], marks[i + 1], steps[i]))
  }

  /** A server driven by the counter, with write-backs and crashes anywhere in its calls, makes only
      runs of the model; so what holds in every run of the model holds for it. */
  lemma DrivenIsRun(states: seq<State>, steps: seq<Step>, cs: seq<C.State>, csteps: seq<C.Step>, marks: seq<nat>,
                    crashes: seq<nat>)
    requires Driven(states, steps, cs, csteps, marks, crashes)
    ensures IsRun(states, steps)
  {
    forall i | 0 <= i < |steps| ensures Next(states[i], steps[i], states[i + 1]) {
      StepFromCounter(states[i], steps[i], states[i + 1], cs, csteps, marks[i], crashes[i], marks[i + 1]);
    }
  }

  /** To the write protocol a crash of the name server is a restart with a later epoch. */
  lemma CrashIsRestart(s: State, t: Step, s': State, data: P.Server)
    requires ServerInv(s) && Next(s, t, s') && t.Crash? && data.epoch == s.epoch
    ensures exists skip: nat :: P.Happen(data, P.Restart(skip)) == data.(epoch := s'.epoch, bufs := map[])
  {
    var skip: nat := s'.epoch - s.epoch - 1;
    assert P.Happen(data, P.Restart(skip)) == data.(epoch := s'.epoch, bufs := map[]);
  }
}
