/** Epochs name incarnations: over whole runs, two replies carry the same epoch exactly if the
    server has not restarted between sending them. */
module Incarnations {
  import opened Protocol
  import opened Sessions
  import opened Messages

  function Deaths(es: seq<Event>): nat {
    if es == [] then 0 else (if es[0].Restart? then 1 else 0) + Deaths(es[1..])
  }

  /** The restarts during a call. */
  function RpcDeaths(w: World, q: Request, tries: nat): nat
    decreases tries
  {
    if tries == 0 then 0
    else
      var a := NextAttempt(w);
      var (w', o) := Attempted(w, q);
      Deaths(a.before) + (if a.fate.CrashIn? then 1 else 0) + Deaths(a.after) +
      if o.Transport? then RpcDeaths(w', q, tries - 1) else 0
  }

  /** The restarts of a call that come before the moment its reply is sent. */
  function DeathsBeforeReply(w: World, q: Request, tries: nat): nat
    decreases tries
  {
    if tries == 0 then 0
    else
      var a := NextAttempt(w);
      var (w', o) := Attempted(w, q);
      if o.Replied? then Deaths(a.before)
      else Deaths(a.before) + (if a.fate.CrashIn? then 1 else 0) + Deaths(a.after) + DeathsBeforeReply(w', q, tries - 1)
  }

  /** The restarts in the course of a list of calls. */
  function AllDeaths(w: World, ms: seq<Message>): nat
    decreases |ms|
  {
    if ms == [] then 0
    else AllDeaths(w, ms[..|ms| - 1]) + RpcDeaths(After(w, ms[..|ms| - 1]), ms[|ms| - 1].q, MAX_TRIES)
  }

  /** The incarnation that sends the reply of message i: how often the server has restarted. */
  function Incarnation(w: World, ms: seq<Message>, i: nat): nat
    requires i < |ms|
  {
    AllDeaths(w, ms[..i]) + DeathsBeforeReply(After(w, ms[..i]), ms[i].q, MAX_TRIES)
  }

  lemma {:induction false} DeathsGain(es: seq<Event>)
    ensures Deaths(es) <= EventsGain(es) && (Deaths(es) == 0 <==> EventsGain(es) == 0)
  {
    if es == [] {
    } else {
      DeathsGain(es[1..]);
    }
  }

  /** Epochs grow over one attempt, and up to its reply, exactly if there is a restart. */
  lemma TryDeaths(s: Server, a: Attempt, q: Request)
    ensures var (s', o) := Try(s, a, q);
      && s.epoch <= s'.epoch
      && (s'.epoch == s.epoch <==> Deaths(a.before) + (if a.fate.CrashIn? then 1 else 0) + Deaths(a.after) == 0)
      && (o.Replied? && o.reply.Verf? ==>
            && s.epoch <= o.reply.epoch <= s'.epoch
            && (o.reply.epoch == s.epoch <==> Deaths(a.before) == 0)
            && (s'.epoch == o.reply.epoch <==> Deaths(a.after) == 0))
  {
    TryEpoch(s, a, q);
    HappensEpoch(s, a.before);
    DeathsGain(a.before);
    DeathsGain(a.after);
  }

  lemma {:induction false} RpcCountsDeaths(w: World, q: Request, tries: nat)
    ensures var (w', r) := Rpc(w, q, tries);
      && w.server.epoch <= w'.server.epoch
      && (w'.server.epoch == w.server.epoch <==> RpcDeaths(w, q, tries) == 0)
      && DeathsBeforeReply(w, q, tries) <= RpcDeaths(w, q, tries)
      && (r.Ok? && r.value.Verf? ==>
            && w.server.epoch <= r.value.epoch <= w'.server.epoch
            && (r.value.epoch == w.server.epoch <==> DeathsBeforeReply(w, q, tries) == 0)
            && (w'.server.epoch == r.value.epoch <==> RpcDeaths(w, q, tries) == DeathsBeforeReply(w, q, tries)))
    decreases tries
  {
    if tries == 0 {
    } else {
      TryDeaths(w.server, NextAttempt(w), q);
      RpcCountsDeaths(Attempted(w, q).0, q, tries - 1);
    }
  }

  /** The server's epoch after message i is still that of its reply, or of the start, exactly if
      it has not restarted since. */
  lemma {:induction false} DeathsSince(w: World, ms: seq<Message>, i: nat)
    requires Serves(w, ms) && i <= |ms|
    ensures var v := After(w, ms[..i]);
      && v.server.epoch <= After(w, ms).server.epoch && AllDeaths(w, ms[..i]) <= AllDeaths(w, ms)
      && (v.server.epoch == After(w, ms).server.epoch <==> AllDeaths(w, ms[..i]) == AllDeaths(w, ms))
    decreases |ms|
  {
    if i == |ms| {
      assert ms[..i] == ms;
    } else {
      var init, m := ms[..|ms| - 1], ms[|ms| - 1];
      assert init[..i] == ms[..i];
      DeathsSince(w, init, i);
      RpcCountsDeaths(After(w, init), m.q, MAX_TRIES);
    }
  }

  /** Two replies carry the same epoch exactly if the same incarnation sent them. */
  lemma SameEpochSameIncarnation(w: World, ms: seq<Message>, i: nat, j: nat)
    requires Serves(w, ms) && i < j < |ms| && Dated(ms[i]) && Dated(ms[j])
    ensures Incarnation(w, ms, i) <= Incarnation(w, ms, j) && ms[i].r.value.epoch <= ms[j].r.value.epoch
    ensures ms[i].r.value.epoch == ms[j].r.value.epoch <==> Incarnation(w, ms, i) == Incarnation(w, ms, j)
  {
    AtReply(w, ms, i);
    AtReply(w, ms, j);
    BetweenMessages(w, ms, i + 1, j);
  }

  lemma BetweenMessages(w: World, ms: seq<Message>, i: nat, j: nat)
    requires Serves(w, ms) && i <= j <= |ms|
    ensures var v, v' := After(w, ms[..i]).server.epoch, After(w, ms[..j]).server.epoch;
      && v <= v' && AllDeaths(w, ms[..i]) <= AllDeaths(w, ms[..j])
      && (v == v' <==> AllDeaths(w, ms[..i]) == AllDeaths(w, ms[..j]))
  {
    ServesPrefix(w, ms, j);
    assert ms[..j][..i] == ms[..i];
    DeathsSince(w, ms[..j], i);
  }

  lemma AtReply(w: World, ms: seq<Message>, i: nat)
    requires Serves(w, ms) && i < |ms| && Dated(ms[i])
    ensures var e, n := ms[i].r.value.epoch, Incarnation(w, ms, i);
      && After(w, ms[..i]).server.epoch <= e <= After(w, ms[..i + 1]).server.epoch
      && AllDeaths(w, ms[..i]) <= n <= AllDeaths(w, ms[..i + 1])
      && (e == After(w, ms[..i]).server.epoch <==> n == AllDeaths(w, ms[..i]))
      && (e == After(w, ms[..i + 1]).server.epoch <==> n == AllDeaths(w, ms[..i + 1]))
  {
    ServesPrefix(w, ms, i + 1);
    assert ms[..i + 1][..i] == ms[..i] && ms[..i + 1][i] == ms[i];
    RpcCountsDeaths(After(w, ms[..i]), ms[i].q, MAX_TRIES);
  }

  /** The last dated reply among the first j messages. */
  predicate LastDated(ms: seq<Message>, i: nat, j: nat) {
    i < j <= |ms| && Dated(ms[i]) && forall k | i < k < j :: !Dated(ms[k])
  }

  lemma {:induction false} LatestIsLastDated(epoch: nat, ms: seq<Message>, i: nat, j: nat)
    requires LastDated(ms, i, j)
    ensures Latest(epoch, ms[..j]) == ms[i].r.value.epoch
    decreases j
  {
    assert ms[..j][..j - 1] == ms[..j - 1];
    if i == j - 1 {
    } else {
      LatestIsLastDated(epoch, ms, i, j - 1);
    }
  }

  /** Epoch soundness over whole runs: when the reply to message j arrives, the client has stored
      the epoch of message i, the last dated one. The two epochs are equal exactly if no restart
      and no crash came between the sending of the two replies, whatever calls, retries and other
      messages lay between; and a reply in the epoch the client started with comes from the
      incarnation that was up at the start. */
  lemma StoredEpochNamesIncarnation(y: Sys, calls: seq<Call>, j: nat)
    requires EpochSound(y) && j < |Said(y, Run(y, calls))| && Dated(Said(y, Run(y, calls))[j])
    ensures var ms := Said(y, Run(y, calls));
      var stored := Latest(y.c.epoch, ms[..j]);
      && Serves(y.w, ms) && Run(y, calls).c.epoch == Latest(y.c.epoch, ms)
      && stored <= ms[j].r.value.epoch
      && (forall i: nat | LastDated(ms, i, j) ::
            && stored == ms[i].r.value.epoch
            && (ms[j].r.value.epoch == stored <==> Incarnation(y.w, ms, j) == Incarnation(y.w, ms, i)))
      && ((forall k | 0 <= k < j :: !Dated(ms[k])) ==>
            stored == y.c.epoch && (ms[j].r.value.epoch == stored ==> Incarnation(y.w, ms, j) == 0))
  {
    var ms := Said(y, Run(y, calls));
    RunFollows(y, y, calls);
    RunRecorded(y, calls, 0);
    forall i: nat | LastDated(ms, i, j)
      ensures Latest(y.c.epoch, ms[..j]) == ms[i].r.value.epoch <= ms[j].r.value.epoch
      ensures ms[j].r.value.epoch == ms[i].r.value.epoch <==> Incarnation(y.w, ms, j) == Incarnation(y.w, ms, i)
    {
      LatestIsLastDated(y.c.epoch, ms, i, j);
      SameEpochSameIncarnation(y.w, ms, i, j);
    }
    if forall k | 0 <= k < j :: !Dated(ms[k]) {
      LatestUndated(y.c.epoch, ms[..j]);
      ServesPrefix(y.w, ms, j);
      assert ms[..j][..0] == [];
      DeathsSince(y.w, ms[..j], 0);
      AtReply(y.w, ms, j);
    } else {
      var i := SomeLastDated(ms, j);
    }
  }

  lemma {:induction false} SomeLastDated(ms: seq<Message>, j: nat) returns (i: nat)
    requires j <= |ms| && exists k :: 0 <= k < j && Dated(ms[k])
    ensures LastDated(ms, i, j)
    decreases j
  {
    if Dated(ms[j - 1]) {
      i := j - 1;
    } else {
      i := SomeLastDated(ms, j - 1);
    }
  }
}
