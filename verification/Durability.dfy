/** What survives: the invariant every step keeps, whatever the schedule, and the durability
    of a commit over whole runs. */
module Durability {
  import opened Content
  import opened Protocol

  /** The content a file would have if its pending writes were committed now. */
  function Virtual(s: Server, f: Fid): Bytes
    requires f in s.files
  {
    ApplyAll(s.files[f], Pending(s, f))
  }

  /** What no restart, lost reply or stray commit can break: the file on disk, with or without
      its pending writes, is the base content with some writes of the log applied to it. */
  ghost predicate Near(s: Server, f: Fid, log: seq<Write>, base: Bytes) {
    f in s.files && Strayed(base, log, s.files[f]) && Strayed(base, log, Virtual(s, f))
  }

  /** Every logged file is near its base; files without a log have no pending writes. */
  ghost predicate Safe(s: Server, logs: map<Fid, seq<Write>>, base: map<Fid, Bytes>) {
    && (forall f | f in logs && f in s.files :: f in base && Near(s, f, logs[f], base[f]))
    && (forall f | f in s.files && f !in logs :: Pending(s, f) == [])
  }

  /** A request this client may send: a write comes from the log of its file. */
  predicate Drawn(q: Request, f: Fid, log: seq<Write>) {
    q.WriteReq? && q.fid == f ==> q.w in log
  }

  // ---------- One step of the server ----------

  lemma VirtualOfWrite(s: Server, f: Fid, w: Write, g: Fid)
    requires g in s.files
    ensures Virtual(HandleWrite(s, f, w), g) == if f == g then Apply(Virtual(s, g), w) else Virtual(s, g)
  {
    if f == g {
      ApplyAllSnoc(s.files[g], Pending(s, g), w);
    }
  }

  lemma CommitIsVirtual(s: Server, f: Fid)
    requires f in s.files
    ensures var s' := HandleCommit(s, f);
      && s'.files == s.files[f := Virtual(s, f)]
      && s'.bufs == s.bufs - {f}
      && s'.epoch == s.epoch
      && forall g | g in s.files :: Virtual(s', g) == Virtual(s, g)
  {
    if Pending(s, f) == [] {
      assert s.files[f := s.files[f]] == s.files;
    }
  }

  /** A crash inside COMMIT leaves the file as it was or as the whole commit makes it. */
  lemma CommitCrashAtomic(s: Server, f: Fid, k: nat)
    requires f in s.files
    ensures var s' := CommitAfter(s, f, k);
      && s'.epoch == s.epoch
      && (s'.files == s.files || s'.files == HandleCommit(s, f).files)
      && (k < CommitSteps(s, f) ==> s'.files == s.files)
  {
    CommitIsVirtual(s, f);
  }

  // ---------- What stays near the base, whatever happens ----------

  lemma {:induction false} HappensNear(s: Server, es: seq<Event>, f: Fid, log: seq<Write>, base: Bytes)
    requires Near(s, f, log, base)
    ensures Near(Happens(s, es), f, log, base)
    decreases es
  {
    if es == [] {
    } else {
      if es[0].OtherCommit? && es[0].fid in s.files {
        CommitIsVirtual(s, es[0].fid);
      }
      HappensNear(Happen(s, es[0]), es[1..], f, log, base);
    }
  }

  lemma HandleNear(s: Server, q: Request, f: Fid, log: seq<Write>, base: Bytes)
    requires Near(s, f, log, base) && Drawn(q, f, log)
    ensures Near(Handle(s, q).0, f, log, base)
  {
    match q
    case WriteReq(g, w) =>
      VirtualOfWrite(s, g, w, f);
      if f == g {
        StrayOne(base, log, Virtual(s, f), w);
      }
    case CommitReq(g) =>
      if g in s.files {
        CommitIsVirtual(s, g);
      }
    case ReadReq(_, _, _) =>
  }

  lemma CrashNear(s: Server, q: Request, k: nat, skip: nat, f: Fid, log: seq<Write>, base: Bytes)
    requires Near(s, f, log, base)
    ensures Near(Happen(Interrupted(s, q, k), Restart(skip)), f, log, base)
  {
    if q.CommitReq? && q.fid in s.files {
      CommitCrashAtomic(s, q.fid, k);
      CommitIsVirtual(s, q.fid);
    }
  }

  lemma TryNear(s: Server, a: Attempt, q: Request, f: Fid, log: seq<Write>, base: Bytes)
    requires Near(s, f, log, base) && Drawn(q, f, log)
    ensures Near(Try(s, a, q).0, f, log, base)
  {
    var s1 := Happens(s, a.before);
    HappensNear(s, a.before, f, log, base);
    match a.fate
    case Lost => HappensNear(s1, a.after, f, log, base);
    case CrashIn(k, skip) =>
      CrashNear(s1, q, k, skip, f, log, base);
      HappensNear(Happen(Interrupted(s1, q, k), Restart(skip)), a.after, f, log, base);
    case Served(_) =>
      HandleNear(s1, q, f, log, base);
      HappensNear(Handle(s1, q).0, a.after, f, log, base);
  }

  lemma {:induction false} RpcNear(w: World, q: Request, tries: nat, f: Fid, log: seq<Write>, base: Bytes)
    requires Near(w.server, f, log, base) && Drawn(q, f, log)
    ensures Near(Rpc(w, q, tries).0.server, f, log, base)
    decreases tries
  {
    if tries == 0 {
    } else {
      TryNear(w.server, NextAttempt(w), q, f, log, base);
      RpcNear(Attempted(w, q).0, q, tries - 1, f, log, base);
    }
  }

  /** A crash at any step of a COMMIT, and the restart: the new content is on disk exactly if the last step was
      taken, and nothing is pending. */
  lemma CrashInCommit(s: Server, f: Fid, k: nat, skip: nat)
    requires f in s.files
    ensures var (s', o) := Try(s, Attempt([], CrashIn(k, skip), []), CommitReq(f));
      && o == Transport && s'.epoch == s.epoch + 1 + skip && Pending(s', f) == []
      && s'.files == if k < CommitSteps(s, f) then s.files else s.files[f := Virtual(s, f)]
  {
    CommitCrashAtomic(s, f, k);
    CommitIsVirtual(s, f);
    assert Happens(s, []) == s;
  }

  // ---------- What stays as it is: files at rest ----------

  /** Nothing that happens touches a file without pending writes. */
  lemma {:induction false} HappensQuiet(s: Server, es: seq<Event>, f: Fid)
    requires f in s.files && Pending(s, f) == []
    ensures var s' := Happens(s, es);
      f in s'.files && Pending(s', f) == [] && s'.files[f] == s.files[f]
    decreases es
  {
    if es == [] {
    } else {
      if es[0].OtherCommit? && es[0].fid in s.files {
        CommitIsVirtual(s, es[0].fid);
      }
      HappensQuiet(Happen(s, es[0]), es[1..], f);
    }
  }

  lemma TryQuiet(s: Server, a: Attempt, q: Request, f: Fid)
    requires f in s.files && Pending(s, f) == [] && (q.WriteReq? ==> q.fid != f)
    ensures var (s', o) := Try(s, a, q);
      && f in s'.files && Pending(s', f) == [] && s'.files[f] == s.files[f]
      && (o.Replied? && q.ReadReq? && q.fid == f ==> o.reply == Data(HandleRead(s, f, q.offset, q.count)))
  {
    var s1 := Happens(s, a.before);
    HappensQuiet(s, a.before, f);
    if q.CommitReq? && q.fid in s1.files {
      CommitIsVirtual(s1, q.fid);
    }
    match a.fate
    case Lost => HappensQuiet(s1, a.after, f);
    case CrashIn(k, skip) =>
      if q.CommitReq? && q.fid in s1.files {
        CommitCrashAtomic(s1, q.fid, k);
      }
      HappensQuiet(Happen(Interrupted(s1, q, k), Restart(skip)), a.after, f);
    case Served(_) => HappensQuiet(Handle(s1, q).0, a.after, f);
  }

  lemma {:induction false} RpcQuiet(w: World, q: Request, tries: nat, f: Fid)
    requires f in w.server.files && Pending(w.server, f) == [] && (q.WriteReq? ==> q.fid != f)
    ensures var (w', r) := Rpc(w, q, tries);
      && f in w'.server.files && Pending(w'.server, f) == [] && w'.server.files[f] == w.server.files[f]
      && (r.Ok? && q.ReadReq? && q.fid == f ==> r.value == Data(HandleRead(w.server, f, q.offset, q.count)))
    decreases tries
  {
    if tries == 0 {
    } else {
      TryQuiet(w.server, NextAttempt(w), q, f);
      RpcQuiet(Attempted(w, q).0, q, tries - 1, f);
    }
  }

  // ---------- What one call does while the epoch stays ----------

  /** What a call may do to the contents the files would have after a commit. */
  ghost predicate Moved(s: Server, s': Server, q: Request) {
    forall g | g in s.files && g in s'.files ::
      || Virtual(s', g) == Virtual(s, g)
      || (q.WriteReq? && q.fid == g && Virtual(s', g) == Apply(Virtual(s, g), q.w))
  }

  /** The effect of a call on what commits would give, while the epoch stays. */
  ghost predicate Effect(s: Server, s': Server, q: Request, answered: bool) {
    s'.epoch == s.epoch ==>
      && Moved(s, s', q)
      && (answered && q.WriteReq? && q.fid in s.files ==>
            q.fid in s'.files && Virtual(s', q.fid) == Apply(Virtual(s, q.fid), q.w))
  }

  lemma {:induction false} HappensEffect(s: Server, es: seq<Event>)
    ensures var s' := Happens(s, es);
      && s'.files.Keys == s.files.Keys
      && s.epoch <= s'.epoch
      && (s'.epoch == s.epoch ==> forall g | g in s.files :: Virtual(s', g) == Virtual(s, g))
    decreases es
  {
    if es == [] {
    } else {
      if es[0].OtherCommit? && es[0].fid in s.files {
        CommitIsVirtual(s, es[0].fid);
      }
      HappensEffect(Happen(s, es[0]), es[1..]);
    }
  }

  lemma HandleEffect(s: Server, q: Request)
    ensures Effect(s, Handle(s, q).0, q, true)
  {
    match q
    case WriteReq(f, w) =>
      forall g | g in s.files
        ensures Virtual(HandleWrite(s, f, w), g) == if f == g then Apply(Virtual(s, g), w) else Virtual(s, g)
      {
        VirtualOfWrite(s, f, w, g);
      }
    case CommitReq(f) =>
      if f in s.files {
        CommitIsVirtual(s, f);
      }
    case ReadReq(_, _, _) =>
  }

  /** Quiet time before and after changes nothing while the epoch stays. */
  lemma EffectAround(s: Server, s1: Server, s2: Server, s3: Server, q: Request, answered: bool)
    requires Effect(s1, s2, q, answered)
    requires s.epoch <= s1.epoch <= s2.epoch <= s3.epoch
    requires s.files.Keys == s1.files.Keys == s2.files.Keys == s3.files.Keys
    requires s1.epoch == s.epoch ==> forall g | g in s.files :: Virtual(s1, g) == Virtual(s, g)
    requires s3.epoch == s2.epoch ==> forall g | g in s2.files :: Virtual(s3, g) == Virtual(s2, g)
    ensures Effect(s, s3, q, answered)
  {}

  /** While the epoch stays an attempt applies a write once or not at all, and once if it was
      executed; any other request leaves what commits would give. */
  lemma TryEffect(s: Server, a: Attempt, q: Request)
    ensures Effect(s, Try(s, a, q).0, q, a.fate.Served?)
  {
    var core := Attempt([], a.fate, []);
    var s1 := Happens(s, a.before);
    var s2 := Try(s1, core, q).0;
    HappensEffect(s, a.before);
    HandleEffect(s1, q);
    TryEpoch(s1, core, q);
    HappensEffect(s2, a.after);
    assert Try(s, a, q).0 == Happens(s2, a.after);
    EffectAround(s, s1, s2, Try(s, a, q).0, q, a.fate.Served?);
  }

  lemma EffectTwice(s: Server, s1: Server, s2: Server, q: Request, answered: bool)
    requires Effect(s, s1, q, false) && Effect(s1, s2, q, answered)
    requires s.epoch <= s1.epoch <= s2.epoch && s.files.Keys == s1.files.Keys == s2.files.Keys
    ensures Effect(s, s2, q, answered)
  {
    if q.WriteReq? && q.fid in s.files {
      ApplyTwice(Virtual(s, q.fid), q.w);
    }
  }

  /** The same for a call with its retries: executing a write twice equals executing it once. */
  lemma {:induction false} RpcEffect(w: World, q: Request, tries: nat)
    ensures Effect(w.server, Rpc(w, q, tries).0.server, q, Rpc(w, q, tries).1.Ok?)
    decreases tries
  {
    if tries == 0 {
    } else {
      var (w1, o) := Attempted(w, q);
      TryEffect(w.server, NextAttempt(w), q);
      TryEpoch(w.server, NextAttempt(w), q);
      if o.Transport? {
        RpcEffect(w1, q, tries - 1);
        RpcEpoch(w1, q, tries - 1);
        EffectTwice(w.server, w1.server, Rpc(w1, q, tries - 1).0.server, q, Rpc(w1, q, tries - 1).1.Ok?);
      }
    }
  }

  /** An answered COMMIT has drained the buffer, and if no restart came before it, the disk
      holds what the pending writes promised when the attempt began. */
  lemma TryCommit(s: Server, a: Attempt, f: Fid)
    ensures var (s', o) := Try(s, a, CommitReq(f));
      o.Replied? && o.reply.Verf? ==>
        && f in s'.files && Pending(s', f) == []
        && (o.reply.epoch == s.epoch ==> f in s.files && s'.files[f] == Virtual(s, f))
  {
    var (s', o) := Try(s, a, CommitReq(f));
    if o.Replied? && o.reply.Verf? {
      var s1 := Happens(s, a.before);
      HappensEffect(s, a.before);
      CommitIsVirtual(s1, f);
      HappensQuiet(HandleCommit(s1, f), a.after, f);
    }
  }

  lemma {:induction false} RpcCommit(w: World, f: Fid, tries: nat)
    ensures var (w', r) := Rpc(w, CommitReq(f), tries);
      r.Ok? ==>
        && r.value.Verf? && f in w'.server.files && Pending(w'.server, f) == []
        && (r.value.epoch == w.server.epoch ==> f in w.server.files && w'.server.files[f] == Virtual(w.server, f))
    decreases tries
  {
    if tries == 0 {
    } else {
      var q := CommitReq(f);
      var a := NextAttempt(w);
      var (w1, o) := Attempted(w, q);
      TryEffect(w.server, a, q);
      TryCommit(w.server, a, f);
      TryEpoch(w.server, a, q);
      if o.Transport? {
        RpcCommit(w1, f, tries - 1);
        RpcEpoch(w1, q, tries - 1);
      }
    }
  }

  /** No call of this client, whatever its fate, breaks the part of the invariant that survives
      restarts. */
  lemma RpcSafe(w: World, q: Request, tries: nat, logs: map<Fid, seq<Write>>, base: map<Fid, Bytes>)
    requires Safe(w.server, logs, base) && (q.WriteReq? ==> q.fid in logs && q.w in logs[q.fid])
    ensures Safe(Rpc(w, q, tries).0.server, logs, base)
  {
    RpcEpoch(w, q, tries);
    forall f | f in logs && f in w.server.files ensures Near(Rpc(w, q, tries).0.server, f, logs[f], base[f]) {
      RpcNear(w, q, tries, f, logs[f], base[f]);
    }
    forall f | f in w.server.files && f !in logs ensures Pending(Rpc(w, q, tries).0.server, f) == [] {
      RpcQuiet(w, q, tries, f);
    }
  }

  // ---------- The client's loops ----------

  /** What is known about a session: for each logged file its content at the first buffered
      write, and the files whose whole log the server has acknowledged in the client's epoch. */
  datatype History = History(base: map<Fid, Bytes>, synced: set<Fid>)

  /** The first p writes of the log have been acknowledged in the client's epoch: while the
      server stays in that epoch, the rest of the log brings the file to the expected content. */
  ghost predicate Acked(y: Sys, h: History, f: Fid, p: nat) {
    y.c.epoch == y.w.server.epoch && f in y.w.server.files && f in h.base && p <= |Log(y, f)| ==>
      ApplyAll(Virtual(y.w.server, f), Log(y, f)[p..]) == ApplyAll(h.base[f], Log(y, f))
  }

  ghost predicate Inv(y: Sys, h: History) {
    && EpochSound(y)
    && (forall f | f in y.c.bufs :: y.c.bufs[f] != [] && forall w | w in y.c.bufs[f] :: WellSized(w))
    && Safe(y.w.server, y.c.bufs, h.base)
    && h.synced <= y.c.bufs.Keys
    && (forall f | f in h.synced :: Acked(y, h, f, |Log(y, f)|))
  }

  /** The content a logged file must have once its commit succeeds. */
  ghost function Expected(y: Sys, h: History, f: Fid): Bytes
    requires f in h.base
  {
    ApplyAll(h.base[f], Log(y, f))
  }

  /** One logged write sent: the others stay acknowledged while the epochs stay, and the
      acknowledged part of this log grows by one if the reply comes from the client's epoch. */
  lemma SendKeeps(y: Sys, h: History, f: Fid, p: nat)
    requires Inv(y, h) && f !in h.synced && p < |Log(y, f)|
    ensures var (y', r) := SendWrite(y, f, Log(y, f)[p]);
      && Inv(y', h) && y'.c == y.c
      && (Acked(y, h, f, p) && r.Ok? && r.value == y.c.epoch ==> Acked(y', h, f, p + 1))
  {
    var log := Log(y, f);
    var q := WriteReq(f, log[p]);
    var (y', r) := SendWrite(y, f, log[p]);
    RpcSafe(y.w, q, MAX_TRIES, y.c.bufs, h.base);
    RpcEffect(y.w, q, MAX_TRIES);
    RpcEpoch(y.w, q, MAX_TRIES);
    assert log[p..] == [log[p]] + log[p + 1..];
    if y.w.server.epoch == y'.w.server.epoch {
      forall g | g in h.synced ensures Acked(y', h, g, |Log(y', g)|) {
        assert Acked(y, h, g, |Log(y, g)|);
      }
    }
  }

  ghost function Forget(h: History): History {
    h.(synced := {})
  }

  /** A change of epoch forgets what was acknowledged; position 0 needs nothing. */
  lemma ForgetKeeps(y: Sys, h: History, epoch: nat, f: Fid)
    requires Inv(y, h) && y.c.epoch <= epoch <= y.w.server.epoch
    ensures Inv(NoteEpoch(y, epoch), Forget(h))
    ensures f in y.c.bufs ==> Acked(NoteEpoch(y, epoch), Forget(h), f, 0)
  {
    if f in y.c.bufs && f in y.w.server.files {
      assert Log(y, f)[0..] == Log(y, f);
      StraysAbsorbed(h.base[f], Log(y, f), Virtual(y.w.server, f));
    }
  }

  /** What a replay that starts at y guarantees of its outcome. */
  ghost predicate Replayed(y: Sys, h: History, f: Fid, known: bool, y': Sys, ok: bool) {
    && y'.c.bufs == y.c.bufs
    && Inv(y', if y'.c.epoch == y.c.epoch then h else Forget(h))
    && (ok && (known || y'.c.epoch != y.c.epoch) ==> Acked(y', h, f, |Log(y, f)|))
  }

  lemma SendEpochs(y: Sys, f: Fid, w: Write)
    ensures var (y1, r) := SendWrite(y, f, w);
      && y1.c == y.c && LastEpoch(y1.w) == LastEpoch(y.w) && y.w.server.epoch <= y1.w.server.epoch
      && (r.Ok? ==> y.w.server.epoch <= r.value <= y1.w.server.epoch)
  {
    RpcEpoch(y.w, WriteReq(f, w), MAX_TRIES);
  }

  /** A replay keeps the invariant; and if the first pos writes were acknowledged, or the epoch has
      changed, then after Ok the whole log is. */
  lemma {:induction false} ReplayKeeps(y: Sys, h: History, f: Fid, pos: nat, known: bool)
    requires Inv(y, h) && f !in h.synced && pos <= |Log(y, f)| && (known ==> Acked(y, h, f, pos))
    ensures Replayed(y, h, f, known, Replay(y, f, pos).0, Replay(y, f, pos).1.Ok?)
    decreases LastEpoch(y.w) - y.c.epoch, |Log(y, f)| - pos
  {
    if |Log(y, f)| <= pos {
    } else {
      SendKeeps(y, h, f, pos);
      SendEpochs(y, f, Log(y, f)[pos]);
      var (y1, r) := SendWrite(y, f, Log(y, f)[pos]);
      if r.Err? {
        ReplayGivesUp(y, y1, h, f, known);
      } else if r.value != y.c.epoch {
        ReplayRestarts(y, y1, h, f, r.value, known);
      } else {
        ReplayKeeps(y1, h, f, pos + 1, known);
        ReplayAdvances(y, y1, h, f, known, Replay(y1, f, pos + 1).0, Replay(y1, f, pos + 1).1.Ok?);
      }
    }
  }

  lemma ReplayGivesUp(y: Sys, y1: Sys, h: History, f: Fid, known: bool)
    requires Inv(y1, h) && y1.c == y.c
    ensures Replayed(y, h, f, known, y1, false)
  {}

  /** One write acknowledged in the client's epoch: what the rest guarantees holds from here. */
  lemma ReplayAdvances(y: Sys, y1: Sys, h: History, f: Fid, known: bool, y': Sys, ok: bool)
    requires y1.c == y.c && Replayed(y1, h, f, known, y', ok)
    ensures Replayed(y, h, f, known, y', ok)
  {}

  lemma ReplayRestarts(y: Sys, y1: Sys, h: History, f: Fid, epoch: nat, known: bool)
    requires Inv(y1, h) && y1.c == y.c && f in y.c.bufs && LastEpoch(y1.w) == LastEpoch(y.w)
    requires y.c.epoch < epoch <= y1.w.server.epoch
    ensures var (y', r) := Replay(NoteEpoch(y1, epoch), f, 0);
      y.c.epoch < y'.c.epoch && Replayed(y, h, f, known, y', r.Ok?)
    decreases LastEpoch(y.w) - y.c.epoch, 0
  {
    ForgetKeeps(y1, h, epoch, f);
    ReplayKeeps(NoteEpoch(y1, epoch), Forget(h), f, 0, true);
  }

  /** A first buffered write fixes the base of its file. */
  ghost function LogHistory(y: Sys, h: History, f: Fid): History {
    var logged := f in y.c.bufs || f !in y.w.server.files;
    History(if logged then h.base else h.base[f := y.w.server.files[f]], h.synced - {f})
  }

  /** The history after an asynchronous write: a first buffered write fixes the base; the file
      is synced if the call succeeded and its earlier log was, or if the log was replayed. */
  ghost function WriteHistory(y: Sys, h: History, f: Fid, w: Write): History
    requires EpochSound(y)
  {
    var (y', r) := WriteAsync(y, f, w);
    var base := LogHistory(y, h, f).base;
    var kept := if y'.c.epoch == y.c.epoch then h.synced - {f} else {};
    var now := if r.Ok? && (f in h.synced || f !in y.c.bufs || y'.c.epoch != y.c.epoch) then {f} else {};
    History(base, kept + now)
  }

  /** A longer log still accounts for all strays, and the new write is the one that is missing. */
  lemma LogAppends(s: Server, f: Fid, log: seq<Write>, w: Write, base: Bytes)
    requires Near(s, f, log, base)
    ensures Near(s, f, log + [w], base)
    ensures Virtual(s, f) == ApplyAll(base, log) ==> ApplyAll(Virtual(s, f), [w]) == ApplyAll(base, log + [w])
  {
    StrayMore(base, log, log + [w], s.files[f]);
    StrayMore(base, log, log + [w], Virtual(s, f));
    ApplyAllConcat(base, log, [w]);
  }

  lemma LogWrite(y: Sys, h: History, f: Fid, w: Write)
    requires Inv(y, h) && WellSized(w)
    ensures var y1, h1 := y.(c := y.c.(bufs := y.c.bufs[f := Log(y, f) + [w]])), LogHistory(y, h, f);
      && Inv(y1, h1)
      && (f in h.synced || f !in y.c.bufs ==> Acked(y1, h1, f, |Log(y, f)|))
  {
    var s, log := y.w.server, Log(y, f);
    var y1, h1 := y.(c := y.c.(bufs := y.c.bufs[f := log + [w]])), LogHistory(y, h, f);
    assert (log + [w])[|log|..] == [w] && log[|log|..] == [];
    if f in s.files {
      StrayNone(h1.base[f], log);
      LogAppends(s, f, log, w, h1.base[f]);
      assert f in h.synced ==> Acked(y, h, f, |log|);
    }
    forall g | g in h1.synced ensures Acked(y1, h1, g, |Log(y1, g)|) {
      assert Acked(y, h, g, |Log(y, g)|);
    }
  }

  lemma WriteKeeps(y: Sys, h: History, f: Fid, w: Write)
    requires Inv(y, h) && WellSized(w)
    ensures Inv(WriteAsync(y, f, w).0, WriteHistory(y, h, f, w))
  {
    var y1 := y.(c := y.c.(bufs := y.c.bufs[f := Log(y, f) + [w]]));
    var h1 := LogHistory(y, h, f);
    LogWrite(y, h, f, w);
    ReplayKeeps(y1, h1, f, |Log(y, f)|, f in h.synced || f !in y.c.bufs);
    var (y', r) := WriteAsync(y, f, w);
    var h' := WriteHistory(y, h, f, w);
    forall g | g in h'.synced ensures Acked(y', h', g, |Log(y', g)|) {
      assert Acked(y', h1, g, |Log(y', g)|);
    }
  }

  /** The history after a commit: the others stay synced unless it has moved the epoch. */
  ghost function CommitHistory(y: Sys, h: History, f: Fid, y': Sys): History {
    if y'.c.epoch == y.c.epoch then h.(synced := h.synced - {f}) else Forget(h)
  }

  /** What a commit that starts at y guarantees of its outcome: the invariant; and after Ok
      the log is dropped, nothing is pending, and the disk holds the expected content, if the
      log was with the server at the start or was sent again because the epoch had moved. */
  ghost predicate Committed(y: Sys, h: History, f: Fid, y': Sys, ok: bool) {
    && Inv(y', CommitHistory(y, h, f, y'))
    && (ok ==>
          && y'.c.bufs == y.c.bufs - {f} && f in y'.w.server.files && Pending(y'.w.server, f) == []
          && (f in y.c.bufs && f in y.w.server.files && (f in h.synced || y'.c.epoch != y.c.epoch) ==>
                f in h.base && y'.w.server.files[f] == Expected(y, h, f)))
  }

  lemma CommitRpcKeeps(y: Sys, h: History, f: Fid)
    requires Inv(y, h)
    ensures Inv(SendCommit(y, f).0, h) && SendCommit(y, f).0.c == y.c
  {
    var y' := SendCommit(y, f).0;
    RpcSafe(y.w, CommitReq(f), MAX_TRIES, y.c.bufs, h.base);
    RpcEffect(y.w, CommitReq(f), MAX_TRIES);
    RpcEpoch(y.w, CommitReq(f), MAX_TRIES);
    if y.w.server.epoch == y'.w.server.epoch {
      forall g | g in h.synced ensures Acked(y', h, g, |Log(y', g)|) {
        assert Acked(y, h, g, |Log(y, g)|);
      }
    }
  }

  lemma Unsync(y: Sys, h: History, f: Fid)
    requires Inv(y, h)
    ensures Inv(y, h.(synced := h.synced - {f}))
  {
    forall g | g in h.synced - {f} ensures Acked(y, h.(synced := h.synced - {f}), g, |Log(y, g)|) {
      assert Acked(y, h, g, |Log(y, g)|);
    }
  }

  lemma DropLog(y: Sys, h: History, f: Fid)
    requires Inv(y, h) && f !in h.synced
    requires f in y.w.server.files ==> Pending(y.w.server, f) == []
    ensures Inv(y.(c := y.c.(bufs := y.c.bufs - {f})), h)
  {
    var y' := y.(c := y.c.(bufs := y.c.bufs - {f}));
    forall g | g in h.synced ensures Acked(y', h, g, |Log(y', g)|) {
      assert Acked(y, h, g, |Log(y, g)|);
    }
  }

  /** The branch of Commit that is answered in the client's epoch. */
  lemma CommitAccepted(y: Sys, h: History, f: Fid)
    requires Inv(y, h) && SendCommit(y, f).1 == Ok(y.c.epoch)
    ensures var y1 := SendCommit(y, f).0;
      Committed(y, h, f, y1.(c := y1.c.(bufs := y1.c.bufs - {f})), true)
  {
    var y1 := SendCommit(y, f).0;
    CommitRpcKeeps(y, h, f);
    RpcEpoch(y.w, CommitReq(f), MAX_TRIES);
    RpcCommit(y.w, f, MAX_TRIES);
    Unsync(y1, h, f);
    DropLog(y1, h.(synced := h.synced - {f}), f);
    if f in h.synced {
      assert Acked(y, h, f, |Log(y, f)|);
      assert Log(y, f)[|Log(y, f)|..] == [];
    }
  }

  /** The branch of Commit that gives up: nothing is promised but the invariant. */
  lemma CommitFails(y: Sys, h: History, f: Fid)
    requires Inv(y, h)
    ensures Committed(y, h, f, SendCommit(y, f).0, false)
  {
    CommitRpcKeeps(y, h, f);
    Unsync(SendCommit(y, f).0, h, f);
  }

  lemma SendCommitEpochs(y: Sys, f: Fid)
    ensures var (y1, r) := SendCommit(y, f);
      && y1.c == y.c && LastEpoch(y1.w) == LastEpoch(y.w) && y1.w.server.files.Keys == y.w.server.files.Keys
      && (r.Ok? ==> y.w.server.epoch <= r.value <= y1.w.server.epoch)
  {
    RpcEpoch(y.w, CommitReq(f), MAX_TRIES);
  }

  /** The history with which the commit after a replay starts. */
  ghost function Resent(y: Sys, h: History, f: Fid): History {
    if f in y.c.bufs then h.(synced := {f}) else Forget(h)
  }

  /** What a commit after a replay in a new epoch guarantees, it guarantees from the start. */
  lemma CommitAfterReplay(y: Sys, y2: Sys, h: History, f: Fid, y': Sys, ok: bool)
    requires y2.c.bufs == y.c.bufs && y2.w.server.files.Keys == y.w.server.files.Keys
    requires y.c.epoch < y2.c.epoch <= y'.c.epoch && Committed(y2, Resent(y, h, f), f, y', ok)
    ensures Committed(y, h, f, y', ok)
  {}

  /** Commit durability: whatever restarts, crashes inside handlers, lost requests and lost
      replies the schedule holds, a commit that returns Ok leaves on disk exactly the content
      at the first buffered write with every buffered write applied in order. */
  lemma {:induction false} CommitDurable(y: Sys, h: History, f: Fid)
    requires Inv(y, h)
    ensures Committed(y, h, f, Commit(y, f).0, Commit(y, f).1.Ok?)
    decreases LastEpoch(y.w) - y.c.epoch
  {
    var (y1, r1) := SendCommit(y, f);
    if r1.Err? {
      CommitFails(y, h, f);
    } else if r1 == Ok(y.c.epoch) {
      CommitAccepted(y, h, f);
    } else {
      CommitRpcKeeps(y, h, f);
      SendCommitEpochs(y, f);
      CommitReplays(y1, h, f, r1.value);
      var (y2, r2) := Replay(NoteEpoch(y1, r1.value), f, 0);
      if r2.Ok? {
        CommitAfterReplay(y, y2, h, f, Commit(y2, f).0, Commit(y2, f).1.Ok?);
      }
    }
  }

  /** The branch of Commit that finds a new epoch: replay everything, then commit again. */
  lemma CommitReplays(y: Sys, h: History, f: Fid, epoch: nat)
    requires Inv(y, h) && y.c.epoch < epoch <= y.w.server.epoch
    ensures var (y2, r2) := Replay(NoteEpoch(y, epoch), f, 0);
      if r2.Err? then Inv(y2, Forget(h))
      else Committed(y2, Resent(y, h, f), f, Commit(y2, f).0, Commit(y2, f).1.Ok?)
    decreases LastEpoch(y.w) - y.c.epoch, 0
  {
    ForgetKeeps(y, h, epoch, f);
    var (y2, r2) := Replay(NoteEpoch(y, epoch), f, 0);
    ReplayKeeps(NoteEpoch(y, epoch), Forget(h), f, 0, f in y.c.bufs);
    if r2.Ok? {
      CommitDurable(y2, Resent(y, h, f), f);
    }
  }
}
