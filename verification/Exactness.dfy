/** The exact condition for a durable commit, over runs and from the start of a session. */
module Exactness {
  import opened Content
  import opened Protocol
  import opened Durability
  import opened Sessions
  import opened Messages
  import opened Guarantee
  import opened Shadow
  import opened Bounds

  /** Under every schedule that gives the client the same replies, from the same state on, an Ok
      from the commit of the file means that all its writes are on disk. */
  ghost predicate Guaranteed(y: Sys, calls: seq<Call>, f: Fid)
    requires EpochSound(y) && f in y.w.server.files
  {
    forall faults: seq<Attempt> ::
      var z := y.(w := World(y.w.server, faults));
      Said(z, Run(z, calls)) == Said(y, Run(y, calls)) ==> Durable(z, calls, f)
  }

  ghost predicate Durable(z: Sys, calls: seq<Call>, f: Fid)
    requires EpochSound(z) && f in z.w.server.files
  {
    var now := Run(z, calls);
    var (z', r) := Commit(now, f);
    r.Ok? ==> f in z'.w.server.files && z'.w.server.files[f] == ApplyAll(z.w.server.files[f], Log(now, f))
  }

  /** A moment when the file has no log, and a run from there that leaves it with an open one. */
  ghost predicate Buffers(y: Sys, h: History, calls: seq<Call>, f: Fid) {
    && Inv(y, h) && f in y.w.server.files && f !in y.c.bufs
    && f in Run(y, calls).c.bufs && Open(y.c.epoch, Said(y, Run(y, calls)), f)
  }

  /** What the client can work out at the end of the run. */
  ghost predicate SettledAfter(y: Sys, calls: seq<Call>, f: Fid)
    requires EpochSound(y) && f in y.w.server.files
  {
    Settled(y.w.server.files[f], Log(Run(y, calls), f), SentNow(y.c.epoch, Said(y, Run(y, calls)), f))
  }

  /** The state at the end of the run is in the invariant with the first content as base. */
  lemma RebasedInv(y: Sys, h: History, calls: seq<Call>, f: Fid) returns (h': History)
    requires Buffers(y, h, calls, f)
    ensures var now := Run(y, calls);
      && Inv(now, h') && f in h'.base && h'.base[f] == y.w.server.files[f]
      && Fits(now.w.server, f, h'.base[f], Log(now, f), now.c.epoch, SentNow(y.c.epoch, Said(y, now), f))
      && SentFrom(SentNow(y.c.epoch, Said(y, now), f), Log(now, f))
  {
    var now, h1 := Run(y, calls), RunHistory(y, h, calls);
    RunKeeps(y, h, calls);
    RunFollows(y, y, calls);
    RunRecorded(y, calls, f);
    AfterFits(y.w, y.c.epoch, Said(y, now), f, Log(now, f));
    Unsync(now, h1, f);
    h' := History(h1.base[f := y.w.server.files[f]], h1.synced - {f});
    forall g | g in h'.synced ensures Acked(now, h', g, |Log(now, g)|) {
      assert Acked(now, h1, g, |Log(now, g)|);
    }
  }

  /** A commit that returns Ok writes what was pending, or has sent the whole log again. */
  lemma OkMeans(now: Sys, h: History, f: Fid)
    requires Inv(now, h) && f in now.w.server.files && f in now.c.bufs && f in h.base && Commit(now, f).1.Ok?
    ensures var (z', _) := Commit(now, f);
      f in z'.w.server.files && z'.w.server.files[f] ==
        if z'.c.epoch == now.c.epoch then Virtual(now.w.server, f) else ApplyAll(h.base[f], Log(now, f))
    ensures now.c.epoch < now.w.server.epoch ==> Commit(now, f).0.c.epoch != now.c.epoch
  {
    CommitDurable(now, h, f);
    CommitWritesPending(now, h, f);
    RpcEpoch(now.w, CommitReq(f), MAX_TRIES);
  }

  /** Settled is enough, in all runs: whatever became of the writes that were not acknowledged,
      and whatever calls on other files, reads and restarts came between. */
  lemma SettledIsDurable(y: Sys, h: History, calls: seq<Call>, f: Fid)
    requires Buffers(y, h, calls, f) && SettledAfter(y, calls, f)
    ensures Durable(y, calls, f)
  {
    var now := Run(y, calls);
    var h' := RebasedInv(y, h, calls, f);
    if Commit(now, f).1.Ok? {
      OkMeans(now, h', f);
      if now.w.server.epoch == now.c.epoch {
        SettledIsExpected(h'.base[f], Log(now, f), SentNow(y.c.epoch, Said(y, now), f), Virtual(now.w.server, f));
      }
    }
  }

  /** Only files were read that had no log at the start and that nothing was sent to: no read has
      shown what became of a write. */
  ghost predicate ReadsAtRest(y: Sys, calls: seq<Call>)
    requires EpochSound(y)
  {
    forall m, x | m in Said(y, Run(y, calls)) && x in Said(y, Run(y, calls)) && m.q.ReadReq? ::
      m.q.fid !in y.c.bufs && (x.q.WriteReq? ==> x.q.fid != m.q.fid)
  }

  /** Of a file without a log nothing is pending. */
  lemma ReadsRest(y: Sys, h: History, calls: seq<Call>, m: Message)
    requires Inv(y, h) && ReadsAtRest(y, calls) && m in Said(y, Run(y, calls)) && m.q.ReadReq?
    ensures Rests(y.w.server, Said(y, Run(y, calls)), m.q.fid)
  {
    var g, said := m.q.fid, Said(y, Run(y, calls));
    assert g !in y.c.bufs;
    forall x | x in said && x.q.WriteReq? ensures x.q.fid != g {}
  }

  lemma SceneOf(y: Sys, h: History, calls: seq<Call>, f: Fid)
    requires Buffers(y, h, calls, f) && ReadsAtRest(y, calls)
    ensures var now, ms := Run(y, calls), Said(y, Run(y, calls));
      && Scene(y.w, y.c.epoch, ms, f) && now.c.epoch == Latest(y.c.epoch, ms)
      && DrawnFrom(WritesTo(ms, f), Log(now, f)) && DrawnFrom(Log(now, f), WritesTo(ms, f))
  {
    var now := Run(y, calls);
    RunFollows(y, y, calls);
    RunRecorded(y, calls, f);
    forall m | m in Said(y, now) && m.q.ReadReq? ensures Rests(y.w.server, Said(y, now), m.q.fid) {
      ReadsRest(y, h, calls, m);
    }
    var ms := WritesTo(Said(y, Run(y, calls)), f);
    assert [] + ms == ms;
  }

  /** Without being settled there is a shadow whose content is not the expected one. */
  lemma SomeShadow(w: World, epoch: nat, ms: seq<Message>, f: Fid, log: seq<Write>)
      returns (schedule: seq<Attempt>, s: Server)
    requires Scene(w, epoch, ms, f) && DrawnFrom(log, WritesTo(ms, f))
    requires !Settled(w.server.files[f], log, SentNow(epoch, ms, f))
    ensures Shadows(w, epoch, ms, f, schedule, s) && Virtual(s, f) != ApplyAll(w.server.files[f], log)
  {
    var base, sent := w.server.files[f], SentNow(epoch, ms, f);
    LastWriterWins(base, log);
    if Max(|base|, End(AckedWrites(sent))) < End(log) {
      schedule, s := Minimal(w, epoch, ms, f);
      LastWriterWins(base, AckedWrites(sent));
    } else {
      var i :| 0 <= i < Max(|base|, End(log)) && !Sure(base, log, sent, i, LastByte(base, log, i));
      var b := LastByte(base, log, i);
      if Sure(base, WritesTo(ms, f), sent, i, b) {
        SureMore(base, WritesTo(ms, f), log, sent, i, b);
      }
      schedule, s := Unsure(w, epoch, ms, f, i, b);
    }
  }

  /** Settled is necessary, over runs: otherwise there is a schedule with the same replies under
      which the commit returns Ok and the disk does not hold the expected content. */
  lemma NotSettledLoses(y: Sys, h: History, calls: seq<Call>, f: Fid) returns (faults: seq<Attempt>)
    requires Buffers(y, h, calls, f) && ReadsAtRest(y, calls)
    requires y.w.server.epoch <= Run(y, calls).c.epoch && !SettledAfter(y, calls, f)
    ensures var z := y.(w := World(y.w.server, faults));
      Said(z, Run(z, calls)) == Said(y, Run(y, calls)) && Commit(Run(z, calls), f).1.Ok? && !Durable(z, calls, f)
  {
    var now, ms := Run(y, calls), Said(y, Run(y, calls));
    SceneOf(y, h, calls, f);
    var s;
    faults, s := SomeShadow(y.w, y.c.epoch, ms, f, Log(now, f));
    assert faults + [] == faults && Answers(World(y.w.server, faults + []), ms, World(s, []));
    var z := y.(w := World(y.w.server, faults));
    RunFollows(y, z, calls);
    SmoothCommit(Run(z, calls), f);
  }

  /** A client that has had the replies of the run is in the state in which the run left it. */
  lemma SameReplies(y: Sys, z: Sys, calls: seq<Call>)
    requires EpochSound(y) && z == y.(w := World(y.w.server, z.w.faults))
    requires Said(z, Run(z, calls)) == Said(y, Run(y, calls))
    ensures Run(z, calls).c == Run(y, calls).c && y.w.server.epoch <= Run(z, calls).w.server.epoch
  {
    RunFollows(z, z, calls);
    RunFollows(y, z, calls);
    KeysAndEpochs(z.w, Said(z, Run(z, calls)));
  }

  lemma BehindIsDurable(y: Sys, h: History, calls: seq<Call>, f: Fid)
    requires Buffers(y, h, calls, f) && Run(y, calls).c.epoch < Run(y, calls).w.server.epoch
    ensures Durable(y, calls, f)
  {
    var h' := RebasedInv(y, h, calls, f);
    if Commit(Run(y, calls), f).1.Ok? {
      OkMeans(Run(y, calls), h', f);
    }
  }

  /** The exact condition, over runs. Take any state in which a file has no log, and any writes,
      flushes and faults from there that leave it with one. An Ok from its commit means, under
      every schedule with the same replies, that the disk holds its first content with all logged
      writes applied, if and only if the client has not yet noticed the epoch the server had at
      the start, or the log, the replies and the first content make every byte certain. */
  lemma GuaranteeIsExact(y: Sys, h: History, calls: seq<Call>, f: Fid)
    requires Buffers(y, h, calls, f) && ReadsAtRest(y, calls)
    ensures Guaranteed(y, calls, f) <==> Run(y, calls).c.epoch < y.w.server.epoch || SettledAfter(y, calls, f)
  {
    if Run(y, calls).c.epoch < y.w.server.epoch || SettledAfter(y, calls, f) {
      forall faults: seq<Attempt> ensures var z := y.(w := World(y.w.server, faults));
        Said(z, Run(z, calls)) == Said(y, Run(y, calls)) ==> Durable(z, calls, f)
      {
        var z := y.(w := World(y.w.server, faults));
        if Said(z, Run(z, calls)) == Said(y, Run(y, calls)) {
          SameReplies(y, z, calls);
          if SettledAfter(y, calls, f) {
            SettledIsDurable(z, h, calls, f);
          } else {
            BehindIsDurable(z, h, calls, f);
          }
        }
      }
    } else {
      var faults := NotSettledLoses(y, h, calls, f);
    }
  }

  // ---------- From the start of the session ----------

  lemma {:induction false} RunConcat(y: Sys, a: seq<Call>, b: seq<Call>)
    requires EpochSound(y)
    ensures Run(y, a + b) == Run(Run(y, a), b)
    decreases a
  {
    if a == [] {
      assert a + b == b;
    } else {
      assert (a + b)[1..] == a[1..] + b;
      RunConcat(Perform(y, a[0]), a[1..], b);
    }
  }

  /** The losing run from its very beginning: a session that starts fresh, reaches the first
      buffered write of the file as before, has the same replies throughout, is told Ok by the
      commit, and has lost data. */
  lemma LosesFromTheStart(y0: Sys, before: seq<Call>, calls: seq<Call>, f: Fid) returns (faults: seq<Attempt>)
    requires FreshStart(y0)
    requires var y := Run(y0, before);
      && Buffers(y, RunHistory(y0, NOTHING, before), calls, f) && ReadsAtRest(y, calls)
      && y.w.server.epoch <= Run(y, calls).c.epoch && !SettledAfter(y, calls, f)
    ensures var z0, all := y0.(w := World(y0.w.server, faults)), before + calls;
      var (z', r) := Commit(Run(z0, all), f);
      && Said(z0, Run(z0, all)) == Said(y0, Run(y0, all)) && r.Ok? && f in z'.w.server.files
      && z'.w.server.files[f] != ApplyAll(Run(y0, before).w.server.files[f], Log(Run(y0, all), f))
  {
    var y, all := Run(y0, before), before + calls;
    var now := Run(y, calls);
    RunConcat(y0, before, calls);
    RunFollows(y0, y0, before);
    var used := RunUses(y0.w, Said(y0, y));
    SceneOf(y, RunHistory(y0, NOTHING, before), calls, f);
    var schedule, s := SomeShadow(y.w, y.c.epoch, Said(y, now), f, Log(now, f));
    faults := used + schedule;
    var z0 := y0.(w := World(y0.w.server, faults));
    PlaysBoth(y0.w, used, Said(y0, y), y.w.server, schedule, Said(y, now), s);
    SaidBoth(y0, y, now);
    RunFollows(y0, z0, all);
    SmoothCommit(Run(z0, all), f);
  }
}
