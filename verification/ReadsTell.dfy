/** Why the exact condition speaks of sessions in which only files at rest are read: a read of another
    file can tell the client that the server has restarted, and with it that a commit will be durable,
    although the log and the replies for the committed file leave its content open. */
module ReadsTell {
  import opened Content
  import opened Protocol
  import opened Durability
  import opened Sessions
  import opened Messages
  import opened Guarantee
  import opened Shadow
  import opened Exactness
  import opened Limits

  // ---------- What a read can tell ----------

  /** Byte 1 of the file is empty, on disk and after a commit. */
  predicate Blank(s: Server, g: Fid) {
    g in s.files && At(s.files[g], 1) == 0 && At(Virtual(s, g), 1) == 0
  }

  /** In this epoch, EARLY has been acknowledged: a commit has it or will write it, and until then byte 1
      on disk is empty. */
  predicate EarlyFirst(s: Server, g: Fid, e: nat) {
    || e < s.epoch
    || (s.epoch == e && g in s.files && At(Virtual(s, g), 0) == 1 && (At(s.files[g], 0) == 1 || At(s.files[g], 1) == 0))
  }

  /** To the file go only these two writes. */
  predicate OneOfTwo(q: Request, g: Fid) {
    q.WriteReq? && q.fid == g ==> q.w == EARLY || q.w == LATE
  }

  lemma {:induction false} HappensBlank(s: Server, es: seq<Event>, g: Fid)
    requires Blank(s, g)
    ensures Blank(Happens(s, es), g)
    decreases es
  {
    if es == [] {
    } else {
      if es[0].OtherCommit? && es[0].fid in s.files {
        CommitIsVirtual(s, es[0].fid);
      }
      HappensBlank(Happen(s, es[0]), es[1..], g);
    }
  }

  lemma {:induction false} HappensEarly(s: Server, es: seq<Event>, g: Fid, e: nat)
    requires EarlyFirst(s, g, e)
    ensures EarlyFirst(Happens(s, es), g, e)
    decreases es
  {
    if es == [] {
    } else {
      if es[0].OtherCommit? && es[0].fid in s.files {
        CommitIsVirtual(s, es[0].fid);
      }
      HappensEarly(Happen(s, es[0]), es[1..], g, e);
    }
  }

  lemma WriteByte(s: Server, g: Fid, w: Write, i: nat)
    requires g in s.files
    ensures At(Virtual(HandleWrite(s, g, w), g), i) ==
      if Covers(w, i) then w.data[i - w.offset] else At(Virtual(s, g), i)
  {
    PendingByte(s.files[g], Pending(s, g), w, i);
  }

  lemma HandleEarly(s: Server, q: Request, g: Fid, e: nat)
    requires EarlyFirst(s, g, e) && OneOfTwo(q, g)
    ensures EarlyFirst(Handle(s, q).0, g, e)
  {
    match q
    case WriteReq(f, w) =>
      if g in s.files {
        VirtualOfWrite(s, f, w, g);
        WriteByte(s, g, w, 0);
      }
    case CommitReq(f) =>
      if f in s.files {
        CommitIsVirtual(s, f);
      }
    case ReadReq(_, _, _) =>
  }

  lemma TryEarly(s: Server, a: Attempt, q: Request, g: Fid, e: nat)
    requires EarlyFirst(s, g, e) && OneOfTwo(q, g)
    ensures EarlyFirst(Try(s, a, q).0, g, e)
  {
    var s1 := Happens(s, a.before);
    HappensEarly(s, a.before, g, e);
    match a.fate
    case Lost => HappensEarly(s1, a.after, g, e);
    case CrashIn(k, skip) => HappensEarly(Happen(Interrupted(s1, q, k), Restart(skip)), a.after, g, e);
    case Served(_) =>
      HandleEarly(s1, q, g, e);
      HappensEarly(Handle(s1, q).0, a.after, g, e);
  }

  lemma {:induction false} RpcEarly(w: World, q: Request, tries: nat, g: Fid, e: nat)
    requires EarlyFirst(w.server, g, e) && OneOfTwo(q, g)
    ensures EarlyFirst(Rpc(w, q, tries).0.server, g, e)
    decreases tries
  {
    if tries == 0 {
    } else {
      TryEarly(w.server, NextAttempt(w), q, g, e);
      RpcEarly(Attempted(w, q).0, q, tries - 1, g, e);
    }
  }

  /** The acknowledgement of EARLY. */
  lemma TryFirst(s: Server, a: Attempt, g: Fid)
    requires Blank(s, g)
    ensures var (s', o) := Try(s, a, WriteReq(g, EARLY));
      Blank(s', g) && (o.Replied? ==> o.reply.Verf? && EarlyFirst(s', g, o.reply.epoch))
  {
    var s1 := Happens(s, a.before);
    HappensBlank(s, a.before, g);
    match a.fate
    case Lost => HappensBlank(s1, a.after, g);
    case CrashIn(k, skip) => HappensBlank(Happen(Interrupted(s1, WriteReq(g, EARLY), k), Restart(skip)), a.after, g);
    case Served(_) =>
      var s2 := HandleWrite(s1, g, EARLY);
      WriteByte(s1, g, EARLY, 0);
      WriteByte(s1, g, EARLY, 1);
      HappensBlank(s2, a.after, g);
      HappensEarly(s2, a.after, g, s1.epoch);
  }

  lemma {:induction false} RpcFirst(w: World, tries: nat, g: Fid)
    requires Blank(w.server, g)
    ensures var (w', r) := Rpc(w, WriteReq(g, EARLY), tries);
      r.Ok? ==> r.value.Verf? && EarlyFirst(w'.server, g, r.value.epoch)
    decreases tries
  {
    if tries == 0 {
    } else {
      TryFirst(w.server, NextAttempt(w), g);
      RpcFirst(Attempted(w, WriteReq(g, EARLY)).0, tries - 1, g);
    }
  }

  /** A read that shows LATE without EARLY. */
  predicate ShowsLate(q: Request, r: Result<Reply>, g: Fid) {
    q == ReadReq(g, 0, 2) && r == Ok(Data([0, 2]))
  }

  lemma TryTells(s: Server, a: Attempt, g: Fid, e: nat)
    requires EarlyFirst(s, g, e) && Try(s, a, ReadReq(g, 0, 2)).1 == Replied(Data([0, 2]))
    ensures e < Try(s, a, ReadReq(g, 0, 2)).0.epoch
  {
    var s1 := Happens(s, a.before);
    HappensEarly(s, a.before, g, e);
    HappensEpoch(s1, a.after);
    assert g in s1.files && HandleRead(s1, g, 0, 2) == [0, 2];
    assert HandleRead(s1, g, 0, 2)[0] == At(s1.files[g], 0) && HandleRead(s1, g, 0, 2)[1] == At(s1.files[g], 1);
  }

  lemma {:induction false} RpcTells(w: World, tries: nat, g: Fid, e: nat)
    requires EarlyFirst(w.server, g, e) && ShowsLate(ReadReq(g, 0, 2), Rpc(w, ReadReq(g, 0, 2), tries).1, g)
    ensures e < Rpc(w, ReadReq(g, 0, 2), tries).0.server.epoch
    decreases tries
  {
    if tries == 0 {
    } else {
      var q := ReadReq(g, 0, 2);
      TryEarly(w.server, NextAttempt(w), q, g, e);
      if Attempted(w, q).1.Transport? {
        RpcTells(Attempted(w, q).0, tries - 1, g, e);
      } else {
        TryTells(w.server, NextAttempt(w), g, e);
      }
    }
  }

  // ---------- A session ----------

  /** EARLY is written to file 3 and acknowledged; LATE to file 3 gives up, and so does a write to file 2; a
      read of file 3 shows LATE without EARLY. */
  const FIRST := Message(WriteReq(3, EARLY), Ok(Verf(5)))
  const SECOND := Message(WriteReq(3, LATE), Err(EIO))
  const THIRD := Message(WriteReq(2, EARLY), Err(EIO))
  const FOURTH := Message(ReadReq(3, 0, 2), Ok(Data([0, 2])))

  const TALK := [] + [FIRST] + [SECOND] + [THIRD] + [FOURTH]

  const CALLS := [WriteCall(3, 0, [1]), WriteCall(3, 1, [2]), WriteCall(2, 0, [1]), ReadCall(3, 0, 2)]

  /** Whoever answers like this has restarted. */
  lemma TalkTells(w: World)
    requires Blank(w.server, 3) && Serves(w, TALK)
    ensures 5 < After(w, TALK).server.epoch
  {
    OneMore(w, [] + [FIRST] + [SECOND] + [THIRD], FOURTH);
    OneMore(w, [] + [FIRST] + [SECOND], THIRD);
    OneMore(w, [] + [FIRST], SECOND);
    OneMore(w, [], FIRST);
    RpcFirst(w, MAX_TRIES, 3);
    RpcEarly(After(w, [FIRST]), SECOND.q, MAX_TRIES, 3, 5);
    RpcEarly(After(w, [FIRST] + [SECOND]), THIRD.q, MAX_TRIES, 3, 5);
    RpcTells(After(w, [FIRST] + [SECOND] + [THIRD]), MAX_TRIES, 3, 5);
  }

  /** A restart after the first message, a lost reply and a commit by somebody after the second. */
  lemma TalkHappens() returns (faults: seq<Attempt>)
    ensures Serves(World(Start([]).w.server, faults), TALK)
  {
    var s0, s2 := Start([]).w.server, Server(6, map[2 := [], 3 := [0, 2]], map[], map[]);
    var half := HalfHappens(s0, s2);
    PlaysMore(s0, half, [] + [FIRST] + [SECOND], s2, THIRD, false, []);
    faults := half + Attempts(s2, THIRD, false, []);
    assert HandleRead(s2, 3, 0, 2) == [0, 2] && Repeated(s2, THIRD, false, []) == s2;
    PlaysMore(s0, faults, [] + [FIRST] + [SECOND] + [THIRD], s2, FOURTH, false, []);
    faults := faults + Attempts(s2, FOURTH, false, []);
    assert faults + [] == faults;
    assert Answers(World(s0, faults + []), TALK, World(Repeated(s2, FOURTH, false, []), []));
  }

  lemma HalfHappens(s0: Server, s2: Server) returns (faults: seq<Attempt>)
    requires s0 == Start([]).w.server && s2 == Server(6, map[2 := [], 3 := [0, 2]], map[], map[])
    ensures Plays(s0, faults, [] + [FIRST] + [SECOND], s2)
  {
    var s1 := Server(6, s0.files, map[], map[]);
    forall tail: seq<Attempt> ensures Answers(World(s0, [] + tail), [], World(s0, tail)) {
      assert [] + tail == tail;
    }
    FirstRepeated(s0, s1);
    PlaysMore(s0, [], [], s0, FIRST, false, [Restart(0)]);
    SecondRepeated(s1, s2);
    faults := [] + Attempts(s0, FIRST, false, [Restart(0)]);
    PlaysMore(s0, faults, [] + [FIRST], s1, SECOND, true, [OtherCommit(3)]);
    faults := faults + Attempts(s1, SECOND, true, [OtherCommit(3)]);
  }

  lemma FirstRepeated(s0: Server, s1: Server)
    requires s0 == Start([]).w.server && s1 == Server(6, s0.files, map[], map[])
    ensures Repeated(s0, FIRST, false, [Restart(0)]) == s1
  {
    var s := HandleWrite(s0, 3, EARLY);
    assert Happens(s0, []) == s0;
    assert Happens(s, [Restart(0)]) == Happens(Happen(s, Restart(0)), []);
  }

  lemma SecondRepeated(s1: Server, s2: Server)
    requires s1 == Server(6, map[2 := [], 3 := []], map[], map[]) &&
      s2 == Server(6, map[2 := [], 3 := [0, 2]], map[], map[])
    ensures Repeated(s1, SECOND, true, [OtherCommit(3)]) == s2
  {
    var s := HandleWrite(s1, 3, LATE);
    assert Happens(s, [OtherCommit(3)]) == Happens(HandleCommit(s, 3), []);
    assert Pending(s, 3) == [LATE];
    CommitIsVirtual(s, 3);
    TwoBytes();
  }

  lemma OneWrite(y: Sys, f: Fid, w: Write, m: Message)
    requires EpochSound(y) && m == Message(WriteReq(f, w), Rpc(y.w, WriteReq(f, w), MAX_TRIES).1)
    requires m.r.Err? || m.r == Ok(Verf(y.c.epoch))
    ensures var y' := WriteAsync(y, f, w).0;
      && y'.w == Rpc(y.w, m.q, MAX_TRIES).0 && y'.t.seen == y.t.seen + [m]
      && y'.c == y.c.(bufs := y.c.bufs[f := Log(y, f) + [w]])
  {
    var n, y1 := |Log(y, f)|, y.(c := y.c.(bufs := y.c.bufs[f := Log(y, f) + [w]]));
    assert Log(y1, f)[n] == w;
    var (y2, r) := SendWrite(y1, f, w);
    RpcEpoch(y.w, m.q, MAX_TRIES);
    if r.Ok? {
      assert Replay(y2, f, n + 1) == (y2, Ok(()));
    }
  }

  /** A write of one byte is one message. */
  lemma OneByte(y: Sys, f: Fid, offset: nat, b: bv8, m: Message)
    requires EpochSound(y) &&
      m == Message(WriteReq(f, Write(offset, 1, [b])), Rpc(y.w, WriteReq(f, Write(offset, 1, [b])), MAX_TRIES).1)
    requires m.r.Err? || m.r == Ok(Verf(y.c.epoch))
    ensures var y' := Perform(y, WriteCall(f, offset, [b]));
      && y'.w == Rpc(y.w, m.q, MAX_TRIES).0 && y'.t.seen == y.t.seen + [m]
      && y'.c == y.c.(bufs := y.c.bufs[f := Log(y, f) + [Write(offset, 1, [b])]])
  {
    var w := Write(offset, 1, [b]);
    assert [b][..1] == [b] && [b][1..] == [] && Chunks(offset + 1, []) == [];
    assert Chunks(offset, [b]) == [w] && [w][1..] == [];
    OneWrite(y, f, w, m);
    var (y1, r) := WriteAsync(y, f, w);
    assert WriteChunks(y1, f, []) == (y1, Ok(()));
    assert WriteChunks(y, f, [w]).0 == y1;
  }

  lemma TwoRead(y: Sys, f: Fid, d: Bytes, m: Message)
    requires EpochSound(y) && |d| == 2 && m == Message(ReadReq(f, 0, 2), Ok(Data(d))) &&
      Rpc(y.w, m.q, MAX_TRIES).1 == m.r
    ensures var y' := Perform(y, ReadCall(f, 0, 2));
      y'.w == Rpc(y.w, m.q, MAX_TRIES).0 && y'.c == y.c && y'.t.seen == y.t.seen + [m]
  {
    var w1 := Rpc(y.w, m.q, MAX_TRIES).0;
    assert [] + d == d && ReadMessages(w1, f, 0, 2, d) == [] && [m] + [] == [m];
    assert ReadMessages(y.w, f, 0, 2, []) == [m];
  }

  lemma TalkInTurn(w: World) returns (w1: World, w2: World, w3: World)
    requires Serves(w, TALK)
    ensures Rpc(w, FIRST.q, MAX_TRIES) == (w1, FIRST.r) && Rpc(w1, SECOND.q, MAX_TRIES) == (w2, SECOND.r)
    ensures Rpc(w2, THIRD.q, MAX_TRIES) == (w3, THIRD.r) && Rpc(w3, FOURTH.q, MAX_TRIES).1 == FOURTH.r
  {
    w1, w2, w3 := After(w, [] + [FIRST]), After(w, [] + [FIRST] + [SECOND]),
      After(w, [] + [FIRST] + [SECOND] + [THIRD]);
    OneMore(w, [] + [FIRST] + [SECOND] + [THIRD], FOURTH);
    OneMore(w, [] + [FIRST] + [SECOND], THIRD);
    OneMore(w, [] + [FIRST], SECOND);
    OneMore(w, [], FIRST);
  }

  /** Both writes to file 3, the second in vain. */
  lemma TwoWrites(y: Sys, w1: World, w2: World) returns (y2: Sys)
    requires EpochSound(y) && y.c == Client(5, map[])
    requires Rpc(y.w, FIRST.q, MAX_TRIES) == (w1, FIRST.r) && Rpc(w1, SECOND.q, MAX_TRIES) == (w2, SECOND.r)
    ensures y2 == Perform(Perform(y, WriteCall(3, 0, [1])), WriteCall(3, 1, [2]))
    ensures y2.w == w2 && y2.t.seen == y.t.seen + [FIRST] + [SECOND] && y2.c == Client(5, map[3 := [EARLY] + [LATE]])
  {
    var y1 := Perform(y, WriteCall(3, 0, [1]));
    OneByte(y, 3, 0, 1, FIRST);
    assert [] + [EARLY] == [EARLY];
    y2 := Perform(y1, WriteCall(3, 1, [2]));
    OneByte(y1, 3, 1, 2, SECOND);
  }

  /** The write to file 2 and the read of file 3. */
  lemma WriteAndRead(y2: Sys, w3: World) returns (y4: Sys)
    requires EpochSound(y2) && y2.c == Client(5, map[3 := [EARLY] + [LATE]])
    requires Rpc(y2.w, THIRD.q, MAX_TRIES) == (w3, THIRD.r) && Rpc(w3, FOURTH.q, MAX_TRIES).1 == FOURTH.r
    ensures y4 == Perform(Perform(y2, WriteCall(2, 0, [1])), ReadCall(3, 0, 2))
    ensures y4.t.seen == y2.t.seen + [THIRD] + [FOURTH] && y4.c == Client(5, map[3 := [EARLY] + [LATE], 2 := [EARLY]])
  {
    var y3 := Perform(y2, WriteCall(2, 0, [1]));
    OneByte(y2, 2, 0, 1, THIRD);
    assert [] + [EARLY] == [EARLY];
    y4 := Perform(y3, ReadCall(3, 0, 2));
    TwoRead(y3, 3, [0, 2], FOURTH);
  }

  /** A client that gets these replies. */
  lemma SessionTalks(faults: seq<Attempt>)
    requires Serves(World(Start([]).w.server, faults), TALK)
    ensures var y, now := Start(faults), Run(Start(faults), CALLS);
      Said(y, now) == TALK && now.c == Client(5, map[3 := [EARLY] + [LATE], 2 := [EARLY]])
  {
    var w1, w2, w3 := TalkInTurn(Start(faults).w);
    var y2 := TwoWrites(Start(faults), w1, w2);
    var y4 := WriteAndRead(y2, w3);
    RunOfFour(Start(faults), CALLS);
  }

  lemma RunOfFour(y: Sys, calls: seq<Call>)
    requires EpochSound(y) && |calls| == 4
    ensures Run(y, calls) == Perform(Perform(Perform(Perform(y, calls[0]), calls[1]), calls[2]), calls[3])
  {
    assert calls[1..][1..] == calls[2..] && calls[2..][1..] == calls[3..] && calls[3..][1..] == [];
    var y1 := Perform(y, calls[0]);
    var y2 := Perform(y1, calls[1]);
    var y3 := Perform(y2, calls[2]);
    assert Run(y3, calls[3..]) == Run(Perform(y3, calls[3]), []);
    assert Run(y2, calls[2..]) == Run(y3, calls[3..]);
    assert Run(y1, calls[1..]) == Run(y2, calls[2..]);
  }

  /** What is known of file 2: its only write was not acknowledged. */
  lemma SecondFileOpen()
    ensures SentNow(5, TALK, 2) == [Sent(EARLY, false)] && Open(5, TALK, 2) &&
      !Settled([], [EARLY], [Sent(EARLY, false)])
  {
    SentSnoc(5, [] + [FIRST] + [SECOND] + [THIRD], FOURTH, 2);
    SentSnoc(5, [] + [FIRST] + [SECOND], THIRD, 2);
    SentSnoc(5, [] + [FIRST], SECOND, 2);
    SentSnoc(5, [], FIRST, 2);
    assert [Sent(EARLY, false)][..0] == [] && AckedWrites([Sent(EARLY, false)]) == [];
    assert End([EARLY]) == 1 && End([]) == 0;
    NoCommits(5, TALK, 2);
  }

  lemma {:induction false} NoCommits(epoch: nat, ms: seq<Message>, f: Fid)
    requires forall m | m in ms :: !m.q.CommitReq?
    ensures Open(epoch, ms, f)
    decreases |ms|
  {
    if ms == [] {
    } else {
      NoCommits(epoch, ms[..|ms| - 1], f);
    }
  }

  lemma StartFresh(faults: seq<Attempt>)
    ensures FreshStart(Start(faults)) && Inv(Start(faults), NOTHING)
  {}

  lemma TalkedBuffers(faults: seq<Attempt>)
    requires Serves(World(Start([]).w.server, faults), TALK)
    ensures Buffers(Start(faults), NOTHING, CALLS, 2)
  {
    StartFresh(faults);
    SessionTalks(faults);
    SecondFileOpen();
  }

  lemma TalkedUnsettled(faults: seq<Attempt>)
    requires Serves(World(Start([]).w.server, faults), TALK)
    ensures !SettledAfter(Start(faults), CALLS, 2)
  {
    SessionTalks(faults);
    SecondFileOpen();
    assert Log(Run(Start(faults), CALLS), 2) == [EARLY];
  }

  lemma TalkedIsDurable(faults: seq<Attempt>)
    requires Serves(World(Start([]).w.server, faults), TALK)
    ensures Durable(Start(faults), CALLS, 2)
  {
    var y := Start(faults);
    TalkedBuffers(faults);
    SessionTalks(faults);
    RunFollows(y, y, CALLS);
    TalkTells(y.w);
    BehindIsDurable(y, NOTHING, CALLS, 2);
  }

  lemma AllAlike(attempts: seq<Attempt>)
    requires Said(Start(attempts), Run(Start(attempts), CALLS)) == TALK
    ensures Durable(Start(attempts), CALLS, 2)
  {
    RunFollows(Start(attempts), Start(attempts), CALLS);
    TalkedIsDurable(attempts);
  }

  lemma TalkGuarantees(faults: seq<Attempt>)
    requires Serves(World(Start([]).w.server, faults), TALK)
    ensures Guaranteed(Start(faults), CALLS, 2)
  {
    var y := Start(faults);
    SessionTalks(faults);
    forall attempts: seq<Attempt> ensures var z := y.(w := World(y.w.server, attempts));
      Said(z, Run(z, CALLS)) == Said(y, Run(y, CALLS)) ==> Durable(z, CALLS, 2)
    {
      if Said(Start(attempts), Run(Start(attempts), CALLS)) == TALK {
        AllAlike(attempts);
      }
    }
  }

  /** Reads of other files add knowledge: in this session only file 3 is read, file 2 is to be committed, its
      log is not settled and the client holds the epoch of the start; and yet an Ok from the commit of
      file 2 is a guarantee, since what was read of file 3 shows that the server has restarted. */
  lemma ReadTells() returns (y: Sys)
    ensures FreshStart(y) && Buffers(y, NOTHING, CALLS, 2) && Run(y, CALLS).c.epoch == y.w.server.epoch
    ensures !SettledAfter(y, CALLS, 2) && Guaranteed(y, CALLS, 2)
    ensures Said(y, Run(y, CALLS)) == TALK
  {
    var faults := TalkHappens();
    y := Start(faults);
    StartFresh(faults);
    SessionTalks(faults);
    TalkedBuffers(faults);
    TalkedUnsettled(faults);
    TalkGuarantees(faults);
  }
}
