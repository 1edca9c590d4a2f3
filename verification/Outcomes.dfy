/** What a call answers: its outcome is that of its last message. And when calls succeed: under every
    schedule that lets the server answer now and then, whatever else goes wrong. */
module Outcomes {
  import opened Content
  import opened Protocol
  import opened Durability
  import opened Sessions
  import opened Messages
  import opened EndToEnd
  import opened Bounds

  // ---------- The messages tell the outcome ----------

  /** The call is Ok and so is each of its messages; or it ends with its first message that is not, and
      returns the error of that one. All messages are about the file. */
  ghost predicate Tells(ms: seq<Message>, f: Fid, r: Result<()>) {
    && (forall m | m in ms :: m.q.fid == f)
    && match r
       case Ok(_) => forall m | m in ms :: m.r.Ok?
       case Err(e) => ms != [] && ms[|ms| - 1].r == Err(e) && forall m | m in ms[..|ms| - 1] :: m.r.Ok?
  }

  lemma TellsExactly(ms: seq<Message>, f: Fid, r: Result<()>)
    requires Tells(ms, f, r)
    ensures r.Ok? <==> forall m | m in ms :: m.r.Ok?
  {
    if r.Err? {
      assert ms[|ms| - 1] in ms;
    }
  }

  lemma TellsBoth(a: seq<Message>, b: seq<Message>, f: Fid, r: Result<()>)
    requires Tells(a, f, Ok(())) && Tells(b, f, r)
    ensures Tells(a + b, f, r)
  {
    if r.Err? {
      assert (a + b)[..|a + b| - 1] == a + b[..|b| - 1];
    }
  }

  /** One message more at the front. */
  lemma TellsFirst(y: Sys, y1: Sys, y': Sys, m: Message, f: Fid, r: Result<()>)
    requires y1.t.seen == y.t.seen + [m] && y1.t.seen <= y'.t.seen && m.q.fid == f && m.r.Ok?
    requires Tells(Said(y1, y'), f, r)
    ensures y.t.seen <= y'.t.seen && Said(y, y') == [m] + Said(y1, y') && Tells(Said(y, y'), f, r)
  {
    assert Said(y, y') == [m] + Said(y1, y');
    TellsBoth([m], Said(y1, y'), f, r);
  }

  /** The last message is this request, answered in this epoch. */
  predicate EndsWith(ms: seq<Message>, q: Request, epoch: nat) {
    ms != [] && ms[|ms| - 1] == Message(q, Ok(Verf(epoch)))
  }

  predicate OnlyWrites(ms: seq<Message>) {
    forall m | m in ms :: m.q.WriteReq?
  }

  /** The messages of a replay from pos, and its outcome. */
  ghost predicate ReplayTold(ms: seq<Message>, f: Fid, log: seq<Write>, pos: nat, epoch: nat, r: Result<()>) {
    && Tells(ms, f, r) && OnlyWrites(ms)
    && (r.Ok? && pos < |log| ==> EndsWith(ms, WriteReq(f, log[|log| - 1]), epoch))
  }

  lemma ReplayTellsMore(rest: seq<Message>, m: Message, f: Fid, log: seq<Write>, pos: nat, from: nat, epoch: nat,
                        r: Result<()>)
    requires ReplayTold(rest, f, log, from, epoch, r) && pos < |log| && m.q == WriteReq(f, log[pos]) && m.r.Ok?
    requires from == 0 || (from == pos + 1 && (from == |log| ==> rest == [] && m.r == Ok(Verf(epoch))))
    ensures ReplayTold([m] + rest, f, log, pos, epoch, r)
  {
    TellsBoth([m], rest, f, r);
  }

  /** The first message of a replay that goes on, and where it goes on from. */
  lemma ReplayGoesOn(y: Sys, f: Fid, pos: nat) returns (m: Message, next: Sys, from: nat)
    requires EpochSound(y) && pos < |Log(y, f)| && SendWrite(y, f, Log(y, f)[pos]).1.Ok?
    ensures m.q == WriteReq(f, Log(y, f)[pos]) && m.r.Ok? && next.t.seen == y.t.seen + [m]
    ensures EpochSound(next) && next.c.bufs == y.c.bufs && Replay(y, f, pos) == Replay(next, f, from)
    ensures LastEpoch(next.w) == LastEpoch(y.w) && y.c.epoch <= next.c.epoch
    ensures if next.c.epoch == y.c.epoch then from == pos + 1 && m.r == Ok(Verf(next.c.epoch)) else from == 0
  {
    var q := WriteReq(f, Log(y, f)[pos]);
    RpcEpoch(y.w, q, MAX_TRIES);
    var (y1, r) := SendWrite(y, f, Log(y, f)[pos]);
    m, next, from := Message(q, Rpc(y.w, q, MAX_TRIES).1), Noted(y1, r), if r.value == y.c.epoch then pos + 1 else 0;
  }

  lemma SaidFirst(y: Sys, next: Sys, y': Sys, m: Message)
    requires next.t.seen == y.t.seen + [m] && next.t.seen <= y'.t.seen
    ensures y.t.seen <= y'.t.seen && Said(y, y') == [m] + Said(next, y')
  {}

  /** The only message of a replay that stops. */
  lemma ReplayStops(y: Sys, f: Fid, pos: nat)
    requires EpochSound(y) && pos < |Log(y, f)| && SendWrite(y, f, Log(y, f)[pos]).1.Err?
    ensures var (y', r) := Replay(y, f, pos); ReplayTold(Said(y, y'), f, Log(y, f), pos, y'.c.epoch, r)
  {
    var (y1, r) := SendWrite(y, f, Log(y, f)[pos]);
    assert Said(y, y1) == [Message(WriteReq(f, Log(y, f)[pos]), Err(r.errno))];
  }

  /** A replay is Ok exactly if all its messages are, and then the last write of the log was the last to be
      answered, in the epoch that the client then has. */
  lemma {:induction false} ReplayTells(y: Sys, f: Fid, pos: nat)
    requires EpochSound(y)
    ensures var (y', r) := Replay(y, f, pos); ReplayTold(Said(y, y'), f, Log(y, f), pos, y'.c.epoch, r)
    decreases LastEpoch(y.w) - y.c.epoch, |Log(y, f)| - pos
  {
    if |Log(y, f)| <= pos {
    } else if SendWrite(y, f, Log(y, f)[pos]).1.Err? {
      ReplayStops(y, f, pos);
    } else {
      var m, next, from := ReplayGoesOn(y, f, pos);
      ReplayTells(next, f, from);
      var (y', r) := Replay(next, f, from);
      SaidFirst(y, next, y', m);
      ReplayTellsMore(Said(next, y'), m, f, Log(y, f), pos, from, y'.c.epoch, r);
    }
  }

  /** A commit is Ok exactly if all its messages are, and then the last one is a COMMIT that was answered in
      the epoch that the client then has; otherwise it returns the error of its last message. It drops the
      log exactly if it is Ok. */
  lemma {:induction false} CommitTells(y: Sys, f: Fid)
    requires EpochSound(y)
    ensures var (y', r) := Commit(y, f);
      && Tells(Said(y, y'), f, r)
      && (r.Ok? ==> EndsWith(Said(y, y'), CommitReq(f), y'.c.epoch))
      && y'.c.bufs == if r.Ok? then y.c.bufs - {f} else y.c.bufs
    decreases LastEpoch(y.w) - y.c.epoch, 0
  {
    var q := CommitReq(f);
    RpcEpoch(y.w, q, MAX_TRIES);
    var (y1, r) := SendCommit(y, f);
    var m := Message(q, Rpc(y.w, q, MAX_TRIES).1);
    assert Said(y, y1) == [m];
    if r.Ok? && r.value != y.c.epoch {
      var next := NoteEpoch(y1, r.value);
      ResumeTells(next, f);
      var (y2, r2) := Replay(next, f, 0);
      TellsFirst(y, next, if r2.Err? then y2 else Commit(y2, f).0, m, f, if r2.Err? then r2 else Commit(y2, f).1);
    }
  }

  lemma ResumeTells(y: Sys, f: Fid)
    requires EpochSound(y)
    ensures var (y2, r2) := Replay(y, f, 0);
      && y2.c.bufs == y.c.bufs
      && (r2.Err? ==> Tells(Said(y, y2), f, r2))
      && (r2.Ok? ==>
            var (y', r) := Commit(y2, f);
            && y.t.seen <= y'.t.seen && Tells(Said(y, y'), f, r)
            && (r.Ok? ==> EndsWith(Said(y, y'), CommitReq(f), y'.c.epoch))
            && y'.c.bufs == if r.Ok? then y.c.bufs - {f} else y.c.bufs)
    decreases LastEpoch(y.w) - y.c.epoch, 1
  {
    var (y2, r2) := Replay(y, f, 0);
    ReplayTells(y, f, 0);
    if r2.Ok? {
      CommitTells(y2, f);
      SaidBoth(y, y2, Commit(y2, f).0);
      TellsBoth(Said(y, y2), Said(y2, Commit(y2, f).0), f, Commit(y2, f).1);
    }
  }

  lemma WriteTells(y: Sys, f: Fid, w: Write)
    requires EpochSound(y)
    ensures var (y', r) := WriteAsync(y, f, w);
      && Tells(Said(y, y'), f, r) && OnlyWrites(Said(y, y'))
      && (r.Ok? ==> EndsWith(Said(y, y'), WriteReq(f, w), y'.c.epoch))
      && y'.c.bufs == y.c.bufs[f := Log(y, f) + [w]]
  {
    var y1 := y.(c := y.c.(bufs := y.c.bufs[f := Log(y, f) + [w]]));
    assert Log(y1, f)[|Log(y1, f)| - 1] == w;
    ReplayTells(y1, f, |Log(y, f)|);
  }

  /** The messages of a user write, and its outcome. */
  ghost predicate ChunksTold(ms: seq<Message>, f: Fid, cs: seq<Write>, epoch: nat, r: Result<()>) {
    && Tells(ms, f, r) && OnlyWrites(ms)
    && (r.Ok? && cs != [] ==> EndsWith(ms, WriteReq(f, cs[|cs| - 1]), epoch))
    && (cs == [] ==> ms == [] && r.Ok?)
  }

  lemma ChunksTellMore(a: seq<Message>, b: seq<Message>, f: Fid, cs: seq<Write>, epoch: nat, epoch': nat, r: Result<()>)
    requires cs != [] && Tells(a, f, Ok(())) && OnlyWrites(a) && EndsWith(a, WriteReq(f, cs[0]), epoch)
    requires ChunksTold(b, f, cs[1..], epoch', r) && (b == [] ==> epoch' == epoch)
    ensures ChunksTold(a + b, f, cs, epoch', r)
  {
    TellsBoth(a, b, f, r);
    if |cs| > 1 {
      assert cs[1..][|cs| - 2] == cs[|cs| - 1];
    } else {
      assert cs[1..] == [] && a + b == a;
    }
  }

  /** A user write is Ok exactly if every message it sent is, and otherwise returns the error of its last
      message; an Ok one has sent its last piece. */
  lemma {:induction false} ChunksTell(y: Sys, f: Fid, cs: seq<Write>)
    requires EpochSound(y)
    ensures var (y', r) := WriteChunks(y, f, cs); ChunksTold(Said(y, y'), f, cs, y'.c.epoch, r)
    decreases cs
  {
    if cs == [] {
    } else {
      WriteTells(y, f, cs[0]);
      var (y1, r1) := WriteAsync(y, f, cs[0]);
      if r1.Ok? {
        ChunksTell(y1, f, cs[1..]);
        var (y', r) := WriteChunks(y1, f, cs[1..]);
        SaidBoth(y, y1, y');
        assert cs[1..] == [] ==> y' == y1;
        assert Said(y1, y') == [] ==> cs[1..] == [];
        ChunksTellMore(Said(y, y1), Said(y1, y'), f, cs, y1.c.epoch, y'.c.epoch, r);
      }
    }
  }

  lemma {:induction false} ChunksLogs(y: Sys, f: Fid, cs: seq<Write>)
    requires EpochSound(y)
    ensures WriteChunks(y, f, cs).0.c.bufs.Keys == y.c.bufs.Keys + if cs == [] then {} else {f}
    decreases cs
  {
    if cs == [] {
    } else {
      WriteTells(y, f, cs[0]);
      var (y1, r1) := WriteAsync(y, f, cs[0]);
      if r1.Ok? {
        ChunksLogs(y1, f, cs[1..]);
      }
    }
  }

  function NoValue<T>(r: Result<T>): Result<()> {
    if r.Ok? then Ok(()) else Err(r.errno)
  }

  /** A read is Ok exactly if every message it sent is. */
  lemma {:induction false} ReadTells(w: World, f: Fid, offset: nat, size: nat, got: Bytes)
    ensures Tells(ReadMessages(w, f, offset, size, got), f, NoValue(ReadOn(w, f, offset, size, got).1))
    decreases size - |got|
  {
    if |got| < size {
      var q := ReadReq(f, offset + |got|, size - |got|);
      var (w1, r) := Rpc(w, q, MAX_TRIES);
      RpcEpoch(w, q, MAX_TRIES);
      if r.Ok? && r.value.data != [] {
        ReadTells(w1, f, offset, size, got + r.value.data);
        TellsBoth([Message(q, r)], ReadMessages(w1, f, offset, size, got + r.value.data), f,
                  NoValue(ReadOn(w1, f, offset, size, got + r.value.data).1));
      }
    }
  }

  /** What a call of the user answers. */
  function CallOutcome(y: Sys, call: Call): Result<()>
    requires EpochSound(y)
  {
    match call
    case WriteCall(f, offset, data) => WriteChunks(y, f, Chunks(offset, data)).1
    case FlushCall(f) => Commit(y, f).1
    case ReadCall(f, offset, size) => NoValue(ReadOn(y.w, f, offset, size, []).1)
  }

  lemma PerformTells(y: Sys, call: Call)
    requires EpochSound(y)
    ensures Tells(Said(y, Perform(y, call)), call.fid, CallOutcome(y, call))
  {
    match call
    case WriteCall(f, offset, data) => ChunksTell(y, f, Chunks(offset, data));
    case FlushCall(f) => CommitTells(y, f);
    case ReadCall(f, offset, size) =>
      ReadTells(y.w, f, offset, size, []);
      assert Said(y, Perform(y, call)) == ReadMessages(y.w, f, offset, size, []);
  }

  // ---------- Schedules that let the server answer ----------

  predicate SomeAnswered(attempts: seq<Attempt>) {
    exists i | 0 <= i < |attempts| :: Answered(attempts[i])
  }

  /** Among any MAX_TRIES attempts in a row one is answered. What else the schedule holds, restarts and
      crashes, lost requests and lost replies, is open. */
  predicate Responsive(faults: seq<Attempt>)
    decreases faults
  {
    |faults| < MAX_TRIES || (SomeAnswered(faults[..MAX_TRIES]) && Responsive(faults[1..]))
  }

  lemma {:induction false} RpcResponsive(w: World, q: Request, tries: nat)
    requires Responsive(w.faults)
    ensures Responsive(Rpc(w, q, tries).0.faults)
    decreases tries
  {
    if tries > 0 {
      RpcResponsive(Attempted(w, q).0, q, tries - 1);
    }
  }

  lemma NeverGivesUp(w: World, q: Request)
    requires Responsive(w.faults)
    ensures Rpc(w, q, MAX_TRIES).1 != Err(EIO)
  {
    GivesUpExactly(w, q, MAX_TRIES);
    if MAX_TRIES <= |w.faults| {
      var i :| 0 <= i < MAX_TRIES && Answered(w.faults[..MAX_TRIES][i]);
      assert Answered(w.faults[i]);
    }
  }

  /** Then no call gives up: it fails only for want of the file. */
  lemma RpcAnswers(w: World, q: Request)
    requires Responsive(w.faults)
    ensures q.WriteReq? || q.fid in w.server.files ==> Rpc(w, q, MAX_TRIES).1.Ok?
  {
    NeverGivesUp(w, q);
    RpcEpoch(w, q, MAX_TRIES);
    var r := Rpc(w, q, MAX_TRIES).1;
    if r.Err? {
      assert r == Err(r.errno) && (r.errno == EIO || r.errno == ENOENT);
    }
  }

  /** The request is a write, or about a file that is there. */
  predicate Servable(w: World, q: Request) {
    q.WriteReq? || q.fid in w.server.files
  }

  lemma {:induction false} AllAnswered(w: World, ms: seq<Message>)
    requires Serves(w, ms) && Responsive(w.faults) && forall m | m in ms :: Servable(w, m.q)
    ensures forall m | m in ms :: m.r.Ok?
    ensures var w' := After(w, ms); Responsive(w'.faults) && w'.server.files.Keys == w.server.files.Keys
    decreases |ms|
  {
    if ms != [] {
      var init, m := ms[..|ms| - 1], ms[|ms| - 1];
      assert ms == init + [m] && m in ms;
      forall x | x in init ensures x in ms {}
      AllAnswered(w, init);
      RpcAnswers(After(w, init), m.q);
      RpcResponsive(After(w, init), m.q, MAX_TRIES);
      RpcEpoch(After(w, init), m.q, MAX_TRIES);
    }
  }

  /** Under such a schedule every call succeeds: every write, and every flush and read of a file that is
      there. */
  lemma CallSucceeds(y: Sys, call: Call)
    requires EpochSound(y) && Responsive(y.w.faults) && (call.WriteCall? || call.fid in y.w.server.files)
    ensures CallOutcome(y, call).Ok?
    ensures Responsive(Perform(y, call).w.faults) && Perform(y, call).w.server.files.Keys == y.w.server.files.Keys
  {
    PerformTells(y, call);
    PerformFollows(y, y, call);
    var ms := Said(y, Perform(y, call));
    if call.WriteCall? {
      ChunksTell(y, call.fid, Chunks(call.offset, call.data));
    }
    AllAnswered(y.w, ms);
    TellsExactly(ms, call.fid, CallOutcome(y, call));
  }

  // ---------- A commit that meets a restart ----------

  /** A commit by a client that has missed a restart resends the log, commits again and succeeds: it returns
      Ok and leaves on disk what it is expected to. */
  lemma CommitRecovers(y: Sys, h: History, f: Fid)
    requires Inv(y, h) && Responsive(y.w.faults) && f in y.w.server.files && f in y.c.bufs
    requires y.c.epoch < y.w.server.epoch
    ensures var (y', r) := Commit(y, f);
      r.Ok? && f !in y'.c.bufs && f in y'.w.server.files && y'.w.server.files[f] == Expected(y, h, f)
  {
    CallSucceeds(y, FlushCall(f));
    CommitDurable(y, h, f);
    RpcEpoch(y.w, CommitReq(f), MAX_TRIES);
    RpcAnswers(y.w, CommitReq(f));
    assert Commit(y, f).0.c.epoch != y.c.epoch;
  }

  /** A flush or read of a file that is not there never succeeds, and fails for that reason. */
  lemma MissingFails(y: Sys, call: Call)
    requires EpochSound(y) && Responsive(y.w.faults) && !call.WriteCall? && call.fid !in y.w.server.files
    requires call.ReadCall? ==> call.size > 0
    ensures CallOutcome(y, call) == Err(ENOENT)
  {
    var q := if call.FlushCall? then CommitReq(call.fid) else ReadReq(call.fid, call.offset, call.size);
    RpcEpoch(y.w, q, MAX_TRIES);
    NeverGivesUp(y.w, q);
    var r := Rpc(y.w, q, MAX_TRIES).1;
    assert r == Err(r.errno) && r.errno == ENOENT;
  }

  // ---------- Whole sessions ----------

  ghost predicate AllSucceed(y: Sys, calls: seq<Call>)
    requires EpochSound(y)
    decreases calls
  {
    calls == [] || (CallOutcome(y, calls[0]).Ok? && AllSucceed(Perform(y, calls[0]), calls[1..]))
  }

  predicate OnFile(calls: seq<Call>, f: Fid) {
    forall c | c in calls :: c.fid == f
  }

  /** Flushes and reads are of files that are there. */
  predicate OfFiles(y: Sys, calls: seq<Call>) {
    forall c | c in calls :: c.WriteCall? || c.fid in y.w.server.files
  }

  lemma PerformLogs(y: Sys, call: Call)
    requires EpochSound(y)
    ensures Perform(y, call).c.bufs.Keys <= y.c.bufs.Keys + {call.fid}
    ensures !call.WriteCall? ==> Perform(y, call).c.bufs.Keys <= y.c.bufs.Keys
  {
    match call
    case WriteCall(f, offset, data) => ChunksLogs(y, f, Chunks(offset, data));
    case FlushCall(f) => CommitTells(y, f);
    case ReadCall(_, _, _) =>
  }

  /** A session on one file succeeds through restarts and crashes. */
  lemma {:induction false} OneFileSucceeds(y: Sys, calls: seq<Call>, f: Fid)
    requires EpochSound(y) && Responsive(y.w.faults) && f in y.w.server.files && y.c.bufs.Keys <= {f} &&
      OnFile(calls, f)
    ensures GoodRun(y, calls) && AllSucceed(y, calls) && Responsive(Run(y, calls).w.faults)
    decreases calls
  {
    if calls != [] {
      assert calls[0] in calls;
      CallSucceeds(y, calls[0]);
      PerformLogs(y, calls[0]);
      OneFileSucceeds(Perform(y, calls[0]), calls[1..], f);
    }
  }

  /** The user's writes as calls. */
  function WriteCalls(f: Fid, puts: seq<Put>): seq<Call> {
    seq(|puts|, i requires 0 <= i < |puts| => WriteCall(f, puts[i].offset, puts[i].data))
  }

  /** Writing one piece of data after another is Ok exactly if all the calls are, and then it is what they do. */
  lemma {:induction false} WriteAllExactly(y: Sys, f: Fid, puts: seq<Put>)
    requires EpochSound(y)
    ensures WriteAll(y, f, puts).1.Ok? <==> AllSucceed(y, WriteCalls(f, puts))
    ensures WriteAll(y, f, puts).1.Ok? ==> WriteAll(y, f, puts).0 == Run(y, WriteCalls(f, puts))
    decreases puts
  {
    var calls := WriteCalls(f, puts);
    if puts != [] {
      assert calls[1..] == WriteCalls(f, puts[1..]);
      WriteAllExactly(Perform(y, calls[0]), f, puts[1..]);
    }
  }

  lemma {:induction false} WritesSucceed(y: Sys, calls: seq<Call>)
    requires EpochSound(y) && Responsive(y.w.faults) && forall c | c in calls :: c.WriteCall?
    ensures AllSucceed(y, calls) && Responsive(Run(y, calls).w.faults)
    ensures Run(y, calls).w.server.files.Keys == y.w.server.files.Keys
    decreases calls
  {
    if calls != [] {
      assert calls[0] in calls;
      CallSucceeds(y, calls[0]);
      forall c | c in calls[1..] ensures c in calls {}
      WritesSucceed(Perform(y, calls[0]), calls[1..]);
    }
  }

  /** Write, flush, read back without an if: under a responsive schedule all three succeed. */
  lemma RoundTripSucceeds(y: Sys, h: History, f: Fid, puts: seq<Put>, offset: nat, size: nat)
    requires Inv(y, h) && f in y.w.server.files && Tracked(y, h, f) && Responsive(y.w.faults)
    ensures var (y1, r1) := WriteAll(y, f, puts);
      && r1.Ok?
      && var (y2, r2) := Commit(y1, f);
         && r2.Ok?
         && var (w3, r3) := ReadOn(y2.w, f, offset, size, []);
            r3.Ok? && Reads(PutAll(Intended(y, h, f), puts), offset, size, r3.value)
  {
    WriteAllExactly(y, f, puts);
    WritesSucceed(y, WriteCalls(f, puts));
    var y1 := WriteAll(y, f, puts).0;
    CallSucceeds(y1, FlushCall(f));
    CallSucceeds(Commit(y1, f).0, ReadCall(f, offset, size));
    RoundTrip(y, h, f, puts, offset, size);
  }

  // ---------- Sessions without restarts ----------

  lemma {:induction false} AfterEpochs(w: World, ms: seq<Message>)
    ensures w.server.epoch <= After(w, ms).server.epoch && LastEpoch(After(w, ms)) == LastEpoch(w)
    decreases |ms|
  {
    if ms != [] {
      AfterEpochs(w, ms[..|ms| - 1]);
      RpcEpoch(After(w, ms[..|ms| - 1]), ms[|ms| - 1].q, MAX_TRIES);
    }
  }

  lemma {:induction false} OneEpoch(w: World, epoch: nat, ms: seq<Message>)
    requires Serves(w, ms) && Gain(w.faults) == 0
    ensures Latest(epoch, ms) == epoch || Latest(epoch, ms) == w.server.epoch
    ensures forall m | m in ms && Dated(m) :: m.r.value.epoch == w.server.epoch
    decreases |ms|
  {
    if ms != [] {
      var init, m := ms[..|ms| - 1], ms[|ms| - 1];
      assert ms == init + [m];
      OneEpoch(w, epoch, init);
      AfterEpochs(w, init);
      AfterEpochs(w, ms);
      RpcEpoch(After(w, init), m.q, MAX_TRIES);
    }
  }

  /** No restart is to come, and a client with a log knows the epoch. */
  ghost predicate Steady(y: Sys) {
    && EpochSound(y) && Responsive(y.w.faults) && Gain(y.w.faults) == 0
    && (y.c.bufs != map[] ==> y.c.epoch == y.w.server.epoch)
  }

  lemma PerformSteady(y: Sys, call: Call)
    requires Steady(y) && (call.WriteCall? || call.fid in y.w.server.files)
    ensures Steady(Perform(y, call)) && Good(y, call) && CallOutcome(y, call).Ok?
    ensures Perform(y, call).w.server.files.Keys == y.w.server.files.Keys
  {
    var y', ms := Perform(y, call), Said(y, Perform(y, call));
    CallSucceeds(y, call);
    PerformFollows(y, y, call);
    PerformRecorded(y, call, call.fid);
    AfterEpochs(y.w, ms);
    OneEpoch(y.w, y.c.epoch, ms);
    PerformLogs(y, call);
    if y.c.bufs == map[] && y'.c.bufs != map[] {
      FirstWriteDated(y, call);
    }
  }

  /** A write that starts a log learns the epoch. */
  lemma FirstWriteDated(y: Sys, call: Call)
    requires Steady(y) && y.c.bufs == map[] && Perform(y, call).c.bufs != map[] && CallOutcome(y, call).Ok?
    ensures Perform(y, call).c.epoch == y.w.server.epoch
  {
    PerformLogs(y, call);
    var cs := Chunks(call.offset, call.data);
    ChunksTell(y, call.fid, cs);
    ChunksLogs(y, call.fid, cs);
    PerformFollows(y, y, call);
    var ms := Said(y, Perform(y, call));
    OneEpoch(y.w, y.c.epoch, ms);
    assert ms[|ms| - 1] in ms;
  }

  /** A session on any files succeeds as long as the server does not restart. */
  lemma {:induction false} SteadySucceeds(y: Sys, calls: seq<Call>)
    requires Steady(y) && OfFiles(y, calls)
    ensures GoodRun(y, calls) && AllSucceed(y, calls) && Responsive(Run(y, calls).w.faults)
    decreases calls
  {
    if calls != [] {
      assert calls[0] in calls;
      PerformSteady(y, calls[0]);
      forall c | c in calls[1..] ensures c in calls {}
      SteadySucceeds(Perform(y, calls[0]), calls[1..]);
    }
  }

  /** The promise without an if: where the server answers now and then, and the session is on one file or
      the server does not restart, every call succeeds, the flush of any file at the end succeeds and
      leaves on disk what the user wrote, and reading it back succeeds and returns those bytes. */
  lemma SessionSucceeds(y: Sys, calls: seq<Call>, f: Fid, offset: nat, size: nat)
    requires FreshStart(y) && Responsive(y.w.faults) && f in y.w.server.files && OfFiles(y, calls)
    requires OnFile(calls, f) || Gain(y.w.faults) == 0
    ensures GoodRun(y, calls) && AllSucceed(y, calls)
    ensures var (y', r) := Commit(Run(y, calls), f);
      && r.Ok? && f in y'.w.server.files && y'.w.server.files[f] == Wrote(y.w.server.files[f], calls, f)
      && var (_, got) := ReadOn(y'.w, f, offset, size, []);
         got.Ok? && Reads(Wrote(y.w.server.files[f], calls, f), offset, size, got.value)
  {
    if OnFile(calls, f) {
      OneFileSucceeds(y, calls, f);
    } else {
      SteadySucceeds(y, calls);
    }
    RunIntends(y, NOTHING, calls, f);
    var now := Run(y, calls);
    CallSucceeds(now, FlushCall(f));
    CallSucceeds(Commit(now, f).0, ReadCall(f, offset, size));
    FlushedIsWhatWasWritten(y, calls, f, offset, size);
  }

  /** A client in epoch 5 at a server that has come up in epoch 6. */
  const BEHIND := Sys(World(Server(6, map[2 := [], 3 := []], map[], map[]), []), Client(5, map[]), NO_WORK)

  const TWO_WRITES := [WriteCall(2, 0, [1]), FlushCall(2), WriteCall(2, 1, [2])]

  lemma TwoWritesMake()
    ensures Wrote([], TWO_WRITES, 2) == [1, 2]
  {
    var rest, last := [FlushCall(2), WriteCall(2, 1, [2])], [WriteCall(2, 1, [2])];
    assert TWO_WRITES[1..] == rest && rest[1..] == last && last[1..] == [];
    SameBytes(Pwrite([], 0, [1]), [1]);
    SameBytes(Pwrite([1], 1, [2]), [1, 2]);
    assert Wrote([1], last, 2) == Wrote([1, 2], [], 2);
    assert Wrote([1], rest, 2) == Wrote([1], last, 2);
  }

  /** A write, a flush, another write, and a flush: all Ok, and both bytes are on disk. */
  lemma WriteFlushInstance()
    ensures FreshStart(BEHIND) && GoodRun(BEHIND, TWO_WRITES) && AllSucceed(BEHIND, TWO_WRITES)
    ensures var (y', r) := Commit(Run(BEHIND, TWO_WRITES), 2);
      r.Ok? && 2 in y'.w.server.files && y'.w.server.files[2] == [1, 2]
  {
    TwoWritesMake();
    SessionSucceeds(BEHIND, TWO_WRITES, 2, 0, 2);
  }
}
