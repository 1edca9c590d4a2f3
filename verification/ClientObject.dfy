/** The client as an object, over a channel that plays the schedule of faults against the
    server object. Each loop computes the function of the protocol model it stands for. */
module ClientObject {
  import opened Content
  import opened Protocol
  import opened Durability
  import opened ServerObject
  import M = Messages
  import O = Outcomes
  import S = Sessions

  /** Every write in the server's buffers passed the size checks on its way in. */
  ghost predicate SizedBuffers(s: Server) {
    forall f, w | f in s.bufs && w in s.bufs[f] :: WellSized(w)
  }

  lemma {:induction false} HappensSized(s: Server, es: seq<Event>)
    requires SizedBuffers(s)
    ensures SizedBuffers(Happens(s, es))
    decreases es
  {
    if es == [] {
    } else {
      HappensSized(Happen(s, es[0]), es[1..]);
    }
  }

  predicate SizedRequest(q: Request) {
    q.WriteReq? ==> WellSized(q.w)
  }

  lemma WriteChunksStep(y: Sys, f: Fid, offset: nat, rest: Bytes)
    requires EpochSound(y) && rest != []
    ensures var n := Min(|rest|, MAX_BUF_LEN);
      var (y1, r1) := WriteAsync(y, f, Content.Write(offset, n, rest[..n]));
      WriteChunks(y, f, Chunks(offset, rest)) ==
        if r1.Err? then (y1, r1) else WriteChunks(y1, f, Chunks(offset + n, rest[n..]))
  {
    var n := Min(|rest|, MAX_BUF_LEN);
    assert Chunks(offset, rest)[1..] == Chunks(offset + n, rest[n..]);
  }

  // ---------- When the calls succeed ----------

  lemma CommitAnswers(y: Sys, f: Fid)
    requires EpochSound(y)
    ensures O.Responsive(y.w.faults) && f in y.w.server.files ==> Protocol.Commit(y, f).1.Ok?
  {
    if O.Responsive(y.w.faults) && f in y.w.server.files {
      O.CallSucceeds(y, S.FlushCall(f));
    }
  }

  /** What the outcome of a user write tells. */
  ghost predicate WriteTold(y: Sys, y': Sys, f: Fid, r: Result<()>) {
    && y.t.seen <= y'.t.seen && O.Tells(M.Said(y, y'), f, r)
    && (O.Responsive(y.w.faults) ==> r.Ok?)
  }

  lemma WriteAnswers(y: Sys, f: Fid, offset: nat, data: Bytes)
    requires EpochSound(y)
    ensures var (y', r) := WriteChunks(y, f, Chunks(offset, data)); WriteTold(y, y', f, r)
  {
    O.ChunksTell(y, f, Chunks(offset, data));
    if O.Responsive(y.w.faults) {
      O.CallSucceeds(y, S.WriteCall(f, offset, data));
    }
  }

  lemma ReadAnswers(y: Sys, f: Fid, offset: nat, size: nat)
    requires EpochSound(y)
    ensures var (w', r) := ReadOn(y.w, f, offset, size, []);
      && (O.Responsive(y.w.faults) && f in y.w.server.files ==> r.Ok?)
      && (f in y.w.server.files && Pending(y.w.server, f) == [] ==> S.ReadWell(y.w, f, offset, size, w', r))
  {
    if O.Responsive(y.w.faults) && f in y.w.server.files {
      O.CallSucceeds(y, S.ReadCall(f, offset, size));
    }
    if f in y.w.server.files && Pending(y.w.server, f) == [] {
      S.ReadExact(y.w, f, offset, size, []);
    }
  }

  class Channel {
    const server: ZippynfsServer
    var faults: seq<Attempt>

    function W(): World
      reads this, server
    {
      World(server.State(), faults)
    }

    constructor (server: ZippynfsServer, faults: seq<Attempt>)
      ensures this.server == server && this.faults == faults
    {
      this.server, this.faults := server, faults;
    }

    method PassTime(es: seq<Event>)
      requires SizedBuffers(server.State())
      modifies server
      ensures server.State() == Happens(old(server.State()), es)
    {
      var i := 0;
      while i < |es|
        invariant 0 <= i <= |es| && SizedBuffers(server.State())
        invariant Happens(server.State(), es[i..]) == Happens(old(server.State()), es)
        decreases |es| - i
      {
        match es[i] {
          case Restart(skip) => server.Restart(skip);
          case OtherCommit(f) => var _ := server.Commit(f, CommitSteps(server.State(), f));
        }
        i := i + 1;
      }
    }

    /** One attempt of a request, with the fate the schedule gives it. */
    method Send(q: Request) returns (o: Outcome)
      requires SizedBuffers(W().server) && SizedRequest(q)
      modifies this, server
      ensures (W(), o) == Attempted(old(W()), q) && SizedBuffers(W().server)
    {
      var a := if faults == [] then SMOOTH else faults[0];
      faults := if faults == [] then [] else faults[1..];
      HappensSized(server.State(), a.before);
      PassTime(a.before);
      o := Transport;
      match a.fate {
        case Lost =>
        case CrashIn(k, skip) =>
          Interrupt(q, k);
          server.Restart(skip);
        case Served(delivered) =>
          var reply := Deliver(q);
          o := if delivered then Replied(reply) else Transport;
      }
      HappensSized(server.State(), a.after);
      PassTime(a.after);
    }

    method Deliver(q: Request) returns (reply: Reply)
      requires SizedBuffers(server.State()) && SizedRequest(q)
      modifies server
      ensures (server.State(), reply) == Handle(old(server.State()), q) && SizedBuffers(server.State())
    {
      match q
      case WriteReq(f, w) => reply := server.WriteUnstable(f, w);
      case CommitReq(f) =>
        var a := server.Commit(f, CommitSteps(server.State(), f));
        reply := a.reply;
      case ReadReq(f, offset, count) => reply := server.Read(f, offset, count);
    }

    method Interrupt(q: Request, k: nat)
      requires SizedBuffers(server.State()) && SizedRequest(q)
      modifies server
      ensures server.State() == Interrupted(old(server.State()), q, k)
    {
      match q
      case WriteReq(f, w) =>
        if k != 0 {
          var _ := server.WriteUnstable(f, w);
        }
      case CommitReq(f) => var _ := server.Commit(f, k);
      case ReadReq(_, _, _) =>
    }
  }

  class ZippyFileSystem {
    const channel: Channel
    var serverEpoch: nat
    var asyncBufs: map<Fid, seq<Write>>
    ghost var tally: Tally

    ghost function Y(): Sys
      reads this, channel, channel.server
    {
      Sys(channel.W(), Client(serverEpoch, asyncBufs), tally)
    }

    ghost predicate Valid()
      reads this, channel, channel.server
    {
      && EpochSound(Y())
      && SizedBuffers(Y().w.server)
      && forall f, w | f in asyncBufs && w in asyncBufs[f] :: WellSized(w)
    }

    constructor (channel: Channel)
      requires SizedBuffers(channel.W().server)
      ensures Valid() && this.channel == channel && Y() == Sys(channel.W(), Client(0, map[]), NO_WORK)
    {
      this.channel, serverEpoch, asyncBufs, tally := channel, 0, map[], NO_WORK;
    }

    /** Retry on transport errors only, at most MAX_TRIES times. */
    method DoWithRetry(q: Request) returns (r: Result<Reply>)
      requires SizedBuffers(channel.W().server) && SizedRequest(q)
      modifies channel, channel.server
      ensures (channel.W(), r) == Rpc(old(channel.W()), q, MAX_TRIES) && SizedBuffers(channel.W().server)
    {
      var shouldTry, tries := true, 0;
      r := Err(EIO);
      while shouldTry && tries < MAX_TRIES
        invariant tries <= MAX_TRIES && SizedBuffers(channel.W().server)
        invariant shouldTry ==>
          r == Err(EIO) && Rpc(channel.W(), q, MAX_TRIES - tries) == Rpc(old(channel.W()), q, MAX_TRIES)
        invariant !shouldTry ==> (channel.W(), r) == Rpc(old(channel.W()), q, MAX_TRIES)
      {
        var o := channel.Send(q);
        match o {
          case Transport =>
          case Replied(reply) =>
            r := if reply.Stale? then Err(ENOENT) else Ok(reply);
            shouldTry := false;
        }
        tries := tries + 1;
      }
    }

    method WritePart(f: Fid, w: Write) returns (r: Result<nat>)
      requires Valid() && WellSized(w)
      modifies this`tally, channel, channel.server
      ensures (Y(), r) == SendWrite(old(Y()), f, w) && Valid()
    {
      RpcEpoch(channel.W(), WriteReq(f, w), MAX_TRIES);
      var dataLen := Min(|w.data|, MAX_BUF_LEN);
      assert dataLen == w.size;
      var reply := DoWithRetry(WriteReq(f, w));
      tally := tally.(writes := tally.writes + 1, seen := tally.seen + [Message(WriteReq(f, w), reply)]);
      r := if reply.Ok? then Ok(reply.value.epoch) else Err(reply.errno);
    }

    method SendCommitOnce(f: Fid) returns (r: Result<nat>)
      requires Valid()
      modifies this`tally, channel, channel.server
      ensures (Y(), r) == SendCommit(old(Y()), f) && Valid()
    {
      RpcEpoch(channel.W(), CommitReq(f), MAX_TRIES);
      var reply := DoWithRetry(CommitReq(f));
      tally := tally.(commits := tally.commits + 1, seen := tally.seen + [Message(CommitReq(f), reply)]);
      r := if reply.Ok? then Ok(reply.value.epoch) else Err(reply.errno);
    }

    method TakeOverEpoch(epoch: nat)
      requires Valid() && serverEpoch <= epoch <= channel.server.epoch
      modifies this`serverEpoch, this`tally
      ensures Y() == NoteEpoch(old(Y()), epoch) && Valid()
    {
      serverEpoch := epoch;
      tally := tally.(changes := tally.changes + 1);
    }

    /** Send the log from pos until a whole pass sees no change of epoch. */
    method WriteAsyncHandleEpochs(f: Fid, start: nat) returns (r: Result<()>)
      requires Valid()
      modifies this`serverEpoch, this`tally, channel, channel.server
      ensures (Y(), r) == Replay(old(Y()), f, start) && Valid()
    {
      if f !in asyncBufs {
        return Ok(());
      }
      var pos: nat := start;
      while pos < |asyncBufs[f]|
        invariant Valid() && asyncBufs == old(asyncBufs)
        invariant Replay(Y(), f, pos) == Replay(old(Y()), f, start)
        decreases LastEpoch(channel.W()) - serverEpoch, |asyncBufs[f]| - pos
      {
        var w := asyncBufs[f][pos];
        assert w in asyncBufs[f] && WellSized(w);
        assert w.size == |w.data|;
        RpcEpoch(channel.W(), WriteReq(f, w), MAX_TRIES);
        var epoch := WritePart(f, w);
        if epoch.Err? {
          return Err(epoch.errno);
        }
        assert serverEpoch <= epoch.value;
        if epoch.value != serverEpoch {
          TakeOverEpoch(epoch.value);
          pos := 0;
        } else {
          pos := pos + 1;
        }
      }
      return Ok(());
    }

    method WriteAsyncPart(f: Fid, w: Write) returns (r: Result<()>)
      requires Valid() && WellSized(w)
      modifies this, channel, channel.server
      ensures (Y(), r) == WriteAsync(old(Y()), f, w) && Valid()
    {
      var pos;
      if f in asyncBufs {
        asyncBufs := asyncBufs[f := asyncBufs[f] + [w]];
        pos := |asyncBufs[f]| - 1;
      } else {
        asyncBufs := asyncBufs[f := [w]];
        pos := 0;
      }
      assert asyncBufs[f] == Log(old(Y()), f) + [w];
      r := WriteAsyncHandleEpochs(f, pos);
    }

    /** COMMIT until no epoch change is seen, then forget the log. The outcome is that of the last message, and
        an Ok the answer to a COMMIT in the epoch that is now known. */
    method Commit(f: Fid) returns (r: Result<()>)
      requires Valid()
      modifies this, channel, channel.server
      ensures (Y(), r) == Protocol.Commit(old(Y()), f) && Valid()
      ensures O.Tells(M.Said(old(Y()), Y()), f, r)
      ensures r.Ok? ==> O.EndsWith(M.Said(old(Y()), Y()), CommitReq(f), serverEpoch)
      ensures O.Responsive(old(channel.faults)) && f in old(Y()).w.server.files ==> r.Ok?
    {
      O.CommitTells(Y(), f);
      CommitAnswers(Y(), f);
      while true
        invariant Valid() && asyncBufs == old(asyncBufs)
        invariant Protocol.Commit(Y(), f) == Protocol.Commit(old(Y()), f)
        decreases LastEpoch(channel.W()) - serverEpoch
      {
        RpcEpoch(channel.W(), CommitReq(f), MAX_TRIES);
        var epoch := SendCommitOnce(f);
        if epoch.Err? {
          return Err(epoch.errno);
        }
        assert serverEpoch <= epoch.value;
        if epoch.value == serverEpoch {
          asyncBufs := asyncBufs - {f};
          return Ok(());
        }
        TakeOverEpoch(epoch.value);
        var replayed := WriteAsyncHandleEpochs(f, 0);
        if replayed.Err? {
          return replayed;
        }
      }
    }

    /** A user write: its outcome is that of its last message. */
    method Write(f: Fid, offset: nat, data: Bytes) returns (r: Result<()>)
      requires Valid()
      modifies this, channel, channel.server
      ensures (Y(), r) == WriteChunks(old(Y()), f, Chunks(offset, data)) && Valid()
      ensures WriteTold(old(Y()), Y(), f, r)
    {
      WriteAnswers(Y(), f, offset, data);
      r := WritePieces(f, offset, data);
    }

    /** Cut off pieces of at most MAX_BUF_LEN bytes until nothing is left. */
    method WritePieces(f: Fid, offset: nat, data: Bytes) returns (r: Result<()>)
      requires Valid()
      modifies this, channel, channel.server
      ensures (Y(), r) == WriteChunks(old(Y()), f, Chunks(offset, data)) && Valid()
    {
      ghost var whole := WriteChunks(Y(), f, Chunks(offset, data));
      var rest, sentBytes := data, 0;
      while |rest| > 0
        invariant Valid()
        invariant WriteChunks(Y(), f, Chunks(offset + sentBytes, rest)) == whole
        decreases |rest|
      {
        var sent;
        ghost var y := Y();
        WriteChunksStep(y, f, offset + sentBytes, rest);
        sent, rest, sentBytes := WritePiece(f, offset, rest, sentBytes);
        if sent.Err? {
          return sent;
        }
      }
      return Ok(());
    }

    /** Cut the next piece off the data and send it. */
    method WritePiece(f: Fid, offset: nat, data: Bytes, sentBytes: nat) returns (r: Result<()>, rest: Bytes, sent: nat)
      requires Valid() && data != []
      modifies this, channel, channel.server
      ensures Valid()
      ensures var n := Min(|data|, MAX_BUF_LEN);
        && rest == data[n..] && sent == sentBytes + n
        && (Y(), r) == WriteAsync(old(Y()), f, Content.Write(offset + sentBytes, n, data[..n]))
    {
      var toSendLen := Min(|data|, MAX_BUF_LEN);
      r := WriteAsyncPart(f, Content.Write(offset + sentBytes, toSendLen, data[..toSendLen]));
      rest := data[toSendLen..];
      sent := sentBytes + toSendLen;
    }

    /** A user read: ask for what is missing until it is there or the file ends. */
    method Read(f: Fid, offset: nat, size: nat) returns (r: Result<Bytes>)
      requires Valid()
      modifies channel, channel.server
      ensures (channel.W(), r) == ReadOn(old(channel.W()), f, offset, size, []) && Valid()
      ensures O.Responsive(old(channel.faults)) && f in old(channel.W()).server.files ==> r.Ok?
      ensures f in old(channel.W()).server.files && Pending(old(channel.W()).server, f) == [] ==>
        S.ReadWell(old(channel.W()), f, offset, size, channel.W(), r)
    {
      ReadAnswers(Y(), f, offset, size);
      var buf: Bytes := [];
      while |buf| < size
        invariant Valid()
        invariant ReadOn(channel.W(), f, offset, size, buf) == ReadOn(old(channel.W()), f, offset, size, [])
        decreases size - |buf|
      {
        var q := ReadReq(f, offset + |buf|, size - |buf|);
        RpcEpoch(channel.W(), q, MAX_TRIES);
        var part := DoWithRetry(q);
        if part.Err? {
          return Err(part.errno);
        }
        if part.value.data == [] {
          return Ok(buf);
        }
        buf := buf + part.value.data;
      }
      return Ok(buf);
    }

    /** The object keeps the promise of the model: an Ok is durable, and it is Ok exactly if every message of
        the flush was. */
    method Flush(f: Fid, ghost h: History) returns (r: Result<()>)
      requires Valid() && Inv(Y(), h)
      modifies this, channel, channel.server
      ensures Valid() && (Y(), r) == Protocol.Commit(old(Y()), f) && Committed(old(Y()), h, f, Y(), r.Ok?)
      ensures r.Ok? <==> forall m | m in M.Said(old(Y()), Y()) :: m.r.Ok?
      ensures O.Responsive(old(channel.faults)) && f in old(Y()).w.server.files ==> r.Ok?
    {
      CommitDurable(Y(), h, f);
      r := Commit(f);
      O.TellsExactly(M.Said(old(Y()), Y()), f, r);
    }
  }
}
