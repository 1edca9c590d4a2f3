/** Whole sessions of a client: every call keeps the invariant, every commit of a run is
    durable, user writes of any length reach the disk, and reads return what was written. */
module Sessions {
  import opened Content
  import opened Protocol
  import opened Durability

  // ---------- Runs of calls on any files ----------

  datatype Call =
    | WriteCall(fid: Fid, offset: nat, data: Bytes)
    | FlushCall(fid: Fid)
    | ReadCall(fid: Fid, offset: nat, size: nat)

  function Perform(y: Sys, call: Call): (r: Sys)
    requires EpochSound(y)
    ensures EpochSound(r) && y.t.seen <= r.t.seen
  {
    match call
    case WriteCall(f, offset, data) => WriteChunks(y, f, Chunks(offset, data)).0
    case FlushCall(f) => Commit(y, f).0
    case ReadCall(f, offset, size) =>
      ReadKeepsEpochs(y.w, f, offset, size, []);
      var seen := y.t.seen + ReadMessages(y.w, f, offset, size, []);
      y.(w := ReadOn(y.w, f, offset, size, []).0, t := y.t.(seen := seen))
  }

  lemma {:induction false} ReadKeepsEpochs(w: World, f: Fid, offset: nat, size: nat, got: Bytes)
    ensures w.server.epoch <= ReadOn(w, f, offset, size, got).0.server.epoch
    decreases size - |got|
  {
    if size <= |got| {
    } else {
      var q := ReadReq(f, offset + |got|, size - |got|);
      var (w', r) := Rpc(w, q, MAX_TRIES);
      RpcEpoch(w, q, MAX_TRIES);
      if r.Ok? && r.value.data != [] {
        ReadKeepsEpochs(w', f, offset, size, got + r.value.data);
      }
    }
  }

  function Run(y: Sys, calls: seq<Call>): (r: Sys)
    requires EpochSound(y)
    ensures EpochSound(r) && y.t.seen <= r.t.seen
    decreases calls
  {
    if calls == [] then y else Run(Perform(y, calls[0]), calls[1..])
  }

  ghost function ChunksHistory(y: Sys, h: History, f: Fid, cs: seq<Write>): History
    requires EpochSound(y)
    decreases cs
  {
    if cs == [] then h
    else
      var (y1, r1) := WriteAsync(y, f, cs[0]);
      var h1 := WriteHistory(y, h, f, cs[0]);
      if r1.Err? then h1 else ChunksHistory(y1, h1, f, cs[1..])
  }

  ghost function CallHistory(y: Sys, h: History, call: Call): History
    requires EpochSound(y)
  {
    match call
    case WriteCall(f, offset, data) => ChunksHistory(y, h, f, Chunks(offset, data))
    case FlushCall(f) => CommitHistory(y, h, f, Commit(y, f).0)
    case ReadCall(_, _, _) => h
  }

  ghost function RunHistory(y: Sys, h: History, calls: seq<Call>): History
    requires EpochSound(y)
    decreases calls
  {
    if calls == [] then h else RunHistory(Perform(y, calls[0]), CallHistory(y, h, calls[0]), calls[1..])
  }

  lemma {:induction false} ChunksKeep(y: Sys, h: History, f: Fid, cs: seq<Write>)
    requires Inv(y, h) && forall c | c in cs :: WellSized(c)
    ensures Inv(WriteChunks(y, f, cs).0, ChunksHistory(y, h, f, cs))
    decreases cs
  {
    if cs == [] {
    } else {
      WriteKeeps(y, h, f, cs[0]);
      var (y1, r1) := WriteAsync(y, f, cs[0]);
      if r1.Ok? {
        ChunksKeep(y1, WriteHistory(y, h, f, cs[0]), f, cs[1..]);
      }
    }
  }

  lemma RpcReadKeeps(y: Sys, h: History, q: Request)
    requires Inv(y, h) && q.ReadReq?
    ensures Inv(y.(w := Rpc(y.w, q, MAX_TRIES).0), h)
  {
    RpcSafe(y.w, q, MAX_TRIES, y.c.bufs, h.base);
    RpcEffect(y.w, q, MAX_TRIES);
    RpcEpoch(y.w, q, MAX_TRIES);
    var y' := y.(w := Rpc(y.w, q, MAX_TRIES).0);
    if y.w.server.epoch == y'.w.server.epoch {
      forall g | g in h.synced ensures Acked(y', h, g, |Log(y', g)|) {
        assert Acked(y, h, g, |Log(y, g)|);
      }
    }
  }

  lemma {:induction false} ReadKeeps(y: Sys, h: History, f: Fid, offset: nat, size: nat, got: Bytes)
    requires Inv(y, h)
    ensures Inv(y.(w := ReadOn(y.w, f, offset, size, got).0), h)
    decreases size - |got|
  {
    if size <= |got| {
    } else {
      var q := ReadReq(f, offset + |got|, size - |got|);
      RpcReadKeeps(y, h, q);
      RpcEpoch(y.w, q, MAX_TRIES);
      var (w', r) := Rpc(y.w, q, MAX_TRIES);
      if r.Ok? && r.value.data != [] {
        ReadKeeps(y.(w := w'), h, f, offset, size, got + r.value.data);
      }
    }
  }

  lemma PerformKeeps(y: Sys, h: History, call: Call)
    requires Inv(y, h)
    ensures Inv(Perform(y, call), CallHistory(y, h, call))
  {
    match call
    case WriteCall(f, offset, data) => ChunksKeep(y, h, f, Chunks(offset, data));
    case FlushCall(f) => CommitDurable(y, h, f);
    case ReadCall(f, offset, size) => ReadKeeps(y, h, f, offset, size, []);
  }

  /** A client that has buffered nothing, at a server that holds nothing back. */
  ghost predicate FreshStart(y: Sys) {
    EpochSound(y) && y.c.bufs == map[] && forall f | f in y.w.server.files :: Pending(y.w.server, f) == []
  }

  const NOTHING := History(map[], {})

  lemma {:induction false} RunKeeps(y: Sys, h: History, calls: seq<Call>)
    requires Inv(y, h)
    ensures Inv(Run(y, calls), RunHistory(y, h, calls))
    decreases calls
  {
    if calls == [] {
    } else {
      PerformKeeps(y, h, calls[0]);
      RunKeeps(Perform(y, calls[0]), CallHistory(y, h, calls[0]), calls[1..]);
    }
  }

  /** Over all runs: after any calls on any files under any schedule of faults, a commit that
      returns Ok has made its file durable, whenever the file was synced or the commit itself
      noticed a new epoch; and the client's epoch has never passed the server's. */
  lemma RunsAreDurable(y: Sys, calls: seq<Call>, f: Fid)
    requires FreshStart(y)
    ensures var now, h := Run(y, calls), RunHistory(y, NOTHING, calls);
      && Inv(now, h)
      && Committed(now, h, f, Commit(now, f).0, Commit(now, f).1.Ok?)
  {
    RunKeeps(y, NOTHING, calls);
    CommitDurable(Run(y, calls), RunHistory(y, NOTHING, calls), f);
  }

  // ---------- One file: what the user wrote is what the disk holds ----------

  /** The content the user has put together: on disk, or waiting in the log. */
  ghost function Intended(y: Sys, h: History, f: Fid): Bytes
    requires f in y.w.server.files && (f in y.c.bufs ==> f in h.base)
  {
    if f in y.c.bufs then Expected(y, h, f) else y.w.server.files[f]
  }

  /** The log of the file, if there is one, is with the server. */
  ghost predicate Tracked(y: Sys, h: History, f: Fid) {
    f in y.c.bufs ==> f in h.synced
  }

  lemma WriteContent(y: Sys, h: History, f: Fid, w: Write)
    requires Inv(y, h) && WellSized(w) && f in y.w.server.files
    ensures var (y', r) := WriteAsync(y, f, w);
      var h' := WriteHistory(y, h, f, w);
      && f in y'.w.server.files && f in h'.base && f in y'.c.bufs
      && Intended(y', h', f) == Apply(Intended(y, h, f), w)
      && (r.Ok? && Tracked(y, h, f) ==> Tracked(y', h', f))
  {
    var log := Log(y, f);
    ApplyAllSnoc(if f in y.c.bufs then h.base[f] else y.w.server.files[f], log, w);
  }

  lemma {:induction false} ChunksContent(y: Sys, h: History, f: Fid, cs: seq<Write>)
    requires Inv(y, h) && f in y.w.server.files && forall c | c in cs :: WellSized(c)
    ensures var (y', r) := WriteChunks(y, f, cs);
      var h' := ChunksHistory(y, h, f, cs);
      && Inv(y', h') && f in y'.w.server.files
      && (r.Ok? ==> Intended(y', h', f) == ApplyAll(Intended(y, h, f), cs))
      && (r.Ok? && Tracked(y, h, f) ==> Tracked(y', h', f))
    decreases cs
  {
    if cs == [] {
    } else {
      WriteKeeps(y, h, f, cs[0]);
      WriteContent(y, h, f, cs[0]);
      var (y1, r1) := WriteAsync(y, f, cs[0]);
      if r1.Ok? {
        ChunksContent(y1, WriteHistory(y, h, f, cs[0]), f, cs[1..]);
      }
    }
  }

  /** A user write: an offset and data of any length. */
  datatype Put = Put(offset: nat, data: Bytes)

  function PutAll(file: Bytes, puts: seq<Put>): Bytes
    decreases puts
  {
    if puts == [] then file else PutAll(Pwrite(file, puts[0].offset, puts[0].data), puts[1..])
  }

  function WriteAll(y: Sys, f: Fid, puts: seq<Put>): (r: (Sys, Result<()>))
    requires EpochSound(y)
    ensures EpochSound(r.0)
    decreases puts
  {
    if puts == [] then (y, Ok(()))
    else
      var (y1, r1) := WriteChunks(y, f, Chunks(puts[0].offset, puts[0].data));
      if r1.Err? then (y1, r1) else WriteAll(y1, f, puts[1..])
  }

  lemma {:induction false} WriteAllContent(y: Sys, h: History, f: Fid, puts: seq<Put>) returns (h': History)
    requires Inv(y, h) && f in y.w.server.files && Tracked(y, h, f)
    ensures var (y', r) := WriteAll(y, f, puts);
      r.Ok? ==>
        && Inv(y', h') && f in y'.w.server.files && Tracked(y', h', f)
        && Intended(y', h', f) == PutAll(Intended(y, h, f), puts)
    decreases puts
  {
    h' := h;
    if puts == [] {
    } else {
      var cs := Chunks(puts[0].offset, puts[0].data);
      ChunksContent(y, h, f, cs);
      ChunksAreOneWrite(Intended(y, h, f), puts[0].offset, puts[0].data);
      var (y1, r1) := WriteChunks(y, f, cs);
      if r1.Ok? {
        h' := WriteAllContent(y1, ChunksHistory(y, h, f, cs), f, puts[1..]);
      }
    }
  }

  /** Write anything, then flush: if every call returned Ok, the disk holds the old content
      with all user writes applied in order, whatever went wrong underneath. */
  lemma WriteThenFlush(y: Sys, h: History, f: Fid, puts: seq<Put>)
    requires Inv(y, h) && f in y.w.server.files && Tracked(y, h, f)
    ensures var (y1, r1) := WriteAll(y, f, puts);
      r1.Ok? ==>
        var (y2, r2) := Commit(y1, f);
        r2.Ok? ==>
          && f in y2.w.server.files && Pending(y2.w.server, f) == []
          && y2.w.server.files[f] == PutAll(Intended(y, h, f), puts)
  {
    var (y1, r1) := WriteAll(y, f, puts);
    var h1 := WriteAllContent(y, h, f, puts);
    if r1.Ok? {
      CommitDurable(y1, h1, f);
      if f !in y1.c.bufs {
        CommitQuiet(y1, f, f);
      }
    }
  }

  // ---------- Files at rest ----------

  /** Sending the log of one file leaves another file at rest alone. */
  lemma {:induction false} ReplayQuiet(y: Sys, g: Fid, pos: nat, f: Fid)
    requires EpochSound(y) && f in y.w.server.files && Pending(y.w.server, f) == [] && f != g
    ensures var (y', _) := Replay(y, g, pos);
      f in y'.w.server.files && Pending(y'.w.server, f) == [] && y'.w.server.files[f] == y.w.server.files[f]
    decreases LastEpoch(y.w) - y.c.epoch, |Log(y, g)| - pos
  {
    if |Log(y, g)| <= pos {
    } else {
      var q := WriteReq(g, Log(y, g)[pos]);
      RpcQuiet(y.w, q, MAX_TRIES, f);
      RpcEpoch(y.w, q, MAX_TRIES);
      var (y1, r) := SendWrite(y, g, Log(y, g)[pos]);
      if r.Ok? && r.value != y.c.epoch {
        ReplayQuiet(NoteEpoch(y1, r.value), g, 0, f);
      } else if r.Ok? {
        ReplayQuiet(y1, g, pos + 1, f);
      }
    }
  }

  /** Committing any file changes nothing on disk for a file without a log. */
  lemma {:induction false} CommitQuiet(y: Sys, g: Fid, f: Fid)
    requires EpochSound(y) && f in y.w.server.files && Pending(y.w.server, f) == [] && f !in y.c.bufs
    ensures var (y', _) := Commit(y, g);
      f in y'.w.server.files && Pending(y'.w.server, f) == [] && y'.w.server.files[f] == y.w.server.files[f]
    decreases LastEpoch(y.w) - y.c.epoch
  {
    RpcQuiet(y.w, CommitReq(g), MAX_TRIES, f);
    RpcEpoch(y.w, CommitReq(g), MAX_TRIES);
    var (y1, r) := SendCommit(y, g);
    if r.Ok? && r.value != y.c.epoch {
      var y2 := NoteEpoch(y1, r.value);
      if f != g {
        ReplayQuiet(y2, g, 0, f);
      }
      if Replay(y2, g, 0).1.Ok? {
        CommitQuiet(Replay(y2, g, 0).0, g, f);
      }
    }
  }

  lemma PreadStep(file: Bytes, offset: nat, size: nat, got: Bytes)
    requires got == Pread(file, offset, |got|) && |got| < size
    ensures var part := Pread(file, offset + |got|, Min(size - |got|, MAX_BUF_LEN));
      && (part == [] ==> got == Pread(file, offset, size))
      && got + part == Pread(file, offset, |got| + |part|)
      && |got + part| <= size
  {}

  /** These are the bytes of the file from the offset on, as many as asked for or as there are. */
  ghost predicate Reads(file: Bytes, offset: nat, size: nat, got: Bytes) {
    && |got| == (if |file| <= offset then 0 else Min(size, |file| - offset))
    && forall i | 0 <= i < |got| :: got[i] == At(file, offset + i)
  }

  /** What a read loop over a file at rest guarantees of its outcome. */
  ghost predicate ReadWell(w: World, f: Fid, offset: nat, size: nat, w': World, r: Result<Bytes>)
    requires f in w.server.files
  {
    && (r.Ok? ==> Reads(w.server.files[f], offset, size, r.value))
    && (r.Err? ==> r.errno == EIO)
    && f in w'.server.files && w'.server.files[f] == w.server.files[f] && Pending(w'.server, f) == []
  }

  lemma ReadRpc(w: World, f: Fid, offset: nat, count: nat)
    requires f in w.server.files && Pending(w.server, f) == []
    ensures var (w', r) := Rpc(w, ReadReq(f, offset, count), MAX_TRIES);
      && f in w'.server.files && w'.server.files[f] == w.server.files[f] && Pending(w'.server, f) == []
      && (r.Err? ==> r.errno == EIO)
      && (r.Ok? ==> r.value == Data(Pread(w.server.files[f], offset, Min(count, MAX_BUF_LEN))))
  {
    RpcQuiet(w, ReadReq(f, offset, count), MAX_TRIES, f);
    RpcEpoch(w, ReadReq(f, offset, count), MAX_TRIES);
  }

  /** The read loop is exact: despite the cap on one reply it returns the bytes from offset up
      to size or the end of the file, and only a call that gave up returns an error. */
  lemma {:induction false} ReadExact(w: World, f: Fid, offset: nat, size: nat, got: Bytes)
    requires f in w.server.files && Pending(w.server, f) == []
    requires got == Pread(w.server.files[f], offset, |got|) && |got| <= size
    ensures ReadWell(w, f, offset, size, ReadOn(w, f, offset, size, got).0, ReadOn(w, f, offset, size, got).1)
    decreases size - |got|
  {
    if size <= |got| {
    } else {
      ReadRpc(w, f, offset + |got|, size - |got|);
      PreadStep(w.server.files[f], offset, size, got);
      var (w', r) := Rpc(w, ReadReq(f, offset + |got|, size - |got|), MAX_TRIES);
      if r.Ok? && r.value.data != [] {
        ReadExact(w', f, offset, size, got + r.value.data);
      }
    }
  }

  /** Write, flush, read back: the bytes read are the bytes of the content the user built. */
  lemma RoundTrip(y: Sys, h: History, f: Fid, puts: seq<Put>, offset: nat, size: nat)
    requires Inv(y, h) && f in y.w.server.files && Tracked(y, h, f)
    ensures var (y1, r1) := WriteAll(y, f, puts);
      r1.Ok? ==>
        var (y2, r2) := Commit(y1, f);
        r2.Ok? ==>
          var (w3, r3) := ReadOn(y2.w, f, offset, size, []);
          r3.Ok? ==> Reads(PutAll(Intended(y, h, f), puts), offset, size, r3.value)
  {
    WriteThenFlush(y, h, f, puts);
    var (y1, r1) := WriteAll(y, f, puts);
    if r1.Ok? && Commit(y1, f).1.Ok? {
      ReadExact(Commit(y1, f).0.w, f, offset, size, []);
    }
  }
}
