/** The promise to the user, over whole runs on many files: where no call gives up and no file
    is left behind by a change of epoch, a flushed file is exactly what the user wrote. */
module EndToEnd {
  import opened Content
  import opened Protocol
  import opened Durability
  import opened Sessions

  /** The call returns Ok, and if it meets a new epoch no other file has buffered writes. */
  ghost predicate Good(y: Sys, call: Call)
    requires EpochSound(y)
  {
    && (match call
        case WriteCall(f, offset, data) => WriteChunks(y, f, Chunks(offset, data)).1.Ok?
        case FlushCall(f) => Commit(y, f).1.Ok?
        case ReadCall(_, _, _) => true)
    && (Perform(y, call).c.epoch != y.c.epoch ==> forall g | g in y.c.bufs :: g == call.fid)
  }

  ghost predicate GoodRun(y: Sys, calls: seq<Call>)
    requires EpochSound(y)
    decreases calls
  {
    calls == [] || (Good(y, calls[0]) && GoodRun(Perform(y, calls[0]), calls[1..]))
  }

  ghost predicate AllTracked(y: Sys, h: History) {
    forall f | f in y.c.bufs :: f in h.synced
  }

  /** What the user's writes make of a file. */
  function Wrote(file: Bytes, calls: seq<Call>, f: Fid): Bytes
    decreases calls
  {
    if calls == [] then file
    else
      var mine := calls[0].WriteCall? && calls[0].fid == f;
      var first := if mine then Pwrite(file, calls[0].offset, calls[0].data) else file;
      Wrote(first, calls[1..], f)
  }

  // ---------- Writes ----------

  lemma WriteTracked(y: Sys, h: History, f: Fid, w: Write)
    requires Inv(y, h) && AllTracked(y, h) && WellSized(w) && WriteAsync(y, f, w).1.Ok?
    requires WriteAsync(y, f, w).0.c.epoch != y.c.epoch ==> forall g | g in y.c.bufs :: g == f
    ensures var y1, h1 := WriteAsync(y, f, w).0, WriteHistory(y, h, f, w);
      Inv(y1, h1) && AllTracked(y1, h1) && y1.c.bufs.Keys == y.c.bufs.Keys + {f}
  {
    WriteKeeps(y, h, f, w);
  }

  lemma {:induction false} ChunksTracked(y: Sys, h: History, f: Fid, cs: seq<Write>)
    requires Inv(y, h) && AllTracked(y, h) && forall c | c in cs :: WellSized(c)
    requires WriteChunks(y, f, cs).1.Ok?
    requires WriteChunks(y, f, cs).0.c.epoch != y.c.epoch ==> forall g | g in y.c.bufs :: g == f
    ensures AllTracked(WriteChunks(y, f, cs).0, ChunksHistory(y, h, f, cs))
    decreases cs
  {
    if cs == [] {
    } else {
      var (y1, r1) := WriteAsync(y, f, cs[0]);
      WriteTracked(y, h, f, cs[0]);
      ChunksTracked(y1, WriteHistory(y, h, f, cs[0]), f, cs[1..]);
    }
  }

  /** Writing to one file keeps what is intended for another. */
  lemma {:induction false} ChunksElsewhere(y: Sys, h: History, g: Fid, cs: seq<Write>, f: Fid)
    requires Inv(y, h) && f != g && f in y.w.server.files && forall c | c in cs :: WellSized(c)
    ensures var y', h' := WriteChunks(y, g, cs).0, ChunksHistory(y, h, g, cs);
      Inv(y', h') && f in y'.w.server.files && Intended(y', h', f) == Intended(y, h, f)
    decreases cs
  {
    if cs == [] {
    } else {
      var y0 := y.(c := y.c.(bufs := y.c.bufs[g := Log(y, g) + [cs[0]]]));
      WriteKeeps(y, h, g, cs[0]);
      if f !in y.c.bufs {
        ReplayQuiet(y0, g, |Log(y, g)|, f);
      }
      var (y1, r1) := WriteAsync(y, g, cs[0]);
      if r1.Ok? {
        ChunksElsewhere(y1, WriteHistory(y, h, g, cs[0]), g, cs[1..], f);
      }
    }
  }

  // ---------- Flushes and reads ----------

  lemma CommitIntends(y: Sys, h: History, g: Fid, f: Fid)
    requires Inv(y, h) && AllTracked(y, h) && f in y.w.server.files && Commit(y, g).1.Ok?
    ensures var y', h' := Commit(y, g).0, CommitHistory(y, h, g, Commit(y, g).0);
      && Inv(y', h') && f in y'.w.server.files && Intended(y', h', f) == Intended(y, h, f)
      && (f == g ==> y'.w.server.files[f] == Intended(y, h, f))
  {
    CommitDurable(y, h, g);
    CommitKeepsFiles(y, g);
    if f !in y.c.bufs {
      CommitQuiet(y, g, f);
    }
  }

  lemma {:induction false} CommitKeepsFiles(y: Sys, g: Fid)
    requires EpochSound(y)
    ensures Commit(y, g).0.w.server.files.Keys == y.w.server.files.Keys
    decreases LastEpoch(y.w) - y.c.epoch
  {
    RpcEpoch(y.w, CommitReq(g), MAX_TRIES);
    var (y1, r) := SendCommit(y, g);
    if r.Ok? && r.value != y.c.epoch {
      var (y2, r2) := Replay(NoteEpoch(y1, r.value), g, 0);
      if r2.Ok? {
        CommitKeepsFiles(y2, g);
      }
    }
  }

  lemma {:induction false} ReadQuiet(w: World, g: Fid, offset: nat, size: nat, got: Bytes, f: Fid)
    requires f in w.server.files
    ensures var w' := ReadOn(w, g, offset, size, got).0;
      f in w'.server.files &&
        (Pending(w.server, f) == [] ==> Pending(w'.server, f) == [] && w'.server.files[f] == w.server.files[f])
    decreases size - |got|
  {
    if size <= |got| {
    } else {
      var q := ReadReq(g, offset + |got|, size - |got|);
      RpcEpoch(w, q, MAX_TRIES);
      if Pending(w.server, f) == [] {
        RpcQuiet(w, q, MAX_TRIES, f);
      }
      var (w', r) := Rpc(w, q, MAX_TRIES);
      if r.Ok? && r.value.data != [] {
        ReadQuiet(w', g, offset, size, got + r.value.data, f);
      }
    }
  }

  // ---------- Runs ----------

  /** One good call moves the intended content of every file as the user means it to. */
  lemma CallIntends(y: Sys, h: History, call: Call, f: Fid)
    requires Inv(y, h) && AllTracked(y, h) && Good(y, call) && f in y.w.server.files
    ensures var y', h' := Perform(y, call), CallHistory(y, h, call);
      && Inv(y', h') && AllTracked(y', h') && f in y'.w.server.files
      && Intended(y', h', f) == Wrote(Intended(y, h, f), [call], f)
  {
    PerformKeeps(y, h, call);
    var before := Intended(y, h, f);
    assert Wrote(before, [call], f) ==
      if call.WriteCall? && call.fid == f then Pwrite(before, call.offset, call.data) else before;
    match call
    case WriteCall(g, offset, data) =>
      ChunksTracked(y, h, g, Chunks(offset, data));
      if f == g {
        ChunksContent(y, h, f, Chunks(offset, data));
        ChunksAreOneWrite(before, offset, data);
      } else {
        ChunksElsewhere(y, h, g, Chunks(offset, data), f);
      }
    case FlushCall(g) =>
      CommitDurable(y, h, g);
      CommitIntends(y, h, g, f);
    case ReadCall(g, offset, size) =>
      ReadQuiet(y.w, g, offset, size, [], f);
  }

  lemma WroteFirst(file: Bytes, calls: seq<Call>, f: Fid)
    requires calls != []
    ensures Wrote(file, calls, f) == Wrote(Wrote(file, [calls[0]], f), calls[1..], f)
  {}

  lemma {:induction false} RunIntends(y: Sys, h: History, calls: seq<Call>, f: Fid)
    requires Inv(y, h) && AllTracked(y, h) && GoodRun(y, calls) && f in y.w.server.files
    ensures var y', h' := Run(y, calls), RunHistory(y, h, calls);
      && Inv(y', h') && AllTracked(y', h') && f in y'.w.server.files
      && Intended(y', h', f) == Wrote(Intended(y, h, f), calls, f)
    decreases calls
  {
    if calls == [] {
    } else {
      CallIntends(y, h, calls[0], f);
      WroteFirst(Intended(y, h, f), calls, f);
      RunIntends(Perform(y, calls[0]), CallHistory(y, h, calls[0]), calls[1..], f);
    }
  }

  /** End to end: run any writes, flushes and reads on any files, under any schedule of restarts,
      crashes, lost requests and lost replies. If every call so far was good, then a flush that
      returns Ok leaves the file on disk as its first content with all the user's writes to it
      applied in order, and reading it back returns those bytes. */
  lemma FlushedIsWhatWasWritten(y: Sys, calls: seq<Call>, f: Fid, offset: nat, size: nat)
    requires FreshStart(y) && GoodRun(y, calls) && f in y.w.server.files
    ensures var (y', r) := Commit(Run(y, calls), f);
      r.Ok? ==>
        && f in y'.w.server.files
        && y'.w.server.files[f] == Wrote(y.w.server.files[f], calls, f)
        && var (_, got) := ReadOn(y'.w, f, offset, size, []);
           got.Ok? ==> Reads(Wrote(y.w.server.files[f], calls, f), offset, size, got.value)
  {
    RunIntends(y, NOTHING, calls, f);
    var now, h := Run(y, calls), RunHistory(y, NOTHING, calls);
    var (y', r) := Commit(now, f);
    if r.Ok? {
      CommitIntends(now, h, f, f);
      CommitDurable(now, h, f);
      ReadExact(y'.w, f, offset, size, []);
    }
  }
}
