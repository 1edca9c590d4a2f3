/** Two runs in which every commit answers Ok and buffered data is gone: the reason for the
    conditions of the durability theorem. */
module Limits {
  import opened Content
  import opened Protocol
  import opened Durability
  import opened Sessions
  import opened Bounds

  /** One smooth RPC, with an exhausted schedule or a smooth attempt at its head. */
  lemma SmoothSend(y: Sys, f: Fid, w: Write)
    requires NextAttempt(y.w) == SMOOTH
    ensures SendWrite(y, f, w) ==
      (Sys(World(HandleWrite(y.w.server, f, w), if y.w.faults == [] then [] else y.w.faults[1..]), y.c,
           y.t.(writes := y.t.writes + 1, seen := y.t.seen + [Message(WriteReq(f, w), Ok(Verf(y.w.server.epoch)))])),
       Ok(y.w.server.epoch))
  {
    assert Attempted(y.w, WriteReq(f, w)).1 == Replied(Verf(y.w.server.epoch));
  }

  /** A smooth write in the client's epoch: one message, appended to the server's buffer. */
  lemma SmoothWrite(y: Sys, f: Fid, w: Write)
    requires NextAttempt(y.w) == SMOOTH && y.c.epoch == y.w.server.epoch
    ensures var (y', r) := WriteAsync(y, f, w);
      && r.Ok? && y'.c == y.c.(bufs := y.c.bufs[f := Log(y, f) + [w]])
      && y'.w == World(HandleWrite(y.w.server, f, w), if y.w.faults == [] then [] else y.w.faults[1..])
  {
    var y1 := y.(c := y.c.(bufs := y.c.bufs[f := Log(y, f) + [w]]));
    assert Log(y1, f)[|Log(y, f)|] == w;
    SmoothSend(y1, f, w);
    assert Replay(SendWrite(y1, f, w).0, f, |Log(y, f)| + 1) == (SendWrite(y1, f, w).0, Ok(()));
  }

  const EARLY := Write(0, 1, [1])
  const LATE := Write(1, 1, [2])

  /** Two empty files, 2 and 3, at a server in epoch 5 that this client has already met. */
  function Start(faults: seq<Attempt>): Sys {
    Sys(World(Server(5, map[2 := [], 3 := []], map[], map[]), faults), Client(5, map[]), NO_WORK)
  }

  /** The server restarts between a write to file 2 and a write to file 3. The write to file 3
      takes over the new epoch and resends only file 3; the commit of file 2 finds no mismatch
      and answers Ok, and the write to file 2 is lost. */
  lemma EpochTakenOverByAnotherFile()
    ensures var y0 := Start([SMOOTH, Attempt([Restart(0)], Served(true), [])]);
      var (y1, r1) := WriteAsync(y0, 2, EARLY);
      var (y2, r2) := WriteAsync(y1, 3, EARLY);
      var (y3, r3) := Commit(y2, 2);
      && FreshStart(y0) && r1.Ok? && r2.Ok? && r3.Ok?
      && Log(y2, 2) == [EARLY] && 2 in y3.w.server.files && y3.w.server.files[2] == [] != ApplyAll([], [EARLY])
  {
    var restart := Attempt([Restart(0)], Served(true), []);
    var y0 := Start([SMOOTH, restart]);
    SmoothWrite(y0, 2, EARLY);
    var (y1, r1) := WriteAsync(y0, 2, EARLY);
    assert y1.w.faults == [restart];
    var y1' := y1.(c := y1.c.(bufs := y1.c.bufs[3 := [EARLY]]));
    assert Log(y1, 3) + [EARLY] == [EARLY];
    var (ya, ra) := SendWrite(y1', 3, EARLY);
    assert Happens(y1.w.server, [Restart(0)]) == Happen(y1.w.server, Restart(0));
    assert Attempted(y1.w, WriteReq(3, EARLY)).1 == Replied(Verf(6));
    assert ra == Ok(6) && ya.w.faults == [] && Pending(ya.w.server, 2) == [];
    var yb := NoteEpoch(ya, 6);
    SmoothSend(yb, 3, EARLY);
    var (yc, rc) := SendWrite(yb, 3, EARLY);
    assert Replay(yb, 3, 0) == (yc, Ok(()));
    assert Replay(y1', 3, 0) == (yc, Ok(()));
    var (y2, r2) := WriteAsync(y1, 3, EARLY);
    assert y2 == yc;
    SmoothCommit(y2, 2);
    assert Virtual(y2.w.server, 2) == [];
    assert ApplyAll([], [EARLY]) == ApplyAll(Apply([], EARLY), []);
  }

  /** The first write gives up after five lost attempts; the second starts past it, so that the
      first is never sent; the commit answers Ok and the byte of the first write reads as zero. */
  lemma ErrorLeavesAHole()
    ensures var lost := Attempt([], Lost, []);
      var y0 := Start([lost, lost, lost, lost, lost]);
      var (y1, r1) := WriteAsync(y0, 2, EARLY);
      var (y2, r2) := WriteAsync(y1, 2, LATE);
      var (y3, r3) := Commit(y2, 2);
      && FreshStart(y0) && r1 == Err(EIO) && r2.Ok? && r3.Ok?
      && Log(y2, 2) == [EARLY, LATE] && 2 in y3.w.server.files && y3.w.server.files[2] == [0, 2] &&
           ApplyAll([], [EARLY, LATE]) == [1, 2]
  {
    var lost := Attempt([], Lost, []);
    var y0 := Start([lost, lost, lost, lost, lost]);
    LostFive(y0.w.server, WriteReq(2, EARLY));
    var (y1, r1) := WriteAsync(y0, 2, EARLY);
    assert y1.w == World(y0.w.server, []) && r1 == Err(EIO);
    SmoothWrite(y1, 2, LATE);
    var (y2, r2) := WriteAsync(y1, 2, LATE);
    assert Pending(y1.w.server, 2) + [LATE] == [LATE];
    CommitIsVirtual(y2.w.server, 2);
    assert Attempted(y2.w, CommitReq(2)) == (World(HandleCommit(y2.w.server, 2), []), Replied(Verf(5)));
    TwoBytes();
  }

  lemma TwoBytes()
    ensures ApplyAll([], [LATE]) == [0, 2] && ApplyAll([], [EARLY, LATE]) == [1, 2]
  {
    assert ApplyAll([], [LATE]) == ApplyAll(Apply([], LATE), []);
    assert ApplyAll([], [EARLY, LATE]) == ApplyAll(Apply([], EARLY), [LATE]) ==
      ApplyAll(Apply(Apply([], EARLY), LATE), []);
    SameBytes(Apply([], LATE), [0, 2]);
    SameBytes(Apply(Apply([], EARLY), LATE), [1, 2]);
  }

  lemma LostFive(s: Server, q: Request)
    ensures var lost := Attempt([], Lost, []);
      Rpc(World(s, [lost, lost, lost, lost, lost]), q, MAX_TRIES) == (World(s, []), Err(EIO))
  {
    var lost := Attempt([], Lost, []);
    assert Rpc(World(s, [lost]), q, 1) == Rpc(World(s, []), q, 0);
    assert Rpc(World(s, [lost, lost]), q, 2) == Rpc(World(s, [lost]), q, 1);
    assert Rpc(World(s, [lost, lost, lost]), q, 3) == Rpc(World(s, [lost, lost]), q, 2);
    assert Rpc(World(s, [lost, lost, lost, lost]), q, 4) == Rpc(World(s, [lost, lost, lost]), q, 3);
    assert Rpc(World(s, [lost, lost, lost, lost, lost]), q, 5) == Rpc(World(s, [lost, lost, lost, lost]), q, 4);
  }
}
