/** Runs seen as the messages they consist of: what a client does next, and what its logs hold,
    depends only on the replies it has had. */
module Messages {
  import opened Content
  import opened Protocol
  import opened Durability
  import opened Sessions

  // ---------- A world that answers a list of requests ----------

  function After(w: World, ms: seq<Message>): World
    decreases |ms|
  {
    if ms == [] then w else Rpc(After(w, ms[..|ms| - 1]), ms[|ms| - 1].q, MAX_TRIES).0
  }

  /** Sent in this order, the requests get just these results. */
  predicate Serves(w: World, ms: seq<Message>)
    decreases |ms|
  {
    ms == [] ||
    (Serves(w, ms[..|ms| - 1]) && Rpc(After(w, ms[..|ms| - 1]), ms[|ms| - 1].q, MAX_TRIES).1 == ms[|ms| - 1].r)
  }

  lemma OneMore(w: World, ms: seq<Message>, m: Message)
    ensures After(w, ms + [m]) == Rpc(After(w, ms), m.q, MAX_TRIES).0
    ensures Serves(w, ms + [m]) <==> Serves(w, ms) && Rpc(After(w, ms), m.q, MAX_TRIES).1 == m.r
  {
    assert (ms + [m])[..|ms|] == ms;
  }

  lemma {:induction false} ServesConcat(w: World, a: seq<Message>, b: seq<Message>)
    ensures After(w, a + b) == After(After(w, a), b)
    ensures Serves(w, a + b) <==> Serves(w, a) && Serves(After(w, a), b)
    decreases |b|
  {
    if b == [] {
      assert a + b == a;
    } else {
      var init, m := b[..|b| - 1], b[|b| - 1];
      assert a + b == (a + init) + [m] && b == init + [m];
      ServesConcat(w, a, init);
      OneMore(w, a + init, m);
      OneMore(After(w, a), init, m);
    }
  }

  lemma ServesPrefix(w: World, ms: seq<Message>, i: nat)
    requires Serves(w, ms) && i <= |ms|
    ensures Serves(w, ms[..i])
  {
    assert ms == ms[..i] + ms[i..];
    ServesConcat(w, ms[..i], ms[i..]);
  }

  /** The world gives these answers and ends as w'. */
  predicate Answers(w: World, ms: seq<Message>, w': World) {
    Serves(w, ms) && w' == After(w, ms)
  }

  lemma AnswersBoth(w: World, a: seq<Message>, w1: World, b: seq<Message>, w2: World)
    requires Answers(w, a, w1) && Answers(w1, b, w2)
    ensures Answers(w, a + b, w2)
  {
    ServesConcat(w, a, b);
  }

  /** The reply carries an epoch. */
  predicate Dated(m: Message) {
    m.r.Ok? && m.r.value.Verf?
  }

  /** The epoch of the last dated reply: the one the client has stored. */
  function Latest(epoch: nat, ms: seq<Message>): nat
    decreases |ms|
  {
    if ms == [] then epoch
    else
      var m := ms[|ms| - 1];
      if Dated(m) then m.r.value.epoch else Latest(epoch, ms[..|ms| - 1])
  }

  lemma {:induction false} LatestConcat(epoch: nat, a: seq<Message>, b: seq<Message>)
    ensures Latest(epoch, a + b) == Latest(Latest(epoch, a), b)
    decreases |b|
  {
    if b == [] {
      assert a + b == a;
    } else {
      assert (a + b)[..|a + b| - 1] == a + b[..|b| - 1];
      LatestConcat(epoch, a, b[..|b| - 1]);
    }
  }

  // ---------- The client follows the replies ----------

  /** The messages between two states of a run. */
  function Said(y: Sys, y': Sys): seq<Message>
    requires y.t.seen <= y'.t.seen
  {
    y'.t.seen[|y.t.seen|..]
  }

  /** What took y to y' takes z to z': the same messages, in z's own world. */
  ghost predicate Followed(y: Sys, y': Sys, z: Sys, z': Sys) {
    && y.t.seen <= y'.t.seen
    && Answers(y.w, Said(y, y'), y'.w) && Answers(z.w, Said(y, y'), z'.w)
    && z'.c == y'.c && z'.t.seen == z.t.seen + Said(y, y')
  }

  /** z starts as y does, and its world has the answers that y gets on the way to y'. */
  ghost predicate Like(y: Sys, y': Sys, z: Sys) {
    && EpochSound(y) && EpochSound(z) && z.c == y.c && y.t.seen <= y'.t.seen
    && (z.w == y.w || Serves(z.w, Said(y, y')))
  }

  lemma SaidBoth(y: Sys, y1: Sys, y2: Sys)
    requires y.t.seen <= y1.t.seen <= y2.t.seen
    ensures Said(y, y2) == Said(y, y1) + Said(y1, y2)
  {}

  lemma SeenBoth(y: Sys, y1: Sys, y2: Sys, z: Sys, z1: Sys, z2: Sys)
    requires y.t.seen <= y1.t.seen <= y2.t.seen
    requires z1.t.seen == z.t.seen + Said(y, y1) && z2.t.seen == z1.t.seen + Said(y1, y2)
    ensures y.t.seen <= y2.t.seen && Said(y, y2) == Said(y, y1) + Said(y1, y2) && z2.t.seen == z.t.seen + Said(y, y2)
  {
    SaidBoth(y, y1, y2);
  }

  /** One part of a run after another. */
  lemma FollowedBoth(y: Sys, y1: Sys, y2: Sys, z: Sys, z1: Sys, z2: Sys)
    requires Followed(y, y1, z, z1) && Followed(y1, y2, z1, z2)
    ensures Followed(y, y2, z, z2)
  {
    SeenBoth(y, y1, y2, z, z1, z2);
    AnswersBoth(y.w, Said(y, y1), y1.w, Said(y1, y2), y2.w);
    AnswersBoth(z.w, Said(y, y1), z1.w, Said(y1, y2), z2.w);
  }

  /** The first part of a run has the answers it needs. */
  lemma LikeFirst(y: Sys, y1: Sys, y2: Sys, z: Sys)
    requires Like(y, y2, z) && y.t.seen <= y1.t.seen <= y2.t.seen
    ensures Like(y, y1, z)
  {
    SaidBoth(y, y1, y2);
    ServesConcat(z.w, Said(y, y1), Said(y1, y2));
  }

  /** And after it, so has the rest. */
  lemma LikeRest(y: Sys, y1: Sys, y2: Sys, z: Sys, z1: Sys)
    requires Like(y, y2, z) && Followed(y, y1, z, z1) && y1.t.seen <= y2.t.seen && EpochSound(y1) && EpochSound(z1)
    ensures Like(y1, y2, z1)
  {
    SaidBoth(y, y1, y2);
    ServesConcat(z.w, Said(y, y1), Said(y1, y2));
  }

  /** The client after a dated reply: a new epoch is taken over. */
  function Noted(y: Sys, r: Result<nat>): Sys {
    if r.Ok? && r.value != y.c.epoch then NoteEpoch(y, r.value) else y
  }

  lemma SendWriteFollows(y: Sys, z: Sys, f: Fid, w: Write)
    requires Like(y, SendWrite(y, f, w).0, z)
    ensures var (y1, r), (z1, rz) := SendWrite(y, f, w), SendWrite(z, f, w);
      && rz == r && EpochSound(Noted(y1, r)) && EpochSound(Noted(z1, r))
      && Followed(y, Noted(y1, r), z, Noted(z1, r))
  {
    var m := Message(WriteReq(f, w), Rpc(y.w, WriteReq(f, w), MAX_TRIES).1);
    OneMore(y.w, [], m);
    OneMore(z.w, [], m);
    RpcEpoch(y.w, m.q, MAX_TRIES);
    RpcEpoch(z.w, m.q, MAX_TRIES);
    assert Said(y, SendWrite(y, f, w).0) == [] + [m];
  }

  lemma SendCommitFollows(y: Sys, z: Sys, f: Fid)
    requires Like(y, SendCommit(y, f).0, z)
    ensures var (y1, r), (z1, rz) := SendCommit(y, f), SendCommit(z, f);
      && rz == r && EpochSound(Noted(y1, r)) && EpochSound(Noted(z1, r))
      && Followed(y, Noted(y1, r), z, Noted(z1, r))
  {
    var m := Message(CommitReq(f), Rpc(y.w, CommitReq(f), MAX_TRIES).1);
    OneMore(y.w, [], m);
    OneMore(z.w, [], m);
    RpcEpoch(y.w, m.q, MAX_TRIES);
    RpcEpoch(z.w, m.q, MAX_TRIES);
    assert Said(y, SendCommit(y, f).0) == [] + [m];
  }

  lemma {:induction false} ReplayFollows(y: Sys, z: Sys, f: Fid, pos: nat)
    requires EpochSound(y) && Like(y, Replay(y, f, pos).0, z)
    ensures Followed(y, Replay(y, f, pos).0, z, Replay(z, f, pos).0) && Replay(z, f, pos).1 == Replay(y, f, pos).1
    decreases LastEpoch(y.w) - y.c.epoch, |Log(y, f)| - pos
  {
    if |Log(y, f)| <= pos {
    } else {
      var y' := Replay(y, f, pos).0;
      RpcEpoch(y.w, WriteReq(f, Log(y, f)[pos]), MAX_TRIES);
      var (y1, r) := SendWrite(y, f, Log(y, f)[pos]);
      var (z1, rz) := SendWrite(z, f, Log(y, f)[pos]);
      LikeFirst(y, y1, y', z);
      SendWriteFollows(y, z, f, Log(y, f)[pos]);
      if r.Ok? {
        var next := if r.value == y.c.epoch then pos + 1 else 0;
        LikeRest(y, Noted(y1, r), y', z, Noted(z1, r));
        ReplayFollows(Noted(y1, r), Noted(z1, r), f, next);
        FollowedBoth(y, Noted(y1, r), y', z, Noted(z1, r), Replay(Noted(z1, r), f, next).0);
      }
    }
  }

  lemma {:induction false} CommitFollows(y: Sys, z: Sys, f: Fid)
    requires EpochSound(y) && Like(y, Commit(y, f).0, z)
    ensures Followed(y, Commit(y, f).0, z, Commit(z, f).0) && Commit(z, f).1 == Commit(y, f).1
    decreases LastEpoch(y.w) - y.c.epoch, 0
  {
    var y' := Commit(y, f).0;
    RpcEpoch(y.w, CommitReq(f), MAX_TRIES);
    var (y1, r) := SendCommit(y, f);
    var (z1, rz) := SendCommit(z, f);
    LikeFirst(y, y1, y', z);
    SendCommitFollows(y, z, f);
    if r.Ok? && r.value != y.c.epoch {
      var ya, za := NoteEpoch(y1, r.value), NoteEpoch(z1, r.value);
      LikeRest(y, ya, y', z, za);
      CommitResumes(ya, za, f);
      FollowedBoth(y, ya, y', z, za, Commit(z, f).0);
    }
  }

  /** The replay that a new epoch calls for, and the commit after it. */
  lemma CommitResumes(y: Sys, z: Sys, f: Fid)
    requires EpochSound(y)
    requires var (y2, r2) := Replay(y, f, 0); Like(y, if r2.Err? then y2 else Commit(y2, f).0, z)
    ensures var (y2, r2), (z2, rz2) := Replay(y, f, 0), Replay(z, f, 0);
      && rz2 == r2
      && (r2.Err? ==> Followed(y, y2, z, z2))
      && (r2.Ok? ==> Followed(y, Commit(y2, f).0, z, Commit(z2, f).0) && Commit(z2, f).1 == Commit(y2, f).1)
    decreases LastEpoch(y.w) - y.c.epoch, 1
  {
    var (y2, r2) := Replay(y, f, 0);
    var (z2, rz2) := Replay(z, f, 0);
    LikeFirst(y, y2, if r2.Err? then y2 else Commit(y2, f).0, z);
    ReplayFollows(y, z, f, 0);
    if r2.Ok? {
      LikeRest(y, y2, Commit(y2, f).0, z, z2);
      CommitFollows(y2, z2, f);
      FollowedBoth(y, y2, Commit(y2, f).0, z, z2, Commit(z2, f).0);
    }
  }

  lemma {:induction false} ChunksFollow(y: Sys, z: Sys, f: Fid, cs: seq<Write>)
    requires EpochSound(y) && Like(y, WriteChunks(y, f, cs).0, z)
    ensures Followed(y, WriteChunks(y, f, cs).0, z, WriteChunks(z, f, cs).0)
    ensures WriteChunks(z, f, cs).1 == WriteChunks(y, f, cs).1
    decreases cs
  {
    if cs == [] {
    } else {
      var y' := WriteChunks(y, f, cs).0;
      var (y1, r1) := WriteAsync(y, f, cs[0]);
      var (z1, rz1) := WriteAsync(z, f, cs[0]);
      LikeFirst(y, y1, y', z);
      WriteAsyncFollows(y, z, f, cs[0]);
      if r1.Ok? {
        LikeRest(y, y1, y', z, z1);
        ChunksFollow(y1, z1, f, cs[1..]);
        FollowedBoth(y, y1, y', z, z1, WriteChunks(z, f, cs).0);
      }
    }
  }

  lemma WriteAsyncFollows(y: Sys, z: Sys, f: Fid, w: Write)
    requires EpochSound(y) && Like(y, WriteAsync(y, f, w).0, z)
    ensures Followed(y, WriteAsync(y, f, w).0, z, WriteAsync(z, f, w).0) &&
      WriteAsync(z, f, w).1 == WriteAsync(y, f, w).1
  {
    var bufs := y.c.bufs[f := Log(y, f) + [w]];
    var ya, za := y.(c := y.c.(bufs := bufs)), z.(c := z.c.(bufs := bufs));
    ReplayFollows(ya, za, f, |Log(y, f)|);
  }

  lemma {:induction false} ReadFollows(w: World, v: World, f: Fid, offset: nat, size: nat, got: Bytes)
    requires v == w || Serves(v, ReadMessages(w, f, offset, size, got))
    ensures var ms := ReadMessages(w, f, offset, size, got);
      && ReadMessages(v, f, offset, size, got) == ms &&
           ReadOn(v, f, offset, size, got).1 == ReadOn(w, f, offset, size, got).1
      && Answers(w, ms, ReadOn(w, f, offset, size, got).0) && Answers(v, ms, ReadOn(v, f, offset, size, got).0)
    decreases size - |got|
  {
    if size <= |got| {
    } else {
      var q := ReadReq(f, offset + |got|, size - |got|);
      var (w1, r) := Rpc(w, q, MAX_TRIES);
      var m := Message(q, r);
      RpcEpoch(w, q, MAX_TRIES);
      var rest := if r.Err? || r.value.data == [] then [] else ReadMessages(w1, f, offset, size, got + r.value.data);
      OneMore(w, [], m);
      OneMore(v, [], m);
      assert ReadMessages(w, f, offset, size, got) == [m] + rest;
      ServesConcat(v, [m], rest);
      ServesConcat(w, [m], rest);
      assert [] + [m] == [m];
      if r.Ok? && r.value.data != [] {
        ReadFollows(w1, Rpc(v, q, MAX_TRIES).0, f, offset, size, got + r.value.data);
      }
    }
  }

  lemma PerformFollows(y: Sys, z: Sys, call: Call)
    requires EpochSound(y) && Like(y, Perform(y, call), z)
    ensures Followed(y, Perform(y, call), z, Perform(z, call))
  {
    match call
    case WriteCall(f, offset, data) => ChunksFollow(y, z, f, Chunks(offset, data));
    case FlushCall(f) => CommitFollows(y, z, f);
    case ReadCall(f, offset, size) =>
      var ms := ReadMessages(y.w, f, offset, size, []);
      ReadKeepsEpochs(y.w, f, offset, size, []);
      ReadKeepsEpochs(z.w, f, offset, size, []);
      assert Said(y, Perform(y, call)) == ms;
      ReadFollows(y.w, z.w, f, offset, size, []);
  }

  /** What a client does is decided by the replies: a world that gives the replies of one run to
      the same requests takes a client that starts alike through the same run. */
  lemma {:induction false} RunFollows(y: Sys, z: Sys, calls: seq<Call>)
    requires EpochSound(y) && Like(y, Run(y, calls), z)
    ensures Followed(y, Run(y, calls), z, Run(z, calls))
    decreases calls
  {
    if calls == [] {
    } else {
      var y1, z1 := Perform(y, calls[0]), Perform(z, calls[0]);
      LikeFirst(y, y1, Run(y, calls), z);
      PerformFollows(y, z, calls[0]);
      LikeRest(y, y1, Run(y, calls), z, z1);
      RunFollows(y1, z1, calls[1..]);
      FollowedBoth(y, y1, Run(y, calls), z, z1, Run(z, calls));
    }
  }

  // ---------- What the messages say about a log ----------

  /** The writes of a file that were sent, in order. */
  function WritesTo(ms: seq<Message>, f: Fid): seq<Write>
    decreases |ms|
  {
    if ms == [] then []
    else
      var q := ms[|ms| - 1].q;
      WritesTo(ms[..|ms| - 1], f) + if q.WriteReq? && q.fid == f then [q.w] else []
  }

  /** No COMMIT of the file was answered in the stored epoch, so that its log was not dropped. */
  predicate Open(epoch: nat, ms: seq<Message>, f: Fid)
    decreases |ms|
  {
    ms == [] ||
    (var init, m := ms[..|ms| - 1], ms[|ms| - 1];
     Open(epoch, init, f) && !(m.q == CommitReq(f) && Dated(m) && m.r.value.epoch == Latest(epoch, init)))
  }

  lemma {:induction false} WritesConcat(a: seq<Message>, b: seq<Message>, f: Fid)
    ensures WritesTo(a + b, f) == WritesTo(a, f) + WritesTo(b, f)
    decreases |b|
  {
    if b == [] {
      assert a + b == a;
    } else {
      assert (a + b)[..|a + b| - 1] == a + b[..|b| - 1];
      WritesConcat(a, b[..|b| - 1], f);
    }
  }

  lemma {:induction false} OpenConcat(epoch: nat, a: seq<Message>, b: seq<Message>, f: Fid)
    ensures Open(epoch, a + b, f) <==> Open(epoch, a, f) && Open(Latest(epoch, a), b, f)
    decreases |b|
  {
    if b == [] {
      assert a + b == a;
    } else {
      assert (a + b)[..|a + b| - 1] == a + b[..|b| - 1];
      OpenConcat(epoch, a, b[..|b| - 1], f);
      LatestConcat(epoch, a, b[..|b| - 1]);
    }
  }

  /** Between y and y' the stored epoch was that of the last dated reply, and if the log of the
      file stayed open, it has kept what it held and gained just the writes that were sent. */
  ghost predicate Recorded(y: Sys, y': Sys, f: Fid) {
    && y.t.seen <= y'.t.seen
    && y'.c.epoch == Latest(y.c.epoch, Said(y, y'))
    && (Open(y.c.epoch, Said(y, y'), f) ==>
          && DrawnFrom(Log(y, f), Log(y', f)) && DrawnFrom(WritesTo(Said(y, y'), f), Log(y', f))
          && DrawnFrom(Log(y', f), Log(y, f) + WritesTo(Said(y, y'), f)))
  }

  lemma RecordedBoth(y: Sys, y1: Sys, y2: Sys, f: Fid)
    requires Recorded(y, y1, f) && Recorded(y1, y2, f)
    ensures Recorded(y, y2, f)
  {
    var a, b := Said(y, y1), Said(y1, y2);
    SaidBoth(y, y1, y2);
    WritesConcat(a, b, f);
    OpenConcat(y.c.epoch, a, b, f);
    LatestConcat(y.c.epoch, a, b);
  }

  /** One message, whose reply is noted: the logs stay, and a write is from its log. */
  lemma MessageRecorded(y: Sys, y': Sys, m: Message, f: Fid)
    requires y'.c.bufs == y.c.bufs && y'.t.seen == y.t.seen + [m]
    requires y'.c.epoch == if Dated(m) then m.r.value.epoch else y.c.epoch
    requires m.q.WriteReq? ==> m.q.w in Log(y, m.q.fid)
    ensures Recorded(y, y', f)
  {
    assert Said(y, y') == [m] && [m][..0] == [];
    assert WritesTo([m], f) == WritesTo([], f) + if m.q.WriteReq? && m.q.fid == f then [m.q.w] else [];
  }

  lemma {:induction false} ReplayRecorded(y: Sys, g: Fid, pos: nat, f: Fid)
    requires EpochSound(y)
    ensures Recorded(y, Replay(y, g, pos).0, f)
    ensures pos < |Log(y, g)| ==> Log(y, g)[pos] in WritesTo(Said(y, Replay(y, g, pos).0), g)
    decreases LastEpoch(y.w) - y.c.epoch, |Log(y, g)| - pos
  {
    if |Log(y, g)| <= pos {
    } else {
      var w := Log(y, g)[pos];
      RpcEpoch(y.w, WriteReq(g, w), MAX_TRIES);
      var (y1, r) := SendWrite(y, g, w);
      var y2, y' := Noted(y1, r), Replay(y, g, pos).0;
      var m := y1.t.seen[|y.t.seen|];
      MessageRecorded(y, y2, m, f);
      if r.Ok? {
        ReplayRecorded(y2, g, if r.value == y.c.epoch then pos + 1 else 0, f);
        RecordedBoth(y, y2, y', f);
      }
      assert Said(y, y') == [m] + Said(y2, y');
      WritesConcat([m], Said(y2, y'), g);
      assert [m][..0] == [] && WritesTo([m], g) == WritesTo([], g) + [w];
    }
  }

  lemma WriteRecorded(y: Sys, g: Fid, w: Write, f: Fid)
    requires EpochSound(y)
    ensures Recorded(y, WriteAsync(y, g, w).0, f)
  {
    var log := Log(y, g) + [w];
    var y1 := y.(c := y.c.(bufs := y.c.bufs[g := log]));
    assert Log(y1, g)[|Log(y, g)|] == w && DrawnFrom(Log(y, g), log);
    ReplayRecorded(y1, g, |Log(y, g)|, f);
    assert Said(y, WriteAsync(y, g, w).0) == Said(y1, WriteAsync(y, g, w).0);
  }

  lemma {:induction false} ChunksRecorded(y: Sys, g: Fid, cs: seq<Write>, f: Fid)
    requires EpochSound(y)
    ensures Recorded(y, WriteChunks(y, g, cs).0, f)
    decreases cs
  {
    if cs == [] {
    } else {
      var (y1, r1) := WriteAsync(y, g, cs[0]);
      WriteRecorded(y, g, cs[0], f);
      if r1.Ok? {
        ChunksRecorded(y1, g, cs[1..], f);
        RecordedBoth(y, y1, WriteChunks(y, g, cs).0, f);
      }
    }
  }

  lemma {:induction false} CommitRecorded(y: Sys, g: Fid, f: Fid)
    requires EpochSound(y)
    ensures Recorded(y, Commit(y, g).0, f)
    decreases LastEpoch(y.w) - y.c.epoch, 0
  {
    RpcEpoch(y.w, CommitReq(g), MAX_TRIES);
    var (y1, r) := SendCommit(y, g);
    var y2 := Noted(y1, r);
    var m := y1.t.seen[|y.t.seen|];
    MessageRecorded(y, y2, m, f);
    if r.Ok? && r.value != y.c.epoch {
      ResumeRecorded(y2, g, f);
      RecordedBoth(y, y2, Commit(y, g).0, f);
    } else if r.Ok? {
      assert Said(y, y1) == [m] && [m][..0] == [];
      assert f == g ==> !Open(y.c.epoch, [m], f);
    }
  }

  lemma ResumeRecorded(y: Sys, g: Fid, f: Fid)
    requires EpochSound(y)
    ensures var (y2, r2) := Replay(y, g, 0); Recorded(y, if r2.Err? then y2 else Commit(y2, g).0, f)
    decreases LastEpoch(y.w) - y.c.epoch, 1
  {
    var (y2, r2) := Replay(y, g, 0);
    ReplayRecorded(y, g, 0, f);
    if r2.Ok? {
      CommitRecorded(y2, g, f);
      RecordedBoth(y, y2, Commit(y2, g).0, f);
    }
  }

  lemma {:induction false} ReadSendsNoWrites(w: World, g: Fid, offset: nat, size: nat, got: Bytes)
    ensures forall m | m in ReadMessages(w, g, offset, size, got) :: m.q.ReadReq? && !Dated(m)
    decreases size - |got|
  {
    if size <= |got| {
    } else {
      var q := ReadReq(g, offset + |got|, size - |got|);
      var (w1, r) := Rpc(w, q, MAX_TRIES);
      RpcEpoch(w, q, MAX_TRIES);
      if r.Ok? && r.value.data != [] {
        ReadSendsNoWrites(w1, g, offset, size, got + r.value.data);
      }
    }
  }

  lemma {:induction false} NoWrites(ms: seq<Message>, f: Fid)
    requires forall m | m in ms :: !m.q.WriteReq?
    ensures WritesTo(ms, f) == []
    decreases |ms|
  {
    if ms == [] {
    } else {
      NoWrites(ms[..|ms| - 1], f);
    }
  }

  lemma {:induction false} LatestUndated(epoch: nat, ms: seq<Message>)
    requires forall m | m in ms :: !Dated(m)
    ensures Latest(epoch, ms) == epoch
    decreases |ms|
  {
    if ms == [] {
    } else {
      LatestUndated(epoch, ms[..|ms| - 1]);
    }
  }

  lemma PerformRecorded(y: Sys, call: Call, f: Fid)
    requires EpochSound(y)
    ensures Recorded(y, Perform(y, call), f)
  {
    match call
    case WriteCall(g, offset, data) => ChunksRecorded(y, g, Chunks(offset, data), f);
    case FlushCall(g) => CommitRecorded(y, g, f);
    case ReadCall(g, offset, size) =>
      var ms := ReadMessages(y.w, g, offset, size, []);
      assert Said(y, Perform(y, call)) == ms;
      ReadSendsNoWrites(y.w, g, offset, size, []);
      NoWrites(ms, f);
      LatestUndated(y.c.epoch, ms);
  }

  /** Over any run in which the log of a file stays open, the log consists of what it held and
      of just the writes that were sent. */
  lemma {:induction false} RunRecorded(y: Sys, calls: seq<Call>, f: Fid)
    requires EpochSound(y)
    ensures Recorded(y, Run(y, calls), f)
    decreases calls
  {
    if calls == [] {
    } else {
      PerformRecorded(y, calls[0], f);
      RunRecorded(Perform(y, calls[0]), calls[1..], f);
      RecordedBoth(y, Perform(y, calls[0]), Run(y, calls), f);
    }
  }
}
