/** Exactly when an Ok commit is durable, in terms of what the client has seen: its log, and what
    became of the writes it has sent in the epoch it has stored. */
module Guarantee {
  import opened Content
  import opened Protocol
  import opened Durability
  import opened Sessions
  import opened Messages

  // ---------- What the client can work out ----------

  /** A write sent to the server in the stored epoch, and whether it was acknowledged. */
  datatype Sent = Sent(w: Write, acked: bool)

  /** The writes of the file sent since the stored epoch was noticed. The write whose reply
      brought the new epoch is the first of them. */
  function SentNow(epoch: nat, ms: seq<Message>, f: Fid): seq<Sent>
    decreases |ms|
  {
    if ms == [] then []
    else
      var init, m := ms[..|ms| - 1], ms[|ms| - 1];
      var before := if Dated(m) && m.r.value.epoch != Latest(epoch, init) then [] else SentNow(epoch, init, f);
      before + if m.q.WriteReq? && m.q.fid == f then [Sent(m.q.w, m.r.Ok?)] else []
  }

  function AckedWrites(sent: seq<Sent>): seq<Write>
    decreases |sent|
  {
    if sent == [] then []
    else AckedWrites(sent[..|sent| - 1]) + if sent[|sent| - 1].acked then [sent[|sent| - 1].w] else []
  }

  /** The byte at position i is b, whichever unacknowledged writes have reached the server. From
      the last write sent backwards, every write that covers i has this byte, until one that was
      acknowledged; if there is none, the base and all logged writes that cover i have it. */
  predicate Sure(base: Bytes, log: seq<Write>, sent: seq<Sent>, i: nat, b: bv8)
    decreases |sent|
  {
    if sent == [] then At(base, i) == b && forall w | w in log && Covers(w, i) :: w.data[i - w.offset] == b
    else
      var init, x := sent[..|sent| - 1], sent[|sent| - 1];
      if Covers(x.w, i) then x.w.data[i - x.w.offset] == b && (x.acked || Sure(base, log, init, i, b))
      else Sure(base, log, init, i, b)
  }

  /** The length and every byte of the expected content are certain. */
  predicate Settled(base: Bytes, log: seq<Write>, sent: seq<Sent>) {
    && End(log) <= Max(|base|, End(AckedWrites(sent)))
    && forall i | 0 <= i < Max(|base|, End(log)) :: Sure(base, log, sent, i, LastByte(base, log, i))
  }

  // ---------- What the server may hold ----------

  /** A content that the sent writes may have led to: some writes of the log applied in earlier
      epochs, then every acknowledged and perhaps some unacknowledged writes of this one. */
  ghost predicate Possible(base: Bytes, log: seq<Write>, sent: seq<Sent>, v: Bytes)
    decreases |sent|
  {
    if sent == [] then Strayed(base, log, v)
    else
      var init, x := sent[..|sent| - 1], sent[|sent| - 1];
      exists u :: Possible(base, log, init, u) && (v == Apply(u, x.w) || (!x.acked && v == u))
  }

  lemma PossibleMore(base: Bytes, log: seq<Write>, sent: seq<Sent>, x: Sent, u: Bytes, v: Bytes)
    requires Possible(base, log, sent, u) && (v == Apply(u, x.w) || (!x.acked && v == u))
    ensures Possible(base, log, sent + [x], v)
  {
    assert (sent + [x])[..|sent|] == sent;
  }

  lemma {:induction false} LastByteIs(base: Bytes, ws: seq<Write>, i: nat, b: bv8)
    requires At(base, i) == b && forall w | w in ws && Covers(w, i) :: w.data[i - w.offset] == b
    ensures LastByte(base, ws, i) == b
    decreases |ws|
  {
    if ws == [] {
    } else {
      LastByteIs(base, ws[..|ws| - 1], i, b);
    }
  }

  lemma {:induction false} SureIsSo(base: Bytes, log: seq<Write>, sent: seq<Sent>, v: Bytes, i: nat, b: bv8)
    requires Possible(base, log, sent, v) && Sure(base, log, sent, i, b)
    ensures At(v, i) == b
    decreases |sent|
  {
    if sent == [] {
      var strays: seq<Write> :| DrawnFrom(strays, log) && v == ApplyAll(base, strays);
      LastWriterWins(base, strays);
      LastByteIs(base, strays, i, b);
    } else {
      var init, x := sent[..|sent| - 1], sent[|sent| - 1];
      var u :| Possible(base, log, init, u) && (v == Apply(u, x.w) || (!x.acked && v == u));
      if !(Covers(x.w, i) && x.acked) {
        SureIsSo(base, log, init, u, i, b);
      }
    }
  }

  lemma {:induction false} EndDrawn(ws: seq<Write>, log: seq<Write>)
    requires DrawnFrom(ws, log)
    ensures End(ws) <= End(log)
    decreases |ws|
  {
    if ws == [] {
    } else {
      var w := ws[|ws| - 1];
      EndDrawn(ws[..|ws| - 1], log);
      if w.data != [] {
        EndBound(log, w);
      }
    }
  }

  predicate SentFrom(sent: seq<Sent>, log: seq<Write>) {
    forall x | x in sent :: x.w in log
  }

  lemma AckedEnd(sent: seq<Sent>, x: Sent)
    ensures var w, n := x.w, End(AckedWrites(sent));
      End(AckedWrites(sent + [x])) == if x.acked && w.data != [] then Max(w.offset + |w.data|, n) else n
  {
    var acked := AckedWrites(sent);
    assert (sent + [x])[..|sent|] == sent && (acked + [x.w])[..|acked|] == acked && acked + [] == acked;
  }

  lemma LengthStep(base: Bytes, log: seq<Write>, init: seq<Sent>, x: Sent, u: Bytes, v: Bytes)
    requires x.w in log && (v == Apply(u, x.w) || (!x.acked && v == u))
    requires Max(|base|, End(AckedWrites(init))) <= |u| <= Max(|base|, End(log))
    ensures Max(|base|, End(AckedWrites(init + [x]))) <= |v| <= Max(|base|, End(log))
  {
    if x.w.data != [] {
      EndBound(log, x.w);
    }
    AckedEnd(init, x);
  }

  lemma {:induction false} PossibleLength(base: Bytes, log: seq<Write>, sent: seq<Sent>, v: Bytes)
    requires Possible(base, log, sent, v) && SentFrom(sent, log)
    ensures Max(|base|, End(AckedWrites(sent))) <= |v| <= Max(|base|, End(log))
    decreases |sent|
  {
    if sent == [] {
      var strays: seq<Write> :| DrawnFrom(strays, log) && v == ApplyAll(base, strays);
      LastWriterWins(base, strays);
      EndDrawn(strays, log);
    } else {
      var init, x := sent[..|sent| - 1], sent[|sent| - 1];
      var u :| Possible(base, log, init, u) && (v == Apply(u, x.w) || (!x.acked && v == u));
      assert SentFrom(init, log) && x in sent && sent == init + [x];
      PossibleLength(base, log, init, u);
      LengthStep(base, log, init, x, u, v);
    }
  }

  /** Where the client can be sure, the server holds the expected content. */
  lemma SettledIsExpected(base: Bytes, log: seq<Write>, sent: seq<Sent>, v: Bytes)
    requires Settled(base, log, sent) && Possible(base, log, sent, v) && SentFrom(sent, log)
    ensures v == ApplyAll(base, log)
  {
    LastWriterWins(base, log);
    PossibleLength(base, log, sent, v);
    forall i: nat | i < |v| ensures At(v, i) == At(ApplyAll(base, log), i) {
      SureIsSo(base, log, sent, v, i, LastByte(base, log, i));
    }
    SameBytes(v, ApplyAll(base, log));
  }

  // ---------- What settles a log, and what leaves it open ----------

  /** The write covers the position with another byte. */
  predicate Differs(w: Write, i: nat, b: bv8) {
    Covers(w, i) && w.data[i - w.offset] != b
  }

  /** A larger set of logged writes makes no difference where the new ones have the same byte. */
  lemma {:induction false} SureMore(base: Bytes, log: seq<Write>, more: seq<Write>, sent: seq<Sent>, i: nat, b: bv8)
    requires Sure(base, log, sent, i, b) && forall x | x in more :: x in log || !Differs(x, i, b)
    ensures Sure(base, more, sent, i, b)
    decreases |sent|
  {
    if sent == [] {
      forall x | x in more && Covers(x, i) ensures x.data[i - x.offset] == b {
        assert x in log || !Differs(x, i, b);
      }
    } else if Sure(base, log, sent[..|sent| - 1], i, b) {
      SureMore(base, log, more, sent[..|sent| - 1], i, b);
    }
  }

  lemma SureSnoc(base: Bytes, log: seq<Write>, sent: seq<Sent>, x: Sent, i: nat, b: bv8)
    ensures Sure(base, log, sent + [x], i, b) <==>
      if Covers(x.w, i) then x.w.data[i - x.w.offset] == b && (x.acked || Sure(base, log, sent, i, b))
      else Sure(base, log, sent, i, b)
  {
    assert (sent + [x])[..|sent|] == sent;
  }

  lemma LogSnoc(base: Bytes, log: seq<Write>, w: Write, i: nat)
    ensures LastByte(base, log + [w], i) == if Covers(w, i) then w.data[i - w.offset] else LastByte(base, log, i)
    ensures End(log + [w]) == Max(if w.data == [] then 0 else w.offset + |w.data|, End(log))
  {
    assert (log + [w])[..|log|] == log;
  }

  /** Where nothing was written, all is sure. */
  lemma {:induction false} SureBeyond(base: Bytes, log: seq<Write>, sent: seq<Sent>, i: nat)
    requires SentFrom(sent, log) && Max(|base|, End(log)) <= i
    ensures Sure(base, log, sent, i, LastByte(base, log, i))
    decreases |sent|
  {
    forall w | w in log ensures !Covers(w, i) {
      if w.data != [] {
        EndBound(log, w);
      }
    }
    LastByteIs(base, log, i, At(base, i));
    if sent == [] {
    } else {
      assert sent[|sent| - 1] in sent;
      SureBeyond(base, log, sent[..|sent| - 1], i);
    }
  }

  lemma SureElsewhere(base: Bytes, log: seq<Write>, more: seq<Write>, sent: seq<Sent>, w: Write, i: nat)
    requires Settled(base, log, sent) && SentFrom(sent, log) && DrawnFrom(more, log + [w]) && !Covers(w, i)
    ensures Sure(base, more, sent, i, LastByte(base, log, i))
  {
    if Max(|base|, End(log)) <= i {
      SureBeyond(base, log, sent, i);
    }
    SureMore(base, log, more, sent, i, LastByte(base, log, i));
  }

  /** A settled log stays settled with every write that is acknowledged. */
  lemma AckSettles(base: Bytes, log: seq<Write>, sent: seq<Sent>, w: Write)
    requires Settled(base, log, sent) && SentFrom(sent, log)
    ensures Settled(base, log + [w], sent + [Sent(w, true)])
  {
    AckedEnd(sent, Sent(w, true));
    LogSnoc(base, log, w, 0);
    forall i: nat ensures Sure(base, log + [w], sent + [Sent(w, true)], i, LastByte(base, log + [w], i)) {
      LogSnoc(base, log, w, i);
      SureSnoc(base, log + [w], sent, Sent(w, true), i, LastByte(base, log + [w], i));
      if !Covers(w, i) {
        SureElsewhere(base, log, log + [w], sent, w, i);
      }
    }
  }

  /** And so does one to which a write that gave up is added and then added again with success:
      to repeat a failed write is enough. */
  lemma RepeatSettles(base: Bytes, log: seq<Write>, sent: seq<Sent>, w: Write)
    requires Settled(base, log, sent) && SentFrom(sent, log)
    ensures Settled(base, log + [w] + [w], sent + [Sent(w, false)] + [Sent(w, true)])
  {
    var log', sent' := log + [w] + [w], sent + [Sent(w, false)];
    AckedEnd(sent, Sent(w, false));
    AckedEnd(sent', Sent(w, true));
    LogSnoc(base, log, w, 0);
    LogSnoc(base, log + [w], w, 0);
    forall i: nat ensures Sure(base, log', sent' + [Sent(w, true)], i, LastByte(base, log', i)) {
      LogSnoc(base, log, w, i);
      LogSnoc(base, log + [w], w, i);
      SureSnoc(base, log', sent', Sent(w, true), i, LastByte(base, log', i));
      SureSnoc(base, log', sent, Sent(w, false), i, LastByte(base, log', i));
      if !Covers(w, i) {
        SureElsewhere(base, log, log', sent, w, i);
      }
    }
  }

  /** A byte that the log changes and no acknowledged write of this epoch covers leaves the log
      open: so it is when the epoch was taken over through another file, and nothing has been sent
      again, or when a write gave up and nothing later has covered it. */
  lemma UncoveredIsOpen(base: Bytes, log: seq<Write>, sent: seq<Sent>, i: nat)
    requires At(base, i) != LastByte(base, log, i)
    requires forall x | x in sent && x.acked :: !Covers(x.w, i)
    ensures !Settled(base, log, sent)
  {
    LastWriterWins(base, log);
    UncoveredIsUnsure(base, log, sent, i, LastByte(base, log, i));
  }

  lemma {:induction false} UncoveredIsUnsure(base: Bytes, log: seq<Write>, sent: seq<Sent>, i: nat, b: bv8)
    requires At(base, i) != b && forall x | x in sent && x.acked :: !Covers(x.w, i)
    ensures !Sure(base, log, sent, i, b)
    decreases |sent|
  {
    if sent == [] {
    } else {
      var init, x := sent[..|sent| - 1], sent[|sent| - 1];
      assert x in sent;
      UncoveredIsUnsure(base, log, init, i, b);
    }
  }

  // ---------- Every server is possible ----------

  /** A write answered in the epoch that is still up is the last thing that happened to its file. */
  lemma {:induction false} AnsweredIsLast(v: World, f: Fid, w: Write, tries: nat)
    requires f in v.server.files
    ensures var (v', r) := Rpc(v, WriteReq(f, w), tries);
      r.Ok? && r.value.Verf? && r.value.epoch == v'.server.epoch ==>
        f in v'.server.files && Apply(Virtual(v'.server, f), w) == Virtual(v'.server, f)
    decreases tries
  {
    if tries == 0 {
    } else {
      var q, a := WriteReq(f, w), NextAttempt(v);
      var (v1, o) := Attempted(v, q);
      TryEpoch(v.server, a, q);
      if o.Transport? {
        AnsweredIsLast(v1, f, w, tries - 1);
      } else {
        var s1 := Happens(v.server, a.before);
        HappensEffect(v.server, a.before);
        VirtualOfWrite(s1, f, w, f);
        HappensEffect(HandleWrite(s1, f, w), a.after);
        ApplyTwice(Virtual(s1, f), w);
      }
    }
  }

  /** The server is near the base, and in the stored epoch it holds one of the possible contents. */
  ghost predicate Fits(s: Server, f: Fid, base: Bytes, log: seq<Write>, epoch: nat, sent: seq<Sent>) {
    && Near(s, f, log, base)
    && epoch <= s.epoch
    && (s.epoch == epoch ==> Possible(base, log, sent, Virtual(s, f)))
  }

  /** A message that turns the epoch: all that was sent before it is a stray. */
  lemma TurnFits(v: World, m: Message, f: Fid, base: Bytes, log: seq<Write>)
    requires Near(v.server, f, log, base) && Rpc(v, m.q, MAX_TRIES).1 == m.r && Drawn(m.q, f, log)
    ensures var s' := Rpc(v, m.q, MAX_TRIES).0.server;
      && Near(s', f, log, base)
      && (Dated(m) && s'.epoch == m.r.value.epoch ==>
            Possible(base, log, if m.q.WriteReq? && m.q.fid == f then [Sent(m.q.w, true)] else [], Virtual(s', f)))
  {
    var s' := Rpc(v, m.q, MAX_TRIES).0.server;
    RpcNear(v, m.q, MAX_TRIES, f, log, base);
    if m.q.WriteReq? && m.q.fid == f && Dated(m) && s'.epoch == m.r.value.epoch {
      AnsweredIsLast(v, f, m.q.w, MAX_TRIES);
      PossibleMore(base, log, [], Sent(m.q.w, true), Virtual(s', f), Virtual(s', f));
      assert [] + [Sent(m.q.w, true)] == [Sent(m.q.w, true)];
    }
  }

  /** A message in the stored epoch: the write it sends is one more. */
  lemma StayFits(v: World, m: Message, f: Fid, base: Bytes, log: seq<Write>, sent: seq<Sent>)
    requires f in v.server.files && Possible(base, log, sent, Virtual(v.server, f)) && Rpc(v, m.q, MAX_TRIES).1 == m.r
    ensures var s' := Rpc(v, m.q, MAX_TRIES).0.server;
      s'.epoch == v.server.epoch ==>
        var now := if m.q.WriteReq? && m.q.fid == f then sent + [Sent(m.q.w, m.r.Ok?)] else sent;
        f in s'.files && Possible(base, log, now, Virtual(s', f))
  {
    var s, s' := v.server, Rpc(v, m.q, MAX_TRIES).0.server;
    RpcEpoch(v, m.q, MAX_TRIES);
    RpcEffect(v, m.q, MAX_TRIES);
    if s'.epoch == s.epoch && m.q.WriteReq? && m.q.fid == f {
      PossibleMore(base, log, sent, Sent(m.q.w, m.r.Ok?), Virtual(s, f), Virtual(s', f));
    }
  }

  lemma SentSnoc(epoch: nat, init: seq<Message>, m: Message, f: Fid)
    ensures var before := if Dated(m) && m.r.value.epoch != Latest(epoch, init) then [] else SentNow(epoch, init, f);
      SentNow(epoch, init + [m], f) == if m.q.WriteReq? && m.q.fid == f then before + [Sent(m.q.w, m.r.Ok?)] else before
    ensures Latest(epoch, init + [m]) == if Dated(m) then m.r.value.epoch else Latest(epoch, init)
  {
    assert (init + [m])[..|init|] == init;
  }

  lemma MessageFits(v: World, epoch: nat, init: seq<Message>, m: Message, f: Fid, base: Bytes, log: seq<Write>)
    requires Fits(v.server, f, base, log, Latest(epoch, init), SentNow(epoch, init, f))
    requires Rpc(v, m.q, MAX_TRIES).1 == m.r && Drawn(m.q, f, log)
    ensures Fits(Rpc(v, m.q, MAX_TRIES).0.server, f, base, log, Latest(epoch, init + [m]),
      SentNow(epoch, init + [m], f))
  {
    SentSnoc(epoch, init, m, f);
    RpcEpoch(v, m.q, MAX_TRIES);
    TurnFits(v, m, f, base, log);
    if v.server.epoch == Latest(epoch, init) {
      StayFits(v, m, f, base, log, SentNow(epoch, init, f));
    }
    assert m.q.WriteReq? ==> (m.r.Ok? <==> Dated(m));
    assert m.q.WriteReq? ==> [] + [Sent(m.q.w, true)] == [Sent(m.q.w, true)];
  }

  lemma {:induction false} AfterFits(w: World, epoch: nat, ms: seq<Message>, f: Fid, log: seq<Write>)
    requires Serves(w, ms) && epoch <= w.server.epoch && DrawnFrom(WritesTo(ms, f), log)
    requires f in w.server.files && Pending(w.server, f) == []
    ensures Fits(After(w, ms).server, f, w.server.files[f], log, Latest(epoch, ms), SentNow(epoch, ms, f))
    ensures SentFrom(SentNow(epoch, ms, f), log)
    decreases |ms|
  {
    var base := w.server.files[f];
    if ms == [] {
      StrayNone(base, log);
    } else {
      var init, m := ms[..|ms| - 1], ms[|ms| - 1];
      assert ms == init + [m];
      AfterFits(w, epoch, init, f, log);
      MessageFits(After(w, init), epoch, init, m, f, base, log);
    }
  }
}
