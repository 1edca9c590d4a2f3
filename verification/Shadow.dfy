/** Another server that would have given the client the same answers: schedules that repeat the
    messages of a run, and differ in what happened to the writes the client cannot be sure of. */
module Shadow {
  import opened Content
  import opened Protocol
  import opened Durability
  import opened Messages
  import opened Guarantee

  // ---------- One message repeated ----------

  const LOST := Attempt([], Lost, [])

  /** The result can be had from this server, perhaps after a restart. */
  predicate Gettable(s: Server, m: Message) {
    match m.q
    case WriteReq(_, _) => m.r == Err(EIO) || (Dated(m) && s.epoch <= m.r.value.epoch)
    case CommitReq(g) => m.r == Err(EIO) ||
      (if g in s.files then Dated(m) && s.epoch <= m.r.value.epoch else m.r == Err(ENOENT))
    case ReadReq(g, offset, count) =>
      m.r == Err(EIO) || m.r == if g in s.files then Ok(Data(HandleRead(s, g, offset, count))) else Err(ENOENT)
  }

  predicate Renewed(s: Server, m: Message) {
    Dated(m) && s.epoch < m.r.value.epoch
  }

  function Renewal(s: Server, m: Message): seq<Event> {
    if Renewed(s, m) then [Restart(m.r.value.epoch - s.epoch - 1)] else []
  }

  /** Attempts that give the result: a restart just before an answer in a new epoch; and a call
      that gave up is lost five times, or executed once with its reply lost. */
  function Attempts(s: Server, m: Message, exec: bool, after: seq<Event>): seq<Attempt> {
    if m.r == Err(EIO) then [Attempt([], if exec then Served(false) else Lost, after), LOST, LOST, LOST, LOST]
    else [Attempt(Renewal(s, m), Served(true), after)]
  }

  function Repeated(s: Server, m: Message, exec: bool, after: seq<Event>): Server {
    if m.r == Err(EIO) then Happens(if exec then Handle(s, m.q).0 else s, after)
    else Happens(Handle(Happens(s, Renewal(s, m)), m.q).0, after)
  }

  lemma {:induction false} LostAttempts(s: Server, n: nat, lost: seq<Attempt>, tail: seq<Attempt>, q: Request)
    requires |lost| == n && forall i | 0 <= i < n :: lost[i] == LOST
    ensures Rpc(World(s, lost + tail), q, n) == (World(s, tail), Err(EIO))
    decreases n
  {
    if n == 0 {
      assert lost + tail == tail;
    } else {
      assert (lost + tail)[0] == LOST && (lost + tail)[1..] == lost[1..] + tail;
      assert Happens(s, []) == s;
      LostAttempts(s, n - 1, lost[1..], tail, q);
    }
  }

  lemma AttemptsWork(s: Server, m: Message, exec: bool, after: seq<Event>, tail: seq<Attempt>)
    requires Gettable(s, m)
    ensures Rpc(World(s, Attempts(s, m, exec, after) + tail), m.q, MAX_TRIES) ==
      (World(Repeated(s, m, exec, after), tail), m.r)
  {
    var atts, q := Attempts(s, m, exec, after), m.q;
    var w := World(s, atts + tail);
    assert (atts + tail)[0] == atts[0] && (atts + tail)[1..] == atts[1..] + tail;
    assert Happens(s, []) == s;
    if m.r == Err(EIO) {
      assert Attempted(w, q) == (World(Repeated(s, m, exec, after), atts[1..] + tail), Transport);
      LostAttempts(Repeated(s, m, exec, after), 4, atts[1..], tail, q);
    } else {
      assert atts[1..] + tail == tail;
      HappensEpoch(s, Renewal(s, m));
      assert Dated(m) ==> m.r == Ok(Verf(m.r.value.epoch));
      assert EventsGain(Renewal(s, m)) == if Renewed(s, m) then m.r.value.epoch - s.epoch else 0;
    }
  }

  lemma RenewalIs(s: Server, m: Message)
    ensures Happens(s, Renewal(s, m)) == if Renewed(s, m) then s.(epoch := m.r.value.epoch, bufs := map[]) else s
  {
    var es := Renewal(s, m);
    if Renewed(s, m) {
      assert es[1..] == [];
      assert Happens(s, es) == Happens(Happen(s, es[0]), []);
    }
  }

  lemma FlushIs(s: Server, f: Fid)
    requires f in s.files
    ensures Happens(s, [OtherCommit(f)]) == HandleCommit(s, f) && Happens(s, []) == s
    ensures HandleCommit(s, f).files == s.files[f := Virtual(s, f)] && Pending(HandleCommit(s, f), f) == []
    ensures HandleCommit(s, f).epoch == s.epoch
  {
    CommitIsVirtual(s, f);
    assert Happens(s, [OtherCommit(f)]) == Happens(Happen(s, OtherCommit(f)), []);
  }

  lemma HandledFile(s: Server, q: Request, f: Fid)
    requires f in s.files && (q == CommitReq(f) ==> Pending(s, f) == [])
    ensures var s' := Handle(s, q).0;
      && s'.files.Keys == s.files.Keys && s'.epoch == s.epoch && s'.files[f] == s.files[f]
      && Pending(s', f) == Pending(s, f) + if q.WriteReq? && q.fid == f then [q.w] else []
  {
    if q.CommitReq? && q.fid in s.files {
      CommitIsVirtual(s, q.fid);
    }
  }

  /** The file after a repeated message: pending writes are lost by a restart; a write is pending
      if it was executed; and all that is pending goes to disk if somebody commits. */
  lemma RepeatedFile(s: Server, m: Message, exec: bool, flush: bool, f: Fid)
    requires Gettable(s, m) && f in s.files && (exec ==> m.q.WriteReq?)
    requires m.q == CommitReq(f) && Dated(m) ==> Renewed(s, m) || Pending(s, f) == []
    ensures var s' := Repeated(s, m, exec, if flush then [OtherCommit(f)] else []);
      var kept := if Renewed(s, m) then [] else Pending(s, f);
      var pending := kept + if m.q.WriteReq? && m.q.fid == f && (exec || m.r.Ok?) then [m.q.w] else [];
      && s'.files.Keys == s.files.Keys && s'.epoch == (if Renewed(s, m) then m.r.value.epoch else s.epoch)
      && s'.files[f] == (if flush then ApplyAll(s.files[f], pending) else s.files[f])
      && Pending(s', f) == if flush then [] else pending
  {
    var s1 := if m.r == Err(EIO) then s else Happens(s, Renewal(s, m));
    RenewalIs(s, m);
    var skip := m.r == Err(EIO) && !exec;
    var s2 := if skip then s1 else Handle(s1, m.q).0;
    if !skip {
      HandledFile(s1, m.q, f);
    }
    FlushIs(s2, f);
    var kept := if Renewed(s, m) then [] else Pending(s, f);
    assert kept + [] == kept;
    assert Pending(s2, f) == kept + if m.q.WriteReq? && m.q.fid == f && (exec || m.r.Ok?) then [m.q.w] else [];
  }

  // ---------- A whole run repeated ----------

  /** From s0, under this schedule and whatever follows it, the messages come out the same. */
  ghost predicate Plays(s0: Server, schedule: seq<Attempt>, ms: seq<Message>, s: Server) {
    forall tail: seq<Attempt> :: Answers(World(s0, schedule + tail), ms, World(s, tail))
  }

  lemma PlaysMoreWith(s0: Server, schedule: seq<Attempt>, ms: seq<Message>, s: Server, m: Message,
                      exec: bool, after: seq<Event>, tail: seq<Attempt>)
    requires Plays(s0, schedule, ms, s) && Gettable(s, m)
    ensures Answers(World(s0, (schedule + Attempts(s, m, exec, after)) + tail), ms + [m],
                    World(Repeated(s, m, exec, after), tail))
  {
    var rest := Attempts(s, m, exec, after) + tail;
    assert (schedule + Attempts(s, m, exec, after)) + tail == schedule + rest;
    assert Answers(World(s0, schedule + rest), ms, World(s, rest));
    OneMore(World(s0, schedule + rest), ms, m);
    AttemptsWork(s, m, exec, after, tail);
  }

  lemma PlaysMore(s0: Server, schedule: seq<Attempt>, ms: seq<Message>, s: Server, m: Message, exec: bool,
                  after: seq<Event>)
    requires Plays(s0, schedule, ms, s) && Gettable(s, m)
    ensures Plays(s0, schedule + Attempts(s, m, exec, after), ms + [m], Repeated(s, m, exec, after))
  {
    var more, s' := schedule + Attempts(s, m, exec, after), Repeated(s, m, exec, after);
    forall tail: seq<Attempt> ensures Answers(World(s0, more + tail), ms + [m], World(s', tail)) {
      PlaysMoreWith(s0, schedule, ms, s, m, exec, after, tail);
    }
  }

  /** The attempts that a call uses up; beyond the schedule, smooth ones. */
  function Consumed(w: World, q: Request, tries: nat): seq<Attempt>
    decreases tries
  {
    if tries == 0 then []
    else
      var (w1, o) := Attempted(w, q);
      [NextAttempt(w)] + if o.Transport? then Consumed(w1, q, tries - 1) else []
  }

  lemma SameAttempt(w: World, q: Request, tail: seq<Attempt>)
    ensures Attempted(World(w.server, [NextAttempt(w)] + tail), q) ==
      (World(Attempted(w, q).0.server, tail), Attempted(w, q).1)
  {
    assert ([NextAttempt(w)] + tail)[1..] == tail;
  }

  lemma RpcStep(v: World, q: Request, tries: nat)
    requires tries > 0
    ensures var (v1, o) := Attempted(v, q);
      Rpc(v, q, tries) ==
        if o.Transport? then Rpc(v1, q, tries - 1) else (v1, if o.reply.Stale? then Err(ENOENT) else Ok(o.reply))
  {}

  lemma {:induction false} UsedUp(w: World, q: Request, tries: nat, tail: seq<Attempt>)
    ensures Rpc(World(w.server, Consumed(w, q, tries) + tail), q, tries) ==
      (World(Rpc(w, q, tries).0.server, tail), Rpc(w, q, tries).1)
    decreases tries
  {
    if tries == 0 {
      assert [] + tail == tail;
    } else {
      var (w1, o) := Attempted(w, q);
      var rest := if o.Transport? then Consumed(w1, q, tries - 1) else [];
      var v := World(w.server, [NextAttempt(w)] + (rest + tail));
      assert Consumed(w, q, tries) + tail == [NextAttempt(w)] + (rest + tail);
      SameAttempt(w, q, rest + tail);
      RpcStep(w, q, tries);
      RpcStep(v, q, tries);
      if o.Transport? {
        UsedUp(w1, q, tries - 1, tail);
      } else {
        assert rest + tail == tail;
      }
    }
  }

  /** A run uses up some schedule; what follows it is free to be chosen. */
  lemma {:induction false} RunUses(w: World, ms: seq<Message>) returns (used: seq<Attempt>)
    requires Serves(w, ms)
    ensures Plays(w.server, used, ms, After(w, ms).server)
    decreases |ms|
  {
    if ms == [] {
      used := [];
      forall tail: seq<Attempt> ensures Answers(World(w.server, used + tail), ms, World(w.server, tail)) {
        assert [] + tail == tail;
      }
    } else {
      var init, m := ms[..|ms| - 1], ms[|ms| - 1];
      assert ms == init + [m];
      var before := RunUses(w, init);
      var last := Consumed(After(w, init), m.q, MAX_TRIES);
      used := before + last;
      forall tail: seq<Attempt> ensures Answers(World(w.server, used + tail), ms, World(After(w, ms).server, tail)) {
        assert used + tail == before + (last + tail);
        assert Answers(World(w.server, before + (last + tail)), init, World(After(w, init).server, last + tail));
        OneMore(World(w.server, before + (last + tail)), init, m);
        UsedUp(After(w, init), m.q, MAX_TRIES, tail);
      }
    }
  }

  /** A schedule that repeats one run and then another repeats both. */
  lemma PlaysBoth(w: World, used: seq<Attempt>, a: seq<Message>, s: Server, schedule: seq<Attempt>, b: seq<Message>,
                  s': Server)
    requires Plays(w.server, used, a, s) && Plays(s, schedule, b, s')
    ensures Answers(World(w.server, used + schedule), a + b, World(s', []))
  {
    assert Answers(World(w.server, used + schedule), a, World(s, schedule));
    assert schedule + [] == schedule && Answers(World(s, schedule + []), b, World(s', []));
    AnswersBoth(World(w.server, used + schedule), a, World(s, schedule), b, World(s', []));
  }

  /** Nothing was pending for the file, if there is one, and no write was sent to it. */
  predicate Rests(s: Server, ms: seq<Message>, g: Fid) {
    (g in s.files ==> Pending(s, g) == []) && forall m | m in ms && m.q.WriteReq? :: m.q.fid != g
  }

  /** A run to repeat: what the world answered, from a moment when the file was at rest, to writes, to
      reads of files at rest, and to commits, none of which closed the log of the file. */
  ghost predicate Scene(w: World, epoch: nat, ms: seq<Message>, f: Fid) {
    && Serves(w, ms) && epoch <= w.server.epoch
    && f in w.server.files && Pending(w.server, f) == []
    && (forall m | m in ms && m.q.ReadReq? :: Rests(w.server, ms, m.q.fid)) && Open(epoch, ms, f)
  }

  /** The files at rest have stayed as they were. */
  ghost predicate RestKept(s0: Server, ms: seq<Message>, s: Server) {
    forall g | g in s0.files && Rests(s0, ms, g) :: g in s.files && s.files[g] == s0.files[g] && Pending(s, g) == []
  }

  /** The schedule repeats the messages and ends at s, in the stored epoch if any was noticed. */
  ghost predicate Shadows(w: World, epoch: nat, ms: seq<Message>, f: Fid, schedule: seq<Attempt>, s: Server) {
    && Plays(w.server, schedule, ms, s) && RestKept(w.server, ms, s)
    && s.files.Keys == w.server.files.Keys && f in s.files
    && s.epoch == Max(w.server.epoch, Latest(epoch, ms))
  }

  /** Nothing is pending in an epoch the client has not noticed. */
  predicate Calm(s: Server, f: Fid, epoch: nat) {
    s.epoch != epoch ==> Pending(s, f) == []
  }

  lemma SceneBefore(w: World, epoch: nat, init: seq<Message>, m: Message, f: Fid)
    requires Scene(w, epoch, init + [m], f)
    ensures Scene(w, epoch, init, f)
    ensures m.q == CommitReq(f) && Dated(m) ==> m.r.value.epoch != Latest(epoch, init)
    ensures m.q.WriteReq? ==> (m.r.Ok? <==> Dated(m))
  {
    assert (init + [m])[..|init|] == init;
    OneMore(w, init, m);
    RpcEpoch(After(w, init), m.q, MAX_TRIES);
    forall x | x in init && x.q.ReadReq? ensures Rests(w.server, init, x.q.fid) {
      assert x in init + [m];
      RestsBefore(w.server, init, m, x.q.fid);
    }
  }

  lemma {:induction false} KeysAndEpochs(w: World, ms: seq<Message>)
    ensures After(w, ms).server.files.Keys == w.server.files.Keys && w.server.epoch <= After(w, ms).server.epoch
    decreases |ms|
  {
    if ms == [] {
    } else {
      KeysAndEpochs(w, ms[..|ms| - 1]);
      RpcEpoch(After(w, ms[..|ms| - 1]), ms[|ms| - 1].q, MAX_TRIES);
    }
  }

  /** The shadow has the same files, and an epoch no later than that of the world it shadows. */
  lemma ShadowBelow(w: World, epoch: nat, ms: seq<Message>, f: Fid, schedule: seq<Attempt>, s: Server)
    requires Scene(w, epoch, ms, f) && Shadows(w, epoch, ms, f, schedule, s)
    ensures var v := After(w, ms).server;
      s.files.Keys == v.files.Keys && Latest(epoch, ms) <= s.epoch <= v.epoch
  {
    assert DrawnFrom(WritesTo(ms, f), WritesTo(ms, f));
    AfterFits(w, epoch, ms, f, WritesTo(ms, f));
    KeysAndEpochs(w, ms);
  }

  lemma AnswerGettable(v: World, tries: nat, s: Server, m: Message)
    requires Rpc(v, m.q, tries).1 == m.r && !m.q.ReadReq?
    requires s.files.Keys == v.server.files.Keys && s.epoch <= v.server.epoch
    ensures Gettable(s, m) && (Dated(m) ==> s.epoch <= m.r.value.epoch)
  {
    RpcEpoch(v, m.q, tries);
    if m.q.CommitReq? {
      RpcCommit(v, m.q.fid, tries);
    }
    assert m.r.Ok? ==> m.r.value.Verf?;
    if m.r.Err? {
      assert m.r == Err(m.r.errno) && (m.r.errno == EIO || m.r.errno == ENOENT);
    }
  }

  /** A file at rest stays as it is, whatever is sent and whatever happens. */
  lemma {:induction false} AfterQuiet(w: World, ms: seq<Message>, g: Fid)
    requires g in w.server.files && Rests(w.server, ms, g)
    ensures var s := After(w, ms).server; g in s.files && s.files[g] == w.server.files[g] && Pending(s, g) == []
    decreases |ms|
  {
    if ms == [] {
    } else {
      var init, m := ms[..|ms| - 1], ms[|ms| - 1];
      assert m in ms && forall x | x in init :: x in ms;
      AfterQuiet(w, init, g);
      RpcQuiet(After(w, init), m.q, MAX_TRIES, g);
    }
  }

  /** A file at rest reads the same in the shadow. */
  lemma ReadGettable(v: World, s: Server, m: Message)
    requires Rpc(v, m.q, MAX_TRIES).1 == m.r && m.q.ReadReq? && s.files.Keys == v.server.files.Keys
    requires m.q.fid in s.files ==> Pending(v.server, m.q.fid) == [] && v.server.files[m.q.fid] == s.files[m.q.fid]
    ensures Gettable(s, m) && !Dated(m)
  {
    RpcEpoch(v, m.q, MAX_TRIES);
    if m.q.fid in s.files {
      RpcQuiet(v, m.q, MAX_TRIES, m.q.fid);
    }
    if m.r.Err? {
      assert m.r == Err(m.r.errno) && (m.r.errno == EIO || m.r.errno == ENOENT);
    }
  }

  /** The next message could also have come from the shadow. */
  lemma NextGettable(w: World, epoch: nat, init: seq<Message>, m: Message, f: Fid, schedule: seq<Attempt>, s: Server)
    requires Scene(w, epoch, init + [m], f) && Shadows(w, epoch, init, f, schedule, s)
    ensures Gettable(s, m) && Latest(epoch, init) <= s.epoch && (Dated(m) ==> s.epoch <= m.r.value.epoch)
  {
    OneMore(w, init, m);
    assert m in init + [m];
    SceneBefore(w, epoch, init, m, f);
    ShadowBelow(w, epoch, init, f, schedule, s);
    if m.q.ReadReq? {
      RestsBefore(w.server, init, m, m.q.fid);
      if m.q.fid in s.files {
        AfterQuiet(w, init, m.q.fid);
      }
      ReadGettable(After(w, init), s, m);
    } else {
      AnswerGettable(After(w, init), MAX_TRIES, s, m);
    }
  }

  lemma RestsBefore(s: Server, init: seq<Message>, m: Message, g: Fid)
    requires Rests(s, init + [m], g)
    ensures Rests(s, init, g) && (m.q.WriteReq? ==> m.q.fid != g)
  {
    assert m in init + [m] && forall x | x in init :: x in init + [m];
  }

  /** Neither does a repeated message touch a file at rest. */
  lemma RepeatedRests(s: Server, m: Message, exec: bool, after: seq<Event>, g: Fid)
    requires g in s.files && Pending(s, g) == [] && (m.q.WriteReq? ==> m.q.fid != g)
    ensures var s' := Repeated(s, m, exec, after); g in s'.files && s'.files[g] == s.files[g] && Pending(s', g) == []
  {
    var a :=
      if m.r == Err(EIO) then Attempt([], if exec then Served(false) else Lost, after)
      else Attempt(Renewal(s, m), Served(true), after);
    assert Happens(s, []) == s;
    TryQuiet(s, a, m.q, g);
  }

  lemma RestKeptMore(s0: Server, init: seq<Message>, m: Message, s: Server, exec: bool, after: seq<Event>)
    requires RestKept(s0, init, s)
    ensures RestKept(s0, init + [m], Repeated(s, m, exec, after))
  {
    forall g | g in s0.files && Rests(s0, init + [m], g)
      ensures var s' := Repeated(s, m, exec, after); g in s'.files && s'.files[g] == s0.files[g] && Pending(s', g) == []
    {
      RestsBefore(s0, init, m, g);
      RepeatedRests(s, m, exec, after, g);
    }
  }

  /** The message takes the client to another epoch. */
  predicate Turns(epoch: nat, init: seq<Message>, m: Message) {
    Dated(m) && m.r.value.epoch != Latest(epoch, init)
  }

  function Mine(m: Message, f: Fid): seq<Write> {
    if m.q.WriteReq? && m.q.fid == f then [m.q.w] else []
  }

  /** The pending writes after one more message: a change of epoch loses them. */
  function PendingAfter(epoch: nat, init: seq<Message>, m: Message, f: Fid, s: Server, exec: bool): seq<Write> {
    (if Turns(epoch, init, m) then [] else Pending(s, f)) + if exec || Dated(m) then Mine(m, f) else []
  }

  /** One more message, with a choice: whether a write that was not acknowledged is executed, and
      whether somebody commits the file afterwards. */
  lemma ShadowMore(w: World, epoch: nat, init: seq<Message>, m: Message, f: Fid,
                   schedule: seq<Attempt>, s: Server, exec: bool, flush: bool)
      returns (schedule': seq<Attempt>, s': Server)
    requires Scene(w, epoch, init + [m], f) && Shadows(w, epoch, init, f, schedule, s) && (exec ==> m.q.WriteReq?)
    requires Turns(epoch, init, m) ==> Calm(s, f, Latest(epoch, init))
    ensures Shadows(w, epoch, init + [m], f, schedule', s')
    ensures var pending := PendingAfter(epoch, init, m, f, s, exec);
      && s'.files[f] == (if flush then ApplyAll(s.files[f], pending) else s.files[f])
      && Pending(s', f) == if flush then [] else pending
    ensures Calm(s, f, Latest(epoch, init)) && (!exec || flush) ==> Calm(s', f, Latest(epoch, init + [m]))
  {
    var after := if flush then [OtherCommit(f)] else [];
    NextGettable(w, epoch, init, m, f, schedule, s);
    SceneBefore(w, epoch, init, m, f);
    RepeatedFile(s, m, exec, flush, f);
    PlaysMore(w.server, schedule, init, s, m, exec, after);
    RestKeptMore(w.server, init, m, s, exec, after);
    schedule', s' := schedule + Attempts(s, m, exec, after), Repeated(s, m, exec, after);
    assert (init + [m])[..|init|] == init;
  }

  // ---------- Three shadows ----------

  /** Nothing that was not acknowledged has reached the server, and nobody has committed: the
      disk is the base, and just the acknowledged writes are pending. */
  ghost predicate Least(w: World, epoch: nat, ms: seq<Message>, f: Fid, schedule: seq<Attempt>, s: Server) {
    && Shadows(w, epoch, ms, f, schedule, s) && Calm(s, f, Latest(epoch, ms))
    && f in w.server.files && s.files[f] == w.server.files[f] && Pending(s, f) == AckedWrites(SentNow(epoch, ms, f))
  }

  lemma SentMore(epoch: nat, init: seq<Message>, m: Message, f: Fid)
    requires m.q.WriteReq? ==> (m.r.Ok? <==> Dated(m))
    ensures var before := if Turns(epoch, init, m) then [] else SentNow(epoch, init, f);
      && SentNow(epoch, init + [m], f) == (if Mine(m, f) == [] then before else before + [Sent(m.q.w, Dated(m))])
      && AckedWrites(SentNow(epoch, init + [m], f)) == AckedWrites(before) + (if Dated(m) then Mine(m, f) else [])
    ensures WritesTo(init + [m], f) == WritesTo(init, f) + Mine(m, f)
  {
    assert (init + [m])[..|init|] == init;
    var before := if Turns(epoch, init, m) then [] else SentNow(epoch, init, f);
    if Mine(m, f) == [] {
      assert before + [] == before && AckedWrites(before) + [] == AckedWrites(before);
    } else {
      assert (before + [Sent(m.q.w, m.r.Ok?)])[..|before|] == before;
    }
  }

  lemma LeastMore(w: World, epoch: nat, init: seq<Message>, m: Message, f: Fid, schedule: seq<Attempt>, s: Server)
      returns (schedule': seq<Attempt>, s': Server)
    requires Scene(w, epoch, init + [m], f) && Least(w, epoch, init, f, schedule, s)
    ensures Least(w, epoch, init + [m], f, schedule', s')
  {
    schedule', s' := ShadowMore(w, epoch, init, m, f, schedule, s, false, false);
    SceneBefore(w, epoch, init, m, f);
    SentMore(epoch, init, m, f);
  }

  lemma {:induction false} Minimal(w: World, epoch: nat, ms: seq<Message>, f: Fid)
      returns (schedule: seq<Attempt>, s: Server)
    requires Scene(w, epoch, ms, f)
    ensures Least(w, epoch, ms, f, schedule, s)
    decreases |ms|
  {
    if ms == [] {
      schedule, s := [], w.server;
      forall tail: seq<Attempt> ensures Answers(World(w.server, [] + tail), ms, World(s, tail)) {
        assert [] + tail == tail;
      }
    } else {
      var init, m := ms[..|ms| - 1], ms[|ms| - 1];
      assert ms == init + [m];
      SceneBefore(w, epoch, init, m, f);
      schedule, s := Minimal(w, epoch, init, f);
      schedule, s := LeastMore(w, epoch, init, m, f, schedule, s);
    }
  }

  lemma PendingByte(file: Bytes, pending: seq<Write>, w: Write, i: nat)
    ensures At(ApplyAll(file, pending + [w]), i) ==
      if Covers(w, i) then w.data[i - w.offset] else At(ApplyAll(file, pending), i)
  {
    ApplyAllSnoc(file, pending, w);
  }

  /** The byte on disk is another one, and nothing is pending that the client does not know of. */
  ghost predicate Persisted(w: World, epoch: nat, ms: seq<Message>, f: Fid, i: nat, b: bv8, schedule: seq<Attempt>,
                            s: Server) {
    Shadows(w, epoch, ms, f, schedule, s) && Calm(s, f, Latest(epoch, ms)) && At(s.files[f], i) != b
  }

  /** The content of the file, or what a commit would make of it. */
  function InTheEnd(s: Server, f: Fid, flushed: bool): Bytes
    requires f in s.files
  {
    if flushed then s.files[f] else Virtual(s, f)
  }

  lemma ExecutedByte(file: Bytes, s: Server, kept: seq<Write>, w: Write, f: Fid, i: nat, flush: bool)
    requires f in s.files && Covers(w, i)
    requires s.files[f] == (if flush then ApplyAll(file, kept + [w]) else file)
    requires Pending(s, f) == if flush then [] else kept + [w]
    ensures At(InTheEnd(s, f, flush), i) == w.data[i - w.offset]
  {
    PendingByte(file, kept, w, i);
  }

  lemma ExecutedNow(epoch: nat, init: seq<Message>, m: Message, f: Fid, i: nat, flush: bool, s0: Server, s: Server)
    requires f in s0.files && f in s.files && m.q.WriteReq? && m.q.fid == f && Covers(m.q.w, i)
    requires var pending := PendingAfter(epoch, init, m, f, s0, true);
      && s.files[f] == (if flush then ApplyAll(s0.files[f], pending) else s0.files[f])
      && Pending(s, f) == if flush then [] else pending
    ensures At(InTheEnd(s, f, flush), i) == m.q.w.data[i - m.q.w.offset]
  {
    ExecutedByte(s0.files[f], s, if Turns(epoch, init, m) then [] else Pending(s0, f), m.q.w, f, i, flush);
  }

  /** The write just sent is executed, and perhaps committed by somebody. */
  lemma ExecuteNow(w: World, epoch: nat, init: seq<Message>, m: Message, f: Fid, i: nat, flush: bool,
                   before: seq<Attempt>, s0: Server)
      returns (schedule: seq<Attempt>, s: Server)
    requires Scene(w, epoch, init + [m], f) && m.q.WriteReq? && m.q.fid == f && Covers(m.q.w, i)
    requires Shadows(w, epoch, init, f, before, s0) && Calm(s0, f, Latest(epoch, init))
    ensures Shadows(w, epoch, init + [m], f, schedule, s) && (flush ==> Calm(s, f, Latest(epoch, init + [m])))
    ensures At(InTheEnd(s, f, flush), i) == m.q.w.data[i - m.q.w.offset]
  {
    schedule, s := ShadowMore(w, epoch, init, m, f, before, s0, true, flush);
    ExecutedNow(epoch, init, m, f, i, flush, s0, s);
  }

  lemma PersistNow(w: World, epoch: nat, init: seq<Message>, m: Message, f: Fid, i: nat, b: bv8)
      returns (schedule: seq<Attempt>, s: Server)
    requires Scene(w, epoch, init + [m], f) && m.q.WriteReq? && m.q.fid == f && Differs(m.q.w, i, b)
    ensures Persisted(w, epoch, init + [m], f, i, b, schedule, s)
  {
    SceneBefore(w, epoch, init, m, f);
    schedule, s := Minimal(w, epoch, init, f);
    schedule, s := ExecuteNow(w, epoch, init, m, f, i, true, schedule, s);
  }

  lemma PersistMore(w: World, epoch: nat, init: seq<Message>, m: Message, f: Fid, i: nat, b: bv8,
                    schedule: seq<Attempt>, s: Server)
      returns (schedule': seq<Attempt>, s': Server)
    requires Scene(w, epoch, init + [m], f) && Persisted(w, epoch, init, f, i, b, schedule, s)
    ensures Persisted(w, epoch, init + [m], f, i, b, schedule', s')
  {
    schedule', s' := ShadowMore(w, epoch, init, m, f, schedule, s, false, false);
  }

  /** Some write that was sent has another byte there, or the base has. */
  ghost predicate Disputed(base: Bytes, ws: seq<Write>, i: nat, b: bv8) {
    At(base, i) != b || exists x :: x in ws && Differs(x, i, b)
  }

  /** Any write that was ever sent, acknowledged or not, may have been committed by somebody just
      after it was executed; so its byte may be on disk, as may the byte of the base. */
  lemma {:induction false} OnDisk(w: World, epoch: nat, ms: seq<Message>, f: Fid, i: nat, b: bv8)
      returns (schedule: seq<Attempt>, s: Server)
    requires Scene(w, epoch, ms, f) && Disputed(w.server.files[f], WritesTo(ms, f), i, b)
    ensures Persisted(w, epoch, ms, f, i, b, schedule, s)
    decreases |ms|
  {
    if At(w.server.files[f], i) != b {
      schedule, s := Minimal(w, epoch, ms, f);
    } else {
      var init, m := ms[..|ms| - 1], ms[|ms| - 1];
      assert ms == init + [m];
      if m.q.WriteReq? && m.q.fid == f && Differs(m.q.w, i, b) {
        schedule, s := PersistNow(w, epoch, init, m, f, i, b);
      } else {
        assert Disputed(w.server.files[f], WritesTo(init, f), i, b);
        SceneBefore(w, epoch, init, m, f);
        schedule, s := OnDisk(w, epoch, init, f, i, b);
        schedule, s := PersistMore(w, epoch, init, m, f, i, b, schedule, s);
      }
    }
  }

  /** What is not sure of a longer list of writes, is not sure of the list without the last write,
      if that one does not spoil the byte. */
  lemma UnsureSnoc(base: Bytes, pool: seq<Write>, more: seq<Write>, before: seq<Sent>, mine: seq<Sent>, i: nat, b: bv8)
    requires |mine| <= 1 && !Sure(base, pool + more, before + mine, i, b)
    requires forall x | x in mine :: !Differs(x.w, i, b)
    requires forall x | x in more :: !Differs(x, i, b)
    ensures !Sure(base, pool, before, i, b)
    ensures forall x | x in mine && x.acked :: !Covers(x.w, i)
  {
    if mine == [] {
      assert before + mine == before;
    } else {
      assert mine[0] in mine && before + mine == before + [mine[0]];
      SureSnoc(base, pool + more, before, mine[0], i, b);
    }
    if Sure(base, pool, before, i, b) {
      SureMore(base, pool, pool + more, before, i, b);
    }
  }

  lemma UnsureIsDisputed(base: Bytes, pool: seq<Write>, i: nat, b: bv8)
    requires !Sure(base, pool, [], i, b)
    ensures Disputed(base, pool, i, b)
  {
    if At(base, i) == b {
      var x :| x in pool && Covers(x, i) && x.data[i - x.offset] != b;
      assert Differs(x, i, b);
    }
  }

  /** A message that does not itself spoil the byte leaves open what was open before: at a change
      of epoch some byte on disk, otherwise the byte that the sent writes have led to. */
  lemma UnsureBefore(base: Bytes, epoch: nat, init: seq<Message>, m: Message, f: Fid, i: nat, b: bv8)
    requires var ms := init + [m]; !Sure(base, WritesTo(ms, f), SentNow(epoch, ms, f), i, b)
    requires m.q.WriteReq? ==> (m.r.Ok? <==> Dated(m))
    requires forall x | x in Mine(m, f) :: !Differs(x, i, b)
    ensures Dated(m) ==> forall x | x in Mine(m, f) :: !Covers(x, i)
    ensures if Turns(epoch, init, m) then Disputed(base, WritesTo(init, f), i, b)
            else !Sure(base, WritesTo(init, f), SentNow(epoch, init, f), i, b)
  {
    var before := if Turns(epoch, init, m) then [] else SentNow(epoch, init, f);
    var mine := if Mine(m, f) == [] then [] else [Sent(m.q.w, Dated(m))];
    SentMore(epoch, init, m, f);
    assert before + [] == before;
    UnsureSnoc(base, WritesTo(init, f), Mine(m, f), before, mine, i, b);
    assert forall x | x in Mine(m, f) :: Sent(x, Dated(m)) in mine;
    if Turns(epoch, init, m) {
      UnsureIsDisputed(base, WritesTo(init, f), i, b);
    }
  }

  /** What a commit would write has another byte. */
  ghost predicate Spoiled(w: World, epoch: nat, ms: seq<Message>, f: Fid, i: nat, b: bv8, schedule: seq<Attempt>,
                          s: Server) {
    Shadows(w, epoch, ms, f, schedule, s) && At(Virtual(s, f), i) != b
  }

  lemma SpoilNow(w: World, epoch: nat, init: seq<Message>, m: Message, f: Fid, i: nat, b: bv8)
      returns (schedule: seq<Attempt>, s: Server)
    requires Scene(w, epoch, init + [m], f) && m.q.WriteReq? && m.q.fid == f && Differs(m.q.w, i, b)
    ensures Spoiled(w, epoch, init + [m], f, i, b, schedule, s)
  {
    SceneBefore(w, epoch, init, m, f);
    schedule, s := Minimal(w, epoch, init, f);
    schedule, s := ExecuteNow(w, epoch, init, m, f, i, false, schedule, s);
  }

  /** A message that does not spoil the byte itself: the byte was open before it. */
  lemma UnsureSplit(w: World, epoch: nat, init: seq<Message>, m: Message, f: Fid, i: nat, b: bv8)
    requires Scene(w, epoch, init + [m], f)
    requires var ms := init + [m]; !Sure(w.server.files[f], WritesTo(ms, f), SentNow(epoch, ms, f), i, b)
    requires !(m.q.WriteReq? && m.q.fid == f && Differs(m.q.w, i, b))
    ensures Scene(w, epoch, init, f)
    ensures Dated(m) ==> forall x | x in Mine(m, f) :: !Covers(x, i)
    ensures if Turns(epoch, init, m) then Disputed(w.server.files[f], WritesTo(init, f), i, b)
            else !Sure(w.server.files[f], WritesTo(init, f), SentNow(epoch, init, f), i, b)
  {
    SceneBefore(w, epoch, init, m, f);
    UnsureBefore(w.server.files[f], epoch, init, m, f, i, b);
  }

  lemma SpoilMore(w: World, epoch: nat, init: seq<Message>, m: Message, f: Fid, i: nat, b: bv8,
                  schedule: seq<Attempt>, s: Server)
      returns (schedule': seq<Attempt>, s': Server)
    requires Scene(w, epoch, init + [m], f)
    requires Dated(m) ==> forall x | x in Mine(m, f) :: !Covers(x, i)
    requires if Turns(epoch, init, m) then Persisted(w, epoch, init, f, i, b, schedule, s)
             else Spoiled(w, epoch, init, f, i, b, schedule, s)
    ensures Spoiled(w, epoch, init + [m], f, i, b, schedule', s')
  {
    var kept := if Turns(epoch, init, m) then [] else Pending(s, f);
    schedule', s' := ShadowMore(w, epoch, init, m, f, schedule, s, false, false);
    if Dated(m) && Mine(m, f) != [] {
      assert m.q.w in Mine(m, f);
      PendingByte(s.files[f], kept, m.q.w, i);
    } else {
      assert Pending(s', f) == kept;
    }
  }

  /** Before any message only the base can be in doubt. */
  lemma UnsureAtStart(w: World, epoch: nat, f: Fid, i: nat, b: bv8) returns (schedule: seq<Attempt>, s: Server)
    requires Scene(w, epoch, [], f) && !Sure(w.server.files[f], [], [], i, b)
    ensures Spoiled(w, epoch, [], f, i, b, schedule, s)
  {
    schedule, s := Minimal(w, epoch, [], f);
    assert Pending(s, f) == [] && Virtual(s, f) == s.files[f];
  }

  /** The byte in doubt: the client cannot be sure of it. */
  ghost predicate InDoubt(w: World, epoch: nat, ms: seq<Message>, f: Fid, i: nat, b: bv8) {
    Scene(w, epoch, ms, f) && !Sure(w.server.files[f], WritesTo(ms, f), SentNow(epoch, ms, f), i, b)
  }

  /** The last message is what spoils the byte, or a change of epoch is. */
  lemma UnsureNow(w: World, epoch: nat, init: seq<Message>, m: Message, f: Fid, i: nat, b: bv8)
      returns (schedule: seq<Attempt>, s: Server)
    requires InDoubt(w, epoch, init + [m], f, i, b)
    requires Turns(epoch, init, m) || (m.q.WriteReq? && m.q.fid == f && Differs(m.q.w, i, b))
    ensures Spoiled(w, epoch, init + [m], f, i, b, schedule, s)
  {
    if m.q.WriteReq? && m.q.fid == f && Differs(m.q.w, i, b) {
      schedule, s := SpoilNow(w, epoch, init, m, f, i, b);
    } else {
      UnsureSplit(w, epoch, init, m, f, i, b);
      schedule, s := OnDisk(w, epoch, init, f, i, b);
      schedule, s := SpoilMore(w, epoch, init, m, f, i, b, schedule, s);
    }
  }

  lemma UnsureEarlier(w: World, epoch: nat, init: seq<Message>, m: Message, f: Fid, i: nat, b: bv8,
                      schedule: seq<Attempt>, s: Server)
      returns (schedule': seq<Attempt>, s': Server)
    requires InDoubt(w, epoch, init + [m], f, i, b) && !Turns(epoch, init, m)
    requires !(m.q.WriteReq? && m.q.fid == f && Differs(m.q.w, i, b))
    requires InDoubt(w, epoch, init, f, i, b) ==> Spoiled(w, epoch, init, f, i, b, schedule, s)
    ensures Spoiled(w, epoch, init + [m], f, i, b, schedule', s')
  {
    UnsureSplit(w, epoch, init, m, f, i, b);
    schedule', s' := SpoilMore(w, epoch, init, m, f, i, b, schedule, s);
  }

  /** The last message, given the shadow of the messages before it if there is one. */
  lemma UnsureLast(w: World, epoch: nat, init: seq<Message>, m: Message, f: Fid, i: nat, b: bv8,
                   schedule: seq<Attempt>, s: Server)
      returns (schedule': seq<Attempt>, s': Server)
    requires InDoubt(w, epoch, init + [m], f, i, b)
    requires InDoubt(w, epoch, init, f, i, b) ==> Spoiled(w, epoch, init, f, i, b, schedule, s)
    ensures Spoiled(w, epoch, init + [m], f, i, b, schedule', s')
  {
    if Turns(epoch, init, m) || (m.q.WriteReq? && m.q.fid == f && Differs(m.q.w, i, b)) {
      schedule', s' := UnsureNow(w, epoch, init, m, f, i, b);
    } else {
      schedule', s' := UnsureEarlier(w, epoch, init, m, f, i, b, schedule, s);
    }
  }

  /** A byte that the client cannot be sure of is another one in some shadow. */
  lemma {:induction false} Unsure(w: World, epoch: nat, ms: seq<Message>, f: Fid, i: nat, b: bv8)
      returns (schedule: seq<Attempt>, s: Server)
    ensures InDoubt(w, epoch, ms, f, i, b) ==> Spoiled(w, epoch, ms, f, i, b, schedule, s)
    decreases |ms|
  {
    if ms == [] {
      schedule, s := [], w.server;
      if InDoubt(w, epoch, [], f, i, b) {
        schedule, s := UnsureAtStart(w, epoch, f, i, b);
      }
    } else {
      var init, m := ms[..|ms| - 1], ms[|ms| - 1];
      assert ms == init + [m];
      schedule, s := Unsure(w, epoch, init, f, i, b);
      if InDoubt(w, epoch, ms, f, i, b) {
        schedule, s := UnsureLast(w, epoch, init, m, f, i, b, schedule, s);
      }
    }
  }
}
