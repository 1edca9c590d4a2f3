/** The write-buffering protocol as functions on values: the server's handlers with their
    disk steps, the faults of the network and the host, and the client's retry, replay and
    commit loops. Every source of chance (restarts, crashes, lost messages, commits by other
    clients) is read from a schedule, so that a statement about all schedules is a statement
    about all runs. */
module Protocol {
  import opened Content

  /** How often one RPC is attempted before the client gives up. */
  const MAX_TRIES: nat := 5

  datatype Errno = EIO | ENOENT

  datatype Result<+T> = Ok(value: T) | Err(errno: Errno)

  /** The server: its epoch, the numbered files, the files under tmp, and the volatile
      buffers of unstable writes. */
  datatype Server = Server(epoch: nat, files: map<Fid, Bytes>, tmp: map<Fid, Bytes>, bufs: map<Fid, seq<Write>>)

  function Pending(s: Server, f: Fid): seq<Write> {
    if f in s.bufs then s.bufs[f] else []
  }

  // ---------- Handlers ----------

  datatype Request =
    | WriteReq(fid: Fid, w: Write)
    | CommitReq(fid: Fid)
    | ReadReq(fid: Fid, offset: nat, count: nat)

  datatype Reply =
    | Verf(epoch: nat)
    | Data(data: Bytes)
    | Stale

  /** An unstable WRITE: append to the buffer of the file, answer with the epoch. */
  function HandleWrite(s: Server, f: Fid, w: Write): Server {
    s.(bufs := s.bufs[f := Pending(s, f) + [w]])
  }

  /** COMMIT after k of its steps: take the buffer out of the table, copy the file to tmp,
      apply the buffered writes one by one to the copy, rename the copy over the file. */
  function CommitAfter(s: Server, f: Fid, k: nat): Server
    requires f in s.files
  {
    var ws := Pending(s, f);
    var taken := s.(bufs := s.bufs - {f});
    if k == 0 then s
    else if ws == [] || k == 1 then taken
    else if k <= 2 + |ws| then taken.(tmp := s.tmp[f := ApplyAll(s.files[f], ws[..k - 2])])
    else taken.(tmp := s.tmp - {f}, files := s.files[f := ApplyAll(s.files[f], ws)])
  }

  /** An empty buffer is answered as soon as it is out of the table. */
  function CommitSteps(s: Server, f: Fid): nat {
    if Pending(s, f) == [] then 1 else 3 + |Pending(s, f)|
  }

  function HandleCommit(s: Server, f: Fid): Server
    requires f in s.files
  {
    CommitAfter(s, f, CommitSteps(s, f))
  }

  /** A FILE_SYNC write after k of its steps: copy, write, rename. */
  function StableAfter(s: Server, f: Fid, w: Write, k: nat): Server
    requires f in s.files
  {
    if k == 0 then s
    else if k == 1 then s.(tmp := s.tmp[f := s.files[f]])
    else if k == 2 then s.(tmp := s.tmp[f := Apply(s.files[f], w)])
    else s.(tmp := s.tmp - {f}, files := s.files[f := Apply(s.files[f], w)])
  }

  function HandleRead(s: Server, f: Fid, offset: nat, count: nat): Bytes
    requires f in s.files
  {
    Pread(s.files[f], offset, Min(count, MAX_BUF_LEN))
  }

  function Handle(s: Server, q: Request): (Server, Reply) {
    match q
    case WriteReq(f, w) => (HandleWrite(s, f, w), Verf(s.epoch))
    case CommitReq(f) => if f in s.files then (HandleCommit(s, f), Verf(s.epoch)) else (s, Stale)
    case ReadReq(f, offset, count) => (s, if f in s.files then Data(HandleRead(s, f, offset, count)) else Stale)
  }

  /** What a crash k steps into a request leaves, before the restart. */
  function Interrupted(s: Server, q: Request, k: nat): Server {
    match q
    case WriteReq(f, w) => if k == 0 then s else HandleWrite(s, f, w)
    case CommitReq(f) => if f in s.files then CommitAfter(s, f, k) else s
    case ReadReq(_, _, _) => s
  }

  // ---------- Faults ----------

  /** Things that happen at the server between two steps of this client. The epoch of a new
      incarnation is a later value of the persistent counter; skip counts the values handed
      out or lost in between. */
  datatype Event =
    | Restart(skip: nat)
    | OtherCommit(fid: Fid)

  function Happen(s: Server, e: Event): Server {
    match e
    case Restart(skip) => s.(epoch := s.epoch + 1 + skip, bufs := map[])
    case OtherCommit(f) => if f in s.files then HandleCommit(s, f) else s
  }

  function Happens(s: Server, es: seq<Event>): Server
    decreases es
  {
    if es == [] then s else Happens(Happen(s, es[0]), es[1..])
  }

  /** The fate of one attempt: the request is lost, the server dies k steps into it, or it is
      executed and the reply is delivered or lost. */
  datatype Fate =
    | Lost
    | CrashIn(step: nat, skip: nat)
    | Served(delivered: bool)

  datatype Attempt = Attempt(before: seq<Event>, fate: Fate, after: seq<Event>)

  const SMOOTH := Attempt([], Served(true), [])

  datatype Outcome = Transport | Replied(reply: Reply)

  function Try(s: Server, a: Attempt, q: Request): (Server, Outcome) {
    var s1 := Happens(s, a.before);
    match a.fate
    case Lost => (Happens(s1, a.after), Transport)
    case CrashIn(k, skip) => (Happens(Happen(Interrupted(s1, q, k), Restart(skip)), a.after), Transport)
    case Served(delivered) =>
      var (s2, reply) := Handle(s1, q);
      (Happens(s2, a.after), if delivered then Replied(reply) else Transport)
  }

  /** The server and what is left of the schedule; an exhausted schedule means no more faults. */
  datatype World = World(server: Server, faults: seq<Attempt>)

  function NextAttempt(w: World): Attempt {
    if w.faults == [] then SMOOTH else w.faults[0]
  }

  function Attempted(w: World, q: Request): (World, Outcome) {
    var (s, o) := Try(w.server, NextAttempt(w), q);
    (World(s, if w.faults == [] then [] else w.faults[1..]), o)
  }

  /** Retry on transport errors, up to the given number of tries. */
  function Rpc(w: World, q: Request, tries: nat): (World, Result<Reply>)
    decreases tries, w.faults
  {
    if tries == 0 then (w, Err(EIO))
    else
      var (w', o) := Attempted(w, q);
      match o
      case Transport => Rpc(w', q, tries - 1)
      case Replied(Stale) => (w', Err(ENOENT))
      case Replied(reply) => (w', Ok(reply))
  }

  // ---------- Epochs: what every step does to them ----------

  function EventGain(e: Event): nat {
    match e
    case Restart(skip) => 1 + skip
    case OtherCommit(_) => 0
  }

  function EventsGain(es: seq<Event>): nat {
    if es == [] then 0 else EventGain(es[0]) + EventsGain(es[1..])
  }

  function AttemptGain(a: Attempt): nat {
    EventsGain(a.before) + EventsGain(a.after) + if a.fate.CrashIn? then 1 + a.fate.skip else 0
  }

  function Gain(faults: seq<Attempt>): nat {
    if faults == [] then 0 else AttemptGain(faults[0]) + Gain(faults[1..])
  }

  /** The epoch the server will have when the schedule is exhausted. */
  function LastEpoch(w: World): nat {
    w.server.epoch + Gain(w.faults)
  }

  lemma {:induction false} HappensEpoch(s: Server, es: seq<Event>)
    ensures Happens(s, es).epoch == s.epoch + EventsGain(es)
    ensures Happens(s, es).files.Keys == s.files.Keys
    decreases es
  {
    if es == [] {
    } else {
      HappensEpoch(Happen(s, es[0]), es[1..]);
    }
  }

  lemma TryEpoch(s: Server, a: Attempt, q: Request)
    ensures var (s', o) := Try(s, a, q);
      && s'.epoch == s.epoch + AttemptGain(a)
      && s'.files.Keys == s.files.Keys
      && (o.Replied? && o.reply.Verf? ==> s.epoch <= o.reply.epoch <= s'.epoch)
      && (o.Replied? ==> (o.reply == Stale <==> !q.WriteReq? && q.fid !in s.files))
      && (o.Replied? && o.reply != Stale ==> (o.reply.Data? <==> q.ReadReq?))
  {
    var s1 := Happens(s, a.before);
    HappensEpoch(s, a.before);
    match a.fate
    case Lost => HappensEpoch(s1, a.after);
    case CrashIn(k, skip) => HappensEpoch(Happen(Interrupted(s1, q, k), Restart(skip)), a.after);
    case Served(_) => HappensEpoch(Handle(s1, q).0, a.after);
  }

  /** An epoch in a reply was the server's epoch at some moment of the call, and what the
      schedule still holds makes up the difference to the last epoch. */
  lemma {:induction false} RpcEpoch(w: World, q: Request, tries: nat)
    ensures var (w', r) := Rpc(w, q, tries);
      && w.server.epoch <= w'.server.epoch
      && LastEpoch(w') == LastEpoch(w)
      && w'.server.files.Keys == w.server.files.Keys
      && (r.Ok? ==> r.value != Stale && (r.value.Data? <==> q.ReadReq?))
      && (r.Ok? && r.value.Verf? ==> w.server.epoch <= r.value.epoch <= w'.server.epoch)
      && (r == Err(ENOENT) ==> !q.WriteReq? && q.fid !in w.server.files)
      && (r.Ok? ==> q.WriteReq? || q.fid in w.server.files)
    decreases tries
  {
    if tries == 0 {
    } else {
      TryEpoch(w.server, NextAttempt(w), q);
      assert AttemptGain(SMOOTH) == 0;
      RpcEpoch(Attempted(w, q).0, q, tries - 1);
    }
  }

  // ---------- The client ----------

  datatype Client = Client(epoch: nat, bufs: map<Fid, seq<Write>>)

  /** A request and what came of it: all that a client ever learns. */
  datatype Message = Message(q: Request, r: Result<Reply>)

  /** RPCs answered or given up so far, epoch changes the client has noticed, and every message
      it has seen, oldest first. */
  datatype Tally = Tally(writes: nat, commits: nat, changes: nat, seen: seq<Message>)

  const NO_WORK := Tally(0, 0, 0, [])

  /** A client, its server, and the record of the work done. */
  datatype Sys = Sys(w: World, c: Client, t: Tally)

  /** The client never holds an epoch the server has not reached. */
  predicate EpochSound(y: Sys) {
    y.c.epoch <= y.w.server.epoch
  }

  function Log(y: Sys, f: Fid): seq<Write> {
    if f in y.c.bufs then y.c.bufs[f] else []
  }

  /** The client takes over a new epoch. */
  function NoteEpoch(y: Sys, epoch: nat): Sys {
    y.(c := y.c.(epoch := epoch), t := y.t.(changes := y.t.changes + 1))
  }

  function SendWrite(y: Sys, f: Fid, w: Write): (Sys, Result<nat>) {
    var (w', r) := Rpc(y.w, WriteReq(f, w), MAX_TRIES);
    RpcEpoch(y.w, WriteReq(f, w), MAX_TRIES);
    (y.(w := w', t := y.t.(writes := y.t.writes + 1, seen := y.t.seen + [Message(WriteReq(f, w), r)])),
     if r.Ok? then Ok(r.value.epoch) else Err(r.errno))
  }

  /** Send the log from pos; start over from 0 whenever the epoch turns out to have changed. */
  function Replay(y: Sys, f: Fid, pos: nat): (r: (Sys, Result<()>))
    requires EpochSound(y)
    ensures EpochSound(r.0) && y.c.epoch <= r.0.c.epoch && LastEpoch(r.0.w) == LastEpoch(y.w)
    ensures r.0.c.bufs == y.c.bufs && r.0.w.server.files.Keys == y.w.server.files.Keys
    ensures y.t.seen <= r.0.t.seen
    decreases LastEpoch(y.w) - y.c.epoch, |Log(y, f)| - pos
  {
    if |Log(y, f)| <= pos then (y, Ok(()))
    else
      RpcEpoch(y.w, WriteReq(f, Log(y, f)[pos]), MAX_TRIES);
      var (y1, r) := SendWrite(y, f, Log(y, f)[pos]);
      if r.Err? then (y1, Err(r.errno))
      else if r.value != y.c.epoch then
        assert y.c.epoch < r.value;
        Replay(NoteEpoch(y1, r.value), f, 0)
      else Replay(y1, f, pos + 1)
  }

  /** Append one write to the log of the file and send the log from there. */
  function WriteAsync(y: Sys, f: Fid, w: Write): (r: (Sys, Result<()>))
    requires EpochSound(y)
    ensures EpochSound(r.0) && y.c.epoch <= r.0.c.epoch && y.t.seen <= r.0.t.seen
  {
    Replay(y.(c := y.c.(bufs := y.c.bufs[f := Log(y, f) + [w]])), f, |Log(y, f)|)
  }

  function SendCommit(y: Sys, f: Fid): (Sys, Result<nat>) {
    var (w', r) := Rpc(y.w, CommitReq(f), MAX_TRIES);
    RpcEpoch(y.w, CommitReq(f), MAX_TRIES);
    (y.(w := w', t := y.t.(commits := y.t.commits + 1, seen := y.t.seen + [Message(CommitReq(f), r)])),
     if r.Ok? then Ok(r.value.epoch) else Err(r.errno))
  }

  /** COMMIT until it is answered in the epoch in which the whole log was sent. */
  function Commit(y: Sys, f: Fid): (r: (Sys, Result<()>))
    requires EpochSound(y)
    ensures EpochSound(r.0) && y.c.epoch <= r.0.c.epoch && y.t.seen <= r.0.t.seen
    decreases LastEpoch(y.w) - y.c.epoch
  {
    RpcEpoch(y.w, CommitReq(f), MAX_TRIES);
    var (y1, r) := SendCommit(y, f);
    if r.Err? then (y1, Err(r.errno))
    else if r.value == y.c.epoch then (y1.(c := y1.c.(bufs := y1.c.bufs - {f})), Ok(()))
    else
      assert y.c.epoch < r.value;
      var (y2, r2) := Replay(NoteEpoch(y1, r.value), f, 0);
      if r2.Err? then (y2, r2) else Commit(y2, f)
  }

  /** A user write of any length: cut into pieces, each logged and sent; stops at an error. */
  function WriteChunks(y: Sys, f: Fid, cs: seq<Write>): (r: (Sys, Result<()>))
    requires EpochSound(y)
    ensures EpochSound(r.0) && y.c.epoch <= r.0.c.epoch && y.t.seen <= r.0.t.seen
    decreases cs
  {
    if cs == [] then (y, Ok(()))
    else
      var (y1, r1) := WriteAsync(y, f, cs[0]);
      if r1.Err? then (y1, r1) else WriteChunks(y1, f, cs[1..])
  }

  /** Read until the requested amount is there or the server has no more. */
  function ReadOn(w: World, f: Fid, offset: nat, size: nat, got: Bytes): (World, Result<Bytes>)
    decreases size - |got|
  {
    if size <= |got| then (w, Ok(got))
    else
      var (w', r) := Rpc(w, ReadReq(f, offset + |got|, size - |got|), MAX_TRIES);
      RpcEpoch(w, ReadReq(f, offset + |got|, size - |got|), MAX_TRIES);
      if r.Err? then (w', Err(r.errno))
      else if r.value.data == [] then (w', Ok(got))
      else ReadOn(w', f, offset, size, got + r.value.data)
  }

  /** The messages of a read, in order. */
  function ReadMessages(w: World, f: Fid, offset: nat, size: nat, got: Bytes): seq<Message>
    decreases size - |got|
  {
    if size <= |got| then []
    else
      var q := ReadReq(f, offset + |got|, size - |got|);
      var (w', r) := Rpc(w, q, MAX_TRIES);
      RpcEpoch(w, q, MAX_TRIES);
      [Message(q, r)] +
      if r.Err? || r.value.data == [] then [] else ReadMessages(w', f, offset, size, got + r.value.data)
  }
}
