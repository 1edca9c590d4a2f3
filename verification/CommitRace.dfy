/** The table of buffers of one file while WRITEs and COMMITs interleave: a WRITE may hold a buffer
    that a COMMIT has taken out of the table, two WRITEs may make a buffer each, and a COMMIT may end
    without its writes on disk. This says exactly when an acknowledged write is lost. */
module CommitRace {
  import opened Content
  import N = Namespace
  import Crash = CrashAtomicity
  import SharedDisk

  type Writing = nat

  type BufId = nat

  /** What the table has for the file. */
  datatype Slot = Free | Entry(buf: BufId)

  /** A WRITE that has found no buffer, or has got hold of one. */
  datatype Writer = Missed | Has(buf: BufId)

  /** A COMMIT that has taken a buffer out of the table, or that holds its mutex and has copied the file. */
  datatype Stage = Took | Copied(copy: seq<nat>)

  datatype Committing = Committing(buf: BufId, stage: Stage)

  /** Acknowledged writes count from 0. The file is the list of those that made its content, and a
      buffer is the list of those it holds; the COMMITs stand in the order in which they took theirs. */
  datatype State = State(
    file: seq<nat>, log: seq<Write>, slot: Slot, bufs: map<BufId, seq<nat>>, nextBuf: BufId,
    writers: map<Writing, Writer>, commits: seq<Committing>)

  /** How the host ends a COMMIT: with the copy in place of the file; beside it, when the file has moved
      away; or with an error. The client is told Ok in the first two cases. */
  datatype Ending = InPlace | Beside | Error

  datatype Step =
    | LookUp(t: Writing)
    | Insert(t: Writing)
    | Push(t: Writing, w: Write)
    | Take
    | Copy(i: nat)
    | Finish(i: nat, ending: Ending)

  function Buf(bufs: map<BufId, seq<nat>>, b: BufId): seq<nat> {
    if b in bufs then bufs[b] else []
  }

  function SlotBuf(s: State): seq<nat> {
    if s.slot.Free? then [] else Buf(s.bufs, s.slot.buf)
  }

  function Without<T>(xs: seq<T>, i: nat): seq<T>
    requires i < |xs|
  {
    xs[..i] + xs[i + 1..]
  }

  predicate Locked(s: State, b: BufId) {
    exists c | c in s.commits :: c.buf == b && c.stage.Copied?
  }

  /** The insert of a WRITE that found no buffer does not look again. A COMMIT that finds no buffer, or
      an empty one, answers Ok at once. The buffer of a COMMIT stays locked until it ends; what an error
      leaves in it is out of reach, as if it were empty. */
  predicate Next(s: State, step: Step, s': State) {
    match step
    case LookUp(t) =>
      && t !in s.writers
      && s' == s.(writers := s.writers[t := if s.slot.Free? then Missed else Has(s.slot.buf)])
    case Insert(t) =>
      && t in s.writers && s.writers[t].Missed?
      && s' == s.(slot := Entry(s.nextBuf), nextBuf := s.nextBuf + 1, writers := s.writers[t := Has(s.nextBuf)])
    case Push(t, w) =>
      && t in s.writers && s.writers[t].Has? && !Locked(s, s.writers[t].buf)
      && var b := s.writers[t].buf;
         s' == s.(log := s.log + [w], bufs := s.bufs[b := Buf(s.bufs, b) + [|s.log|]], writers := s.writers - {t})
    case Take =>
      s' == if s.slot.Free? then s else s.(slot := Free, commits := s.commits + [Committing(s.slot.buf, Took)])
    case Copy(i) =>
      && i < |s.commits| && s.commits[i].stage.Took?
      && var b := s.commits[i].buf;
         s' == if Buf(s.bufs, b) == [] then s.(commits := Without(s.commits, i))
               else s.(commits := s.commits[i := Committing(b, Copied(s.file))])
    case Finish(i, ending) =>
      && i < |s.commits| && s.commits[i].stage.Copied?
      && var b := s.commits[i].buf;
         s' == s.(file := if ending.InPlace? then s.commits[i].stage.copy + Buf(s.bufs, b) else s.file,
                  bufs := s.bufs[b := []], commits := Without(s.commits, i))
  }

  // ---------- Nothing is lost ----------

  /** The writes that the COMMITs under way have taken, in the order in which they took them. */
  function InHand(bufs: map<BufId, seq<nat>>, commits: seq<Committing>): seq<nat> {
    if commits == [] then [] else Buf(bufs, commits[0].buf) + InHand(bufs, commits[1..])
  }

  function Waiting(s: State): seq<nat> {
    InHand(s.bufs, s.commits) + SlotBuf(s)
  }

  function UpTo(n: nat): seq<nat> {
    seq(n, i => i)
  }

  /** Every acknowledged write is in the file or on its way there, once, and in the order of the
      acknowledgements. */
  predicate Intact(s: State) {
    s.file + Waiting(s) == UpTo(|s.log|)
  }

  /** Nothing waits behind the buffer. */
  predicate LastBuf(s: State, b: BufId) {
    || s.slot == Entry(b)
    || (SlotBuf(s) == [] && exists j | 0 <= j < |s.commits| ::
          s.commits[j].buf == b && InHand(s.bufs, s.commits[j + 1..]) == [])
  }

  /** The steps that lose a write or put it out of order: an insert over a buffer that is in use; a push
      into a buffer that nobody will write, or that is to be written before others; a COMMIT that ends on an
      outdated copy, or ahead of an earlier one, or without its writes in the file. */
  predicate Loses(s: State, step: Step) {
    match step
    case Insert(_) => SlotBuf(s) != []
    case Push(t, _) => t in s.writers && s.writers[t].Has? && !LastBuf(s, s.writers[t].buf)
    case Finish(i, ending) =>
      i < |s.commits| && s.commits[i].stage.Copied? &&
      !(ending.InPlace? && s.commits[i].stage.copy == s.file && InHand(s.bufs, s.commits[..i]) == [])
    case _ => false
  }

  /** Buffers are told apart; a COMMIT that has copied has something to write, and its copy is the
      file as it was. */
  predicate Apart(s: State) {
    && (forall i, j | 0 <= i < j < |s.commits| :: s.commits[i].buf != s.commits[j].buf)
    && (s.slot.Entry? ==> forall c | c in s.commits :: c.buf != s.slot.buf)
  }

  predicate BufsKnown(s: State) {
    && (forall b | b in s.bufs :: b < s.nextBuf)
    && (s.slot.Entry? ==> s.slot.buf < s.nextBuf)
    && (forall c | c in s.commits :: c.buf < s.nextBuf)
    && (forall t | t in s.writers && s.writers[t].Has? :: s.writers[t].buf < s.nextBuf)
  }

  predicate Copies(s: State) {
    forall c | c in s.commits && c.stage.Copied? :: Buf(s.bufs, c.buf) != [] && c.stage.copy <= s.file
  }

  predicate Inv(s: State) {
    Apart(s) && BufsKnown(s) && Copies(s)
  }

  // ---------- The list of the writes that COMMITs have taken ----------

  lemma {:induction false} TakenConcat(bufs: map<BufId, seq<nat>>, a: seq<Committing>, b: seq<Committing>)
    ensures InHand(bufs, a + b) == InHand(bufs, a) + InHand(bufs, b)
    decreases a
  {
    if a == [] {
      assert a + b == b;
    } else {
      assert (a + b)[1..] == a[1..] + b;
      TakenConcat(bufs, a[1..], b);
    }
  }

  lemma {:induction false} TakenSame(bufs: map<BufId, seq<nat>>, bufs': map<BufId, seq<nat>>, cs: seq<Committing>,
                                     cs': seq<Committing>)
    requires |cs| == |cs'| && forall i | 0 <= i < |cs| :: Buf(bufs, cs[i].buf) == Buf(bufs', cs'[i].buf)
    ensures InHand(bufs, cs) == InHand(bufs', cs')
    decreases cs
  {
    if cs == [] {
    } else {
      TakenSame(bufs, bufs', cs[1..], cs'[1..]);
    }
  }

  lemma TakenOne(bufs: map<BufId, seq<nat>>, c: Committing)
    ensures InHand(bufs, [c]) == Buf(bufs, c.buf)
  {
    assert [c][1..] == [] && InHand(bufs, []) == [];
  }

  lemma TakenAround(bufs: map<BufId, seq<nat>>, a: seq<Committing>, c: Committing, b: seq<Committing>)
    ensures InHand(bufs, a + [c] + b) == InHand(bufs, a) + Buf(bufs, c.buf) + InHand(bufs, b)
  {
    TakenConcat(bufs, a + [c], b);
    TakenConcat(bufs, a, [c]);
    TakenOne(bufs, c);
  }

  lemma TakenSplit(bufs: map<BufId, seq<nat>>, cs: seq<Committing>, i: nat)
    requires i < |cs|
    ensures InHand(bufs, cs) == InHand(bufs, cs[..i]) + Buf(bufs, cs[i].buf) + InHand(bufs, cs[i + 1..])
    ensures InHand(bufs, Without(cs, i)) == InHand(bufs, cs[..i]) + InHand(bufs, cs[i + 1..])
  {
    assert cs == cs[..i] + [cs[i]] + cs[i + 1..];
    TakenAround(bufs, cs[..i], cs[i], cs[i + 1..]);
    TakenConcat(bufs, cs[..i], cs[i + 1..]);
  }

  lemma TakenWithoutEmpty(bufs: map<BufId, seq<nat>>, cs: seq<Committing>, i: nat)
    requires i < |cs| && Buf(bufs, cs[i].buf) == []
    ensures InHand(bufs, Without(cs, i)) == InHand(bufs, cs)
  {
    TakenSplit(bufs, cs, i);
    assert InHand(bufs, cs[..i]) + [] == InHand(bufs, cs[..i]);
  }

  /** Other buffers do not matter. */
  lemma TakenElse(bufs: map<BufId, seq<nat>>, b: BufId, content: seq<nat>, cs: seq<Committing>)
    requires forall c | c in cs :: c.buf != b
    ensures InHand(bufs[b := content], cs) == InHand(bufs, cs)
  {
    TakenSame(bufs, bufs[b := content], cs, cs);
  }

  lemma TakenPush(bufs: map<BufId, seq<nat>>, b: BufId, content: seq<nat>, cs: seq<Committing>, j: nat)
    requires j < |cs| && cs[j].buf == b && forall i | 0 <= i < |cs| && i != j :: cs[i].buf != b
    ensures InHand(bufs[b := content], cs) == InHand(bufs, cs[..j]) + content + InHand(bufs, cs[j + 1..])
  {
    TakenSplit(bufs[b := content], cs, j);
    TakenElse(bufs, b, content, cs[..j]);
    TakenElse(bufs, b, content, cs[j + 1..]);
  }

  // ---------- Lists that count up ----------

  /** One more in the middle: the list still counts up exactly if nothing follows. */
  lemma CountsOn(file: seq<nat>, a: seq<nat>, b: seq<nat>, c: seq<nat>, d: seq<nat>, n: nat)
    requires file + ((a + b + c) + d) == UpTo(n)
    ensures file + ((a + (b + [n]) + c) + d) == UpTo(n + 1) <==> c + d == []
  {
    var before, after, now := file + a + b, c + d, file + ((a + (b + [n]) + c) + d);
    assert file + ((a + b + c) + d) == before + after;
    assert now == before + [n] + after;
    if after == [] {
      assert before == UpTo(n) && now == UpTo(n) + [n];
    } else {
      assert now[|before|] == n && |before| < n;
    }
  }

  lemma CountsAtEnd(file: seq<nat>, a: seq<nat>, b: seq<nat>, n: nat)
    requires file + (a + b) == UpTo(n)
    ensures file + (a + (b + [n])) == UpTo(n + 1)
  {
    assert file + (a + (b + [n])) == file + (a + b) + [n];
  }

  lemma Overtakes(file: seq<nat>, copy: seq<nat>, a: seq<nat>, b: seq<nat>, c: seq<nat>, n: nat)
    requires file + (a + b + c) == UpTo(n) && copy <= file && b != []
    ensures copy + b + (a + c) == UpTo(n) <==> copy == file && a == []
  {
    var was, now := file + (a + b + c), copy + b + (a + c);
    assert copy == file && a == [] ==> now == was;
    assert was[|file| + |a|] == b[0] && now[|copy|] == b[0];
    assert |now| == |was| ==> copy == file;
  }

  // ---------- One step ----------

  lemma InsertExactly(s: State, t: Writing, s': State)
    requires Inv(s) && Intact(s) && Next(s, Insert(t), s')
    ensures Inv(s') && (Intact(s') <==> !Loses(s, Insert(t)))
  {
    assert SlotBuf(s') == [];
    assert Waiting(s') + SlotBuf(s) == Waiting(s);
    assert |s.file + Waiting(s)| == |UpTo(|s.log|)|;
    if SlotBuf(s) == [] {
      assert Waiting(s') == Waiting(s);
    }
  }

  lemma PushKeeps(s: State, t: Writing, w: Write, s': State)
    requires Inv(s) && Next(s, Push(t, w), s')
    ensures Inv(s')
  {
    forall c | c in s'.commits && c.stage.Copied? ensures Buf(s'.bufs, c.buf) == Buf(s.bufs, c.buf) {
      assert Locked(s, c.buf);
    }
  }

  lemma PushToSlot(s: State, t: Writing, w: Write, s': State)
    requires Inv(s) && Intact(s) && Next(s, Push(t, w), s') && s.slot == Entry(s.writers[t].buf)
    ensures Intact(s')
  {
    var b := s.slot.buf;
    TakenElse(s.bufs, b, s'.bufs[b], s.commits);
    CountsAtEnd(s.file, InHand(s.bufs, s.commits), Buf(s.bufs, b), |s.log|);
  }

  lemma PushLists(s: State, t: Writing, w: Write, s': State, j: nat)
    requires Inv(s) && Next(s, Push(t, w), s') && j < |s.commits| && s.commits[j].buf == s.writers[t].buf
    ensures var a, b, c := InHand(s.bufs, s.commits[..j]), Buf(s.bufs, s.commits[j].buf),
      InHand(s.bufs, s.commits[j + 1..]);
      Waiting(s) == a + b + c + SlotBuf(s) && Waiting(s') == a + (b + [|s.log|]) + c + SlotBuf(s)
  {
    var b := s.writers[t].buf;
    TakenSplit(s.bufs, s.commits, j);
    TakenPush(s.bufs, b, Buf(s.bufs, b) + [|s.log|], s.commits, j);
    assert s.commits[j] in s.commits;
  }

  lemma PushToTaken(s: State, t: Writing, w: Write, s': State, j: nat)
    requires Inv(s) && Intact(s) && Next(s, Push(t, w), s') && j < |s.commits| && s.commits[j].buf == s.writers[t].buf
    ensures Intact(s') <==> InHand(s.bufs, s.commits[j + 1..]) + SlotBuf(s) == []
  {
    var a, b, c := InHand(s.bufs, s.commits[..j]), Buf(s.bufs, s.commits[j].buf), InHand(s.bufs, s.commits[j + 1..]);
    PushLists(s, t, w, s', j);
    CountsOn(s.file, a, b, c, SlotBuf(s), |s.log|);
  }

  lemma PushToNobody(s: State, t: Writing, w: Write, s': State)
    requires Inv(s) && Intact(s) && Next(s, Push(t, w), s')
    requires s.slot != Entry(s.writers[t].buf) && forall c | c in s.commits :: c.buf != s.writers[t].buf
    ensures !Intact(s')
  {
    var b := s.writers[t].buf;
    TakenElse(s.bufs, b, s'.bufs[b], s.commits);
    assert Waiting(s') == Waiting(s) && |UpTo(|s.log|)| != |UpTo(|s'.log|)|;
  }

  lemma LastAt(s: State, b: BufId, j: nat)
    requires Apart(s) && j < |s.commits| && s.commits[j].buf == b && s.slot != Entry(b)
    ensures LastBuf(s, b) <==> InHand(s.bufs, s.commits[j + 1..]) + SlotBuf(s) == []
  {
    assert forall i | 0 <= i < |s.commits| && s.commits[i].buf == b :: i == j;
  }

  lemma PushExactly(s: State, t: Writing, w: Write, s': State)
    requires Inv(s) && Intact(s) && Next(s, Push(t, w), s')
    ensures Intact(s') <==> !Loses(s, Push(t, w))
  {
    var b := s.writers[t].buf;
    if s.slot == Entry(b) {
      PushToSlot(s, t, w, s');
    } else if c :| c in s.commits && c.buf == b {
      var j :| 0 <= j < |s.commits| && s.commits[j] == c;
      PushToTaken(s, t, w, s', j);
      LastAt(s, b, j);
    } else {
      PushToNobody(s, t, w, s');
    }
  }

  lemma TakeInv(s: State, s': State)
    requires Inv(s) && Next(s, Take, s')
    ensures Inv(s')
  {}

  lemma TakeKeeps(s: State, s': State)
    requires Inv(s) && Intact(s) && Next(s, Take, s')
    ensures Inv(s') && Intact(s')
  {
    TakeInv(s, s');
    TakeWaits(s, s');
  }

  lemma TakeWaits(s: State, s': State)
    requires Next(s, Take, s')
    ensures Waiting(s') == Waiting(s)
  {
    if s.slot.Entry? {
      var c := Committing(s.slot.buf, Took);
      TakenConcat(s.bufs, s.commits, [c]);
      TakenOne(s.bufs, c);
      assert SlotBuf(s') == [];
    }
  }

  lemma CopyOfNothing(s: State, i: nat, s': State)
    requires Inv(s) && Next(s, Copy(i), s') && Buf(s.bufs, s.commits[i].buf) == []
    ensures Inv(s') && Waiting(s') == Waiting(s)
  {
    TakenWithoutEmpty(s.bufs, s.commits, i);
    WithoutInv(s, i, s');
  }

  /** A COMMIT that leaves. */
  lemma WithoutInv(s: State, i: nat, s': State)
    requires Apart(s) && i < |s.commits| && s'.commits == Without(s.commits, i) && s'.slot == s.slot
    ensures Apart(s') && forall c | c in s'.commits :: c in s.commits && c.buf != s.commits[i].buf
  {
    forall j | 0 <= j < |s'.commits| ensures s'.commits[j] == s.commits[if j < i then j else j + 1] {}
  }

  lemma CopyOfSome(s: State, i: nat, s': State)
    requires Inv(s) && Next(s, Copy(i), s') && Buf(s.bufs, s.commits[i].buf) != []
    ensures Inv(s') && Waiting(s') == Waiting(s)
  {
    TakenSame(s.bufs, s'.bufs, s.commits, s'.commits);
    CopiedApart(s, i, s');
    CopiedInv(s, i, s');
  }

  lemma CopiedApart(s: State, i: nat, s': State)
    requires Apart(s) && BufsKnown(s) && i < |s.commits|
    requires s' == s.(commits := s.commits[i := Committing(s.commits[i].buf, Copied(s.file))])
    ensures Apart(s') && BufsKnown(s')
  {
    forall c | c in s'.commits ensures exists j | 0 <= j < |s.commits| :: s.commits[j].buf == c.buf {
      var j :| 0 <= j < |s'.commits| && s'.commits[j] == c;
      assert s.commits[j].buf == c.buf;
    }
    forall j | 0 <= j < |s.commits| ensures s.commits[j] in s.commits {}
  }

  lemma CopiedInv(s: State, i: nat, s': State)
    requires Copies(s) && i < |s.commits| && Buf(s.bufs, s.commits[i].buf) != []
    requires s' == s.(commits := s.commits[i := Committing(s.commits[i].buf, Copied(s.file))])
    ensures Copies(s')
  {
    forall c | c in s'.commits && c.stage.Copied? ensures Buf(s'.bufs, c.buf) != [] && c.stage.copy <= s'.file {
      var j :| 0 <= j < |s'.commits| && s'.commits[j] == c;
      assert j != i ==> c in s.commits;
    }
  }

  lemma CopyKeeps(s: State, i: nat, s': State)
    requires Inv(s) && Intact(s) && Next(s, Copy(i), s')
    ensures Inv(s') && Intact(s')
  {
    if Buf(s.bufs, s.commits[i].buf) == [] {
      CopyOfNothing(s, i, s');
    } else {
      CopyOfSome(s, i, s');
    }
  }

  lemma Regroup(a: seq<nat>, b: seq<nat>, c: seq<nat>, d: seq<nat>)
    ensures a + b + c + d == a + b + (c + d) && a + c + d == a + (c + d)
  {}

  /** The lists of the writes that wait before, in and behind the buffer of a COMMIT. */
  lemma FinishLists(s: State, i: nat, ending: Ending, s': State)
    requires Inv(s) && Next(s, Finish(i, ending), s')
    ensures var a, b, c := InHand(s.bufs, s.commits[..i]), Buf(s.bufs, s.commits[i].buf),
      InHand(s.bufs, s.commits[i + 1..]) + SlotBuf(s);
      Waiting(s) == a + b + c && Waiting(s') == a + c
  {
    var b := s.commits[i].buf;
    TakenSplit(s.bufs, s.commits, i);
    TakenSplit(s'.bufs, s.commits, i);
    TakenElse(s.bufs, b, [], s.commits[..i]);
    TakenElse(s.bufs, b, [], s.commits[i + 1..]);
    assert s.commits[i] in s.commits && SlotBuf(s') == SlotBuf(s);
    Regroup(InHand(s.bufs, s.commits[..i]), Buf(s.bufs, b), InHand(s.bufs, s.commits[i + 1..]), SlotBuf(s));
  }

  lemma FinishExactly(s: State, i: nat, ending: Ending, s': State)
    requires Inv(s) && Intact(s) && Next(s, Finish(i, ending), s')
    ensures Intact(s') <==> !Loses(s, Finish(i, ending))
  {
    var a, b := InHand(s.bufs, s.commits[..i]), Buf(s.bufs, s.commits[i].buf);
    var c := InHand(s.bufs, s.commits[i + 1..]) + SlotBuf(s);
    FinishLists(s, i, ending, s');
    assert s.commits[i] in s.commits;
    if ending.InPlace? {
      Overtakes(s.file, s.commits[i].stage.copy, a, b, c, |s.log|);
    } else {
      assert |s.file + Waiting(s)| == |UpTo(|s.log|)|;
    }
  }

  lemma FinishKeeps(s: State, i: nat, ending: Ending, s': State)
    requires Inv(s) && Next(s, Finish(i, ending), s') && !Loses(s, Finish(i, ending))
    ensures Inv(s')
  {
    WithoutInv(s, i, s');
    assert s.commits[i] in s.commits;
  }

  /** One step of any WRITE or COMMIT keeps every acknowledged write, in order, exactly if it is not one
      of the steps that lose. */
  lemma StepIntactExactly(s: State, step: Step, s': State)
    requires Inv(s) && Intact(s) && Next(s, step, s')
    ensures Intact(s') <==> !Loses(s, step)
    ensures !Loses(s, step) ==> Inv(s')
  {
    match step
    case LookUp(_) =>
    case Insert(t) =>
      InsertExactly(s, t, s');
    case Push(t, w) =>
      PushKeeps(s, t, w, s');
      PushExactly(s, t, w, s');
    case Take =>
      TakeKeeps(s, s');
    case Copy(i) =>
      CopyKeeps(s, i, s');
    case Finish(i, ending) =>
      FinishExactly(s, i, ending, s');
      if !Loses(s, step) {
        FinishKeeps(s, i, ending, s');
      }
  }

  /** A COMMIT under way is the business of its own steps: it starts with a buffer in the table, and it ends
      when it finds its buffer empty, or in the end. */
  lemma CommitsEnd(s: State, step: Step, s': State)
    requires Next(s, step, s')
    ensures |s'.commits| == |s.commits| +
      match step
      case Take => if s.slot.Entry? then 1 else 0
      case Copy(i) => if Buf(s.bufs, s.commits[i].buf) == [] then -1 else 0
      case Finish(_, _) => -1
      case _ => 0
  {}

  // ---------- Runs ----------

  ghost predicate IsRun(states: seq<State>, steps: seq<Step>) {
    |states| == |steps| + 1 && forall i | 0 <= i < |steps| :: Next(states[i], steps[i], states[i + 1])
  }

  /** The server has started: no buffers, and nothing written in this life. */
  const START := State([], [], Free, map[], 0, map[], [])

  lemma {:induction false} IntactUpTo(states: seq<State>, steps: seq<Step>, i: nat)
    requires IsRun(states, steps) && states[0] == START && i < |states|
    requires forall j | 0 <= j < i :: !Loses(states[j], steps[j])
    ensures Inv(states[i]) && Intact(states[i])
  {
    if i == 0 {
      assert InHand(START.bufs, START.commits) == [];
    } else {
      IntactUpTo(states, steps, i - 1);
      assert Next(states[i - 1], steps[i - 1], states[i - 1 + 1]);
      StepIntactExactly(states[i - 1], steps[i - 1], states[i]);
    }
  }

  /** In every interleaving of WRITEs and COMMITs of a file: every acknowledged write is accounted for, in
      order, up to some state exactly if no step before it is one of those that lose. */
  lemma {:induction false} IntactExactly(states: seq<State>, steps: seq<Step>, n: nat)
    requires IsRun(states, steps) && states[0] == START && n < |states|
    ensures (forall i | 0 <= i <= n :: Intact(states[i])) <==> forall j | 0 <= j < n :: !Loses(states[j], steps[j])
  {
    if n == 0 {
      IntactUpTo(states, steps, 0);
    } else {
      IntactExactly(states, steps, n - 1);
      if forall j | 0 <= j < n - 1 :: !Loses(states[j], steps[j]) {
        LastStep(states, steps, n);
      }
    }
  }

  lemma LastStep(states: seq<State>, steps: seq<Step>, n: nat)
    requires IsRun(states, steps) && states[0] == START && 0 < n < |states|
    requires forall j | 0 <= j < n - 1 :: !Loses(states[j], steps[j])
    ensures Intact(states[n]) <==> !Loses(states[n - 1], steps[n - 1])
  {
    IntactUpTo(states, steps, n - 1);
    assert Next(states[n - 1], steps[n - 1], states[n - 1 + 1]);
    StepIntactExactly(states[n - 1], steps[n - 1], states[n]);
  }

  // ---------- What the file holds ----------

  predicate Given(s: State, xs: seq<nat>) {
    forall k | 0 <= k < |xs| :: xs[k] < |s.log|
  }

  function Pick(s: State, xs: seq<nat>): seq<Write>
    requires Given(s, xs)
  {
    seq(|xs|, k requires 0 <= k < |xs| => s.log[xs[k]])
  }

  /** The bytes of the file, which had these bytes when the server started. */
  function FileBytes(base: Bytes, s: State): Bytes
    requires Given(s, s.file)
  {
    ApplyAll(base, Pick(s, s.file))
  }

  lemma IntactGiven(s: State)
    requires Intact(s)
    ensures Given(s, s.file) && Pick(s, s.file) == s.log[..|s.file|]
  {
    forall k | 0 <= k < |s.file| ensures s.file[k] == k < |s.log| {
      assert (s.file + Waiting(s))[k] == UpTo(|s.log|)[k];
    }
  }

  /** When nothing has been lost and nothing waits, the file holds all acknowledged writes, in order; and
      in general those that have left the buffers. */
  lemma IntactIsDurable(base: Bytes, s: State)
    requires Intact(s)
    ensures Given(s, s.file) && |s.file| + |Waiting(s)| == |s.log|
    ensures FileBytes(base, s) == ApplyAll(base, s.log[..|s.log| - |Waiting(s)|])
  {
    IntactGiven(s);
    assert |s.file + Waiting(s)| == |UpTo(|s.log|)|;
  }

  /** The answer Ok of a COMMIT that finds nothing to write, with no other COMMIT under way. */
  predicate NothingToWrite(s: State, step: Step) {
    step.Take? && s.commits == [] && SlotBuf(s) == []
  }

  /** Over any number of COMMITs: one that answers Ok because it finds nothing to write speaks the truth if no
      step before it was one of those that lose. */
  lemma NothingIsDurable(states: seq<State>, steps: seq<Step>, n: nat, base: Bytes)
    requires IsRun(states, steps) && states[0] == START && n < |steps| && NothingToWrite(states[n], steps[n])
    requires forall j | 0 <= j < n :: !Loses(states[j], steps[j])
    ensures Given(states[n], states[n].file) && FileBytes(base, states[n]) == ApplyAll(base, states[n].log)
  {
    IntactUpTo(states, steps, n);
    IntactIsDurable(base, states[n]);
    assert Waiting(states[n]) == [];
    assert states[n].log[..|states[n].log|] == states[n].log;
  }

  // ---------- Runs that lose ----------

  ghost predicate RunTo(states: seq<State>, steps: seq<Step>, s: State) {
    IsRun(states, steps) && states[0] == START && states[|steps|] == s
  }

  lemma RunSnoc(states: seq<State>, steps: seq<Step>, s: State, step: Step, s': State)
    requires RunTo(states, steps, s) && Next(s, step, s')
    ensures RunTo(states + [s'], steps + [step], s')
  {}

  /** The first WRITE is acknowledged and lies in a buffer. */
  function OneBuffered(w: Write): State {
    State([], [w], Entry(0), map[0 := [0]], 1, map[], [])
  }

  lemma FirstWrite(w: Write) returns (states: seq<State>, steps: seq<Step>)
    ensures RunTo(states, steps, OneBuffered(w)) && steps == [LookUp(0), Insert(0), Push(0, w)]
  {
    var s1 := START.(writers := map[0 := Missed]);
    var s2 := s1.(slot := Entry(0), nextBuf := 1, writers := map[0 := Has(0)]);
    steps := [LookUp(0), Insert(0), Push(0, w)];
    states := [START, s1, s2, OneBuffered(w)];
    assert START.log + [w] == [w] && Buf(s2.bufs, 0) + [|s2.log|] == [0];
    assert s2.bufs[0 := [0]] == map[0 := [0]] && s2.writers - {0} == map[];
  }

  /** A COMMIT ends, in this way. */
  lemma ThenCommit(states: seq<State>, steps: seq<Step>, s: State, ending: Ending) returns (s': State)
    requires RunTo(states, steps, s) && s.slot.Entry? && s.commits == [] && SlotBuf(s) != []
    ensures exists states', steps' ::
      RunTo(states', steps', s') && steps' == steps + [Take] + [Copy(0)] + [Finish(0, ending)]
    ensures s' == s.(file := if ending.InPlace? then s.file + SlotBuf(s) else s.file,
                     slot := Free, bufs := s.bufs[s.slot.buf := []])
  {
    var b := s.slot.buf;
    var s1 := s.(slot := Free, commits := [Committing(b, Took)]);
    var s2 := s1.(commits := [Committing(b, Copied(s.file))]);
    s' := s.(file := if ending.InPlace? then s.file + SlotBuf(s) else s.file, slot := Free, bufs := s.bufs[b := []]);
    assert s.commits + [Committing(b, Took)] == [Committing(b, Took)];
    assert s1.commits[0 := Committing(b, Copied(s.file))] == s2.commits && Without(s2.commits, 0) == [];
    RunSnoc(states, steps, s, Take, s1);
    RunSnoc(states + [s1], steps + [Take], s1, Copy(0), s2);
    RunSnoc(states + [s1] + [s2], steps + [Take] + [Copy(0)], s2, Finish(0, ending), s');
  }

  /** A COMMIT that does not get its writes into the file answers Ok or with an error; the next one finds
      nothing to write and answers Ok, and the acknowledged write is nowhere. */
  lemma OkTheSecondTime(w: Write, ending: Ending) returns (states: seq<State>, steps: seq<Step>, s: State)
    requires !ending.InPlace?
    ensures RunTo(states, steps, s) && steps == [LookUp(0), Insert(0), Push(0, w), Take, Copy(0), Finish(0, ending)]
    ensures NothingToWrite(s, Take) && Next(s, Take, s) && s.log == [w] && s.file == [] && !Intact(s)
  {
    states, steps := FirstWrite(w);
    s := ThenCommit(states, steps, OneBuffered(w), ending);
    states, steps :| RunTo(states, steps, s) &&
      steps == [LookUp(0), Insert(0), Push(0, w)] + [Take] + [Copy(0)] + [Finish(0, ending)];
    assert |s.file + Waiting(s)| == 0;
  }

  /** A WRITE has looked up the buffer; a COMMIT takes and writes it; then the WRITE is put into it and
      acknowledged, and no COMMIT will ever see it. */
  lemma PushTooLate(w: Write, late: Write) returns (states: seq<State>, steps: seq<Step>, s: State)
    ensures RunTo(states, steps, s) &&
      steps == [LookUp(0), Insert(0), Push(0, w), LookUp(1), Take, Copy(0), Finish(0, InPlace), Push(1, late)]
    ensures NothingToWrite(s, Take) && s.log == [w, late] && s.file == [0] && !Intact(s)
  {
    states, steps := FirstWrite(w);
    var s1 := OneBuffered(w).(writers := map[1 := Has(0)]);
    RunSnoc(states, steps, OneBuffered(w), LookUp(1), s1);
    var s2 := ThenCommit(states + [s1], steps + [LookUp(1)], s1, InPlace);
    states, steps :| RunTo(states, steps, s2) &&
      steps == [LookUp(0), Insert(0), Push(0, w)] + [LookUp(1)] + [Take] + [Copy(0)] + [Finish(0, InPlace)];
    s := s2.(log := [w, late], bufs := s2.bufs[0 := [1]], writers := map[]);
    assert s2.log + [late] == s.log && Buf(s2.bufs, 0) + [|s2.log|] == [1] && s2.writers - {1} == map[];
    RunSnoc(states, steps, s2, Push(1, late), s);
    states, steps := states + [s], steps + [Push(1, late)];
    assert |s.file + Waiting(s)| == 1;
  }

  /** Two WRITEs find no buffer; the first makes one, is put into it and acknowledged; the second replaces it. */
  lemma TwoFirstWrites(w: Write) returns (states: seq<State>, steps: seq<Step>, s: State)
    ensures RunTo(states, steps, s) && steps == [LookUp(0), LookUp(1), Insert(0), Push(0, w), Insert(1)]
    ensures NothingToWrite(s, Take) && s.log == [w] && s.file == [] && !Intact(s)
  {
    var s1 := START.(writers := map[0 := Missed]);
    var s2 := START.(writers := map[0 := Missed, 1 := Missed]);
    var s3 := s2.(slot := Entry(0), nextBuf := 1, writers := map[0 := Has(0), 1 := Missed]);
    var s4 := OneBuffered(w).(writers := map[1 := Missed]);
    s := s4.(slot := Entry(1), nextBuf := 2, writers := map[1 := Has(1)]);
    assert START.log + [w] == [w] && Buf(s3.bufs, 0) + [|s3.log|] == [0] && s3.bufs[0 := [0]] == map[0 := [0]];
    assert s3.writers - {0} == map[1 := Missed];
    steps := [LookUp(0), LookUp(1), Insert(0), Push(0, w), Insert(1)];
    states := [START, s1, s2, s3, s4, s];
    assert |s.file + Waiting(s)| == 0;
  }

  /** The ending of a COMMIT on the disk that it shares with the operations on names. */
  function EndingOf(o: SharedDisk.CommitEnd): Ending
    requires !o.NoFile?
  {
    if o.InPlace? then InPlace else if o.Beside? then Beside else Error
  }

  /** A directory above the file is moved before the COMMIT copies the file: the COMMIT fails, the
      next one answers Ok, and the write is lost. */
  lemma MovedAncestorLoses(
      d: N.Disk, f: Fid, w: Write, g: Fid, od: Fid, on: N.Name, nd: Fid, nn: N.Name)
    returns (states: seq<State>, steps: seq<Step>, s: State)
    requires N.Rooted(d) && SharedDisk.IsFile(d, f) && N.Live(d, f) && Crash.Renamable(d, g, od, on, nd, nn)
    requires g in N.PathTo(d, f) && g != f && od != nd
    ensures var o := SharedDisk.CommitThrough(d, f, [w], Crash.RenamePlan(g, od, on, nd, nn), []);
      && !o.NoFile?
      && RunTo(states, steps, s) && steps == [LookUp(0), Insert(0), Push(0, w), Take, Copy(0), Finish(0, EndingOf(o))]
    ensures NothingToWrite(s, Take) && Next(s, Take, s) && s.log == [w] && s.file == []
  {
    SharedDisk.AncestorBetween(d, f, [w], g, od, on, nd, nn);
    states, steps, s := OkTheSecondTime(w, Error);
  }
}
