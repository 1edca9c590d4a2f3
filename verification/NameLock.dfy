/** Concurrent CREATE, MKDIR, RENAME and REMOVE over one disk: the name lock keeps every name
    of a directory with at most one live file, in every interleaving. */
module NameLock {
  import opened Content
  import opened Namespace
  import opened CrashAtomicity

  type Tid = nat

  /** Where a thread is: before the lock; locked; the name was free; half way through
      publishing; published; lock released, cleaning up. */
  datatype Pc = Start | Locked | Checked | Half(fid: Fid) | Published | Released

  datatype Op =
    | MakeOp(dir: Fid, name: Name, node: Node, pc: Pc)
    | RenameOp(f: Fid, od: Fid, on: Name, nd: Fid, nn: Name, pc: Pc)

  datatype State = State(disk: Disk, next: Fid, lock: set<(Fid, Name)>, ops: map<Tid, Op>)

  function Key(op: Op): (Fid, Name) {
    if op.MakeOp? then (op.dir, op.name) else (op.nd, op.nn)
  }

  predicate Holding(op: Op) {
    op.pc.Locked? || op.pc.Checked? || op.pc.Half? || op.pc.Published?
  }

  /** The file whose name the thread is about to publish; none before there is one. */
  predicate Owns(op: Op, f: Fid) {
    op.pc.Half? && op.pc.fid == f
  }

  datatype Step =
    | Begin(t: Tid, op: Op)
    | TakeLock(t: Tid)
    | CheckName(t: Tid)
    | AddNumberedFile(t: Tid)
    | AddNamedFile(t: Tid)
    | MoveFile(t: Tid)
    | Unlock(t: Tid)
    | DropOldName(t: Tid)
    | RemoveNumbered(x: Named)
    | RemoveNamed(x: Named)

  function With(s: State, t: Tid, pc: Pc): State
    requires t in s.ops
  {
    s.(ops := s.ops[t := s.ops[t].(pc := pc)])
  }

  function Gone(s: State, t: Tid): State {
    s.(ops := s.ops - {t})
  }

  /** A new request: at most one rename in flight per file, and no directory is moved. */
  predicate MayBegin(s: State, op: Op) {
    && op.pc.Start?
    && (op.RenameOp? ==>
          && Paired(s.disk, Named(op.od, op.f, op.on)) && !IsDir(s.disk, op.f)
          && forall u | u in s.ops && s.ops[u].RenameOp? :: s.ops[u].f != op.f)
  }

  predicate Next(s: State, step: Step, s': State) {
    match step
    case Begin(t, op) => t !in s.ops && MayBegin(s, op) && s' == s.(ops := s.ops[t := op])
    case TakeLock(t) =>
      && t in s.ops && s.ops[t].pc.Start?
      && s' == if Key(s.ops[t]) in s.lock then Gone(s, t) else With(s, t, Locked).(lock := s.lock + {Key(s.ops[t])})
    case CheckName(t) =>
      && t in s.ops && s.ops[t].pc.Locked?
      && var (dir, name) := Key(s.ops[t]);
      s' == if Taken(s.disk, dir, name) then Gone(s, t).(lock := s.lock - {(dir, name)}) else With(s, t, Checked)
    case AddNumberedFile(t) =>
      && t in s.ops && s.ops[t].MakeOp? && s.ops[t].pc.Checked?
      && s' == With(s, t, Half(s.next)).(disk := Do(s.disk, AddNumbered(s.next, s.ops[t].dir, s.ops[t].node)),
           next := s.next + 1)
    case AddNamedFile(t) =>
      && t in s.ops
      && var op := s.ops[t];
      if op.MakeOp? then
        op.pc.Half? && s' == With(s, t, Published).(disk := Do(s.disk, AddNamed(Named(op.dir, op.pc.fid, op.name))))
      else
        op.pc.Checked? && s' == With(s, t, Half(op.f)).(disk := Do(s.disk, AddNamed(Named(op.nd, op.f, op.nn))))
    case MoveFile(t) =>
      && t in s.ops && s.ops[t].RenameOp? && s.ops[t].pc.Half?
      && s' == With(s, t, Published).(disk := Do(s.disk, Move(s.ops[t].f, s.ops[t].nd)))
    case Unlock(t) =>
      && t in s.ops && s.ops[t].pc.Published?
      && s' == (if s.ops[t].MakeOp? then Gone(s, t) else With(s, t, Released)).(lock := s.lock - {Key(s.ops[t])})
    case DropOldName(t) =>
      && t in s.ops && s.ops[t].RenameOp? && s.ops[t].pc.Released?
      && s' == Gone(s, t).(disk := Do(s.disk, DelNamed(Named(s.ops[t].od, s.ops[t].f, s.ops[t].on))))
    case RemoveNumbered(x) =>
      && Paired(s.disk, x) && !IsDir(s.disk, x.fid)
      && (forall u | u in s.ops && s.ops[u].RenameOp? :: s.ops[u].f != x.fid)
      && s' == s.(disk := Do(s.disk, DelNumbered(x.fid)))
    case RemoveNamed(x) =>
      x.fid !in s.disk.objs && s' == s.(disk := Do(s.disk, DelNamed(x)))
  }

  // ---------- The invariant ----------

  /** The unpaired named files that a rename in flight accounts for. */
  predicate Temporary(op: Op, x: Named) {
    && op.RenameOp?
    && ((op.pc.Half? && x == Named(op.nd, op.f, op.nn))
        || ((op.pc.Published? || op.pc.Released?) && x == Named(op.od, op.f, op.on)))
  }

  /** No junk: a named file without its partner is a rename's temporary, or its file is gone. */
  ghost predicate Clean(s: State) {
    forall x | x in s.disk.names && x.fid in s.disk.objs && !Paired(s.disk, x) ::
      exists t | t in s.ops :: Temporary(s.ops[t], x)
  }

  predicate Locks(s: State) {
    && (forall t | t in s.ops && Holding(s.ops[t]) :: Key(s.ops[t]) in s.lock)
    && (forall t, u | t in s.ops && u in s.ops && t != u && Holding(s.ops[t]) && Holding(s.ops[u]) ::
          Key(s.ops[t]) != Key(s.ops[u]))
  }

  /** Between check and publication the name belongs to nobody but the thread's own file. */
  ghost predicate NamesFree(s: State) {
    forall t, x | t in s.ops && (s.ops[t].pc.Checked? || s.ops[t].pc.Half?) && Paired(s.disk, x) &&
      (x.dir, x.name) == Key(s.ops[t]) ::
      Owns(s.ops[t], x.fid)
  }

  predicate Fresh(s: State) {
    (forall f | f in s.disk.objs :: f < s.next) && (forall x | x in s.disk.names :: x.fid < s.next)
  }

  /** A file under construction is in its directory and has no name, and is nobody else's. */
  predicate Makes(s: State) {
    && (forall t | t in s.ops && s.ops[t].MakeOp? && s.ops[t].pc.Half? ::
          && s.ops[t].pc.fid in s.disk.objs && s.disk.objs[s.ops[t].pc.fid].parent == s.ops[t].dir
          && forall x | x in s.disk.names :: x.fid != s.ops[t].pc.fid)
    && (forall t, u | t in s.ops && u in s.ops && t != u && s.ops[t].MakeOp? && s.ops[u].MakeOp? &&
          s.ops[t].pc.Half? && s.ops[u].pc.Half? ::
          s.ops[t].pc.fid != s.ops[u].pc.fid)
  }

  predicate RenameStage(d: Disk, op: Op)
    requires op.RenameOp?
  {
    && op.f in d.objs
    && (op.pc.Half? ==> op.pc.fid == op.f && Named(op.nd, op.f, op.nn) in d.names)
    && if op.pc.Published? || op.pc.Released? then d.objs[op.f].parent == op.nd && Named(op.nd, op.f, op.nn) in d.names
       else Paired(d, Named(op.od, op.f, op.on))
  }

  predicate Renames(s: State) {
    && (forall t | t in s.ops && s.ops[t].RenameOp? :: RenameStage(s.disk, s.ops[t]))
    && (forall t, u | t in s.ops && u in s.ops && t != u && s.ops[t].RenameOp? && s.ops[u].RenameOp? ::
          s.ops[t].f != s.ops[u].f)
  }

  /** A rename inside one directory, between publishing the new name and dropping the old. */
  predicate SameDir(op: Op, x: Named) {
    && op.RenameOp? && op.od == op.nd && (op.pc.Half? || op.pc.Published? || op.pc.Released?)
    && (x == Named(op.od, op.f, op.on) || x == Named(op.nd, op.f, op.nn))
  }

  /** A file shows one name, except while a rename inside its directory is under way. */
  ghost predicate OneName(s: State) {
    forall x, y | Paired(s.disk, x) && Paired(s.disk, y) && x.fid == y.fid && x != y ::
      exists t | t in s.ops :: SameDir(s.ops[t], x) && SameDir(s.ops[t], y)
  }

  ghost predicate Inv(s: State) {
    UniqueNames(s.disk) && Locks(s) && NamesFree(s) && Clean(s) && Fresh(s) && Makes(s) && Renames(s) && OneName(s)
  }

  /** Clean and OneName survive a step that keeps the paired names and the temporaries. */
  lemma JunkKept(s: State, s': State)
    requires Clean(s) && OneName(s)
    requires forall x | x in s'.disk.names && x.fid in s'.disk.objs :: x in s.disk.names && x.fid in s.disk.objs
    requires forall x | x in s'.disk.names && x.fid in s'.disk.objs :: Paired(s'.disk, x) <==> Paired(s.disk, x)
    requires forall u, x | u in s.ops && x in s'.disk.names && x.fid in s'.disk.objs &&
      (Temporary(s.ops[u], x) || SameDir(s.ops[u], x)) ::
      u in s'.ops && (Temporary(s.ops[u], x) ==> Temporary(s'.ops[u], x)) &&
        (SameDir(s.ops[u], x) ==> SameDir(s'.ops[u], x))
    ensures Clean(s') && OneName(s')
  {
    forall x | x in s'.disk.names && x.fid in s'.disk.objs && !Paired(s'.disk, x)
      ensures exists u | u in s'.ops :: Temporary(s'.ops[u], x)
    {
      var u :| u in s.ops && Temporary(s.ops[u], x);
      assert Temporary(s'.ops[u], x);
    }
    forall x, y | Paired(s'.disk, x) && Paired(s'.disk, y) && x.fid == y.fid && x != y
      ensures exists u | u in s'.ops :: SameDir(s'.ops[u], x) && SameDir(s'.ops[u], y)
    {
      var u :| u in s.ops && SameDir(s.ops[u], x) && SameDir(s.ops[u], y);
      assert SameDir(s'.ops[u], x) && SameDir(s'.ops[u], y);
    }
  }

  lemma BeginKeeps(s: State, t: Tid, op: Op, s': State)
    requires Inv(s) && Next(s, Begin(t, op), s')
    ensures Inv(s')
  {
    LocksKept(s, Begin(t, op), s');
    BeginRenames(s, t, op, s');
    BeginJunk(s, t, op, s');
  }

  lemma BeginRenames(s: State, t: Tid, op: Op, s': State)
    requires Renames(s) && Next(s, Begin(t, op), s')
    ensures Renames(s')
  {}

  lemma BeginJunk(s: State, t: Tid, op: Op, s': State)
    requires Clean(s) && OneName(s) && Next(s, Begin(t, op), s')
    ensures Clean(s') && OneName(s')
  {
    JunkKept(s, s');
  }

  /** The lock works: the names held by threads are in it, each by one thread. */
  lemma LocksKept(s: State, step: Step, s': State)
    requires Locks(s) && Next(s, step, s')
    ensures Locks(s')
  {}

  /** No name is locked for nobody. */
  predicate NoLeaks(s: State) {
    forall k | k in s.lock :: exists t | t in s.ops :: Holding(s.ops[t]) && Key(s.ops[t]) == k
  }

  /** A step takes from the lock just what its own thread gives up. */
  lemma NoLeaksKept(s: State, step: Step, s': State)
    requires Locks(s) && NoLeaks(s) && Next(s, step, s')
    ensures NoLeaks(s')
  {
    forall k | k in s'.lock ensures exists t | t in s'.ops :: Holding(s'.ops[t]) && Key(s'.ops[t]) == k {
      if k in s.lock {
        var t :| t in s.ops && Holding(s.ops[t]) && Key(s.ops[t]) == k;
        assert t in s'.ops && Holding(s'.ops[t]) && Key(s'.ops[t]) == k;
      } else {
        assert Holding(s'.ops[step.t]) && Key(s'.ops[step.t]) == k;
      }
    }
  }

  /** Publishing works: afterwards the thread's file is there under the name that it holds. */
  lemma Publishes(s: State, step: Step, s': State)
    requires Makes(s) && Renames(s) && Next(s, step, s')
    requires step.MoveFile? || (step.AddNamedFile? && s.ops[step.t].MakeOp?)
    ensures var op := s.ops[step.t];
      var f := if op.MakeOp? then op.pc.fid else op.f;
      && s'.ops[step.t].pc.Published? && Paired(s'.disk, Named(Key(op).0, f, Key(op).1))
  {
    var op := s.ops[step.t];
    assert op.RenameOp? ==> RenameStage(s.disk, op);
    var f := if op.MakeOp? then op.pc.fid else op.f;
    assert Paired(s'.disk, Named(Key(op).0, f, Key(op).1));
  }

  predicate IsLockStep(step: Step) {
    step.TakeLock? || step.CheckName? || step.Unlock?
  }

  lemma LockStepNames(s: State, step: Step, s': State)
    requires NamesFree(s) && Next(s, step, s') && IsLockStep(step)
    ensures NamesFree(s')
  {}

  lemma LockStepMakes(s: State, step: Step, s': State)
    requires Makes(s) && Next(s, step, s') && IsLockStep(step)
    ensures Makes(s')
  {}

  lemma LockStepRenames(s: State, step: Step, s': State)
    requires Renames(s) && Next(s, step, s') && IsLockStep(step)
    ensures Renames(s')
  {}

  lemma LockStepJunk(s: State, step: Step, s': State)
    requires Clean(s) && OneName(s) && Next(s, step, s') && IsLockStep(step)
    ensures Clean(s') && OneName(s')
  {
    JunkKept(s, s');
  }

  lemma LockStepKeeps(s: State, step: Step, s': State)
    requires Inv(s) && Next(s, step, s') && IsLockStep(step)
    ensures Inv(s')
  {
    LocksKept(s, step, s');
    LockStepNames(s, step, s');
    LockStepMakes(s, step, s');
    LockStepRenames(s, step, s');
    LockStepJunk(s, step, s');
  }

  lemma AddNumberedPairs(s: State, t: Tid, s': State)
    requires Fresh(s) && Next(s, AddNumberedFile(t), s')
    ensures forall x: Named :: Paired(s'.disk, x) <==> Paired(s.disk, x)
    ensures Fresh(s')
  {}

  lemma AddNumberedNames(s: State, t: Tid, s': State)
    requires Fresh(s) && NamesFree(s) && UniqueNames(s.disk) && Next(s, AddNumberedFile(t), s')
    ensures NamesFree(s') && UniqueNames(s'.disk)
  {
    AddNumberedPairs(s, t, s');
  }

  lemma AddNumberedMakes(s: State, t: Tid, s': State)
    requires Fresh(s) && Makes(s) && Next(s, AddNumberedFile(t), s')
    ensures Makes(s')
  {}

  lemma AddNumberedRenames(s: State, t: Tid, s': State)
    requires Fresh(s) && Renames(s) && Next(s, AddNumberedFile(t), s')
    ensures Renames(s')
  {
    AddNumberedPairs(s, t, s');
  }

  lemma AddNumberedKeeps(s: State, t: Tid, s': State)
    requires Inv(s) && Next(s, AddNumberedFile(t), s')
    ensures Inv(s')
  {
    LocksKept(s, AddNumberedFile(t), s');
    AddNumberedNames(s, t, s');
    AddNumberedMakes(s, t, s');
    AddNumberedRenames(s, t, s');
    AddNumberedPairs(s, t, s');
    JunkKept(s, s');
  }

  function NewName(op: Op): Named
    requires op.MakeOp? ==> op.pc.Half?
  {
    if op.MakeOp? then Named(op.dir, op.pc.fid, op.name) else Named(op.nd, op.f, op.nn)
  }

  /** Publishing a name, or preparing to: the new named file is the only change on disk. */
  lemma AddNamedPairs(s: State, t: Tid, s': State)
    requires Next(s, AddNamedFile(t), s')
    ensures var n := NewName(s.ops[t]);
      && (n.dir, n.name) == Key(s.ops[t])
      && (forall x: Named :: Paired(s'.disk, x) ==> Paired(s.disk, x) || x == n)
      && (forall x: Named :: Paired(s.disk, x) ==> Paired(s'.disk, x))
  {}

  lemma AddNamedNames(s: State, t: Tid, s': State)
    requires UniqueNames(s.disk) && NamesFree(s) && Locks(s) && Makes(s) && Next(s, AddNamedFile(t), s')
    ensures UniqueNames(s'.disk) && NamesFree(s')
  {
    AddNamedPairs(s, t, s');
  }

  lemma AddNamedMakes(s: State, t: Tid, s': State)
    requires Makes(s) && Renames(s) && Fresh(s) && Next(s, AddNamedFile(t), s')
    ensures Makes(s') && Fresh(s')
  {}

  lemma AddNamedRenames(s: State, t: Tid, s': State)
    requires Renames(s) && Next(s, AddNamedFile(t), s')
    ensures Renames(s')
  {
    AddNamedPairs(s, t, s');
  }

  lemma AddNamedKeeps(s: State, t: Tid, s': State)
    requires Inv(s) && Next(s, AddNamedFile(t), s')
    ensures Inv(s')
  {
    LocksKept(s, AddNamedFile(t), s');
    AddNamedNames(s, t, s');
    AddNamedMakes(s, t, s');
    AddNamedRenames(s, t, s');
    AddNamedClean(s, t, s');
    AddNamedOne(s, t, s');
  }

  lemma AddNamedClean(s: State, t: Tid, s': State)
    requires Clean(s) && Makes(s) && Next(s, AddNamedFile(t), s')
    ensures Clean(s')
  {
    AddNamedPairs(s, t, s');
    forall x | x in s'.disk.names && x.fid in s'.disk.objs && !Paired(s'.disk, x)
      ensures exists u | u in s'.ops :: Temporary(s'.ops[u], x)
    {
      if x == NewName(s.ops[t]) {
        assert Temporary(s'.ops[t], x);
      } else {
        var u :| u in s.ops && Temporary(s.ops[u], x);
        assert Temporary(s'.ops[u], x);
      }
    }
  }

  lemma AddNamedOne(s: State, t: Tid, s': State)
    requires Inv(s) && Next(s, AddNamedFile(t), s')
    ensures OneName(s')
  {
    AddNamedPairs(s, t, s');
    var n := NewName(s.ops[t]);
    forall x, y | Paired(s'.disk, x) && Paired(s'.disk, y) && x.fid == y.fid && x != y
      ensures exists u | u in s'.ops :: SameDir(s'.ops[u], x) && SameDir(s'.ops[u], y)
    {
      if x == n || y == n {
        NewBeside(s, t, s', if x == n then y else x);
        assert SameDir(s'.ops[t], x) && SameDir(s'.ops[t], y);
      } else {
        OtherSameDir(s, t, x, y);
        var u :| u in s.ops && u != t && SameDir(s.ops[u], x) && SameDir(s.ops[u], y);
        assert SameDir(s'.ops[u], x) && SameDir(s'.ops[u], y);
      }
    }
  }

  lemma NewBeside(s: State, t: Tid, s': State, y: Named)
    requires Inv(s) && Next(s, AddNamedFile(t), s')
    requires var n := NewName(s.ops[t]); y.fid == n.fid && y != n && Paired(s'.disk, y) && Paired(s'.disk, n)
    ensures SameDir(s'.ops[t], NewName(s.ops[t])) && SameDir(s'.ops[t], y)
  {
    AddNamedPairs(s, t, s');
    PublishedBeside(s, t, y);
  }

  lemma OtherSameDir(s: State, t: Tid, x: Named, y: Named)
    requires OneName(s) && t in s.ops && (s.ops[t].MakeOp? || !s.ops[t].pc.Half?)
    requires s.ops[t].RenameOp? ==> s.ops[t].pc.Checked?
    requires Paired(s.disk, x) && Paired(s.disk, y) && x.fid == y.fid && x != y
    ensures exists u | u in s.ops && u != t :: SameDir(s.ops[u], x) && SameDir(s.ops[u], y)
  {
    var u :| u in s.ops && SameDir(s.ops[u], x) && SameDir(s.ops[u], y);
    assert u != t;
  }

  /** The only name a file shows when a rename is about to publish another one is the old name. */
  lemma PublishedBeside(s: State, t: Tid, y: Named)
    requires Inv(s) && t in s.ops && Paired(s.disk, y)
    requires var op := s.ops[t];
      if op.MakeOp? then op.pc.Half? && y.fid == op.pc.fid
      else !op.pc.Half? && !op.pc.Published? && !op.pc.Released? && y.fid == op.f
    ensures s.ops[t].RenameOp? && y == Named(s.ops[t].od, s.ops[t].f, s.ops[t].on)
  {
    var op := s.ops[t];
    assert op.RenameOp? ==> RenameStage(s.disk, op);
  }

  lemma MoveKeeps(s: State, t: Tid, s': State)
    requires Inv(s) && Next(s, MoveFile(t), s')
    ensures Inv(s')
  {
    LocksKept(s, MoveFile(t), s');
    if s.ops[t].od == s.ops[t].nd {
      MoveWithin(s, t, s');
    } else {
      MovedNames(s, t, s');
      MoveAway(s, t, s');
      MoveKeepsJunk(s, t, s');
    }
  }

  lemma MoveWithin(s: State, t: Tid, s': State)
    requires Inv(s) && Next(s, MoveFile(t), s') && s.ops[t].od == s.ops[t].nd
    ensures UniqueNames(s'.disk) && NamesFree(s') && Fresh(s') && Makes(s') && Renames(s') && Clean(s') && OneName(s')
  {
    assert RenameStage(s.disk, s.ops[t]);
    assert s'.disk == s.disk;
    MoveWithinJunk(s, t, s');
  }

  /** Inside one directory both names of the file are paired, so neither is a temporary. */
  lemma MoveWithinJunk(s: State, t: Tid, s': State)
    requires Clean(s) && OneName(s) && Next(s, MoveFile(t), s') && s.ops[t].od == s.ops[t].nd
    requires RenameStage(s.disk, s.ops[t]) && s'.disk == s.disk
    ensures Clean(s') && OneName(s')
  {
    forall x | x in s'.disk.names && x.fid in s'.disk.objs && !Paired(s'.disk, x)
      ensures exists u | u in s'.ops :: Temporary(s'.ops[u], x)
    {
      var u :| u in s.ops && Temporary(s.ops[u], x);
      assert u != t && Temporary(s'.ops[u], x);
    }
    forall x, y | Paired(s'.disk, x) && Paired(s'.disk, y) && x.fid == y.fid && x != y
      ensures exists u | u in s'.ops :: SameDir(s'.ops[u], x) && SameDir(s'.ops[u], y)
    {
      var u :| u in s.ops && SameDir(s.ops[u], x) && SameDir(s.ops[u], y);
      assert SameDir(s'.ops[u], x) && SameDir(s'.ops[u], y);
    }
  }

  lemma MoveAway(s: State, t: Tid, s': State)
    requires Inv(s) && Next(s, MoveFile(t), s') && s.ops[t].od != s.ops[t].nd
    ensures UniqueNames(s'.disk) && NamesFree(s') && Fresh(s') && Makes(s') && Renames(s')
  {
    MoveAwayNames(s, t, s');
    MoveAwayOps(s, t, s');
  }

  lemma MoveAwayNames(s: State, t: Tid, s': State)
    requires Inv(s) && Next(s, MoveFile(t), s') && s.ops[t].od != s.ops[t].nd
    ensures UniqueNames(s'.disk) && NamesFree(s')
  {
    MovedNames(s, t, s');
    var n := NewName(s.ops[t]);
    assert (n.dir, n.name) == Key(s.ops[t]) && RenameStage(s.disk, s.ops[t]);
  }

  lemma MoveAwayOps(s: State, t: Tid, s': State)
    requires Inv(s) && Next(s, MoveFile(t), s') && s.ops[t].od != s.ops[t].nd
    ensures Fresh(s') && Makes(s') && Renames(s')
  {
    MovedNames(s, t, s');
    assert RenameStage(s.disk, s.ops[t]);
  }

  /** After a move to another directory the file shows exactly its new name. */
  lemma MovedNames(s: State, t: Tid, s': State)
    requires Inv(s) && Next(s, MoveFile(t), s') && s.ops[t].od != s.ops[t].nd
    ensures forall x: Named :: Paired(s'.disk, x) <==>
      if x.fid == s.ops[t].f then x == Named(s.ops[t].nd, s.ops[t].f, s.ops[t].nn) else Paired(s.disk, x)
  {
    var op := s.ops[t];
    forall x: Named | x.fid == op.f && Paired(s'.disk, x) ensures x == Named(op.nd, op.f, op.nn) {
      assert !Paired(s.disk, x);
      var u :| u in s.ops && Temporary(s.ops[u], x);
      assert s.ops[u].f == op.f;
    }
  }

  lemma MoveKeepsJunk(s: State, t: Tid, s': State)
    requires Inv(s) && Next(s, MoveFile(t), s') && s.ops[t].od != s.ops[t].nd
    ensures Clean(s') && OneName(s')
  {
    MovedNames(s, t, s');
    forall x | x in s.disk.names && x.fid == s.ops[t].f
      ensures x == Named(s.ops[t].od, s.ops[t].f, s.ops[t].on) || x == Named(s.ops[t].nd, s.ops[t].f, s.ops[t].nn)
    {
      OldNameOnly(s, t, x);
    }
    MoveAwayClean(s, t, s');
    MoveAwayOne(s, t, s');
  }

  /** The file's names, as MovedNames and OldNameOnly describe them. */
  ghost predicate Relocated(s: State, t: Tid, s': State)
    requires t in s.ops && s.ops[t].RenameOp?
  {
    var op := s.ops[t];
    && (forall x: Named :: Paired(s'.disk, x) <==>
          if x.fid == op.f then x == Named(op.nd, op.f, op.nn) else Paired(s.disk, x))
    && (forall x | x in s.disk.names && x.fid == op.f ::
          x == Named(op.od, op.f, op.on) || x == Named(op.nd, op.f, op.nn))
  }

  lemma MoveAwayClean(s: State, t: Tid, s': State)
    requires Clean(s) && Next(s, MoveFile(t), s') && Relocated(s, t, s')
    ensures Clean(s')
  {
    var op := s.ops[t];
    forall x | x in s'.disk.names && x.fid in s'.disk.objs && !Paired(s'.disk, x)
      ensures exists u | u in s'.ops :: Temporary(s'.ops[u], x)
    {
      if x.fid == op.f {
        assert Temporary(s'.ops[t], x);
      } else {
        var u :| u in s.ops && Temporary(s.ops[u], x);
        assert Temporary(s'.ops[u], x);
      }
    }
  }

  lemma MoveAwayOne(s: State, t: Tid, s': State)
    requires OneName(s) && Next(s, MoveFile(t), s') && Relocated(s, t, s')
    ensures OneName(s')
  {
    forall x, y | Paired(s'.disk, x) && Paired(s'.disk, y) && x.fid == y.fid && x != y
      ensures exists u | u in s'.ops :: SameDir(s'.ops[u], x) && SameDir(s'.ops[u], y)
    {
      var u :| u in s.ops && SameDir(s.ops[u], x) && SameDir(s.ops[u], y);
      assert SameDir(s'.ops[u], x) && SameDir(s'.ops[u], y);
    }
  }

  /** The named files of a file half way to another directory: the old name and the new. */
  lemma OldNameOnly(s: State, t: Tid, x: Named)
    requires Inv(s) && t in s.ops && s.ops[t].RenameOp? && s.ops[t].pc.Half? && s.ops[t].od != s.ops[t].nd
    requires x in s.disk.names && x.fid == s.ops[t].f
    ensures x == Named(s.ops[t].od, s.ops[t].f, s.ops[t].on) || x == Named(s.ops[t].nd, s.ops[t].f, s.ops[t].nn)
  {
    var op := s.ops[t];
    var o := Named(op.od, op.f, op.on);
    assert RenameStage(s.disk, op);
    if !Paired(s.disk, x) {
      var u :| u in s.ops && Temporary(s.ops[u], x);
      assert s.ops[u].f == op.f;
    }
  }

  lemma DropOldKeeps(s: State, t: Tid, s': State)
    requires Inv(s) && Next(s, DropOldName(t), s')
    ensures Inv(s')
  {
    LocksKept(s, DropOldName(t), s');
    DropOldRest(s, t, s');
    DropOldJunk(s, t, s');
  }

  lemma DropOldRest(s: State, t: Tid, s': State)
    requires Inv(s) && Next(s, DropOldName(t), s')
    ensures UniqueNames(s'.disk) && NamesFree(s') && Fresh(s') && Makes(s') && Renames(s')
  {
    var o := Named(s.ops[t].od, s.ops[t].f, s.ops[t].on);
    assert forall x: Named :: Paired(s'.disk, x) <==> Paired(s.disk, x) && x != o;
  }

  lemma DropOldJunk(s: State, t: Tid, s': State)
    requires Clean(s) && OneName(s) && Next(s, DropOldName(t), s')
    ensures Clean(s') && OneName(s')
  {
    var o := Named(s.ops[t].od, s.ops[t].f, s.ops[t].on);
    assert forall x: Named :: Paired(s'.disk, x) <==> Paired(s.disk, x) && x != o;
    forall x | x in s'.disk.names && x.fid in s'.disk.objs && !Paired(s'.disk, x)
      ensures exists u | u in s'.ops :: Temporary(s'.ops[u], x)
    {
      var u :| u in s.ops && Temporary(s.ops[u], x);
      assert u != t && Temporary(s'.ops[u], x);
    }
    forall x, y | Paired(s'.disk, x) && Paired(s'.disk, y) && x.fid == y.fid && x != y
      ensures exists u | u in s'.ops :: SameDir(s'.ops[u], x) && SameDir(s'.ops[u], y)
    {
      var u :| u in s.ops && SameDir(s.ops[u], x) && SameDir(s.ops[u], y);
      assert u != t && SameDir(s'.ops[u], x) && SameDir(s'.ops[u], y);
    }
  }

  lemma RemovePairs(s: State, x: Named, s': State)
    requires Next(s, RemoveNumbered(x), s') || Next(s, RemoveNamed(x), s')
    ensures forall y: Named :: Paired(s'.disk, y) <==> Paired(s.disk, y) && y.fid in s'.disk.objs
  {}

  lemma RemoveNames(s: State, x: Named, s': State)
    requires UniqueNames(s.disk) && NamesFree(s) && Locks(s) && Fresh(s)
    requires Next(s, RemoveNumbered(x), s') || Next(s, RemoveNamed(x), s')
    ensures UniqueNames(s'.disk) && NamesFree(s') && Locks(s') && Fresh(s')
  {
    RemovePairs(s, x, s');
  }

  lemma RemoveOps(s: State, x: Named, s': State)
    requires Makes(s) && Renames(s)
    requires Next(s, RemoveNumbered(x), s') || Next(s, RemoveNamed(x), s')
    ensures Makes(s') && Renames(s')
  {
    RemovePairs(s, x, s');
  }

  lemma RemoveKeeps(s: State, x: Named, s': State)
    requires Inv(s) && (Next(s, RemoveNumbered(x), s') || Next(s, RemoveNamed(x), s'))
    ensures Inv(s')
  {
    RemovePairs(s, x, s');
    RemoveNames(s, x, s');
    RemoveOps(s, x, s');
    JunkKept(s, s');
  }

  lemma StepKeepsInv(s: State, step: Step, s': State)
    requires Inv(s) && Next(s, step, s')
    ensures Inv(s')
  {
    match step
    case Begin(t, op) => BeginKeeps(s, t, op, s');
    case TakeLock(_) => LockStepKeeps(s, step, s');
    case CheckName(_) => LockStepKeeps(s, step, s');
    case AddNumberedFile(t) => AddNumberedKeeps(s, t, s');
    case AddNamedFile(t) => AddNamedKeeps(s, t, s');
    case MoveFile(t) => MoveKeeps(s, t, s');
    case Unlock(_) => LockStepKeeps(s, step, s');
    case DropOldName(t) => DropOldKeeps(s, t, s');
    case RemoveNumbered(x) => RemoveKeeps(s, x, s');
    case RemoveNamed(x) => RemoveKeeps(s, x, s');
  }

  // ---------- Every interleaving ----------

  predicate IsRun(states: seq<State>, steps: seq<Step>) {
    |states| == |steps| + 1 && forall i | 0 <= i < |steps| :: Next(states[i], steps[i], states[i + 1])
  }

  /** A clean start: no requests, no junk, every file with its one name. */
  ghost predicate Init(s: State) {
    && s.ops == map[] && s.lock == {} && UniqueNames(s.disk) && Fresh(s)
    && (forall x | x in s.disk.names && x.fid in s.disk.objs :: Paired(s.disk, x))
    && (forall x, y | Paired(s.disk, x) && Paired(s.disk, y) && x.fid == y.fid :: x == y)
  }

  lemma {:induction false} RunKeepsInv(states: seq<State>, steps: seq<Step>, i: nat)
    requires IsRun(states, steps) && Init(states[0]) && i < |states|
    ensures Inv(states[i])
    decreases i
  {
    if i == 0 {
    } else {
      RunKeepsInv(states, steps, i - 1);
      StepKeepsInv(states[i - 1], steps[i - 1], states[i]);
    }
  }

  /** Name uniqueness under concurrency: in every state of every interleaving each name of a
      directory has at most one live file, and a thread that is about to release a name, after
      a failed check or after publishing, finds it in the lock. */
  lemma NamesStayUnique(states: seq<State>, steps: seq<Step>, i: nat)
    requires IsRun(states, steps) && Init(states[0]) && i < |states|
    ensures UniqueNames(states[i].disk)
    ensures forall t | t in states[i].ops && (states[i].ops[t].pc.Locked? || states[i].ops[t].pc.Published?) ::
      Key(states[i].ops[t]) in states[i].lock
  {
    RunKeepsInv(states, steps, i);
  }

  lemma {:induction false} NoLeaksInRun(states: seq<State>, steps: seq<Step>, i: nat)
    requires IsRun(states, steps) && Init(states[0]) && i < |states|
    ensures NoLeaks(states[i])
    decreases i
  {
    if i > 0 {
      NoLeaksInRun(states, steps, i - 1);
      RunKeepsInv(states, steps, i - 1);
      assert Next(states[i - 1], steps[i - 1], states[i - 1 + 1]);
      NoLeaksKept(states[i - 1], steps[i - 1], states[i]);
    }
  }

  /** In every interleaving a name is locked exactly if some thread holds it, and one thread only: nothing stays
      locked, and when no request is in flight the lock is empty. */
  lemma LockedExactly(states: seq<State>, steps: seq<Step>, i: nat, k: (Fid, Name))
    requires IsRun(states, steps) && Init(states[0]) && i < |states|
    ensures var s := states[i];
      && (k in s.lock <==> exists t | t in s.ops :: Holding(s.ops[t]) && Key(s.ops[t]) == k)
      && (forall t, u | t in s.ops && u in s.ops && Holding(s.ops[t]) && Holding(s.ops[u]) &&
            Key(s.ops[t]) == Key(s.ops[u]) :: t == u)
      && (s.ops == map[] ==> s.lock == {})
  {
    RunKeepsInv(states, steps, i);
    NoLeaksInRun(states, steps, i);
  }

  /** Without crashes there are no leftovers: when no request is in flight, renaming any file to
      a free name in another directory is crash-atomic. */
  lemma QuietRenamesAreAtomic(s: State, f: Fid, od: Fid, on: Name, nd: Fid, nn: Name, k: nat)
    requires Inv(s) && s.ops == map[] && k <= 3
    requires Renamable(s.disk, f, od, on, nd, nn) && od != nd
    ensures var v := View(After(s.disk, RenamePlan(f, od, on, nd, nn), k));
      v == View(s.disk) || v == RenamedView(s.disk, f, nd, nn)
  {
    if n :| n in Leftovers(s.disk, f, nd, nn) {
      LeftoversAt(s.disk, f, nd, nn, n);
    }
    RenameAtomicExactly(s.disk, f, od, on, nd, nn);
  }
}
