/** CREATE, MKDIR, REMOVE, RMDIR and RENAME as the client calls them: retried until a reply comes
    back. A call may fail although one of its attempts has changed the tree; this says when. */
module NameCalls {
  import opened Content
  import opened Namespace
  import opened CrashAtomicity
  import opened ServerRuns
  import opened Junk
  import opened JunkRuns
  import opened NameRuns
  import P = Protocol

  /** One attempt: it never reached the server; or it ran, to the end or into a crash, and left the
      server in a state; the reply of an answered one may be delivered or lost. */
  datatype OneTry = Missed | Ran(t: Step, after: State, delivered: bool)

  /** The attempts of one call from s to s'; a delivered reply ends it. Nobody else calls meanwhile. */
  ghost predicate Tries(s: State, rpc: Rpc, tries: seq<OneTry>, s': State)
    decreases |tries|
  {
    if tries == [] then s' == s
    else
      match tries[0]
      case Missed => Tries(s, rpc, tries[1..], s')
      case Ran(t, mid, delivered) =>
        && t.rpc == rpc && Next(s, t, mid) && (delivered ==> t.Answer? && |tries| == 1)
        && Tries(mid, rpc, tries[1..], s')
  }

  datatype CallResult = GaveUp | Replied(reply: Reply)

  /** What the client is told. */
  function Told(tries: seq<OneTry>): CallResult {
    if tries != [] && tries[|tries| - 1].Ran? && tries[|tries| - 1].delivered then Replied(tries[|tries| - 1].t.reply)
    else GaveUp
  }

  /** A whole call: ended by a reply, or given up after all attempts. */
  ghost predicate Calls(s: State, rpc: Rpc, tries: seq<OneTry>, s': State) {
    Tries(s, rpc, tries, s') && |tries| <= P.MAX_TRIES && (Told(tries).GaveUp? ==> |tries| == P.MAX_TRIES)
  }

  /** Some attempt has changed the tree, and its reply was delivered or was not. */
  ghost predicate TookEffect(s: State, tries: seq<OneTry>, delivered: bool)
    decreases |tries|
  {
    tries != [] &&
    match tries[0]
    case Missed => TookEffect(s, tries[1..], delivered)
    case Ran(t, mid, d) => (View(mid.disk) != View(s.disk) && d == delivered) || TookEffect(mid, tries[1..], delivered)
  }

  /** Asked on this disk, the request fails in this way. */
  ghost predicate FailsWith(d: Disk, rpc: Rpc, code: Code) {
    exists next, plan :: Decides(d, next, rpc, plan, Fail(code))
  }

  /** Asked on this disk, the request takes no step and fails in this way, and in no other. */
  ghost predicate Spent(d: Disk, rpc: Rpc, code: Code) {
    forall next, plan, reply | Decides(d, next, rpc, plan, reply) :: plan == [] && reply == Fail(code)
  }

  // ---------- After the effect ----------

  lemma StillLive(s: State, t: Step, s': State, dir: Fid)
    requires ServerInv(s) && Next(s, t, s') && Live(s.disk, dir) && IsDir(s.disk, dir)
    requires t.rpc.Unmake? && t.reply.Done? ==> t.reply.fid != dir
    ensures Live(s'.disk, dir) && IsDir(s'.disk, dir)
  {
    StepKeepsInv(s, t, s');
    LinkedIsLive(s.disk, dir);
    LinkedIsLive(s'.disk, dir);
    if dir != ROOT {
      NothingLost(s, t, s', dir);
    }
  }

  /** A step that has changed the tree took the disk through some of its plan. */
  lemma Effective(s: State, t: Step, s': State)
    requires Next(s, t, s') && View(s'.disk) != View(s.disk)
    ensures t.plan != [] && Taking(t) <= |t.plan| && s'.disk == After(s.disk, t.plan, Taking(t))
  {
    assert t.plan[..|t.plan|] == t.plan && t.plan[..0] == [];
  }

  lemma MadeIsTaken(d: Disk, dir: Fid, f: Fid, name: Name, node: Node, k: nat)
    requires Unused(d, f) && f != ROOT && k <= 2 && View(After(d, CreatePlan(dir, f, name, node), k)) != View(d)
    ensures Taken(After(d, CreatePlan(dir, f, name, node), k), dir, name)
  {
    var plan := CreatePlan(dir, f, name, node);
    CreateAtomic(d, dir, f, name, node, k);
    AfterStep(d, plan, 0);
    AfterStep(d, plan, 1);
    assert Paired(After(d, plan, 2), Named(dir, f, name));
  }

  lemma MakeSpent(s: State, t: Step, s': State)
    requires ServerInv(s) && Next(s, t, s') && t.rpc.Make? && View(s'.disk) != View(s.disk)
    ensures Spent(s'.disk, t.rpc, EXIST) && !FailsWith(s.disk, t.rpc, EXIST)
  {
    Effective(s, t, s');
    MadeIsTaken(s.disk, t.rpc.dir, s.next, t.rpc.name, NewNode(t.rpc.isFile), Taking(t));
    StillLive(s, t, s', t.rpc.dir);
  }

  lemma RemovedIsFree(d: Disk, dir: Fid, f: Fid, name: Name, k: nat)
    requires UniqueNames(d) && Paired(d, Named(dir, f, name)) && 1 <= k <= 2
    ensures !Taken(After(d, RemovePlan(dir, f, name), k), dir, name)
  {
    var plan := RemovePlan(dir, f, name);
    AfterStep(d, plan, 0);
    AfterStep(d, plan, 1);
    var e := After(d, plan, k);
    forall x | x in e.names && x.dir == dir && x.name == name ensures !Paired(e, x) {
      if x.fid != f && Paired(e, x) {
        assert Paired(d, x);
      }
    }
  }

  lemma UnmakeSpent(s: State, t: Step, s': State)
    requires ServerInv(s) && UniqueNames(s.disk) && Next(s, t, s') && t.rpc.Unmake? && View(s'.disk) != View(s.disk)
    ensures Spent(s'.disk, t.rpc, NOENT) && !FailsWith(s.disk, t.rpc, NOENT)
  {
    Effective(s, t, s');
    assert t.plan[..0] == [];
    RemoveFreesName(s, t, s');
  }

  lemma RemoveFreesName(s: State, t: Step, s': State)
    requires ServerInv(s) && UniqueNames(s.disk) && Next(s, t, s') && t.rpc.Unmake?
    requires t.plan != [] && 1 <= Taking(t) <= |t.plan| && s'.disk == After(s.disk, t.plan, Taking(t))
    ensures Live(s'.disk, t.rpc.dir) && IsDir(s'.disk, t.rpc.dir) && !Taken(s'.disk, t.rpc.dir, t.rpc.name)
    ensures Live(s.disk, t.rpc.dir) && IsDir(s.disk, t.rpc.dir) && Taken(s.disk, t.rpc.dir, t.rpc.name)
  {
    var d := s.disk;
    var f := FoundFile(d, s.next, t.rpc, t.plan, t.reply);
    RemovedIsFree(d, t.rpc.dir, f, t.rpc.name, Taking(t));
    StillLive(s, t, s', t.rpc.dir);
  }

  lemma RenameSpent(s: State, t: Step, s': State) returns (code: Code)
    requires ServerInv(s) && UniqueNames(s.disk) && Next(s, t, s') && t.rpc.Rename? && View(s'.disk) != View(s.disk)
    ensures Spent(s'.disk, t.rpc, code) && !FailsWith(s.disk, t.rpc, code) && code in {NOENT, EXIST}
  {
    Effective(s, t, s');
    if t.reply.Fail? {
      CrashAtomic(s.disk, s.next, t.rpc, t.plan, t.reply, Taking(t));
      assert false;
    }
    code := MovedSpends(s, t, s');
    StillLive(s, t, s', t.rpc.od);
    StillLive(s, t, s', t.rpc.nd);
  }

  /** After some effective steps of a RENAME, both names are in use or the old one is not. */
  lemma MovedSpends(s: State, t: Step, s': State) returns (code: Code)
    requires ServerInv(s) && UniqueNames(s.disk) && Next(s, t, s') && t.rpc.Rename? && t.reply.Done?
    requires View(s'.disk) != View(s.disk)
    requires t.plan != [] && Taking(t) <= |t.plan| && s'.disk == After(s.disk, t.plan, Taking(t))
    ensures !FailsWith(s.disk, t.rpc, code) && code in {NOENT, EXIST}
    ensures Live(s.disk, t.rpc.od) && IsDir(s.disk, t.rpc.od) && Live(s.disk, t.rpc.nd) && IsDir(s.disk, t.rpc.nd)
    ensures code == EXIST ==> Taken(s'.disk, t.rpc.od, t.rpc.on) && Taken(s'.disk, t.rpc.nd, t.rpc.nn)
    ensures code == NOENT ==> !Taken(s'.disk, t.rpc.od, t.rpc.on)
  {
    var d, k, rpc := s.disk, Taking(t), t.rpc;
    var f := FoundFile(d, s.next, rpc, t.plan, t.reply);
    NotSoBefore(d, f, rpc);
    RenameShows(d, f, rpc.od, rpc.on, rpc.nd, rpc.nn, k);
    if rpc.od == rpc.nd && k < 3 {
      code := EXIST;
      HalfRenamed(d, f, rpc.od, rpc.on, rpc.nn, k);
    } else {
      code := NOENT;
      OldNameGone(d, f, rpc.od, rpc.on, rpc.nd, rpc.nn, k);
    }
  }

  /** A RENAME that can go ahead does not fail for want of the old name or for the new one. */
  lemma NotSoBefore(d: Disk, f: Fid, rpc: Rpc)
    requires rpc.Rename? && Live(d, rpc.od) && Live(d, rpc.nd) && Taken(d, rpc.od, rpc.on) && !Taken(d, rpc.nd, rpc.nn)
    ensures !FailsWith(d, rpc, NOENT) && !FailsWith(d, rpc, EXIST)
  {}

  /** In one directory, before the old name goes, both names are in use. */
  lemma HalfRenamed(d: Disk, f: Fid, dir: Fid, on: Name, nn: Name, k: nat)
    requires Renamable(d, f, dir, on, dir, nn) && 1 <= k < 3
    ensures var e := After(d, RenamePlan(f, dir, on, dir, nn), k); Taken(e, dir, on) && Taken(e, dir, nn)
  {
    RenameSteps(d, f, dir, on, dir, nn, k);
    var e := After(d, RenamePlan(f, dir, on, dir, nn), k);
    assert Paired(e, Named(dir, f, on)) && Paired(e, Named(dir, f, nn));
  }

  /** Once the file has left its old name or its old directory, nothing has the old name. */
  lemma OldNameGone(d: Disk, f: Fid, od: Fid, on: Name, nd: Fid, nn: Name, k: nat)
    requires UniqueNames(d) && Renamable(d, f, od, on, nd, nn) && k <= 3 && (if od == nd then k == 3 else k >= 2)
    ensures !Taken(After(d, RenamePlan(f, od, on, nd, nn), k), od, on)
  {
    var e := After(d, RenamePlan(f, od, on, nd, nn), k);
    RenameSteps(d, f, od, on, nd, nn, k);
    if x :| x in e.names && x.dir == od && x.name == on && Paired(e, x) {
      RenamePairs(d, f, od, on, nd, nn, k, x);
      assert false;
    }
  }

  lemma EffectSpends(s: State, t: Step, s': State) returns (code: Code)
    requires ServerInv(s) && UniqueNames(s.disk) && Next(s, t, s') && View(s'.disk) != View(s.disk)
    ensures Spent(s'.disk, t.rpc, code) && !FailsWith(s.disk, t.rpc, code)
  {
    match t.rpc
    case Make(_, _, _) =>
      MakeSpent(s, t, s');
      code := EXIST;
    case Unmake(_, _, _) =>
      UnmakeSpent(s, t, s');
      code := NOENT;
    case Rename(_, _, _, _) =>
      code := RenameSpent(s, t, s');
    case Lookup(_, _) =>
      assert false by {
        Effective(s, t, s');
      }
  }

  /** Once the request is spent, further attempts change nothing and fail alike. */
  lemma {:induction false} SpentTries(s: State, rpc: Rpc, tries: seq<OneTry>, s': State, code: Code)
    requires Tries(s, rpc, tries, s') && Spent(s.disk, rpc, code)
    ensures View(s'.disk) == View(s.disk) && !TookEffect(s, tries, true) && !TookEffect(s, tries, false)
    ensures Told(tries) == GaveUp || Told(tries) == Replied(Fail(code))
    decreases |tries|
  {
    if tries == [] {
    } else {
      var mid := if tries[0].Missed? then s else tries[0].after;
      if tries[0].Ran? {
        var t := tries[0].t;
        assert t.plan == [] && t.plan[..0] == [] && mid.disk == s.disk;
      }
      SpentTries(mid, rpc, tries[1..], s', code);
      if |tries| > 1 {
        TellsLast(tries);
      } else {
        assert tries[1..] == [];
      }
    }
  }

  lemma TellsLast(tries: seq<OneTry>)
    requires |tries| > 1
    ensures Told(tries) == Told(tries[1..])
  {}

  // ---------- Before the effect ----------

  lemma SweptUnique(d: Disk)
    ensures UniqueNames(Swept(d)) <==> UniqueNames(d)
  {
    forall x ensures x in d.names && Paired(d, x) <==> x in Swept(d).names && Paired(Swept(d), x) {
      SweptPairs(d, x);
    }
  }

  lemma SweptDecidesBack(d: Disk, next: Fid, rpc: Rpc, plan: seq<DiskStep>, reply: Reply)
    requires Rooted(d) && Decides(Swept(d), next, rpc, plan, reply) && !rpc.Unmake?
    ensures Decides(d, next, rpc, plan, reply)
  {
    match rpc
    case Make(dir, name, _) =>
      SweptLive(d, dir);
      SweptTaken(d, dir, name);
    case Rename(od, on, nd, nn) =>
      SweptLive(d, od);
      SweptLive(d, nd);
      SweptTaken(d, od, on);
      SweptTaken(d, nd, nn);
      if Live(d, od) && Live(d, nd) && Taken(d, od, on) {
        var x :| Called(Swept(d), x, od, on) && DecidesRename(Swept(d), x.fid, od, on, nd, nn, plan, reply);
        SweptCalled(d, x, od, on);
        assert DecidesRename(d, x.fid, od, on, nd, nn, plan, reply);
      }
    case Lookup(dir, name) =>
      SweptLive(d, dir);
      SweptTaken(d, dir, name);
      forall x ensures Called(Swept(d), x, dir, name) <==> Called(d, x, dir, name) {
        SweptCalled(d, x, dir, name);
      }
  }

  lemma SameSweptFails(d: Disk, e: Disk, rpc: Rpc, code: Code)
    requires Rooted(d) && Rooted(e) && Swept(d) == Swept(e) && !rpc.Unmake? && FailsWith(d, rpc, code)
    ensures FailsWith(e, rpc, code)
  {
    var next, plan :| Decides(d, next, rpc, plan, Fail(code));
    SweptDecides(d, next, rpc, plan, Fail(code));
    SweptDecidesBack(e, next, rpc, plan, Fail(code));
  }

  /** An attempt without effect leaves the request as it was: with the same failures ahead. */
  lemma NoEffectKeeps(s: State, t: Step, s': State, code: Code)
    requires ServerInv(s) && UniqueNames(s.disk) && Next(s, t, s') && View(s'.disk) == View(s.disk)
    ensures ServerInv(s') && UniqueNames(s'.disk)
    ensures FailsWith(s'.disk, t.rpc, code) <==> FailsWith(s.disk, t.rpc, code)
  {
    StepKeepsInv(s, t, s');
    var k := Taking(t);
    assert t.plan[..|t.plan|] == t.plan && t.plan[..0] == [];
    PlanSpares(s.disk, s.next, t.rpc, t.plan, t.reply, k, s.disk, ROOT);
    SweptFromView(s'.disk, s.disk);
    SweptUnique(s.disk);
    SweptUnique(s'.disk);
    if t.rpc.Unmake? {
      UnmakeIdle(s, t, s');
    } else if FailsWith(s.disk, t.rpc, code) {
      SameSweptFails(s.disk, s'.disk, t.rpc, code);
    } else if FailsWith(s'.disk, t.rpc, code) {
      SameSweptFails(s'.disk, s.disk, t.rpc, code);
    }
  }

  /** A remove without effect has taken no disk step. */
  lemma UnmakeIdle(s: State, t: Step, s': State)
    requires ServerInv(s) && Next(s, t, s') && t.rpc.Unmake? && View(s'.disk) == View(s.disk)
    ensures s'.disk == s.disk
  {
    assert t.plan[..|t.plan|] == t.plan && t.plan[..0] == [];
    if t.plan != [] && Taking(t) > 0 {
      var f := FoundFile(s.disk, s.next, t.rpc, t.plan, t.reply);
      assert Paired(s.disk, Named(t.rpc.dir, f, t.rpc.name)) && Linked(s.disk, f) && f in View(s.disk);
      RemoveAtomic(s.disk, t.rpc.dir, f, t.rpc.name, Taking(t));
      assert false;
    }
  }

  lemma RenameTakesEffect(d: Disk, f: Fid, od: Fid, on: Name, nd: Fid, nn: Name)
    requires Renamable(d, f, od, on, nd, nn)
    ensures View(After(d, RenamePlan(f, od, on, nd, nn), 3)) != View(d)
  {
    RenameShows(d, f, od, on, nd, nn, 3);
    NamesAt(d, f, on);
    NamesAt(d, f, nn);
    assert View(d)[f] == Entry(od, Names(d, f), d.objs[f].node);
    assert nn in RenamedNames(d, f, od, on, nd, nn, 3) || nn == on;
  }

  /** A request that is answered with success has changed the tree. */
  lemma DoneTakesEffect(s: State, t: Step, s': State)
    requires ServerInv(s) && Next(s, t, s') && t.Answer? && !t.rpc.Lookup?
    ensures t.reply.Done? <==> View(s'.disk) != View(s.disk)
  {
    assert t.plan[..|t.plan|] == t.plan;
    if t.rpc.Rename? && t.reply.Done? {
      var f := FoundFile(s.disk, s.next, t.rpc, t.plan, t.reply);
      RenameTakesEffect(s.disk, f, t.rpc.od, t.rpc.on, t.rpc.nd, t.rpc.nn);
    } else {
      CrashAtomic(s.disk, s.next, t.rpc, t.plan, t.reply, |t.plan|);
      ShownDiffers(s.disk, s.next, t.rpc, t.plan, t.reply);
    }
  }

  /** The tree that an answered CREATE, MKDIR, REMOVE or RMDIR is to leave is another one exactly if it succeeds. */
  lemma ShownDiffers(d: Disk, next: Fid, rpc: Rpc, plan: seq<DiskStep>, reply: Reply)
    requires FreshAbove(d, next) && Decides(d, next, rpc, plan, reply) && (rpc.Make? || rpc.Unmake? || reply.Fail?)
    requires rpc.Unmake? && reply.Done? ==> reply.fid in View(d)
    ensures Shown(d, rpc, reply) != View(d) <==> reply.Done? && !rpc.Lookup?
  {
    if reply.Done? && rpc.Make? {
      assert next !in View(d) && next in Shown(d, rpc, reply);
    } else if reply.Done? && rpc.Unmake? {
      assert reply.fid !in Shown(d, rpc, reply);
    }
  }

  // ---------- Exactly when a failing call has changed the tree ----------

  /** What is known of a call: the tree has changed exactly if an attempt took effect; at most one
      did; the client is told of success exactly if that one's reply came back; and if it is told of
      a failure, the tree has changed exactly if the request would not have failed so at the start. */
  ghost predicate Accounted(s: State, rpc: Rpc, tries: seq<OneTry>, s': State) {
    var changed := View(s'.disk) != View(s.disk);
    && (changed <==> TookEffect(s, tries, true) || TookEffect(s, tries, false))
    && !(TookEffect(s, tries, true) && TookEffect(s, tries, false))
    && (TookEffect(s, tries, true) <==> Told(tries).Replied? && Told(tries).reply.Done?)
    && (Told(tries).Replied? && Told(tries).reply.Fail? ==>
          (changed <==> !FailsWith(s.disk, rpc, Told(tries).reply.code)))
  }

  /** If the first attempt took effect and no later one did, the effect is the first one's. */
  lemma FirstTook(s: State, tries: seq<OneTry>, delivered: bool)
    requires tries != [] && tries[0].Ran? && View(tries[0].after.disk) != View(s.disk)
    requires !TookEffect(tries[0].after, tries[1..], delivered)
    ensures TookEffect(s, tries, delivered) <==> tries[0].delivered == delivered
  {}

  lemma EffectAccounted(s: State, rpc: Rpc, tries: seq<OneTry>, s': State)
    requires ServerInv(s) && UniqueNames(s.disk) && !rpc.Lookup? && Tries(s, rpc, tries, s')
    requires tries != [] && tries[0].Ran? && View(tries[0].after.disk) != View(s.disk)
    ensures Accounted(s, rpc, tries, s')
  {
    var t, mid := tries[0].t, tries[0].after;
    var code := EffectSpends(s, t, mid);
    SpentTries(mid, rpc, tries[1..], s', code);
    FirstTook(s, tries, true);
    FirstTook(s, tries, false);
    if |tries| > 1 {
      TellsLast(tries);
    } else if tries[0].delivered {
      DoneTakesEffect(s, t, mid);
    }
  }

  lemma IdleAccounted(s: State, rpc: Rpc, tries: seq<OneTry>, s': State)
    requires ServerInv(s) && UniqueNames(s.disk) && !rpc.Lookup? && Tries(s, rpc, tries, s')
    requires tries != [] && tries[0].Ran? && View(tries[0].after.disk) == View(s.disk)
    requires Accounted(tries[0].after, rpc, tries[1..], s')
    ensures Accounted(s, rpc, tries, s')
  {
    var t, mid := tries[0].t, tries[0].after;
    if |tries| > 1 {
      TellsLast(tries);
      if Told(tries).Replied? && Told(tries).reply.Fail? {
        NoEffectKeeps(s, t, mid, Told(tries).reply.code);
      }
    } else {
      assert tries[1..] == [];
      if tries[0].delivered {
        DoneTakesEffect(s, t, mid);
        assert t.reply.Fail? ==> Decides(s.disk, s.next, rpc, t.plan, Fail(t.reply.code));
      }
    }
  }

  /** Every call of CREATE, MKDIR, REMOVE, RMDIR or RENAME, with any attempts lost, crashed or
      answered in vain, on a tree with unique names, is accounted for. */
  lemma {:induction false} CallAccounted(s: State, rpc: Rpc, tries: seq<OneTry>, s': State)
    requires ServerInv(s) && UniqueNames(s.disk) && !rpc.Lookup? && Tries(s, rpc, tries, s')
    ensures Accounted(s, rpc, tries, s')
    decreases |tries|
  {
    if tries == [] {
    } else if tries[0].Missed? {
      CallAccounted(s, rpc, tries[1..], s');
      if |tries| > 1 {
        TellsLast(tries);
      }
    } else if View(tries[0].after.disk) != View(s.disk) {
      EffectAccounted(s, rpc, tries, s');
    } else {
      NoEffectKeeps(s, tries[0].t, tries[0].after, STALE);
      CallAccounted(tries[0].after, rpc, tries[1..], s');
      IdleAccounted(s, rpc, tries, s');
    }
  }

  /** A failing call has changed the tree exactly if an attempt took effect and its reply was lost. If
      a code came back, that is so exactly if the request would not have failed with it at the start:
      a CREATE answered EXIST under a free name has made the file, a REMOVE answered NOENT for an
      existing one has removed it. */
  lemma FailureExactly(s: State, rpc: Rpc, tries: seq<OneTry>, s': State)
    requires ServerInv(s) && UniqueNames(s.disk) && !rpc.Lookup? && Calls(s, rpc, tries, s')
    requires Told(tries).GaveUp? || Told(tries).reply.Fail?
    ensures View(s'.disk) != View(s.disk) <==> TookEffect(s, tries, false)
    ensures Told(tries).Replied? ==>
      (View(s'.disk) != View(s.disk) <==> !FailsWith(s.disk, rpc, Told(tries).reply.code))
  {
    CallAccounted(s, rpc, tries, s');
  }

  /** MKDIR a on the empty disk: the reply is lost, the retry is answered EXIST, and so the client is told;
      and yet the directory is there. */
  lemma MadeAndRefused() returns (tries: seq<OneTry>, s': State)
    ensures Calls(BEGIN, Make(ROOT, "a", false), tries, s') && Told(tries) == Replied(Fail(EXIST))
    ensures View(s'.disk) != View(BEGIN.disk) && TookEffect(BEGIN, tries, false)
  {
    var rpc := Make(ROOT, "a", false);
    RootLives(EMPTY_DISK);
    var t;
    t, s' := ThenMakes([BEGIN], [], BEGIN, ROOT, "a", false);
    assert Next(([BEGIN] + [s'])[0], ([] + [t])[0], ([BEGIN] + [s'])[1]);
    RunToInv([BEGIN], [], BEGIN);
    DoneTakesEffect(BEGIN, t, s');
    RootLives(s'.disk);
    assert Paired(s'.disk, Named(ROOT, BEGIN.next, "a"));
    var again := Answer(rpc, [], Fail(EXIST), s'.cache);
    assert Next(s', again, s');
    tries := [Ran(t, s', false), Ran(again, s', true)];
    assert tries[1..] == [Ran(again, s', true)] && tries[1..][1..] == [];
    assert Tries(s', rpc, tries[1..], s');
  }
}
