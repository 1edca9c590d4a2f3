/** How much work the client does, when it gives up, and what COMMIT amounts to. */
module Bounds {
  import opened Content
  import opened Protocol
  import opened Durability

  // ---------- Termination with a bound ----------

  /** The work between two states: calls made and epoch changes noticed. */
  function Writes(y: Sys, y': Sys): int { y'.t.writes - y.t.writes }
  function Commits(y: Sys, y': Sys): int { y'.t.commits - y.t.commits }
  function Changes(y: Sys, y': Sys): int { y'.t.changes - y.t.changes }

  /** n calls for each of k rounds. */
  function Rounds(k: nat, n: nat): nat {
    if k == 0 then 0 else n + Rounds(k - 1, n)
  }

  lemma {:induction false} RoundsAdd(j: nat, k: nat, n: nat)
    ensures Rounds(j + k, n) == Rounds(j, n) + Rounds(k, n)
  {
    if j == 0 {
    } else {
      RoundsAdd(j - 1, k, n);
    }
  }

  lemma {:induction false} RoundsTimes(k: nat, n: nat)
    ensures Rounds(k, n) == k * n
  {
    if k == 0 {
    } else {
      RoundsTimes(k - 1, n);
    }
  }

  /** Between y and y': at most first + k * n WRITE calls and c COMMIT calls, k being the
      number of epoch changes noticed, each of which moved the client's epoch forward. */
  ghost predicate Within(y: Sys, y': Sys, first: int, n: nat, c: int) {
    var k := Changes(y, y');
    && 0 <= k <= y'.c.epoch - y.c.epoch
    && Writes(y, y') <= first + Rounds(k, n)
    && Commits(y, y') <= c
  }

  lemma {:induction false} ReplayWithin(y: Sys, f: Fid, pos: nat)
    requires EpochSound(y) && pos <= |Log(y, f)|
    ensures Within(y, Replay(y, f, pos).0, |Log(y, f)| - pos, |Log(y, f)|, 0)
    decreases LastEpoch(y.w) - y.c.epoch, |Log(y, f)| - pos
  {
    if |Log(y, f)| <= pos {
    } else {
      RpcEpoch(y.w, WriteReq(f, Log(y, f)[pos]), MAX_TRIES);
      var (y1, r) := SendWrite(y, f, Log(y, f)[pos]);
      if r.Ok? && r.value != y.c.epoch {
        RestartWithin(y, y1, f, r.value);
      } else if r.Ok? {
        ReplayWithin(y1, f, pos + 1);
      }
    }
  }

  lemma RestartWithin(y: Sys, y1: Sys, f: Fid, epoch: nat)
    requires y.c.epoch < epoch <= y1.w.server.epoch && LastEpoch(y1.w) == LastEpoch(y.w)
    requires y1.c == y.c && y1.t == y.t.(writes := y.t.writes + 1, seen := y1.t.seen)
    ensures Within(y, Replay(NoteEpoch(y1, epoch), f, 0).0, 1, |Log(y, f)|, 0)
    decreases LastEpoch(y.w) - y.c.epoch, 0
  {
    var y2 := NoteEpoch(y1, epoch);
    ReplayWithin(y2, f, 0);
    RoundsAdd(1, Changes(y2, Replay(y2, f, 0).0), |Log(y, f)|);
  }

  /** With k epoch changes noticed and n logged writes, a replay from pos makes at most
      (n - pos) + k * n WRITE calls; every change moves the client's epoch forward. */
  lemma ReplayBound(y: Sys, f: Fid, pos: nat)
    requires EpochSound(y) && pos <= |Log(y, f)|
    ensures var y' := Replay(y, f, pos).0;
      var n, k := |Log(y, f)|, Changes(y, y');
      && 0 <= k <= y'.c.epoch - y.c.epoch
      && Writes(y, y') <= (n - pos) + k * n
      && Commits(y, y') <= 0
  {
    ReplayWithin(y, f, pos);
    RoundsTimes(Changes(y, Replay(y, f, pos).0), |Log(y, f)|);
  }

  lemma {:induction false} CommitWithin(y: Sys, f: Fid)
    requires EpochSound(y)
    ensures Within(y, Commit(y, f).0, 0, |Log(y, f)|, Changes(y, Commit(y, f).0) + 1)
    decreases LastEpoch(y.w) - y.c.epoch
  {
    RpcEpoch(y.w, CommitReq(f), MAX_TRIES);
    var (y1, r) := SendCommit(y, f);
    if r.Ok? && r.value != y.c.epoch {
      RecommitWithin(y, y1, f, r.value);
    }
  }

  lemma WithinAdd(y: Sys, y1: Sys, y2: Sys, n: nat, c1: int, c2: int)
    requires Within(y, y1, 0, n, c1) && Within(y1, y2, 0, n, c2)
    ensures Within(y, y2, 0, n, c1 + c2)
  {
    RoundsAdd(Changes(y, y1), Changes(y1, y2), n);
  }

  lemma ResendWithin(y: Sys, y1: Sys, f: Fid, epoch: nat)
    requires y.c.epoch < epoch <= y1.w.server.epoch && LastEpoch(y1.w) == LastEpoch(y.w)
    requires y1.c == y.c && y1.t == y.t.(commits := y.t.commits + 1, seen := y1.t.seen)
    ensures Within(y, Replay(NoteEpoch(y1, epoch), f, 0).0, 0, |Log(y, f)|, 1)
    ensures 1 <= Changes(y, Replay(NoteEpoch(y1, epoch), f, 0).0)
  {
    var y2 := NoteEpoch(y1, epoch);
    ReplayWithin(y2, f, 0);
    RoundsAdd(1, Changes(y2, Replay(y2, f, 0).0), |Log(y, f)|);
  }

  lemma RecommitWithin(y: Sys, y1: Sys, f: Fid, epoch: nat)
    requires y.c.epoch < epoch <= y1.w.server.epoch && LastEpoch(y1.w) == LastEpoch(y.w)
    requires y1.c == y.c && y1.t == y.t.(commits := y.t.commits + 1, seen := y1.t.seen)
    ensures var (y3, r3) := Replay(NoteEpoch(y1, epoch), f, 0);
      var y' := if r3.Err? then y3 else Commit(y3, f).0;
      Within(y, y', 0, |Log(y, f)|, Changes(y, y') + 1)
    decreases LastEpoch(y.w) - y.c.epoch, 0
  {
    ResendWithin(y, y1, f, epoch);
    var (y3, r3) := Replay(NoteEpoch(y1, epoch), f, 0);
    if r3.Ok? {
      var y' := Commit(y3, f).0;
      CommitWithin(y3, f);
      WithinAdd(y, y3, y', |Log(y, f)|, 1, Changes(y3, y') + 1);
    }
  }

  /** With k epoch changes noticed, a commit makes at most k + 1 COMMIT and k * n WRITE calls. */
  lemma CommitBound(y: Sys, f: Fid)
    requires EpochSound(y)
    ensures var y' := Commit(y, f).0;
      var n, k := |Log(y, f)|, Changes(y, y');
      && 0 <= k <= y'.c.epoch - y.c.epoch
      && Commits(y, y') <= k + 1
      && Writes(y, y') <= k * n
  {
    CommitWithin(y, f);
    RoundsTimes(Changes(y, Commit(y, f).0), |Log(y, f)|);
  }

  // ---------- Giving up ----------

  /** The attempt is answered: the server got to it and the reply came back. */
  predicate Answered(a: Attempt) {
    a.fate == Served(true)
  }

  /** A call gives up with EIO exactly when none of its attempts is answered. */
  lemma {:induction false} GivesUpExactly(w: World, q: Request, tries: nat)
    ensures Rpc(w, q, tries).1 == Err(EIO) <==>
      tries <= |w.faults| && forall i | 0 <= i < tries :: !Answered(w.faults[i])
    decreases tries
  {
    if tries == 0 {
    } else {
      GivesUpExactly(Attempted(w, q).0, q, tries - 1);
      if w.faults != [] && !Answered(w.faults[0]) {
        assert forall i | 1 <= i < tries && tries <= |w.faults| :: w.faults[1..][i - 1] == w.faults[i];
      }
    }
  }

  // ---------- COMMIT against FILE_SYNC ----------

  function StableWrite(s: Server, f: Fid, w: Write): Server
    requires f in s.files
  {
    StableAfter(s, f, w, 3)
  }

  function StableAll(s: Server, f: Fid, ws: seq<Write>): (r: Server)
    requires f in s.files
    ensures f in r.files
    decreases ws
  {
    if ws == [] then s else StableAll(StableWrite(s, f, ws[0]), f, ws[1..])
  }

  lemma {:induction false} StableAllApplies(s: Server, f: Fid, ws: seq<Write>)
    requires f in s.files
    ensures StableAll(s, f, ws).files == s.files[f := ApplyAll(s.files[f], ws)]
    decreases ws
  {
    if ws == [] {
      assert s.files[f := s.files[f]] == s.files;
    } else {
      StableAllApplies(StableWrite(s, f, ws[0]), f, ws[1..]);
    }
  }

  /** COMMIT of a buffer leaves the files that stable writes of the same list leave; and a crash
      inside either handler shows a whole old file or the whole result of the call. */
  lemma CommitRefinesStable(s: Server, f: Fid, w: Write, k: nat)
    requires f in s.files
    ensures HandleCommit(s, f).files == StableAll(s, f, Pending(s, f)).files
    ensures CommitAfter(s, f, k).files == if k < CommitSteps(s, f) then s.files else HandleCommit(s, f).files
    ensures StableAfter(s, f, w, k).files == if k < 3 then s.files else StableWrite(s, f, w).files
  {
    CommitIsVirtual(s, f);
    CommitCrashAtomic(s, f, k);
    StableAllApplies(s, f, Pending(s, f));
  }

  /** Copies under tmp come and go: an answered call leaves none of its file, touches none of another, and never
      reads what a crash has left there. */
  lemma CopiesGo(s: Server, f: Fid, w: Write, left: map<Fid, Bytes>)
    requires f in s.files
    ensures f !in StableWrite(s, f, w).tmp && (Pending(s, f) != [] ==> f !in HandleCommit(s, f).tmp)
    ensures forall g | g != f ::
      && (g in StableWrite(s, f, w).tmp <==> g in s.tmp) && (g in HandleCommit(s, f).tmp <==> g in s.tmp)
      && (g in s.tmp ==> StableWrite(s, f, w).tmp[g] == HandleCommit(s, f).tmp[g] == s.tmp[g])
    ensures StableWrite(s.(tmp := left), f, w).files == StableWrite(s, f, w).files
    ensures HandleCommit(s.(tmp := left), f).files == HandleCommit(s, f).files
  {
    CommitIsVirtual(s, f);
    CommitIsVirtual(s.(tmp := left), f);
  }

  // ---------- A commit without faults ----------

  /** What a commit writes when it notices no new epoch: the pending writes, all and only. */
  lemma CommitWritesPending(y: Sys, h: History, f: Fid)
    requires Inv(y, h)
    ensures var (y', r) := Commit(y, f);
      r.Ok? && y'.c.epoch == y.c.epoch ==>
        f in y.w.server.files && f in y'.w.server.files && y'.w.server.files[f] == Virtual(y.w.server, f)
  {
    RpcCommit(y.w, f, MAX_TRIES);
    RpcEpoch(y.w, CommitReq(f), MAX_TRIES);
  }

  /** Without further faults, a commit in the server's epoch writes what is pending and returns Ok. */
  lemma SmoothCommit(y: Sys, f: Fid)
    requires y.w.faults == [] && y.c.epoch == y.w.server.epoch && f in y.w.server.files
    ensures var (y', r) := Commit(y, f);
      && r.Ok? && y'.c.epoch == y.c.epoch && f !in y'.c.bufs
      && y'.w.server.files == y.w.server.files[f := Virtual(y.w.server, f)]
  {
    CommitIsVirtual(y.w.server, f);
    assert Attempted(y.w, CommitReq(f)) == (World(HandleCommit(y.w.server, f), []), Replied(Verf(y.c.epoch)));
  }
}
