/** The name server as an object: breadth-first search and cached lookup of a fid, lookup by
    name, and the handlers that change the tree one disk step at a time. */
module NameServer {
  import opened Content
  import opened Namespace
  import opened CrashAtomicity
  import opened Handlers
  import opened ServerRuns
  import R = ReadDir
  import T = TreeSpec

  /** What READDIR answers: a page of entries, or an error. */
  datatype DirReply = Entries(page: seq<R.DirEntry>) | Refused(code: Code)

  /** The parent links along a path, as the search hands them to the cache. */
  function Pairs(p: Path): seq<(Fid, Fid)> {
    seq(if |p| == 0 then 0 else |p| - 1, i requires 0 <= i < |p| - 1 => (p[i + 1], p[i]))
  }

  ghost predicate TrueLinks(d: Disk, pairs: seq<(Fid, Fid)>) {
    forall i | 0 <= i < |pairs| :: pairs[i].0 in View(d) && View(d)[pairs[i].0].parent == pairs[i].1
  }

  lemma PairsAreLinks(d: Disk, p: Path)
    requires Rooted(d) && IsPath(d, p)
    ensures TrueLinks(d, Pairs(p))
  {
    var pairs := Pairs(p);
    forall i | 0 <= i < |pairs| ensures pairs[i].0 in View(d) && View(d)[pairs[i].0].parent == pairs[i].1 {
      assert Edge(d, p[i + 1 - 1], p[i + 1]);
      PathPrefix(d, p, i);
      PathShape(d, p[..i + 1]);
    }
  }

  /** Of every file on the path but the root, the cache or the pairs have the parent. */
  ghost predicate AllLinks(cache: map<Fid, Fid>, pairs: seq<(Fid, Fid)>, p: Path) {
    forall g | g in p && g != ROOT :: g in cache || exists i | 0 <= i < |pairs| :: pairs[i].0 == g
  }

  lemma PairsAreAll(p: Path, cache: map<Fid, Fid>)
    requires p == [] || p[0] == ROOT
    ensures AllLinks(cache, Pairs(p), p)
  {
    forall g | g in p && g != ROOT ensures exists i | 0 <= i < |Pairs(p)| :: Pairs(p)[i].0 == g {
      var k :| 0 <= k < |p| && p[k] == g;
      assert Pairs(p)[k - 1].0 == g;
    }
  }

  // ---------- The search ----------

  /** The files for which a directory holds both a numbered and a named file. */
  function Children(d: Disk, dir: Fid): set<Fid> {
    set f | f in d.objs && d.objs[f].parent == dir && Linked(d, f)
  }

  /** The fids at the ends of the queued paths. */
  predicate Queued(queue: seq<Path>, f: Fid) {
    exists p | p in queue :: Last(p) == f
  }

  /** Where the search stands: the visited files form a closed tree up to the queued ones. */
  ghost predicate Searching(d: Disk, queue: seq<Path>, visited: set<Fid>) {
    && (forall p | p in queue :: IsPath(d, p) && Last(p) !in visited)
    && (forall i, j | 0 <= i < j < |queue| :: Last(queue[i]) != Last(queue[j]))
    && visited <= d.objs.Keys
    && (ROOT in visited || queue == [[ROOT]])
    && (forall p | p in queue && |p| > 1 :: p[|p| - 2] in visited)
    && (forall v | v in visited && v != ROOT :: d.objs[v].parent in visited)
    && (forall v, c | v in visited && Edge(d, v, c) :: c in visited || Queued(queue, c))
  }

  /** Live files, each listed once. */
  ghost predicate Once(d: Disk, fs: seq<Fid>) {
    (forall i, j | 0 <= i < j < |fs| :: fs[i] != fs[j]) && forall f | f in fs :: Live(d, f)
  }

  lemma OnceMore(d: Disk, fs: seq<Fid>, path: Path)
    requires Once(d, fs) && IsPath(d, path) && Last(path) !in fs
    ensures Once(d, fs + [Last(path)])
    ensures forall g :: g in fs + [Last(path)] <==> g in fs || g == Last(path)
  {}

  lemma {:induction false} ClosedHoldsPaths(d: Disk, visited: set<Fid>, p: Path)
    requires ROOT in visited && forall v, c | v in visited && Edge(d, v, c) :: c in visited
    requires IsPath(d, p)
    ensures Last(p) in visited
    decreases |p|
  {
    if |p| <= 1 {
    } else {
      ClosedHoldsPaths(d, visited, p[..|p| - 1]);
      assert Edge(d, p[|p| - 1 - 1], p[|p| - 1]);
    }
  }

  /** A child of the file just dequeued is new to the search. */
  lemma ChildIsNew(d: Disk, path: Path, rest: seq<Path>, visited: set<Fid>, c: Fid)
    requires Rooted(d) && Searching(d, [path] + rest, visited) && Edge(d, Last(path), c)
    ensures c !in visited && c != Last(path) && !Queued(rest, c) && c != ROOT
  {
    var cur := Last(path);
    assert path in [path] + rest;
    PathStep(d, path, c);
    PathShape(d, path + [c]);
    if q :| q in rest && Last(q) == c {
      PathUnique(d, q, path + [c]);
    }
  }

  class ZippynfsServer {
    var disk: Disk
    var counter: Fid
    var epoch: nat
    var fidCache: map<Fid, Fid>
    var nameLock: set<LockKey>

    /** Every disk step this incarnation has taken, in order. */
    ghost var taken: seq<DiskStep>

    function S(): State
      reads this
    {
      State(disk, counter, fidCache, epoch)
    }

    ghost function M(): Moment
      reads this
    {
      Moment(S(), taken, nameLock)
    }

    ghost predicate Valid()
      reads this
    {
      Sane(M())
    }

    /** A new incarnation over what the last one left: empty cache, next counter value as epoch. */
    constructor (disk: Disk, counter: Fid)
      requires TreeInv(disk) && FreshAbove(disk, counter)
      ensures Valid() && S() == State(disk, counter + 1, map[], counter) && taken == []
    {
      this.disk, this.counter, this.epoch := disk, counter + 1, counter;
      fidCache, nameLock, taken := map[], {}, [];
    }

    // ---------- Finding a file ----------

    /** Breadth-first search from the root over files that have both a numbered and a named file. */
    method FindNoCache(f: Fid) returns (r: Option<(Path, seq<(Fid, Fid)>)>, ghost dequeued: seq<Fid>)
      requires Rooted(disk)
      ensures Once(disk, dequeued)
      ensures r.None? <==> !Live(disk, f)
      ensures r.Some? ==> IsPath(disk, r.value.0) && Last(r.value.0) == f && r.value.1 == Pairs(r.value.0)
    {
      var queue: seq<Path> := [[ROOT]];
      ghost var visited: set<Fid> := {};
      dequeued := [];
      while queue != []
        invariant Searching(disk, queue, visited)
        invariant f !in visited
        invariant Once(disk, dequeued) && forall g :: g in visited <==> g in dequeued
        decreases disk.objs.Keys - visited
      {
        var path, rest := queue[0], queue[1..];
        assert queue == [path] + rest && path in queue;
        var cur := Last(path);
        PathShape(disk, path);
        OnceMore(disk, dequeued, path);
        dequeued := dequeued + [cur];
        if cur == f {
          return Some((path, Pairs(path))), dequeued;
        }
        var found: seq<Path> := [];
        if IsDir(disk, cur) {
          found := Expand(path, cur);
        }
        Expanded(disk, path, rest, found, visited);
        queue := rest + found;
        visited := visited + {cur};
      }
      if Live(disk, f) {
        forall v, c | v in visited && Edge(disk, v, c) ensures c in visited {
          assert !Queued(queue, c);
        }
        ClosedHoldsPaths(disk, visited, PathTo(disk, f));
      }
      return None, dequeued;
    }

    /** The children of a directory, each once, in any order. */
    method Expand(path: Path, dir: Fid) returns (found: seq<Path>)
      ensures IsExpansion(disk, path, dir, found)
    {
      var numbered := set g | g in disk.objs && disk.objs[g].parent == dir;
      var extracted := set x | x in disk.names && x.dir == dir :: x.fid;
      var both := numbered * extracted;
      assert both == Children(disk, dir) by {
        forall g ensures g in both <==> g in Children(disk, dir) {
          if g in both {
            var x :| x in disk.names && x.dir == dir && x.fid == g;
            assert Paired(disk, x);
          }
        }
      }
      found := [];
      var todo := both;
      while todo != {}
        invariant todo <= both
        invariant forall g :: g in both - todo <==> path + [g] in found
        invariant forall p | p in found :: exists g | g in both :: p == path + [g]
        invariant forall i, j | 0 <= i < j < |found| :: found[i] != found[j]
        decreases todo
      {
        var g :| g in todo;
        forall h ensures h in both - (todo - {g}) <==> path + [h] in found + [path + [g]] {
          assert path + [h] == path + [g] ==> (path + [h])[|path|] == (path + [g])[|path|];
        }
        found := found + [path + [g]];
        todo := todo - {g};
      }
    }

    /** Reverse lookup through the cache; a search where the cache does not know. */
    method FindCached(f: Fid) returns (r: Option<(Path, seq<(Fid, Fid)>)>)
      requires TreeInv(disk) && CacheRight(disk, fidCache)
      ensures r.None? <==> !Live(disk, f)
      ensures r.Some? ==> IsPath(disk, r.value.0) && Last(r.value.0) == f && TrueLinks(disk, r.value.1)
      ensures r.Some? ==> AllLinks(fidCache, r.value.1, r.value.0)
      decreases Depth(disk, f)
    {
      LinkedIsLive(disk, f);
      if f == ROOT {
        return Some(([ROOT], []));
      } else if f in fidCache {
        ParentDepth(disk, f);
        var up := FindCached(fidCache[f]);
        match up
        case None => return None;
        case Some((path, toCache)) =>
          PathUnique(disk, path, PathTo(disk, fidCache[f]));
          return Some((path + [f], toCache));
      } else {
        ghost var dequeued;
        r, dequeued := FindNoCache(f);
        if r.Some? {
          PairsAreLinks(disk, r.value.0);
          PairsAreAll(r.value.0, fidCache);
        }
      }
    }

    /** Add parent links to the cache. */
    method Extend(toCache: seq<(Fid, Fid)>)
      requires CacheRight(disk, fidCache) && TrueLinks(disk, toCache)
      modifies this`fidCache
      ensures CacheRight(disk, fidCache) && Learned(disk, old(fidCache), fidCache)
      ensures forall i | 0 <= i < |toCache| :: toCache[i].0 in fidCache
    {
      var i := 0;
      while i < |toCache|
        invariant 0 <= i <= |toCache|
        invariant CacheRight(disk, fidCache) && Learned(disk, old(fidCache), fidCache)
        invariant forall j | 0 <= j < i :: toCache[j].0 in fidCache
      {
        fidCache := fidCache[toCache[i].0 := toCache[i].1];
        i := i + 1;
      }
    }

    /** Find a file by fid and remember what the search has learned: then the cache knows the whole way. */
    method FindByFid(f: Fid) returns (r: Option<Path>)
      requires Valid()
      modifies this`fidCache
      ensures Valid() && Learned(disk, old(fidCache), fidCache)
      ensures r == Search(disk, f)
      ensures r.Some? ==> AllLinks(fidCache, [], r.value)
    {
      var found := FindCached(f);
      match found
      case None => return None;
      case Some((path, toCache)) =>
        Extend(toCache);
        PathUnique(disk, path, PathTo(disk, f));
        return Some(path);
    }

    /** Find a name in a directory among the named files that have their numbered file. */
    method FindByName(dir: Fid, name: Name) returns (r: Option<Fid>)
      requires name != "" && IsDir(disk, dir)
      ensures r.None? <==> !Taken(disk, dir, name)
      ensures r.Some? ==> Called(disk, Named(dir, r.value, name), dir, name)
    {
      var todo := set x | x in disk.names && x.dir == dir;
      while todo != {}
        invariant forall x | x in disk.names && x.dir == dir && x !in todo :: !(x.name == name && Paired(disk, x))
        invariant forall x | x in todo :: x in disk.names && x.dir == dir
        decreases todo
      {
        var x :| x in todo;
        if x.name == name && x.fid in disk.objs && disk.objs[x.fid].parent == dir {
          assert x == Named(dir, x.fid, name) && Paired(disk, x);
          return Some(x.fid);
        }
        todo := todo - {x};
      }
      return None;
    }

    // ---------- The name lock ----------

    method LockName(key: LockKey) returns (ok: bool)
      modifies this`nameLock
      ensures ok == (key !in old(nameLock)) && nameLock == old(nameLock) + {key}
    {
      ok := key !in nameLock;
      nameLock := nameLock + {key};
    }

    method UnlockName(key: LockKey)
      requires key in nameLock
      modifies this`nameLock
      ensures nameLock == old(nameLock) - {key}
    {
      nameLock := nameLock - {key};
    }

    // ---------- Disk steps ----------

    method DiskDo(s: DiskStep)
      modifies this`disk, this`taken
      ensures disk == Do(old(disk), s) && taken == old(taken) + [s]
    {
      disk := Do(disk, s);
      taken := taken + [s];
    }

    /** The host's rename: refuses to move a directory below itself. */
    method HostMove(f: Fid, dir: Fid, dirPath: Path) returns (ok: bool)
      modifies this`disk, this`taken
      ensures ok == (f !in dirPath)
      ensures ok ==> disk == Do(old(disk), Move(f, dir)) && taken == old(taken) + [Move(f, dir)]
      ensures !ok ==> disk == old(disk) && taken == old(taken)
    {
      ok := f !in dirPath;
      if ok {
        DiskDo(Move(f, dir));
      }
    }

    method FetchInc() returns (v: Fid)
      modifies this`counter
      ensures v == old(counter) && counter == v + 1
    {
      v := counter;
      counter := counter + 1;
    }

    // ---------- The handlers ----------

    /** The numbered file goes, then the cache entry, then the named file. */
    method DeleteObj(dir: Fid, f: Fid, name: Name)
      modifies this`disk, this`taken, this`fidCache
      ensures var m, a, b := old(M()), DelNumbered(f), DelNamed(Named(dir, f, name));
        M() == AfterAnswer(m, Do(Do(m.s.disk, a), b), m.s.next, m.s.cache - {f}, [a, b])
    {
      DiskDo(DelNumbered(f));
      fidCache := fidCache - {f};
      DiskDo(DelNamed(Named(dir, f, name)));
    }

    /** A new fid, its numbered file or directory, then its named file. */
    method CreateObj(dir: Fid, name: Name, isFile: bool) returns (f: Fid)
      modifies this`counter, this`disk, this`taken
      ensures f == old(counter) && counter == f + 1
      ensures var a, b := AddNumbered(f, dir, NewNode(isFile)), AddNamed(Named(dir, f, name));
        disk == Do(Do(old(disk), a), b) && taken == old(taken) + [a, b]
    {
      f := FetchInc();
      DiskDo(AddNumbered(f, dir, NewNode(isFile)));
      DiskDo(AddNamed(Named(dir, f, name)));
    }

    /** The part of CREATE and MKDIR that works under the name lock. */
    method CreateLocked(dir: Fid, key: LockKey, name: Name, isFile: bool) returns (reply: Reply, ghost t: Step)
      requires Sane(M().(lock := nameLock - {key})) && key in nameLock && Live(disk, dir) && IsDir(disk, dir) &&
        name != ""
      modifies this
      ensures nameLock == old(nameLock) - {key} && Valid() && t.Answer? && t.learned == old(fidCache)
      ensures Handled(old(M()).(lock := nameLock), Handling(Make(dir, name, isFile), Some(reply), t), M())
    {
      ghost var rpc := Make(dir, name, isFile);
      var already := FindByName(dir, name);
      if already.Some? {
        UnlockName(key);
        NoSteps(old(M()).(lock := nameLock), rpc, Fail(EXIST), fidCache);
        return Fail(EXIST), Answer(rpc, [], Fail(EXIST), fidCache);
      }
      ghost var m := old(M()).(lock := nameLock - {key});
      MakeDone(m, dir, name, isFile);
      var f := CreateFree(dir, key, name, isFile);
      return Done(f), Answer(rpc, CreatePlan(dir, f, name, NewNode(isFile)), Done(f), old(fidCache));
    }

    /** The name is free: make the object, release the name, and remember its parent. */
    method CreateFree(dir: Fid, key: LockKey, name: Name, isFile: bool) returns (f: Fid)
      requires key in nameLock
      modifies this
      ensures f == old(counter)
      ensures var m, a, b := old(M()), AddNumbered(f, dir, NewNode(isFile)), AddNamed(Named(dir, f, name));
        M() == AfterAnswer(m.(lock := m.lock - {key}), Do(Do(m.s.disk, a), b), f + 1, m.s.cache[f := dir], [a, b])
    {
      f := CreateObj(dir, name, isFile);
      UnlockName(key);
      fidCache := fidCache[f := dir];
    }

    /** CREATE and MKDIR. */
    method CreateObject(dir: Fid, name: Name, isFile: bool) returns (reply: Option<Reply>, ghost t: Step)
      requires Valid()
      modifies this
      ensures Valid()
      ensures Handled(old(M()), Handling(Make(dir, name, isFile), reply, t), M())
    {
      ghost var rpc := Make(dir, name, isFile);
      var found := FindByFid(dir);
      if found.Some? && IsDir(disk, dir) {
        ghost var mid := M();
        reply, t := CreateIn(dir, found.value, name, isFile);
        AfterLookups(old(M()), mid.s.cache, Handling(rpc, reply, t), M());
        return;
      }
      var r := Fail(if found.None? then STALE else NOTDIR);
      NoSteps(old(M()), rpc, r, fidCache);
      return Some(r), Answer(rpc, [], r, fidCache);
    }

    /** CREATE and MKDIR in a directory that was found: lock the name, check it, and go ahead. */
    method CreateIn(dir: Fid, dirPath: Path, name: Name, isFile: bool) returns (reply: Option<Reply>, ghost t: Step)
      requires Valid() && Live(disk, dir) && IsDir(disk, dir) && dirPath == PathTo(disk, dir)
      modifies this
      ensures Valid() && t.Answer? && t.learned == old(fidCache)
      ensures !Asserted(old(disk), Make(dir, name, isFile)) ==> fidCache == old(fidCache)
      ensures Handled(old(M()), Handling(Make(dir, name, isFile), reply, t), M())
    {
      ghost var rpc := Make(dir, name, isFile);
      var key := (dirPath, name);
      t := Answer(rpc, [], Fail(EXIST), fidCache);
      var locked := LockName(key);
      if !locked || name == "" {
        reply := if locked then None else Some(Fail(EXIST));
        Panicked(old(M()), Handling(rpc, reply, t), fidCache, nameLock);
        return;
      }
      assert nameLock - {key} == old(nameLock);
      var r;
      r, t := CreateLocked(dir, key, name, isFile);
      return Some(r), t;
    }

    /** REMOVE and RMDIR. */
    method RemoveObject(dir: Fid, name: Name, isFile: bool) returns (reply: Option<Reply>, ghost t: Step)
      requires Valid()
      modifies this
      ensures Valid()
      ensures Handled(old(M()), Handling(Unmake(dir, name, isFile), reply, t), M())
    {
      ghost var rpc := Unmake(dir, name, isFile);
      var found := FindByFid(dir);
      if found.Some? && IsDir(disk, dir) {
        ghost var mid := M();
        reply, t := RemoveIn(dir, name, isFile);
        AfterLookups(old(M()), mid.s.cache, Handling(rpc, reply, t), M());
        return;
      }
      var r := Fail(if found.None? then STALE else NOTDIR);
      NoSteps(old(M()), rpc, r, fidCache);
      return Some(r), Answer(rpc, [], r, fidCache);
    }

    /** REMOVE and RMDIR in a directory that was found. */
    method RemoveIn(dir: Fid, name: Name, isFile: bool) returns (reply: Option<Reply>, ghost t: Step)
      requires Valid() && Live(disk, dir) && IsDir(disk, dir)
      modifies this
      ensures Valid() && t.Answer? && t.learned == old(fidCache)
      ensures !Asserted(old(disk), Unmake(dir, name, isFile)) ==> fidCache == old(fidCache)
      ensures Handled(old(M()), Handling(Unmake(dir, name, isFile), reply, t), M())
    {
      ghost var rpc := Unmake(dir, name, isFile);
      if name == "" {
        t := Answer(rpc, [], Fail(STALE), fidCache);
        Panicked(old(M()), Handling(rpc, None, t), fidCache, nameLock);
        return None, t;
      }
      var fid := FindByName(dir, name);
      var code: Code;
      if fid.None? {
        code := NOENT;
      } else {
        var f := fid.value;
        if isFile && IsDir(disk, f) {
          code := ISDIR;
        } else if !isFile && !IsDir(disk, f) {
          code := NOTDIR;
        } else if !isFile && !Empty(disk, f) {
          code := NOTEMPTY;
        } else {
          UnmakeDone(old(M()), dir, name, isFile, f);
          DeleteObj(dir, f, name);
          return Some(Done(f)), Answer(rpc, RemovePlan(dir, f, name), Done(f), old(fidCache));
        }
        assert Called(disk, Named(dir, f, name), dir, name);
      }
      NoSteps(old(M()), rpc, Fail(code), fidCache);
      return Some(Fail(code)), Answer(rpc, [], Fail(code), fidCache);
    }

    /** RENAME. */
    method RenameObject(od: Fid, on: Name, nd: Fid, nn: Name) returns (reply: Option<Reply>, ghost t: Step)
      requires Valid()
      modifies this
      ensures Valid()
      ensures Handled(old(M()), Handling(Rename(od, on, nd, nn), reply, t), M())
    {
      ghost var rpc := Rename(od, on, nd, nn);
      var oldDir := FindByFid(od);
      if oldDir.Some? {
        var newDir := FindByFid(nd);
        if newDir.Some? {
          ghost var mid := M();
          reply, t := RenameIn(od, on, nd, nn, newDir.value);
          AfterLookups(old(M()), mid.s.cache, Handling(rpc, reply, t), M());
          return;
        }
      }
      NoSteps(old(M()), rpc, Fail(STALE), fidCache);
      return Some(Fail(STALE)), Answer(rpc, [], Fail(STALE), fidCache);
    }

    /** RENAME between directories that were found. */
    method RenameIn(od: Fid, on: Name, nd: Fid, nn: Name, ndPath: Path) returns (reply: Option<Reply>, ghost t: Step)
      requires Valid() && Live(disk, od) && Live(disk, nd) && ndPath == PathTo(disk, nd)
      modifies this
      ensures Valid() && t.Answer? && t.learned == old(fidCache)
      ensures !Asserted(old(disk), Rename(od, on, nd, nn)) ==> fidCache == old(fidCache)
      ensures Handled(old(M()), Handling(Rename(od, on, nd, nn), reply, t), M())
    {
      ghost var rpc := Rename(od, on, nd, nn);
      if on == "" || !IsDir(disk, od) {
        t := Answer(rpc, [], Fail(STALE), fidCache);
        Panicked(old(M()), Handling(rpc, None, t), fidCache, nameLock);
        return None, t;
      }
      var fid := FindByName(od, on);
      if fid.Some? {
        reply, t := RenameFound(fid.value, od, on, nd, nn, ndPath);
        return;
      }
      NoSteps(old(M()), rpc, Fail(NOENT), fidCache);
      return Some(Fail(NOENT)), Answer(rpc, [], Fail(NOENT), fidCache);
    }

    /** RENAME once the file is found: lock the new name, check it, and go ahead. */
    method RenameFound(f: Fid, od: Fid, on: Name, nd: Fid, nn: Name, ndPath: Path)
        returns (reply: Option<Reply>, ghost t: Step)
      requires Valid() && Live(disk, od) && Live(disk, nd) && ndPath == PathTo(disk, nd)
      requires on != "" && IsDir(disk, od) && Called(disk, Named(od, f, on), od, on)
      modifies this
      ensures Valid() && t.Answer? && t.learned == old(fidCache)
      ensures !Asserted(old(disk), Rename(od, on, nd, nn)) ==> fidCache == old(fidCache)
      ensures Handled(old(M()), Handling(Rename(od, on, nd, nn), reply, t), M())
    {
      ghost var rpc := Rename(od, on, nd, nn);
      var key := (ndPath, nn);
      t := Answer(rpc, [], Fail(EXIST), fidCache);
      assert Taken(disk, od, on);
      var locked := LockName(key);
      if !locked || nn == "" || !IsDir(disk, nd) {
        reply := if locked then None else Some(Fail(EXIST));
        Panicked(old(M()), Handling(rpc, reply, t), fidCache, nameLock);
        return;
      }
      var already := FindByName(nd, nn);
      if already.Some? {
        UnlockName(key);
        assert nameLock == old(nameLock);
        NoSteps(old(M()), rpc, Fail(EXIST), fidCache);
        return Some(Fail(EXIST)), t;
      }
      if f in ndPath {
        RenameRefused(old(M()), f, od, on, nd, nn);
      } else {
        RenameFinished(old(M()), f, od, on, nd, nn);
      }
      var r;
      r, t := FreeNameRename(f, od, on, nd, nn, ndPath);
      assert nameLock == old(nameLock);
      return Some(r), t;
    }

    /** The part of RENAME that owns the new name: publish it, move the file, drop the old name. */
    method FreeNameRename(f: Fid, od: Fid, on: Name, nd: Fid, nn: Name, ndPath: Path)
        returns (reply: Reply, ghost t: Step)
      requires (ndPath, nn) in nameLock && (f in fidCache ==> fidCache[f] == od)
      modifies this
      ensures counter == old(counter) && epoch == old(epoch) && nameLock == old(nameLock) - {(ndPath, nn)}
      ensures var a, b, c := AddNamed(Named(nd, f, nn)), Move(f, nd), DelNamed(Named(od, f, on));
        if f in ndPath then
          && reply == Fail(IOERR) && t == Answer(Rename(od, on, nd, nn), [a], reply, old(fidCache))
          && disk == Do(old(disk), a) && fidCache == old(fidCache) && taken == old(taken) + [a]
        else
          && reply == Done(f) && t == Answer(Rename(od, on, nd, nn), [a, b, c], reply, old(fidCache))
          && disk == Do(Do(Do(old(disk), a), b), c) && fidCache == old(fidCache)[f := nd] &&
               taken == old(taken) + [a, b, c]
    {
      DiskDo(AddNamed(Named(nd, f, nn)));
      var moved := HostMove(f, nd, ndPath);
      if !moved {
        UnlockName((ndPath, nn));
        return Fail(IOERR), Answer(Rename(od, on, nd, nn), [AddNamed(Named(nd, f, nn))], Fail(IOERR), fidCache);
      }
      t := Answer(Rename(od, on, nd, nn), RenamePlan(f, od, on, nd, nn), Done(f), fidCache);
      assert f in fidCache ==> fidCache[f] == od;
      fidCache := fidCache[f := nd];
      UnlockName((ndPath, nn));
      DiskDo(DelNamed(Named(od, f, on)));
      return Done(f), t;
    }

    /** LOOKUP: only the cache changes. */
    method LookupObject(dir: Fid, name: Name) returns (reply: Option<Reply>, ghost t: Step)
      requires Valid()
      modifies this
      ensures Valid()
      ensures Handled(old(M()), Handling(Lookup(dir, name), reply, t), M())
    {
      ghost var rpc := Lookup(dir, name);
      var found := FindByFid(dir);
      var r: Reply;
      if found.None? {
        r := Fail(STALE);
      } else if !IsDir(disk, dir) {
        r := Fail(NOTDIR);
      } else if name == "" {
        t := Answer(rpc, [], Fail(STALE), fidCache);
        Panicked(old(M()), Handling(rpc, None, t), fidCache, nameLock);
        return None, t;
      } else {
        var fid := FindByName(dir, name);
        r := if fid.None? then Fail(NOENT) else Done(fid.value);
        assert fid.Some? ==> Called(disk, Named(dir, fid.value, name), dir, name);
      }
      NoSteps(old(M()), rpc, r, fidCache);
      return Some(r), Answer(rpc, [], r, fidCache);
    }

    /** READDIR: a page of what the tree shows in the directory, by ascending fid; only the cache changes. */
    method ReadDirectory(dir: Fid, offset: nat, entrySize: nat)
        returns (reply: DirReply, ghost all: seq<R.DirEntry>)
      requires Valid() && entrySize > 0
      modifies this`fidCache
      ensures Valid() && Learned(disk, old(fidCache), fidCache)
      ensures reply == Refused(STALE) <==> !T.InTree(View(disk), dir)
      ensures reply == Refused(NOTDIR) <==> T.InTree(View(disk), dir) && !T.IsDirectory(View(disk), dir)
      ensures reply.Refused? ==> reply.code in {STALE, NOTDIR}
      ensures reply.Entries? ==>
        && (forall e :: e in all <==> R.IsEntry(disk, dir, e))
        && (forall i, j | 0 <= i < j < |all| :: all[i] != all[j] && all[i].fid <= all[j].fid)
        && reply.page == R.Page(all, offset, entrySize)
    {
      all := [];
      T.TreeLive(disk, dir);
      var found := FindByFid(dir);
      if found.None? {
        return Refused(STALE), all;
      }
      if !IsDir(disk, dir) {
        return Refused(NOTDIR), all;
      }
      var page;
      page, all := R.HandleReadDir(disk, dir, offset, entrySize);
      forall e ensures e in all <==> R.IsEntry(disk, dir, e) {
        R.ListingExactly(disk, dir, e);
      }
      return Entries(page), all;
    }
  }

  // ---------- One step of the search ----------

  /** The paths to the children of the directory at the end of path, each once. */
  ghost predicate IsExpansion(d: Disk, path: Path, dir: Fid, found: seq<Path>) {
    && (forall g :: g in Children(d, dir) <==> path + [g] in found)
    && (forall p | p in found :: exists g | g in Children(d, dir) :: p == path + [g])
    && (forall i, j | 0 <= i < j < |found| :: found[i] != found[j])
  }

  /** Dequeuing a path, visiting its end and queueing its children keeps the search on course. */
  lemma Expanded(d: Disk, path: Path, rest: seq<Path>, found: seq<Path>, visited: set<Fid>)
    requires Rooted(d) && Searching(d, [path] + rest, visited) && IsPath(d, path)
    requires if IsDir(d, Last(path)) then IsExpansion(d, path, Last(path), found) else found == []
    ensures Searching(d, rest + found, visited + {Last(path)})
  {
    var cur := Last(path);
    var queue, queue', visited' := [path] + rest, rest + found, visited + {cur};
    PathShape(d, path);
    assert path in queue && queue[0] == path;
    forall p | p in found
      ensures |p| > 1 && p[|p| - 2] == cur && Edge(d, cur, Last(p)) && p == path + [Last(p)] && IsPath(d, p)
    {
      var g :| g in Children(d, cur) && p == path + [g];
      assert Last(p) == g && Edge(d, cur, g);
      PathStep(d, path, g);
    }
    forall p | p in queue' ensures IsPath(d, p) && Last(p) !in visited' && (|p| > 1 ==> p[|p| - 2] in visited') {
      if p in rest {
        assert p in queue;
        var i :| 0 <= i < |rest| && rest[i] == p;
        assert queue[i + 1] == p && Last(queue[0]) != Last(queue[i + 1]);
      } else {
        ChildIsNew(d, path, rest, visited, Last(p));
      }
    }
    EndsDistinct(d, path, rest, found, visited);
    forall v, c | v in visited' && Edge(d, v, c) ensures c in visited' || Queued(queue', c) {
      if v == cur {
        assert c in Children(d, cur) && path + [c] in found;
        assert path + [c] in queue' && Last(path + [c]) == c;
      } else if c !in visited {
        var p :| p in queue && Last(p) == c;
        assert p == path || p in queue';
      }
    }
    assert ROOT in visited' by {
      if ROOT !in visited {
        assert queue == [[ROOT]] && path == [ROOT];
      }
    }
    if cur != ROOT {
      assert path[|path| - 2] in visited;
    }
  }

  /** The queue and the paths found at the file just dequeued. */
  ghost predicate Extending(d: Disk, path: Path, rest: seq<Path>, found: seq<Path>, visited: set<Fid>) {
    && Rooted(d) && Searching(d, [path] + rest, visited) && IsPath(d, path)
    && (forall p | p in found :: Edge(d, Last(path), Last(p)) && p == path + [Last(p)])
    && (forall i, j | 0 <= i < j < |found| :: found[i] != found[j])
  }

  lemma QueuedDistinct(d: Disk, path: Path, rest: seq<Path>, visited: set<Fid>, i: nat, j: nat)
    requires Searching(d, [path] + rest, visited) && i < j < |rest|
    ensures Last(rest[i]) != Last(rest[j])
  {
    var queue := [path] + rest;
    assert queue[i + 1] == rest[i] && queue[j + 1] == rest[j];
  }

  lemma FoundIsNew(d: Disk, path: Path, rest: seq<Path>, found: seq<Path>, visited: set<Fid>, p: Path, q: Path)
    requires Extending(d, path, rest, found, visited) && p in rest && q in found
    ensures Last(p) != Last(q)
  {
    ChildIsNew(d, path, rest, visited, Last(q));
  }

  lemma FoundDistinct(path: Path, found: seq<Path>, i: nat, j: nat)
    requires i < j < |found| && found[i] != found[j]
    requires found[i] == path + [Last(found[i])] && found[j] == path + [Last(found[j])]
    ensures Last(found[i]) != Last(found[j])
  {}

  lemma EndsDistinct(d: Disk, path: Path, rest: seq<Path>, found: seq<Path>, visited: set<Fid>)
    requires Extending(d, path, rest, found, visited)
    ensures forall i, j | 0 <= i < j < |rest + found| :: Last((rest + found)[i]) != Last((rest + found)[j])
  {
    var all, n := rest + found, |rest|;
    forall i, j | 0 <= i < j < |all| ensures Last(all[i]) != Last(all[j]) {
      if j < n {
        QueuedDistinct(d, path, rest, visited, i, j);
      } else if i < n {
        FoundIsNew(d, path, rest, found, visited, rest[i], found[j - n]);
      } else {
        FoundDistinct(path, found, i - n, j - n);
      }
    }
  }
}
