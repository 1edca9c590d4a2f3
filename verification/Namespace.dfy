/** The server's directory tree on disk: numbered files that hold the data and sit at one
    place, named files fid.name that give a file its name, and the rule that a file exists
    only where both lie in the same directory. */
module Namespace {
  import opened Content

  type Name = string

  const ROOT: Fid := 1

  datatype Node = File(content: Bytes) | Dir

  /** A numbered file and the directory it is in. */
  datatype Obj = Obj(parent: Fid, node: Node)

  /** The named file fid.name in directory dir. */
  datatype Named = Named(dir: Fid, fid: Fid, name: Name)

  datatype Disk = Disk(objs: map<Fid, Obj>, names: set<Named>)

  /** The named file has its numbered file beside it. */
  predicate Paired(d: Disk, x: Named) {
    x in d.names && x.fid in d.objs && d.objs[x.fid].parent == x.dir
  }

  /** The numbered file has some named file beside it. */
  predicate Linked(d: Disk, f: Fid) {
    exists x | x in d.names :: x.fid == f && Paired(d, x)
  }

  predicate IsDir(d: Disk, f: Fid) {
    f in d.objs && d.objs[f].node.Dir?
  }

  // ---------- Paths ----------

  predicate Edge(d: Disk, parent: Fid, child: Fid) {
    IsDir(d, parent) && child in d.objs && d.objs[child].parent == parent && Linked(d, child)
  }

  /** The fids on the way from the root to a file. */
  type Path = seq<Fid>

  predicate IsPath(d: Disk, p: Path) {
    |p| > 0 && p[0] == ROOT && forall i | 0 < i < |p| :: Edge(d, p[i - 1], p[i])
  }

  /** The file a path leads to; 0 is no fid. */
  function Last(p: Path): Fid {
    if p == [] then 0 else p[|p| - 1]
  }

  ghost predicate Live(d: Disk, f: Fid) {
    exists p :: IsPath(d, p) && Last(p) == f
  }

  ghost function PathTo(d: Disk, f: Fid): (p: Path)
    requires Live(d, f)
    ensures IsPath(d, p) && Last(p) == f
  {
    var p :| IsPath(d, p) && Last(p) == f;
    p
  }

  /** The root is a directory and lies in no numbered file. */
  predicate Rooted(d: Disk) {
    ROOT in d.objs && d.objs[ROOT] == Obj(0, Dir) && 0 !in d.objs
  }

  lemma PathShape(d: Disk, p: Path)
    requires Rooted(d) && IsPath(d, p)
    ensures Last(p) == ROOT <==> |p| == 1
    ensures Last(p) in d.objs
    ensures |p| > 1 ==> IsPath(d, p[..|p| - 1]) && Edge(d, p[|p| - 2], Last(p))
  {
    if |p| > 1 {
      assert Edge(d, p[|p| - 1 - 1], p[|p| - 1]);
    }
  }

  lemma PathStep(d: Disk, p: Path, child: Fid)
    requires IsPath(d, p) && Edge(d, Last(p), child)
    ensures IsPath(d, p + [child]) && Live(d, child)
  {
    var q := p + [child];
    assert IsPath(d, q) && Last(q) == child;
  }

  /** A numbered file is in one place, so there is only one path to it. */
  lemma {:induction false} PathUnique(d: Disk, p: Path, q: Path)
    requires Rooted(d) && IsPath(d, p) && IsPath(d, q) && Last(p) == Last(q)
    ensures p == q
    decreases |p|
  {
    PathShape(d, p);
    PathShape(d, q);
    if |p| <= 1 {
    } else {
      PathUnique(d, p[..|p| - 1], q[..|q| - 1]);
      assert p == p[..|p| - 1] + [Last(p)] && q == q[..|q| - 1] + [Last(q)];
    }
  }

  lemma PathPrefix(d: Disk, p: Path, i: nat)
    requires IsPath(d, p) && i < |p|
    ensures IsPath(d, p[..i + 1]) && Last(p[..i + 1]) == p[i] && Live(d, p[i])
  {
    var q := p[..i + 1];
    assert IsPath(d, q) && Last(q) == p[i];
  }

  lemma PathNoRepeat(d: Disk, p: Path, i: nat, j: nat)
    requires Rooted(d) && IsPath(d, p) && i < |p| && j < |p| && p[i] == p[j]
    ensures i == j
  {
    PathPrefix(d, p, i);
    PathPrefix(d, p, j);
    PathUnique(d, p[..i + 1], p[..j + 1]);
  }

  // ---------- The invariant of the tree ----------

  /** Every numbered file, finished or left by a crash, lies in a live directory. */
  ghost predicate TreeInv(d: Disk) {
    Rooted(d) && forall f | f in d.objs && f != ROOT :: IsDir(d, d.objs[f].parent) && Live(d, d.objs[f].parent)
  }

  /** Having both files is the same as being reachable from the root. */
  lemma LinkedIsLive(d: Disk, f: Fid)
    requires TreeInv(d)
    ensures Live(d, f) <==> f == ROOT || Linked(d, f)
  {
    if Live(d, f) {
      PathShape(d, PathTo(d, f));
    }
    if f == ROOT {
      assert IsPath(d, [ROOT]) && Last([ROOT]) == f;
    } else if Linked(d, f) {
      var x :| x in d.names && x.fid == f && Paired(d, x);
      PathStep(d, PathTo(d, d.objs[f].parent), f);
    }
  }

  // ---------- Disk steps ----------

  datatype DiskStep =
    | AddNumbered(fid: Fid, dir: Fid, node: Node)
    | AddNamed(x: Named)
    | DelNumbered(fid: Fid)
    | DelNamed(x: Named)
    | Move(fid: Fid, dir: Fid)

  function Do(d: Disk, s: DiskStep): Disk {
    match s
    case AddNumbered(f, dir, node) => d.(objs := d.objs[f := Obj(dir, node)])
    case AddNamed(x) => d.(names := d.names + {x})
    case DelNumbered(f) => d.(objs := d.objs - {f})
    case DelNamed(x) => d.(names := d.names - {x})
    case Move(f, dir) => if f in d.objs then d.(objs := d.objs[f := d.objs[f].(parent := dir)]) else d
  }

  function Exec(d: Disk, plan: seq<DiskStep>): Disk
    decreases plan
  {
    if plan == [] then d else Exec(Do(d, plan[0]), plan[1..])
  }

  /** What the host or the handler has made sure of before a step. */
  ghost predicate Allowed(d: Disk, s: DiskStep) {
    match s
    case AddNumbered(f, dir, _) => f !in d.objs && f != 0 && IsDir(d, dir) && Live(d, dir)
    case AddNamed(_) => true
    case DelNumbered(f) => f != ROOT && forall g | g in d.objs :: d.objs[g].parent != f
    case DelNamed(x) => !Paired(d, x) || exists y :: y != x && y.fid == x.fid && Paired(d, y)
    case Move(f, dir) =>
      && f in d.objs && f != ROOT && IsDir(d, dir) && Live(d, dir)
      && f !in PathTo(d, dir)
      && exists x :: x in d.names && x.fid == f && x.dir == dir
  }

  /** A path whose files keep their place and their link is a path of the new disk. */
  lemma PathKept(d: Disk, d': Disk, p: Path)
    requires IsPath(d, p)
    requires forall f | f in p && f in d.objs ::
      f in d'.objs && d'.objs[f] == d.objs[f] && (Linked(d, f) ==> Linked(d', f))
    ensures IsPath(d', p) && Live(d', Last(p))
  {
    forall i | 0 < i < |p| ensures Edge(d', p[i - 1], p[i]) {
      assert Edge(d, p[i - 1], p[i]) && p[i - 1] in p && p[i] in p;
    }
  }

  lemma LinkedKept(d: Disk, d': Disk, f: Fid)
    requires Linked(d, f) && f in d'.objs && d'.objs[f].parent == d.objs[f].parent && d.names <= d'.names
    ensures Linked(d', f)
  {
    var x :| x in d.names && x.fid == f && Paired(d, x);
    assert Paired(d', x);
  }

  lemma AddNumberedKeepsTree(d: Disk, f: Fid, dir: Fid, node: Node)
    requires TreeInv(d) && Allowed(d, AddNumbered(f, dir, node))
    ensures TreeInv(Do(d, AddNumbered(f, dir, node)))
  {
    var d' := Do(d, AddNumbered(f, dir, node));
    forall g | g in d'.objs && g != ROOT ensures IsDir(d', d'.objs[g].parent) && Live(d', d'.objs[g].parent) {
      KeepsLive(d, d', d'.objs[g].parent);
    }
  }

  lemma KeepsLive(d: Disk, d': Disk, f: Fid)
    requires Live(d, f) && d.names <= d'.names
    requires forall g | g in d.objs :: g in d'.objs && d'.objs[g] == d.objs[g]
    ensures Live(d', f)
  {
    var p := PathTo(d, f);
    forall g | g in p && g in d.objs && Linked(d, g) ensures Linked(d', g) {
      LinkedKept(d, d', g);
    }
    PathKept(d, d', p);
  }

  lemma AddNamedKeepsTree(d: Disk, x: Named)
    requires TreeInv(d)
    ensures TreeInv(Do(d, AddNamed(x)))
  {
    var d' := Do(d, AddNamed(x));
    forall g | g in d'.objs && g != ROOT ensures Live(d', d'.objs[g].parent) {
      KeepsLive(d, d', d'.objs[g].parent);
    }
  }

  lemma DelNumberedKeepsTree(d: Disk, f: Fid)
    requires TreeInv(d) && Allowed(d, DelNumbered(f))
    ensures TreeInv(Do(d, DelNumbered(f)))
  {
    var d' := Do(d, DelNumbered(f));
    forall g | g in d'.objs && g != ROOT ensures Live(d', d'.objs[g].parent) {
      var p := PathTo(d, d.objs[g].parent);
      forall i | 0 <= i < |p| ensures p[i] != f {
        if i + 1 < |p| {
          assert Edge(d, p[i + 1 - 1], p[i + 1]);
        }
      }
      forall e | e in p && e in d.objs && Linked(d, e) ensures Linked(d', e) {
        LinkedKept(d, d', e);
      }
      PathKept(d, d', p);
    }
  }

  lemma DelNamedKeepsTree(d: Disk, x: Named)
    requires TreeInv(d) && Allowed(d, DelNamed(x))
    ensures TreeInv(Do(d, DelNamed(x)))
  {
    var d' := Do(d, DelNamed(x));
    forall g | g in d'.objs && g != ROOT ensures Live(d', d'.objs[g].parent) {
      var p := PathTo(d, d.objs[g].parent);
      forall e | e in p && e in d.objs && Linked(d, e) ensures Linked(d', e) {
        var y :| y in d.names && y.fid == e && Paired(d, y);
        if y == x {
          var z :| z != x && z.fid == x.fid && Paired(d, z);
          assert Paired(d', z);
        } else {
          assert Paired(d', y);
        }
      }
      PathKept(d, d', p);
    }
  }

  /** A move outside the file's own subtree takes the subtree along: what was live stays live. */
  lemma MoveKeepsLive(d: Disk, f: Fid, dir: Fid, g: Fid)
    requires Rooted(d) && Allowed(d, Move(f, dir)) && Live(d, g)
    ensures Live(Do(d, Move(f, dir)), g)
  {
    var d' := Do(d, Move(f, dir));
    var p, q := PathTo(d, g), PathTo(d, dir);
    forall e | e in d.objs && e != f && Linked(d, e) ensures Linked(d', e) {
      LinkedKept(d, d', e);
    }
    PathKept(d, d', q);
    if f in p {
      var j :| 0 <= j < |p| && p[j] == f;
      var x :| x in d.names && x.fid == f && x.dir == dir;
      assert Paired(d', x);
      var r := q + p[j..];
      forall i | 0 < i < |r| ensures Edge(d', r[i - 1], r[i]) {
        if i < |q| {
          assert Edge(d', q[i - 1], q[i]);
        } else if i > |q| {
          var k := j + i - |q|;
          assert r[i] == p[k] && r[i - 1] == p[k - 1] && Edge(d, p[k - 1], p[k]);
          if p[k] == f {
            PathNoRepeat(d, p, j, k);
          }
        }
      }
      assert IsPath(d', r) && Last(r) == g;
    } else {
      PathKept(d, d', p);
    }
  }

  lemma MoveKeepsTree(d: Disk, f: Fid, dir: Fid)
    requires TreeInv(d) && Allowed(d, Move(f, dir))
    ensures TreeInv(Do(d, Move(f, dir)))
  {
    var d' := Do(d, Move(f, dir));
    forall g | g in d'.objs && g != ROOT ensures Live(d', d'.objs[g].parent) {
      MoveKeepsLive(d, f, dir, d'.objs[g].parent);
    }
  }

  lemma StepKeepsTree(d: Disk, s: DiskStep)
    requires TreeInv(d) && Allowed(d, s)
    ensures TreeInv(Do(d, s))
  {
    match s
    case AddNumbered(f, dir, node) => AddNumberedKeepsTree(d, f, dir, node);
    case AddNamed(x) => AddNamedKeepsTree(d, x);
    case DelNumbered(f) => DelNumberedKeepsTree(d, f);
    case DelNamed(x) => DelNamedKeepsTree(d, x);
    case Move(f, dir) => MoveKeepsTree(d, f, dir);
  }
}
