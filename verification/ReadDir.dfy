/** READDIR in pages: the server sorts and cuts, the client numbers what its reply buffer takes,
    and the kernel asks again from the last number it has. */
module ReadDir {
  import opened Content
  import opened Namespace
  import opened CrashAtomicity

  datatype DirEntry = DirEntry(fid: Fid, name: Name, isDir: bool)

  /** The live entries of a directory: named files that have their numbered file beside them. */
  function Listing(d: Disk, dir: Fid): set<DirEntry> {
    set x | x in d.names && x.dir == dir && Paired(d, x) :: DirEntry(x.fid, x.name, IsDir(d, x.fid))
  }

  /** An entry of a directory as the tree shows it: a file in the directory, one of its names, its kind. */
  predicate IsEntry(d: Disk, dir: Fid, e: DirEntry) {
    && e.fid in View(d) && View(d)[e.fid].parent == dir
    && e.name in View(d)[e.fid].names && e.isDir == View(d)[e.fid].node.Dir?
  }

  /** The listing of a directory is just what the tree shows in it: no junk, no other directory's files, no
      wrong kinds, and nothing is missing. */
  lemma ListingExactly(d: Disk, dir: Fid, e: DirEntry)
    requires Rooted(d) && dir != 0
    ensures e in Listing(d, dir) <==> IsEntry(d, dir, e)
  {
    if e in Listing(d, dir) {
      var x :| x in d.names && x.dir == dir && Paired(d, x) && e == DirEntry(x.fid, x.name, IsDir(d, x.fid));
      assert Linked(d, x.fid) && x == Named(dir, x.fid, x.name);
      NamesAt(d, e.fid, e.name);
    }
    if IsEntry(d, dir, e) {
      NamesAt(d, e.fid, e.name);
      var x := Named(dir, e.fid, e.name);
      assert x in d.names && Paired(d, x) && DirEntry(x.fid, x.name, IsDir(d, x.fid)) == e;
    }
  }

  predicate DistinctFids(s: set<DirEntry>) {
    forall a, b | a in s && b in s && a.fid == b.fid :: a == b
  }

  /** The entries of a set, each once, by ascending fid. */
  ghost predicate IsSorting(s: set<DirEntry>, es: seq<DirEntry>) {
    && (forall e :: e in es <==> e in s)
    && (forall i, j | 0 <= i < j < |es| :: es[i] != es[j] && es[i].fid <= es[j].fid)
  }

  lemma {:induction false} SortingSize(s: set<DirEntry>, es: seq<DirEntry>)
    requires IsSorting(s, es)
    ensures |es| == |s|
    decreases |es|
  {
    if es == [] {
      assert s == {};
    } else {
      TailSorting(s, es);
      SortingSize(s - {es[0]}, es[1..]);
      assert es[0] in s;
    }
  }

  /** With distinct fids there is one sorted listing, so all calls cut pages from the same one. */
  lemma {:induction false} SortingUnique(s: set<DirEntry>, es: seq<DirEntry>, fs: seq<DirEntry>)
    requires IsSorting(s, es) && IsSorting(s, fs) && DistinctFids(s)
    ensures es == fs
    decreases |es|
  {
    SortingSize(s, es);
    SortingSize(s, fs);
    if es == [] {
    } else {
      assert es[0] in s && es[0] in fs;
      assert fs[0] in s && fs[0] in es;
      assert es[0] == fs[0];
      var rest := s - {es[0]};
      TailSorting(s, es);
      TailSorting(s, fs);
      SortingUnique(rest, es[1..], fs[1..]);
    }
  }

  lemma TailSorting(s: set<DirEntry>, es: seq<DirEntry>)
    requires IsSorting(s, es) && es != []
    ensures IsSorting(s - {es[0]}, es[1..])
  {
    forall e ensures e in es[1..] <==> e in s - {es[0]} {
      assert e in es <==> e == es[0] || e in es[1..];
    }
  }

  /** Sort a set by fid; entries with the same fid may come in any order. */
  method SortByFid(s: set<DirEntry>) returns (es: seq<DirEntry>)
    ensures IsSorting(s, es)
  {
    es := [];
    var todo := s;
    while todo != {}
      invariant todo <= s && IsSorting(s - todo, es)
      decreases todo
    {
      var e :| e in todo;
      var i := 0;
      while i < |es| && es[i].fid <= e.fid
        invariant 0 <= i <= |es|
        invariant forall j | 0 <= j < i :: es[j].fid <= e.fid
      {
        i := i + 1;
      }
      InsertSorting(s - todo, es, e, i);
      assert s - (todo - {e}) == (s - todo) + {e};
      es := es[..i] + [e] + es[i..];
      todo := todo - {e};
    }
    assert s - todo == s;
  }

  lemma InsertSorting(s: set<DirEntry>, es: seq<DirEntry>, e: DirEntry, i: nat)
    requires IsSorting(s, es) && e !in s && i <= |es|
    requires forall j | 0 <= j < i :: es[j].fid <= e.fid
    requires i < |es| ==> e.fid <= es[i].fid
    ensures IsSorting(s + {e}, es[..i] + [e] + es[i..])
  {
    var fs := es[..i] + [e] + es[i..];
    assert es == es[..i] + es[i..];
    forall x ensures x in fs <==> x in s + {e} {
      assert x in es <==> x in es[..i] || x in es[i..];
    }
    forall k, l | 0 <= k < l < |fs| ensures fs[k] != fs[l] && fs[k].fid <= fs[l].fid {
      InsertedPair(s, es, e, i, k, l);
    }
  }

  lemma InsertedPair(s: set<DirEntry>, es: seq<DirEntry>, e: DirEntry, i: nat, k: nat, l: nat)
    requires IsSorting(s, es) && e !in s && i <= |es| && k < l <= |es|
    requires forall j | 0 <= j < i :: es[j].fid <= e.fid
    requires i < |es| ==> e.fid <= es[i].fid
    ensures var fs := es[..i] + [e] + es[i..];
      fs[k] != fs[l] && fs[k].fid <= fs[l].fid
  {
    var fs := es[..i] + [e] + es[i..];
    var oldK, oldL := if k < i then k else k - 1, if l < i then l else l - 1;
    if k == i {
      assert fs[k] == e && fs[l] == es[oldL] && es[oldL] in s;
      assert i < oldL ==> es[i].fid <= es[oldL].fid;
    } else if l == i {
      assert fs[l] == e && fs[k] == es[k] && es[k] in s;
    } else {
      assert fs[k] == es[oldK] && fs[l] == es[oldL];
    }
  }

  /** The page of a listing at an offset: at most as many entries as fit one message. */
  function Page(all: seq<DirEntry>, offset: nat, entrySize: nat): seq<DirEntry>
    requires entrySize > 0
  {
    if |all| <= offset then [] else all[offset..Min(offset + Min(MAX_BUF_LEN / entrySize, |all|), |all|)]
  }

  /** A page goes on with the listing where the offset is, fits one message, and stops only at the end of the
      listing or where another entry would not fit. */
  lemma PageFits(all: seq<DirEntry>, offset: nat, entrySize: nat)
    requires entrySize > 0 && offset <= |all|
    ensures var n := |Page(all, offset, entrySize)|;
      && offset + n <= |all| && Page(all, offset, entrySize) == all[offset..offset + n]
      && n * entrySize <= MAX_BUF_LEN
      && (offset + n < |all| ==> MAX_BUF_LEN < (n + 1) * entrySize)
  {
    MostFit(entrySize, |Page(all, offset, entrySize)|);
    MostFit(entrySize, |Page(all, offset, entrySize)| + 1);
  }

  lemma TimesMonotone(a: nat, b: nat, e: nat)
    requires a <= b
    ensures a * e <= b * e
  {
    assert 0 <= (b - a) * e == b * e - a * e;
  }

  lemma Quotient(room: nat, e: nat)
    requires e > 0
    ensures (room / e) * e <= room < (room / e) * e + e
  {
    assert room == (room / e) * e + room % e;
  }

  /** How many entries of a size fit one message. */
  lemma MostFit(entrySize: nat, n: nat)
    requires entrySize > 0
    ensures n <= MAX_BUF_LEN / entrySize <==> n * entrySize <= MAX_BUF_LEN
  {
    var most := MAX_BUF_LEN / entrySize;
    Quotient(MAX_BUF_LEN, entrySize);
    if n <= most {
      TimesMonotone(n, most, entrySize);
    } else {
      TimesMonotone(most + 1, n, entrySize);
    }
  }

  lemma PageEmpty(all: seq<DirEntry>, offset: nat, entrySize: nat)
    requires 0 < entrySize <= MAX_BUF_LEN && offset <= |all|
    ensures Page(all, offset, entrySize) == [] <==> offset == |all|
  {
    assert MAX_BUF_LEN / entrySize >= 1;
  }

  /** What a client has taken of a page continues the listing. */
  lemma PagePrefix(all: seq<DirEntry>, offset: nat, entrySize: nat, n: nat)
    requires entrySize > 0 && offset <= |all| && n <= |Page(all, offset, entrySize)|
    ensures offset + n <= |all| && all[..offset] + Page(all, offset, entrySize)[..n] == all[..offset + n]
  {}

  /** The server's handler, on the directory as it is on disk. */
  method HandleReadDir(d: Disk, dir: Fid, offset: nat, entrySize: nat)
      returns (page: seq<DirEntry>, ghost all: seq<DirEntry>)
    requires entrySize > 0
    ensures IsSorting(Listing(d, dir), all) && page == Page(all, offset, entrySize)
  {
    var contents := Listing(d, dir);
    var sorted := SortByFid(contents);
    all := sorted;
    SortingSize(contents, sorted);
    if |contents| <= offset {
      return [], all;
    }
    var numDe := Min(MAX_BUF_LEN / entrySize, |sorted|);
    page := sorted[offset..];
    page := page[..Min(numDe, |page|)];
  }

  /** The client's reply: entries numbered from the offset on, until the buffer is full. */
  method FillReply(page: seq<DirEntry>, offset: nat, room: nat) returns (taken: seq<(DirEntry, nat)>)
    ensures |taken| == Min(room, |page|)
    ensures forall i | 0 <= i < |taken| :: taken[i] == (page[i], offset + 1 + i)
  {
    taken := [];
    var count := 1;
    while |taken| < |page|
      invariant count == |taken| + 1 && |taken| <= Min(room, |page|)
      invariant forall i | 0 <= i < |taken| :: taken[i] == (page[i], offset + 1 + i)
      decreases |page| - |taken|
    {
      var full := |taken| == room;
      if full {
        break;
      }
      taken := taken + [(page[|taken|], offset + count)];
      count := count + 1;
    }
  }

  /** Listing a directory that does not change: asking again from the number of the last entry
      taken, however full each reply buffer gets, lists every live entry exactly once, by
      ascending fid, and ends. */
  method ListAll(d: Disk, dir: Fid, entrySize: nat, rooms: nat -> nat) returns (listed: seq<DirEntry>)
    requires 0 < entrySize <= MAX_BUF_LEN && DistinctFids(Listing(d, dir))
    requires forall k: nat :: rooms(k) >= 1
    ensures IsSorting(Listing(d, dir), listed)
    ensures Rooted(d) && dir != 0 ==> forall e :: e in listed <==> IsEntry(d, dir, e)
  {
    listed := [];
    var offset, calls := 0, 0;
    var page, all := HandleReadDir(d, dir, offset, entrySize);
    PageEmpty(all, offset, entrySize);
    while page != []
      invariant IsSorting(Listing(d, dir), all) && page == Page(all, offset, entrySize)
      invariant offset <= |all| && listed == all[..offset]
      invariant page == [] ==> offset == |all|
      decreases |all| - offset
    {
      var taken := FillReply(page, offset, rooms(calls));
      var entries := seq(|taken|, i requires 0 <= i < |taken| => taken[i].0);
      assert entries == page[..|taken|];
      PagePrefix(all, offset, entrySize, |taken|);
      listed := listed + entries;
      offset := taken[|taken| - 1].1;
      calls := calls + 1;
      ghost var again;
      page, again := HandleReadDir(d, dir, offset, entrySize);
      SortingUnique(Listing(d, dir), all, again);
      PageEmpty(all, offset, entrySize);
    }
    assert all[..|all|] == all;
    forall e | Rooted(d) && dir != 0 ensures e in listed <==> IsEntry(d, dir, e) {
      ListingExactly(d, dir, e);
    }
  }
}
