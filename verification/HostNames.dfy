/** A lookup by name as the host sees it: the file names that it lists, matched against a pattern. */
module HostNames {
  import opened Content
  import opened Namespace
  import opened CrashAtomicity
  import opened ServerRuns
  import F = FileNames

  /** What the host lists in a directory: printed fids, and fids with names. */
  function HostListing(d: Disk, dir: Fid): set<string> {
    (set f | f in d.objs && d.objs[f].parent == dir :: F.Print(f)) +
    (set x | x in d.names && x.dir == dir :: F.Encode(x.fid, x.name))
  }

  /** A listed name that matches the pattern of the lookup, and the numbered file it points to. */
  predicate PatternFinds(files: set<string>, wanted: Name, s: string, digits: string, f: Fid) {
    && s in files && !F.AllDigits(s) && F.Matches(s, wanted, digits)
    && F.Parse(digits) == f && F.Print(f) in files
  }

  lemma NumberedListed(d: Disk, dir: Fid, f: Fid)
    ensures F.Print(f) in HostListing(d, dir) <==> f in d.objs && d.objs[f].parent == dir
  {
    if F.Print(f) in HostListing(d, dir) {
      if x :| x in d.names && x.dir == dir && F.Print(f) == F.Encode(x.fid, x.name) {
        F.EncodeInjective(f, "", x.fid, x.name);
      } else {
        var g :| g in d.objs && d.objs[g].parent == dir && F.Print(f) == F.Print(g);
        F.EncodeInjective(f, "", g, "");
      }
    }
  }

  /** Matching the listed file names against the pattern finds just the files that have the name
      and both server files. */
  lemma LookupByPattern(d: Disk, dir: Fid, wanted: Name, f: Fid)
    ensures (exists s, digits :: PatternFinds(HostListing(d, dir), wanted, s, digits, f)) <==>
      Called(d, Named(dir, f, wanted), dir, wanted)
  {
    var files := HostListing(d, dir);
    NumberedListed(d, dir, f);
    F.NameRoundTrip(f, wanted);
    if Called(d, Named(dir, f, wanted), dir, wanted) {
      assert Named(dir, f, wanted) in d.names;
      F.LookupMatchesExactly(f, wanted, wanted);
      assert PatternFinds(files, wanted, F.Encode(f, wanted), F.Print(f), f);
    }
    forall s, digits | PatternFinds(files, wanted, s, digits, f) ensures Called(d, Named(dir, f, wanted), dir, wanted) {
      if g :| g in d.objs && d.objs[g].parent == dir && s == F.Print(g) {
        F.NameRoundTrip(g, "");
      } else {
        var x :| x in d.names && x.dir == dir && s == F.Encode(x.fid, x.name);
        F.LookupMatchesExactly(x.fid, x.name, wanted);
        F.NameRoundTrip(x.fid, x.name);
        assert x == Named(dir, f, wanted);
      }
    }
  }
}
