/** How fids and names are written as server file names, and read back. */
module FileNames {

  function Digit(n: nat): char
    requires n < 10
  {
    '0' + n as char
  }

  predicate IsDigit(c: char) {
    '0' <= c <= '9'
  }

  /** The decimal form of a fid: the name of its numbered file. */
  function Print(n: nat): (s: string)
    ensures |s| > 0 && forall c | c in s :: IsDigit(c)
  {
    if n < 10 then [Digit(n)] else Print(n / 10) + [Digit(n % 10)]
  }

  function Parse(s: string): nat
    requires forall c | c in s :: IsDigit(c)
    decreases |s|
  {
    if s == [] then 0
    else
      var c := s[|s| - 1];
      assert c in s && IsDigit(c);
      10 * Parse(s[..|s| - 1]) + (c as nat - '0' as nat)
  }

  /** The named file of a fid and a name. */
  function Encode(n: nat, name: string): string {
    Print(n) + "." + name
  }

  /** The test that tells numbered files from named ones. */
  predicate AllDigits(s: string) {
    s != [] && forall c | c in s :: IsDigit(c)
  }

  /** What stands before and after the first dot. */
  function SplitAtDot(s: string): (string, string)
    decreases s
  {
    if s == [] then ([], [])
    else if s[0] == '.' then ([], s[1..])
    else
      var (a, b) := SplitAtDot(s[1..]);
      ([s[0]] + a, b)
  }

  lemma {:induction false} PrintParse(n: nat)
    ensures Parse(Print(n)) == n
  {
    var s := Print(n);
    if n >= 10 {
      PrintParse(n / 10);
      assert s[..|s| - 1] == Print(n / 10);
    } else {
      assert s[..|s| - 1] == [];
    }
  }

  lemma {:induction false} SplitDigits(ds: string, rest: string)
    requires forall c | c in ds :: IsDigit(c)
    ensures SplitAtDot(ds + "." + rest) == (ds, rest)
    decreases ds
  {
    var s := ds + "." + rest;
    if ds == [] {
      assert s[0] == '.' && s[1..] == rest;
    } else {
      assert s[0] == ds[0] && ds[0] in ds && s[1..] == ds[1..] + "." + rest;
      SplitDigits(ds[1..], rest);
      assert [ds[0]] + ds[1..] == ds;
    }
  }

  /** Splitting a named file at its first dot gives back the fid and the whole name, dots and
      all; a printed fid passes the test for numbered files and a named file never does. */
  lemma NameRoundTrip(n: nat, name: string)
    ensures SplitAtDot(Encode(n, name)) == (Print(n), name) && Parse(Print(n)) == n
    ensures AllDigits(Print(n)) && !AllDigits(Encode(n, name))
  {
    PrintParse(n);
    SplitDigits(Print(n), name);
    assert Encode(n, name)[|Print(n)|] == '.' && '.' in Encode(n, name);
  }

  /** Fids are printed in decimal, without leading zeros: the root's numbered file is called 1. */
  lemma PrintedInDecimal()
    ensures Print(1) == "1" && Print(10) == "10" && Print(274) == "274"
  {
    assert Print(27) == Print(2) + "7" && Print(274) == Print(27) + "4";
    assert Print(10) == Print(1) + "0";
  }

  /** Two files never share a server file name. */
  lemma EncodeInjective(n: nat, a: string, m: nat, b: string)
    ensures Encode(n, a) == Encode(m, b) <==> n == m && a == b
    ensures Print(n) == Print(m) <==> n == m
    ensures Print(n) != Encode(m, b)
  {
    NameRoundTrip(n, a);
    NameRoundTrip(m, b);
  }

  /** The pattern of a lookup: digits, a dot, the wanted name. */
  predicate Matches(s: string, wanted: string, digits: string) {
    AllDigits(digits) && s == digits + "." + wanted
  }

  /** A lookup pattern matches exactly the named files of the wanted name, and captures the fid. */
  lemma LookupMatchesExactly(n: nat, name: string, wanted: string)
    ensures (exists digits :: Matches(Encode(n, name), wanted, digits)) <==> name == wanted
    ensures forall digits | Matches(Encode(n, name), wanted, digits) :: digits == Print(n)
  {
    NameRoundTrip(n, name);
    if name == wanted {
      assert Matches(Encode(n, name), wanted, Print(n));
    }
    forall digits | Matches(Encode(n, name), wanted, digits) ensures digits == Print(n) && name == wanted {
      SplitDigits(digits, wanted);
    }
  }
}
