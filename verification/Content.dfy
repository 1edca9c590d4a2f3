/** File contents as byte sequences, the positioned write of the host file system,
    and the buffered writes that client and server keep for a file. */
module Content {

  type Bytes = seq<bv8>

  /** The number that identifies a file, and its numbered file on disk. */
  type Fid = nat

  /** The largest payload of one RPC. */
  const MAX_BUF_LEN: nat := 4000

  /** One buffered write: offset, size and data, as both ends store it. */
  datatype Write = Write(offset: nat, size: nat, data: Bytes)

  /** What the count assertions at both ends and the chunking of the client rely on. */
  predicate WellSized(w: Write) {
    w.size == |w.data| <= MAX_BUF_LEN
  }

  function Max(a: nat, b: nat): nat {
    if a < b then b else a
  }

  function Min(a: nat, b: nat): nat {
    if a < b then a else b
  }

  function Zeros(n: nat): (z: Bytes)
    ensures |z| == n && forall i | 0 <= i < n :: z[i] == 0
  {
    seq(n, _ => 0)
  }

  /** The byte of a file at a position; a hole or the area past the end reads as zero. */
  function At(file: Bytes, i: nat): bv8 {
    if i < |file| then file[i] else 0
  }

  /** Seek and write on the host: a gap is filled with zeros, an empty write changes nothing. */
  function Pwrite(file: Bytes, offset: nat, data: Bytes): (r: Bytes)
    ensures |r| == if data == [] then |file| else Max(|file|, offset + |data|)
    ensures forall i: nat :: At(r, i) == if offset <= i < offset + |data| then data[i - offset] else At(file, i)
  {
    if data == [] then file
    else
      var padded := if |file| < offset then file + Zeros(offset - |file|) else file;
      padded[..offset] + data + padded[Min(offset + |data|, |padded|)..]
  }

  function Apply(file: Bytes, w: Write): Bytes {
    Pwrite(file, w.offset, w.data)
  }

  /** A list of writes applied in order. */
  function ApplyAll(file: Bytes, ws: seq<Write>): Bytes
    decreases ws
  {
    if ws == [] then file else ApplyAll(Apply(file, ws[0]), ws[1..])
  }

  lemma {:induction false} ApplyAllConcat(file: Bytes, a: seq<Write>, b: seq<Write>)
    ensures ApplyAll(file, a + b) == ApplyAll(ApplyAll(file, a), b)
    decreases a
  {
    if a == [] {
      assert a + b == b;
    } else {
      assert (a + b)[1..] == a[1..] + b;
      ApplyAllConcat(Apply(file, a[0]), a[1..], b);
    }
  }

  lemma ApplyAllSnoc(file: Bytes, ws: seq<Write>, w: Write)
    ensures ApplyAll(file, ws + [w]) == Apply(ApplyAll(file, ws), w)
  {
    ApplyAllConcat(file, ws, [w]);
    assert ApplyAll(ApplyAll(file, ws), [w]) == ApplyAll(Apply(ApplyAll(file, ws), w), []);
  }

  // ---------- Last writer wins: what a list of writes does, byte by byte ----------

  predicate Covers(w: Write, i: nat) {
    w.offset <= i < w.offset + |w.data|
  }

  /** The byte that the last covering write left at position i, or the byte of the base file. */
  function LastByte(file: Bytes, ws: seq<Write>, i: nat): bv8 {
    if ws == [] then At(file, i)
    else
      var w := ws[|ws| - 1];
      if Covers(w, i) then w.data[i - w.offset] else LastByte(file, ws[..|ws| - 1], i)
  }

  /** Where the furthest non-empty write ends. */
  function End(ws: seq<Write>): nat {
    if ws == [] then 0
    else
      var w := ws[|ws| - 1];
      Max(if w.data == [] then 0 else w.offset + |w.data|, End(ws[..|ws| - 1]))
  }

  lemma {:induction false} LastWriterWins(file: Bytes, ws: seq<Write>)
    ensures |ApplyAll(file, ws)| == Max(|file|, End(ws))
    ensures forall i: nat :: At(ApplyAll(file, ws), i) == LastByte(file, ws, i)
    decreases |ws|
  {
    if ws == [] {
    } else {
      var init, w := ws[..|ws| - 1], ws[|ws| - 1];
      assert ws == init + [w];
      LastWriterWins(file, init);
      ApplyAllSnoc(file, init, w);
    }
  }

  lemma SameBytes(a: Bytes, b: Bytes)
    requires |a| == |b|
    requires forall i: nat | i < |a| :: At(a, i) == At(b, i)
    ensures a == b
  {
    assert forall i | 0 <= i < |a| :: At(a, i) == a[i] && At(b, i) == b[i];
  }

  /** A position written by some write of the list does not depend on the base file. */
  lemma {:induction false} LastByteBase(file: Bytes, other: Bytes, ws: seq<Write>, i: nat)
    requires At(file, i) == At(other, i) || exists w | w in ws :: Covers(w, i)
    ensures LastByte(file, ws, i) == LastByte(other, ws, i)
    decreases |ws|
  {
    if ws != [] && !Covers(ws[|ws| - 1], i) {
      LastByteBase(file, other, ws[..|ws| - 1], i);
    }
  }

  lemma {:induction false} EndBound(ws: seq<Write>, w: Write)
    requires w in ws && w.data != []
    ensures w.offset + |w.data| <= End(ws)
    decreases |ws|
  {
    if w != ws[|ws| - 1] {
      EndBound(ws[..|ws| - 1], w);
    }
  }

  /** A write of the log, executed once more before the whole log, leaves no trace. */
  lemma AbsorbOne(file: Bytes, w: Write, log: seq<Write>)
    requires w in log
    ensures ApplyAll(Apply(file, w), log) == ApplyAll(file, log)
  {
    var more := Apply(file, w);
    LastWriterWins(more, log);
    LastWriterWins(file, log);
    if w.data != [] {
      EndBound(log, w);
    }
    forall i: nat ensures At(ApplyAll(more, log), i) == At(ApplyAll(file, log), i) {
      LastByteBase(more, file, log, i);
    }
    SameBytes(ApplyAll(more, log), ApplyAll(file, log));
  }

  /** Replays, duplicates and stale commits are harmless: any sequence of writes drawn from
      the log, in any order and number, is absorbed by the log. */
  lemma {:induction false} ReplayAbsorption(file: Bytes, strays: seq<Write>, log: seq<Write>)
    requires forall w | w in strays :: w in log
    ensures ApplyAll(file, strays + log) == ApplyAll(file, log)
    decreases strays
  {
    ApplyAllConcat(file, strays, log);
    if strays == [] {
    } else {
      ReplayAbsorption(Apply(file, strays[0]), strays[1..], log);
      ApplyAllConcat(Apply(file, strays[0]), strays[1..], log);
      AbsorbOne(file, strays[0], log);
    }
  }

  // ---------- Strays ----------

  predicate DrawnFrom(ws: seq<Write>, log: seq<Write>) {
    forall w | w in ws :: w in log
  }

  /** The content is the base with some writes of the log applied, in any order and number. */
  ghost predicate Strayed(base: Bytes, log: seq<Write>, v: Bytes) {
    exists strays: seq<Write> :: DrawnFrom(strays, log) && v == ApplyAll(base, strays)
  }

  lemma StrayNone(base: Bytes, log: seq<Write>)
    ensures Strayed(base, log, base)
  {
    assert DrawnFrom([], log) && base == ApplyAll(base, []);
  }

  lemma StrayOne(base: Bytes, log: seq<Write>, v: Bytes, w: Write)
    requires Strayed(base, log, v) && w in log
    ensures Strayed(base, log, Apply(v, w))
  {
    var strays: seq<Write> :| DrawnFrom(strays, log) && v == ApplyAll(base, strays);
    ApplyAllSnoc(base, strays, w);
    assert DrawnFrom(strays + [w], log);
  }

  lemma StrayMore(base: Bytes, log: seq<Write>, more: seq<Write>, v: Bytes)
    requires Strayed(base, log, v) && DrawnFrom(log, more)
    ensures Strayed(base, more, v)
  {
    var strays: seq<Write> :| DrawnFrom(strays, log) && v == ApplyAll(base, strays);
    assert DrawnFrom(strays, more);
  }

  /** One pass of the whole log brings any strayed content to the expected one. */
  lemma StraysAbsorbed(base: Bytes, log: seq<Write>, v: Bytes)
    requires Strayed(base, log, v)
    ensures ApplyAll(v, log) == ApplyAll(base, log)
  {
    var strays: seq<Write> :| DrawnFrom(strays, log) && v == ApplyAll(base, strays);
    ReplayAbsorption(base, strays, log);
    ApplyAllConcat(base, strays, log);
  }

  lemma ApplyTwice(file: Bytes, w: Write)
    ensures Apply(Apply(file, w), w) == Apply(file, w)
  {
    SameBytes(Apply(Apply(file, w), w), Apply(file, w));
  }

  // ---------- Chunks of one user write ----------

  /** The pieces the client cuts a user write into, in the order it sends them. */
  function Chunks(offset: nat, data: Bytes): (cs: seq<Write>)
    ensures forall c | c in cs :: WellSized(c) && 1 <= c.size
    decreases |data|
  {
    if data == [] then []
    else
      var n := Min(|data|, MAX_BUF_LEN);
      [Write(offset, n, data[..n])] + Chunks(offset + n, data[n..])
  }

  lemma SplitWrite(file: Bytes, offset: nat, a: Bytes, b: Bytes)
    ensures Pwrite(Pwrite(file, offset, a), offset + |a|, b) == Pwrite(file, offset, a + b)
  {
    SameBytes(Pwrite(Pwrite(file, offset, a), offset + |a|, b), Pwrite(file, offset, a + b));
  }

  /** Sending the pieces in order is one write of the whole data. */
  lemma {:induction false} ChunksAreOneWrite(file: Bytes, offset: nat, data: Bytes)
    ensures ApplyAll(file, Chunks(offset, data)) == Pwrite(file, offset, data)
    decreases |data|
  {
    if data == [] {
    } else {
      var n := Min(|data|, MAX_BUF_LEN);
      var piece := Write(offset, n, data[..n]);
      var rest := Chunks(offset + n, data[n..]);
      assert Chunks(offset, data) == [piece] + rest;
      assert ([piece] + rest)[1..] == rest;
      ChunksAreOneWrite(Apply(file, piece), offset + n, data[n..]);
      SplitWrite(file, offset, data[..n], data[n..]);
      assert data[..n] + data[n..] == data;
    }
  }

  // ---------- Reads ----------

  /** How many bytes there are to read. */
  function Available(file: Bytes, offset: nat, count: nat): nat {
    if |file| <= offset then 0 else Min(count, |file| - offset)
  }

  /** One positioned read on the host of at most count bytes: the bytes of the file from the offset on,
      up to the count or the end of the file. */
  function Pread(file: Bytes, offset: nat, count: nat): (r: Bytes)
    ensures |r| == Available(file, offset, count)
    ensures forall i | 0 <= i < |r| :: r[i] == At(file, offset + i)
  {
    if |file| <= offset then [] else file[offset..Min(offset + count, |file|)]
  }

  /** What was written is what is read, at its place. */
  lemma ReadsBack(file: Bytes, offset: nat, data: Bytes)
    ensures Pread(Pwrite(file, offset, data), offset, |data|) == data
  {
    var r := Pread(Pwrite(file, offset, data), offset, |data|);
    forall i | 0 <= i < |data| ensures |r| == |data| && r[i] == data[i] {
      assert At(Pwrite(file, offset, data), offset + i) == data[i];
    }
  }

  /** A write leaves everything else as it reads. */
  lemma ReadsBeside(file: Bytes, offset: nat, data: Bytes, at: nat, count: nat)
    requires at + count <= |file| && (at + count <= offset || offset + |data| <= at)
    ensures Pread(Pwrite(file, offset, data), at, count) == Pread(file, at, count)
  {
    var r, before := Pread(Pwrite(file, offset, data), at, count), Pread(file, at, count);
    forall i | 0 <= i < count ensures |r| == |before| == count && r[i] == before[i] {
      assert At(Pwrite(file, offset, data), at + i) == At(file, at + i);
    }
  }
}
