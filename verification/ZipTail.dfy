/** The ZIP tail reader of scripts/binary-size.ts, lines 327-350, against the layout of PKWARE
    APPNOTE.TXT, sections 4.3.12 (central directory header) and 4.3.16 (end record). */
module ZipTail {
  import opened Wrappers

  type Byte = b: int | 0 <= b < 256

  datatype Error = NoEndRecord | DirectoryNotInTail | NoFileEntry

  const END_SIGNATURE := 0x06054b50
  const ENTRY_SIGNATURE := 0x02014b50
  const SLASH: Byte := 0x2f

  function U16(b: seq<Byte>, p: nat): (n: nat)
    requires p + 2 <= |b|
  {
    b[p] as int + 0x100 * b[p + 1] as int
  }

  function U32(b: seq<Byte>, p: nat): (n: nat)
    requires p + 4 <= |b|
  {
    b[p] as int + 0x100 * b[p + 1] as int + 0x1_0000 * b[p + 2] as int + 0x100_0000 * b[p + 3] as int
  }

  function Min(a: int, b: int): int { if a <= b then a else b }
  function Max(a: int, b: int): int { if a <= b then b else a }

  /** The decoded name ends in '/' exactly if its last byte is that of '/'. */
  predicate IsDirectory(name: seq<Byte>) { name != [] && name[|name| - 1] == SLASH }

  // ---- What the scan and the walk compute -----------------------------------------------------

  function ScanStart(n: nat): nat { Max(0, n - 22 - 65535) }

  ghost predicate IsEndRecord(buf: seq<Byte>, i: int) {
    && ScanStart(|buf|) <= i <= |buf| - 22 && U32(buf, i) == END_SIGNATURE
  }

  ghost predicate IsLastEndRecord(buf: seq<Byte>, i: int) {
    IsEndRecord(buf, i) && forall j | i < j :: !IsEndRecord(buf, j)
  }

  predicate HasEntry(buf: seq<Byte>, p: nat, eocd: nat)
    requires eocd <= |buf|
  {
    p + 46 <= eocd && U32(buf, p) == ENTRY_SIGNATURE
  }

  function NameAt(buf: seq<Byte>, p: nat): seq<Byte>
    requires p + 46 <= |buf|
  {
    buf[p + 46..Min(p + 46 + U16(buf, p + 28), |buf|)]
  }

  function NextEntry(buf: seq<Byte>, p: nat): (q: nat)
    requires p + 46 <= |buf|
    ensures q >= p + 46
  {
    p + 46 + U16(buf, p + 28) + U16(buf, p + 30) + U16(buf, p + 32)
  }

  /** The largest size of a non-directory entry from p on. */
  function Walk(buf: seq<Byte>, p: nat, eocd: nat): nat
    requires eocd <= |buf|
    decreases eocd - p
  {
    if !HasEntry(buf, p, eocd) then 0
    else Max(if IsDirectory(NameAt(buf, p)) then 0 else U32(buf, p + 24), Walk(buf, NextEntry(buf, p), eocd))
  }

  /** Where in buf, the last bytes of total ones, the directory of the end record at eocd starts. */
  function DirectoryStart(buf: seq<Byte>, eocd: nat, total: nat): int
    requires eocd + 22 <= |buf|
  {
    U32(buf, eocd + 16) - (total - Min(65536, total))
  }

  function WalkFrom(buf: seq<Byte>, start: int, eocd: nat): Result<nat, Error>
    requires eocd <= |buf|
  {
    if start < 0 then Failure(DirectoryNotInTail)
    else if Walk(buf, start, eocd) == 0 then Failure(NoFileEntry)
    else Success(Walk(buf, start, eocd))
  }

  /** From the bytes on, for any bytes: every read is in range and the loops end. */
  method ZipBinarySize(buf: seq<Byte>, total: nat) returns (r: Result<nat, Error>)
    ensures r == Failure(NoEndRecord) <==> forall i :: !IsEndRecord(buf, i)
    ensures forall i | IsLastEndRecord(buf, i) :: r == WalkFrom(buf, DirectoryStart(buf, i, total), i)
  {
    var tail := Min(65536, total);
    var eocd := FindEndRecord(buf);
    if eocd < 0 { return Failure(NoEndRecord); }
    hide U32, Walk;
    LastUnique(buf, eocd);
    var p: int := U32(buf, eocd + 16) - (total - tail);
    if p < 0 { return Failure(DirectoryNotInTail); }
    var size := WalkDirectory(buf, p, eocd);
    if size == 0 { return Failure(NoFileEntry); }
    r := Success(size);
  }

  /** Backwards, to the last end signature that can be followed by a comment of at most 65535 bytes. */
  method FindEndRecord(buf: seq<Byte>) returns (eocd: int)
    ensures eocd < 0 ==> forall i :: !IsEndRecord(buf, i)
    ensures eocd >= 0 ==> IsLastEndRecord(buf, eocd)
  {
    hide U32;
    eocd := -1;
    var i := |buf| - 22;
    while i >= Max(0, |buf| - 22 - 65535)
      invariant i <= |buf| - 22
      invariant forall j | i < j :: !IsEndRecord(buf, j)
    {
      if U32(buf, i) == END_SIGNATURE {
        eocd := i;
        return;
      }
      i := i - 1;
    }
  }

  method WalkDirectory(buf: seq<Byte>, start: nat, eocd: nat) returns (size: nat)
    requires eocd <= |buf|
    ensures size == Walk(buf, start, eocd)
  {
    hide U32, U16, IsDirectory;
    var p := start;
    size := 0;
    while p + 46 <= eocd && U32(buf, p) == ENTRY_SIGNATURE
      invariant Max(size, Walk(buf, p, eocd)) == Walk(buf, start, eocd)
      decreases eocd - p
    {
      var uncompressed := U32(buf, p + 24);
      var nameLen := U16(buf, p + 28);
      var name := buf[p + 46..Min(p + 46 + nameLen, |buf|)];
      if !IsDirectory(name) && uncompressed > size { size := uncompressed; }
      p := p + 46 + nameLen + U16(buf, p + 30) + U16(buf, p + 32);
    }
  }

  lemma LastUnique(buf: seq<Byte>, i: int)
    requires IsLastEndRecord(buf, i)
    ensures forall j | IsLastEndRecord(buf, j) :: j == i
  {
  }

  // ---- The format -----------------------------------------------------------------------------

  function LE16(n: nat): (b: seq<Byte>)
    requires n < 0x1_0000
    ensures |b| == 2
  {
    [n % 0x100, n / 0x100]
  }

  function LE32(n: nat): (b: seq<Byte>)
    requires n < 0x1_0000_0000
    ensures |b| == 4
  {
    [n % 0x100, n / 0x100 % 0x100, n / 0x1_0000 % 0x100, n / 0x100_0000]
  }

  /** before: the header's fields between the signature and the uncompressed size; after: those
      between the comment length and the name. */
  datatype Entry = Entry(before: seq<Byte>, uncompressed: nat, after: seq<Byte>,
                         name: seq<Byte>, extra: seq<Byte>, comment: seq<Byte>)

  predicate ValidEntry(e: Entry) {
    && |e.before| == 20 && e.uncompressed < 0x1_0000_0000 && |e.after| == 12
    && |e.name| < 0x1_0000 && |e.extra| < 0x1_0000 && |e.comment| < 0x1_0000
  }

  predicate ValidEntries(es: seq<Entry>) { forall e | e in es :: ValidEntry(e) }

  function EntryHeader(e: Entry): (b: seq<Byte>)
    requires ValidEntry(e)
    ensures |b| == 46
  {
    LE32(ENTRY_SIGNATURE) + e.before + LE32(e.uncompressed)
    + LE16(|e.name|) + LE16(|e.extra|) + LE16(|e.comment|) + e.after
  }

  function WriteEntry(e: Entry): (b: seq<Byte>)
    requires ValidEntry(e)
  {
    EntryHeader(e) + e.name + e.extra + e.comment
  }

  function WriteDirectory(es: seq<Entry>): seq<Byte>
    requires ValidEntries(es)
  {
    if es == [] then [] else WriteEntry(es[0]) + WriteDirectory(es[1..])
  }

  /** counts: the disk numbers, entry counts and directory size; offset: where the directory starts. */
  function WriteEndRecord(counts: seq<Byte>, offset: nat, comment: seq<Byte>): (b: seq<Byte>)
    requires |counts| == 12 && offset < 0x1_0000_0000 && |comment| < 0x1_0000
    ensures |b| == 22 + |comment|
  {
    LE32(END_SIGNATURE) + counts + LE32(offset) + LE16(|comment|) + comment
  }

  /** A name with a slash at its end is that of a directory, and no other one is. */
  lemma DirectoryNames(front: seq<Byte>, last: Byte)
    ensures IsDirectory(front + [last]) <==> last as int == '/' as int
    ensures !IsDirectory([])
  {
  }

  /** A header begins with PK\1\2 and an end record with PK\5\6. */
  lemma Signatures(e: Entry, counts: seq<Byte>, offset: nat, comment: seq<Byte>)
    requires ValidEntry(e) && |counts| == 12 && offset < 0x1_0000_0000 && |comment| < 0x1_0000
    ensures WriteEntry(e)[..4] == ['P' as int, 'K' as int, 1, 2]
    ensures WriteEndRecord(counts, offset, comment)[..4] == ['P' as int, 'K' as int, 5, 6]
  {
    assert WriteEntry(e)[..4] == EntryHeader(e)[..4] == LE32(ENTRY_SIGNATURE);
    assert WriteEndRecord(counts, offset, comment)[..4] == LE32(END_SIGNATURE);
  }

  /** An end record is taken for one if its four first bytes are right and at most 65535 bytes follow
      its 22. */
  lemma EndRecordsAre(buf: seq<Byte>, i: nat)
    ensures IsEndRecord(buf, i) <==> 22 <= |buf| - i <= 22 + 65535 && buf[i..i + 4] == ['P' as int, 'K' as int, 5, 6]
  {
    if i + 4 <= |buf| {
      var b := buf[i..i + 4];
      assert b == [buf[i], buf[i + 1], buf[i + 2], buf[i + 3]];
      SignatureBytes(buf[i], buf[i + 1], buf[i + 2], buf[i + 3]);
    }
  }

  lemma SignatureBytes(a: Byte, b: Byte, c: Byte, d: Byte)
    ensures a as int + 0x100 * b as int + 0x1_0000 * c as int + 0x100_0000 * d as int == END_SIGNATURE
            <==> a == 0x50 && b == 0x4b && c == 5 && d == 6
  {
  }

  lemma ReadLE16(b: seq<Byte>, p: nat, n: nat)
    requires n < 0x1_0000 && p + 2 <= |b| && b[p..p + 2] == LE16(n)
    ensures U16(b, p) == n
  {
    assert b[p] == b[p..p + 2][0] && b[p + 1] == b[p..p + 2][1];
  }

  lemma ReadLE32(b: seq<Byte>, p: nat, n: nat)
    requires n < 0x1_0000_0000 && p + 4 <= |b| && b[p..p + 4] == LE32(n)
    ensures U32(b, p) == n
  {
    assert b[p] == b[p..p + 4][0] && b[p + 1] == b[p..p + 4][1];
    assert b[p + 2] == b[p..p + 4][2] && b[p + 3] == b[p..p + 4][3];
    Digits256(n);
  }

  lemma Digits256(n: nat)
    requires n < 0x1_0000_0000
    ensures n == n % 0x100 + 0x100 * (n / 0x100 % 0x100) + 0x1_0000 * (n / 0x1_0000 % 0x100) + 0x100_0000 * (n / 0x100_0000)
  {
    var a, b := n / 0x100, n / 0x1_0000;
    assert a / 0x100 == b && b / 0x100 == n / 0x100_0000;
    assert n == n % 0x100 + 0x100 * a && a == a % 0x100 + 0x100 * b && b == b % 0x100 + 0x100 * (b / 0x100);
  }

  // ---- Reading what was written ---------------------------------------------------------------

  /** m is the largest uncompressed size among the non-directory entries, or 0 without any. */
  ghost predicate IsLargest(es: seq<Entry>, m: nat) {
    && (forall e | e in es && !IsDirectory(e.name) :: e.uncompressed <= m)
    && (m > 0 ==> exists e :: e in es && !IsDirectory(e.name) && e.uncompressed == m)
  }

  lemma SliceOfSlice(b: seq<Byte>, p: nat, n: nat, i: nat, j: nat)
    requires i <= j <= n && p + n <= |b|
    ensures b[p..p + n][i..j] == b[p + i..p + j]
  {
    var s, t := b[p..p + n][i..j], b[p + i..p + j];
    forall k | 0 <= k < |s| ensures s[k] == t[k] {
    }
  }

  lemma HeaderFields(e: Entry, b: seq<Byte>, p: nat)
    requires ValidEntry(e) && p + 46 <= |b| && b[p..p + 46] == EntryHeader(e)
    ensures U32(b, p) == ENTRY_SIGNATURE && U32(b, p + 24) == e.uncompressed
    ensures U16(b, p + 28) == |e.name| && U16(b, p + 30) == |e.extra| && U16(b, p + 32) == |e.comment|
  {
    var h := EntryHeader(e);
    assert h[0..4] == LE32(ENTRY_SIGNATURE) && h[24..28] == LE32(e.uncompressed);
    assert h[28..30] == LE16(|e.name|) && h[30..32] == LE16(|e.extra|) && h[32..34] == LE16(|e.comment|);
    hide LE16, LE32, EntryHeader, U16, U32;
    SliceOfSlice(b, p, 46, 0, 4);
    SliceOfSlice(b, p, 46, 24, 28);
    SliceOfSlice(b, p, 46, 28, 30);
    SliceOfSlice(b, p, 46, 30, 32);
    SliceOfSlice(b, p, 46, 32, 34);
    ReadLE32(b, p, ENTRY_SIGNATURE);
    ReadLE32(b, p + 24, e.uncompressed);
    ReadLE16(b, p + 28, |e.name|);
    ReadLE16(b, p + 30, |e.extra|);
    ReadLE16(b, p + 32, |e.comment|);
  }

  lemma ReadEntry(b: seq<Byte>, p: nat, e: Entry, eocd: nat)
    requires ValidEntry(e)
    requires p + |WriteEntry(e)| <= eocd <= |b| && b[p..p + |WriteEntry(e)|] == WriteEntry(e)
    ensures HasEntry(b, p, eocd) && NameAt(b, p) == e.name && U32(b, p + 24) == e.uncompressed
    ensures NextEntry(b, p) == p + |WriteEntry(e)|
  {
    hide EntryHeader;
    var w, n := WriteEntry(e), |WriteEntry(e)|;
    assert w == EntryHeader(e) + (e.name + (e.extra + e.comment));
    assert w[0..46] == EntryHeader(e) && w[46..46 + |e.name|] == e.name;
    SliceOfSlice(b, p, n, 0, 46);
    SliceOfSlice(b, p, n, 46, 46 + |e.name|);
    HeaderFields(e, b, p);
  }

  lemma {:induction false} WalkWritten(b: seq<Byte>, p: nat, es: seq<Entry>, eocd: nat)
    requires ValidEntries(es) && p <= eocd <= |b| && b[p..eocd] == WriteDirectory(es)
    ensures IsLargest(es, Walk(b, p, eocd))
    decreases |es|
  {
    hide WriteEntry, IsDirectory, U32, NameAt, NextEntry, IsLargest, Walk, HasEntry;
    if es == [] {
      NothingToWalk(b, eocd);
    } else {
      var e := es[0];
      assert e in es;
      var w, more := WriteEntry(e), WriteDirectory(es[1..]);
      var n := eocd - p;
      assert (w + more)[0..|w|] == w && (w + more)[|w|..n] == more;
      SliceOfSlice(b, p, n, 0, |w|);
      SliceOfSlice(b, p, n, |w|, n);
      ReadEntry(b, p, e, eocd);
      WalkWritten(b, p + |w|, es[1..], eocd);
      WalkEntry(b, p, eocd);
      LargerOf(e, es[1..], Walk(b, p + |w|, eocd));
      assert [e] + es[1..] == es;
    }
  }

  lemma NothingToWalk(b: seq<Byte>, eocd: nat)
    requires eocd <= |b|
    ensures IsLargest([], Walk(b, eocd, eocd))
  {
  }

  lemma WalkEntry(b: seq<Byte>, p: nat, eocd: nat)
    requires eocd <= |b| && HasEntry(b, p, eocd)
    ensures Walk(b, p, eocd) ==
            Max(if IsDirectory(NameAt(b, p)) then 0 else U32(b, p + 24), Walk(b, NextEntry(b, p), eocd))
  {
  }

  lemma LargerOf(e: Entry, es: seq<Entry>, m: nat)
    requires IsLargest(es, m)
    ensures IsLargest([e] + es, Max(if IsDirectory(e.name) then 0 else e.uncompressed, m))
  {
    hide IsDirectory;
    var all := [e] + es;
    assert forall x :: x in all <==> x == e || x in es;
    assert e in all;
  }

  /** A directory written as the format says, inside the tail, that ends at the end record, with no
      end signature in what the scan sees of the comment: the reader finds the largest file, or
      reports that there is none of positive size. */
  method ReadWritten(lead: seq<Byte>, es: seq<Entry>, counts: seq<Byte>, offset: nat, comment: seq<Byte>, total: nat)
    returns (r: Result<nat, Error>)
    requires ValidEntries(es) && |counts| == 12 && offset < 0x1_0000_0000 && |comment| < 0x1_0000
    requires offset - (total - Min(65536, total)) == |lead|
    requires var buf := lead + WriteDirectory(es) + WriteEndRecord(counts, offset, comment);
             forall j | |lead + WriteDirectory(es)| < j :: !IsEndRecord(buf, j)
    ensures r.Success? ==> r.value > 0 && IsLargest(es, r.value)
    ensures r.Failure? ==> r.error == NoFileEntry && IsLargest(es, 0)
  {
    hide U32, Walk, WriteDirectory, WriteEndRecord, IsEndRecord, IsLargest;
    var directory, end := WriteDirectory(es), WriteEndRecord(counts, offset, comment);
    var buf := lead + directory + end;
    ghost var eocd := |lead + directory|;
    EndRecordFields(lead + directory, counts, offset, comment);
    assert buf[|lead|..eocd] == directory;
    WalkWritten(buf, |lead|, es, eocd);
    r := ZipBinarySize(buf, total);
    assert IsLastEndRecord(buf, eocd);
  }

  lemma EndRecordFields(front: seq<Byte>, counts: seq<Byte>, offset: nat, comment: seq<Byte>)
    requires |counts| == 12 && offset < 0x1_0000_0000 && |comment| < 0x1_0000
    ensures var buf := front + WriteEndRecord(counts, offset, comment);
            IsEndRecord(buf, |front|) && U32(buf, |front| + 16) == offset
  {
    var end := WriteEndRecord(counts, offset, comment);
    var buf := front + end;
    assert end[0..4] == LE32(END_SIGNATURE) && end[16..20] == LE32(offset);
    assert buf[|front|..|front| + 4] == end[0..4] && buf[|front| + 16..|front| + 20] == end[16..20];
    ReadLE32(buf, |front|, END_SIGNATURE);
    ReadLE32(buf, |front| + 16, offset);
  }
}
