/** The in-place insertion sort of one generated line (sourcemap.ts, lines 85-111). */
module LineSort {
  import opened Mappings

  function Overwrite(a: seq<int>, k: nat, m: Mapping): (b: seq<int>)
    requires k + 6 <= |a|
    ensures |b| == |a|
  {
    a[..k] + Cells(m) + a[k + 6..]
  }

  lemma RecordAtOverwrite(a: seq<int>, p: nat, m: Mapping, q: nat)
    requires 6 * p + 6 <= |a| && 6 * q + 6 <= |a|
    ensures RecordAt(Overwrite(a, 6 * p, m), q) == if q == p then m else RecordAt(a, q)
  {
  }

  method WriteRecord(data: array<int>, k: nat, m: Mapping)
    requires k + 6 <= data.Length
    modifies data
    ensures data[..] == Overwrite(old(data[..]), k, m)
  {
    data[k] := m.genLine;
    data[k + 1] := m.genColumn;
    data[k + 2] := m.source;
    data[k + 3] := m.origLine;
    data[k + 4] := m.origColumn;
    data[k + 5] := m.name;
  }

  method ReadRecord(data: array<int>, k: nat, ghost r: nat) returns (m: Mapping)
    requires k == 6 * r && k + 6 <= data.Length
    ensures m == RecordAt(data[..], r)
  {
    m := Mapping(data[k], data[k + 1], data[k + 2], data[k + 3], data[k + 4], data[k + 5]);
  }

  /** Copies the record at k six cells up. */
  method ShiftRecord(data: array<int>, k: nat, ghost r: nat)
    requires k == 6 * r && k + 12 <= data.Length
    modifies data
    ensures data[..] == Overwrite(old(data[..]), k + 6, RecordAt(old(data[..]), r))
  {
    data[k + 6] := data[k];
    data[k + 7] := data[k + 1];
    data[k + 8] := data[k + 2];
    data[k + 9] := data[k + 3];
    data[k + 10] := data[k + 4];
    data[k + 11] := data[k + 5];
  }

  /** Where the record n of a ends up if it is moved down to place p. */
  ghost predicate MovedDown(a: seq<int>, b: seq<int>, p: nat, n: nat)
    requires p <= n && 6 * n + 6 <= |a| == |b|
  {
    && (forall q: nat | q < p :: RecordAt(b, q) == RecordAt(a, q))
    && (forall q: nat | p < q <= n :: RecordAt(b, q) == RecordAt(a, q - 1))
    && b[6 * n + 6..] == a[6 * n + 6..]
  }

  /** One turn of the outer loop: record n sinks to its place among the records lo to n. */
  ghost predicate Sunk(a: seq<int>, b: seq<int>, lo: nat, n: nat)
    requires lo <= n && 6 * n + 6 <= |a| == |b|
  {
    && b[6 * n + 6..] == a[6 * n + 6..]
    && Window(b, 0, lo) == Window(a, 0, lo)
    && Window(b, lo, n + 1) == Insert(Window(a, lo, n), RecordAt(a, n))
  }

  method SinkRecord(data: array<int>, start: nat, j: nat, ghost lo: nat, ghost n: nat)
    requires start == 6 * lo && j == 6 * n && start <= j && j + 6 <= data.Length
    modifies data
    ensures Sunk(old(data[..]), data[..], lo, n)
  {
    hide MovedDown, Overwrite, Sunk, Greater, RecordAt;
    ghost var a := data[..];
    var m := ReadRecord(data, j, n);
    var k, p := OpenHole(data, start, j, m.genColumn, lo, n);
    ghost var b := data[..];
    WriteRecord(data, k + 6, m);
    SunkRecord(a, b, data[..], lo, p, n);
  }

  /** Shifts up every record of the window, from its end, whose column is greater. */
  method OpenHole(data: array<int>, start: nat, j: nat, genC: int, ghost lo: nat, ghost n: nat)
    returns (k: int, ghost p: nat)
    requires start == 6 * lo && j == 6 * n && start <= j && j + 6 <= data.Length
    modifies data
    ensures k == 6 * p - 6 && lo <= p <= n
    ensures MovedDown(old(data[..]), data[..], p, n)
    ensures Greater(old(data[..]), p, n, genC)
    ensures p > lo ==> RecordAt(old(data[..]), p - 1).genColumn <= genC
  {
    hide MovedDown, Overwrite, Greater;
    ghost var a := data[..];
    MovedNothing(a, n);
    GreaterNothing(a, n, genC);
    k := j - 6;
    p := n;
    while k >= start && data[k + 1] > genC
      invariant k == 6 * p - 6 && lo <= p <= n
      invariant MovedDown(a, data[..], p, n)
      invariant Greater(a, p, n, genC)
    {
      ghost var b := data[..];
      ColumnBelowHole(a, b, p - 1, n);
      ShiftRecord(data, k, p - 1);
      ShiftKeepsMoved(a, b, data[..], p, n);
      GreaterOneMore(a, p, n, genC);
      k := k - 6;
      p := p - 1;
    }
    if k >= start { ColumnBelowHole(a, data[..], p - 1, n); }
  }

  ghost predicate Greater(a: seq<int>, p: nat, n: nat, c: int)
    requires 6 * n <= |a|
  {
    forall q: nat | p <= q < n :: RecordAt(a, q).genColumn > c
  }

  lemma GreaterOneMore(a: seq<int>, p: nat, n: nat, c: int)
    requires 0 < p <= n && 6 * n <= |a|
    requires Greater(a, p, n, c) && RecordAt(a, p - 1).genColumn > c
    ensures Greater(a, p - 1, n, c)
  {
  }

  lemma GreaterNothing(a: seq<int>, n: nat, c: int)
    requires 6 * n <= |a|
    ensures Greater(a, n, n, c)
  {
  }

  lemma MovedNothing(a: seq<int>, n: nat)
    requires 6 * n + 6 <= |a|
    ensures MovedDown(a, a, n, n)
  {
  }

  lemma ColumnBelowHole(a: seq<int>, b: seq<int>, q: nat, n: nat)
    requires q + 1 <= n && 6 * n + 6 <= |a| == |b|
    requires MovedDown(a, b, q + 1, n)
    ensures b[6 * q + 1] == RecordAt(a, q).genColumn
  {
    assert RecordAt(b, q) == RecordAt(a, q);
  }

  lemma ShiftKeepsMoved(a: seq<int>, b: seq<int>, c: seq<int>, p: nat, n: nat)
    requires 0 < p <= n && 6 * n + 6 <= |a| == |b|
    requires MovedDown(a, b, p, n)
    requires c == Overwrite(b, 6 * p, RecordAt(b, p - 1))
    ensures MovedDown(a, c, p - 1, n)
  {
    forall q: nat | q <= n ensures RecordAt(c, q) == if q == p then RecordAt(b, p - 1) else RecordAt(b, q) {
      RecordAtOverwrite(b, p, RecordAt(b, p - 1), q);
    }
    assert c[6 * n + 6..] == b[6 * n + 6..];
  }

  lemma SunkRecord(a: seq<int>, b: seq<int>, c: seq<int>, lo: nat, p: nat, n: nat)
    requires lo <= p <= n && 6 * n + 6 <= |a| == |b|
    requires MovedDown(a, b, p, n)
    requires c == Overwrite(b, 6 * p, RecordAt(a, n))
    requires Greater(a, p, n, RecordAt(a, n).genColumn)
    requires p > lo ==> RecordAt(a, p - 1).genColumn <= RecordAt(a, n).genColumn
    ensures Sunk(a, c, lo, n)
  {
    var m := RecordAt(a, n);
    forall q: nat | q <= n ensures RecordAt(c, q) == if q == p then m else RecordAt(b, q) {
      RecordAtOverwrite(b, p, m, q);
    }
    assert c[6 * n + 6..] == b[6 * n + 6..];
    assert Window(c, 0, lo) == Window(a, 0, lo);
    InsertAt(Window(a, lo, n), m, p - lo);
    SunkWindow(a, b, c, lo, p, n);
  }

  lemma SunkWindow(a: seq<int>, b: seq<int>, c: seq<int>, lo: nat, p: nat, n: nat)
    requires lo <= p <= n && 6 * n + 6 <= |a| == |b| == |c|
    requires MovedDown(a, b, p, n)
    requires forall q: nat | q <= n :: RecordAt(c, q) == if q == p then RecordAt(a, n) else RecordAt(b, q)
    ensures var s := Window(a, lo, n);
            Window(c, lo, n + 1) == s[..p - lo] + [RecordAt(a, n)] + s[p - lo..]
  {
    var s, w := Window(a, lo, n), Window(c, lo, n + 1);
    var t := s[..p - lo] + [RecordAt(a, n)] + s[p - lo..];
    forall i | 0 <= i < |w| ensures w[i] == t[i] {
      assert w[i] == RecordAt(c, lo + i);
      if i < p - lo {
        assert t[i] == s[i];
      } else if i > p - lo {
        assert t[i] == s[i - 1];
        assert RecordAt(b, lo + i) == RecordAt(a, lo + i - 1);
      }
    }
  }

  /** Sorts the window from generatedLineStart to dataLength and touches nothing else. */
  method SortLine(data: array<int>, generatedLineStart: nat, dataLength: nat)
    requires generatedLineStart % 6 == 0 && dataLength % 6 == 0
    requires generatedLineStart <= dataLength <= data.Length
    modifies data
    ensures data[..][dataLength..] == old(data[..][dataLength..])
    ensures Window(data[..], 0, generatedLineStart / 6) == Window(old(data[..]), 0, generatedLineStart / 6)
    ensures Window(data[..], generatedLineStart / 6, dataLength / 6) ==
            InsertionSort(Window(old(data[..]), generatedLineStart / 6, dataLength / 6))
  {
    ghost var a := data[..];
    ghost var lo, hi := generatedLineStart / 6, dataLength / 6;
    if generatedLineStart == dataLength { return; }
    var j := generatedLineStart + 6;
    ghost var n := lo + 1;
    hide InsertionSort, Sunk, Window;
    SortedFirst(a, lo);
    while j < dataLength
      invariant j == 6 * n && lo < n <= hi
      invariant SortedUpTo(a, data[..], lo, n)
    {
      ghost var b := data[..];
      SinkRecord(data, generatedLineStart, j, lo, n);
      SortedOneMore(a, b, data[..], lo, n);
      j := j + 6;
      n := n + 1;
    }
  }

  lemma SortedFirst(a: seq<int>, lo: nat)
    requires 6 * lo + 6 <= |a|
    ensures SortedUpTo(a, a, lo, lo + 1)
  {
    SortOrdered(Window(a, lo, lo + 1));
  }

  ghost predicate SortedUpTo(a: seq<int>, b: seq<int>, lo: nat, n: nat)
    requires lo <= n && 6 * n <= |a| == |b|
  {
    && b[6 * n..] == a[6 * n..]
    && Window(b, 0, lo) == Window(a, 0, lo)
    && Window(b, lo, n) == InsertionSort(Window(a, lo, n))
  }

  lemma SortedOneMore(a: seq<int>, b: seq<int>, c: seq<int>, lo: nat, n: nat)
    requires lo <= n && 6 * n + 6 <= |a| == |b| == |c|
    requires SortedUpTo(a, b, lo, n) && Sunk(b, c, lo, n)
    ensures SortedUpTo(a, c, lo, n + 1)
  {
    var w := Window(a, lo, n + 1);
    assert w[..n - lo] == Window(a, lo, n);
    forall x | 6 * n <= x < 6 * n + 6 ensures b[x] == a[x] {
      assert b[x] == b[6 * n..][x - 6 * n];
      assert a[x] == a[6 * n..][x - 6 * n];
    }
    assert RecordAt(b, n) == RecordAt(a, n) == w[n - lo];
    assert b[6 * n + 6..] == b[6 * n..][6..];
    assert a[6 * n + 6..] == a[6 * n..][6..];
  }
}
