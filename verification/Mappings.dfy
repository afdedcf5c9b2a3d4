/** Source map records: their layout in the integer table, and their order. */
module Mappings {
  import opened Int32

  /** -1 stands for a missing source (with its line and column) or a missing name. */
  datatype Mapping = Mapping(genLine: int, genColumn: int, source: int, origLine: int, origColumn: int, name: int)

  /** What an Int32Array keeps of the record. */
  function Stored(m: Mapping): Mapping {
    Mapping(ToInt32(m.genLine), ToInt32(m.genColumn), ToInt32(m.source),
            ToInt32(m.origLine), ToInt32(m.origColumn), ToInt32(m.name))
  }

  function StoredAll(s: seq<Mapping>): (t: seq<Mapping>)
    ensures |t| == |s|
  {
    seq(|s|, i requires 0 <= i < |s| => Stored(s[i]))
  }

  predicate Fits(m: Mapping) {
    IsInt32(m.genLine) && IsInt32(m.genColumn) && IsInt32(m.source)
    && IsInt32(m.origLine) && IsInt32(m.origColumn) && IsInt32(m.name)
  }

  lemma StoredFits(s: seq<Mapping>)
    requires forall m | m in s :: Fits(m)
    ensures StoredAll(s) == s
  {
    forall i | 0 <= i < |s| ensures StoredAll(s)[i] == s[i] {
      assert Fits(s[i]);
    }
  }

  // ---- Layout ---------------------------------------------------------------------------------

  function Cells(m: Mapping): (c: seq<int>)
    ensures |c| == 6
  {
    [m.genLine, m.genColumn, m.source, m.origLine, m.origColumn, m.name]
  }

  function RecordAt(a: seq<int>, r: nat): Mapping
    requires 6 * r + 6 <= |a|
  {
    Mapping(a[6 * r], a[6 * r + 1], a[6 * r + 2], a[6 * r + 3], a[6 * r + 4], a[6 * r + 5])
  }

  /** The records lo to hi of a table, hi excluded. */
  function Window(a: seq<int>, lo: nat, hi: nat): (s: seq<Mapping>)
    requires lo <= hi && 6 * hi <= |a|
    ensures |s| == hi - lo
  {
    seq(hi - lo, r requires 0 <= r < hi - lo => RecordAt(a, lo + r))
  }

  /** All whole records of a table. */
  function Records(a: seq<int>): (s: seq<Mapping>)
    ensures |s| == |a| / 6
  {
    Window(a, 0, |a| / 6)
  }

  // ---- Order ----------------------------------------------------------------------------------

  predicate Ordered(s: seq<Mapping>) {
    forall i, j | 0 <= i < j < |s| :: s[i].genColumn <= s[j].genColumn
  }

  lemma OrderedSnoc(s: seq<Mapping>, m: Mapping)
    ensures Ordered(s + [m]) <==> Ordered(s) && (s != [] ==> s[|s| - 1].genColumn <= m.genColumn)
  {
    var t := s + [m];
    if Ordered(t) {
      assert forall i | 0 <= i < |s| :: t[i] == s[i];
      assert s != [] ==> t[|s| - 1].genColumn <= t[|s|].genColumn;
    }
  }

  /** m goes behind every record whose column is not greater, as the shifting loop places it. */
  function Insert(s: seq<Mapping>, m: Mapping): (t: seq<Mapping>)
    ensures |t| == |s| + 1
  {
    if s == [] then [m]
    else
      var n := |s| - 1;
      if s[n].genColumn > m.genColumn then Insert(s[..n], m) + [s[n]] else s + [m]
  }

  function InsertionSort(s: seq<Mapping>): (t: seq<Mapping>)
    ensures |t| == |s|
  {
    if s == [] then [] else Insert(InsertionSort(s[..|s| - 1]), s[|s| - 1])
  }

  lemma {:induction false} InsertAt(s: seq<Mapping>, m: Mapping, p: nat)
    requires p <= |s|
    requires forall q | p <= q < |s| :: s[q].genColumn > m.genColumn
    requires p > 0 ==> s[p - 1].genColumn <= m.genColumn
    ensures Insert(s, m) == s[..p] + [m] + s[p..]
  {
    if p < |s| {
      var n := |s| - 1;
      InsertAt(s[..n], m, p);
      assert s[p..] == s[p..n] + [s[n]];
    } else {
      assert s[..p] == s;
    }
  }

  function WithColumn(s: seq<Mapping>, c: int): seq<Mapping> {
    if s == [] then []
    else
      var n := |s| - 1;
      WithColumn(s[..n], c) + if s[n].genColumn == c then [s[n]] else []
  }

  /** t is s in column order, and records with equal columns keep their relative order. */
  ghost predicate IsStableSort(s: seq<Mapping>, t: seq<Mapping>) {
    Ordered(t) && forall c :: WithColumn(t, c) == WithColumn(s, c)
  }

  lemma {:induction false} WithColumnAppend(s: seq<Mapping>, t: seq<Mapping>, c: int)
    ensures WithColumn(s + t, c) == WithColumn(s, c) + WithColumn(t, c)
  {
    if t == [] {
      assert s + t == s;
    } else {
      var n := |t| - 1;
      assert (s + t)[..|s| + n] == s + t[..n];
      WithColumnAppend(s, t[..n], c);
    }
  }

  lemma {:induction false} WithColumnAbsent(s: seq<Mapping>, c: int)
    requires forall i | 0 <= i < |s| :: s[i].genColumn != c
    ensures WithColumn(s, c) == []
  {
    if s != [] { WithColumnAbsent(s[..|s| - 1], c); }
  }

  lemma {:induction false} WithColumnMember(s: seq<Mapping>, i: nat)
    requires i < |s|
    ensures WithColumn(s, s[i].genColumn) != []
  {
    if i < |s| - 1 { WithColumnMember(s[..|s| - 1], i); }
  }

  lemma {:induction false} InsertOrdered(s: seq<Mapping>, m: Mapping)
    requires Ordered(s)
    ensures Ordered(Insert(s, m))
    ensures forall x | x in Insert(s, m) :: x == m || x in s
  {
    if s != [] {
      var n := |s| - 1;
      if s[n].genColumn > m.genColumn {
        InsertOrdered(s[..n], m);
        var t := Insert(s[..n], m);
        assert t[|t| - 1] in t;
        OrderedSnoc(t, s[n]);
      } else {
        OrderedSnoc(s, m);
      }
    }
  }

  lemma {:induction false} InsertStable(s: seq<Mapping>, m: Mapping, c: int)
    requires Ordered(s)
    ensures WithColumn(Insert(s, m), c) == WithColumn(s, c) + WithColumn([m], c)
  {
    var n := |s| - 1;
    if s != [] && s[n].genColumn > m.genColumn {
      InsertStable(s[..n], m, c);
      WithColumnAppend(Insert(s[..n], m), [s[n]], c);
      if c == s[n].genColumn {
        assert WithColumn([m], c) == [] by { WithColumnAbsent([m], c); }
      } else {
        assert WithColumn([s[n]], c) == [] by { WithColumnAbsent([s[n]], c); }
      }
    } else {
      assert s == [] ==> s + [m] == [m];
      WithColumnAppend(s, [m], c);
    }
  }

  lemma {:induction false} InsertionSortStable(s: seq<Mapping>)
    ensures IsStableSort(s, InsertionSort(s))
  {
    if s != [] {
      var n := |s| - 1;
      var t := InsertionSort(s[..n]);
      InsertionSortStable(s[..n]);
      InsertOrdered(t, s[n]);
      forall c ensures WithColumn(InsertionSort(s), c) == WithColumn(s, c) {
        InsertStable(t, s[n], c);
        assert s == s[..n] + [s[n]];
        WithColumnAppend(s[..n], [s[n]], c);
      }
    }
  }

  /** There is only one stable sort, so the predicate pins the sorted line down completely. */
  lemma {:induction false} StableSortUnique(s: seq<Mapping>, t: seq<Mapping>, u: seq<Mapping>)
    requires IsStableSort(s, t) && IsStableSort(s, u)
    ensures t == u
  {
    SameColumnsSame(t, u);
  }

  lemma {:induction false} SameColumnsSame(t: seq<Mapping>, u: seq<Mapping>)
    requires Ordered(t) && Ordered(u)
    requires forall c :: WithColumn(t, c) == WithColumn(u, c)
    ensures t == u
  {
    if t == [] {
      if u != [] {
        WithColumnMember(u, 0);
        assert false;
      }
    } else if u == [] {
      WithColumnMember(t, 0);
      assert false;
    } else {
      var n, k := |t| - 1, |u| - 1;
      LastColumnLE(t, u);
      LastColumnLE(u, t);
      var c := t[n].genColumn;
      assert WithColumn(t, c)[|WithColumn(t, c)| - 1] == t[n];
      assert WithColumn(u, c)[|WithColumn(u, c)| - 1] == u[k];
      forall d ensures WithColumn(t[..n], d) == WithColumn(u[..k], d) {
        assert WithColumn(t, d) == WithColumn(t[..n], d) + if d == c then [t[n]] else [];
        assert WithColumn(u, d) == WithColumn(u[..k], d) + if d == c then [u[k]] else [];
        var w := WithColumn(t, d);
        assert w == WithColumn(u, d);
        if d == c {
          assert WithColumn(t[..n], d) == w[..|w| - 1];
          assert WithColumn(u[..k], d) == w[..|w| - 1];
        } else {
          assert WithColumn(t[..n], d) + [] == WithColumn(t[..n], d);
          assert WithColumn(u[..k], d) + [] == WithColumn(u[..k], d);
        }
      }
      SameColumnsSame(t[..n], u[..k]);
    }
  }

  lemma LastColumnLE(t: seq<Mapping>, u: seq<Mapping>)
    requires Ordered(u) && t != [] && u != []
    requires forall c :: WithColumn(t, c) == WithColumn(u, c)
    ensures t[|t| - 1].genColumn <= u[|u| - 1].genColumn
  {
    hide WithColumn;
    var c := t[|t| - 1].genColumn;
    WithColumnMember(t, |t| - 1);
    if forall i | 0 <= i < |u| :: u[i].genColumn != c {
      WithColumnAbsent(u, c);
      assert false;
    }
  }

  /** A stable sort is a permutation. */
  lemma StableSortPermutes(s: seq<Mapping>, t: seq<Mapping>)
    requires IsStableSort(s, t)
    ensures multiset(s) == multiset(t)
  {
    forall m ensures multiset(s)[m] == multiset(t)[m] {
      ColumnCounts(s, m);
      ColumnCounts(t, m);
      assert WithColumn(t, m.genColumn) == WithColumn(s, m.genColumn);
    }
  }

  lemma {:induction false} ColumnCounts(s: seq<Mapping>, m: Mapping)
    ensures multiset(WithColumn(s, m.genColumn))[m] == multiset(s)[m]
  {
    if s != [] {
      var n := |s| - 1;
      assert s == s[..n] + [s[n]];
      ColumnCounts(s[..n], m);
    }
  }

  /** Sorting an ordered line changes nothing, so it may be skipped. */
  lemma {:induction false} SortOrdered(s: seq<Mapping>)
    requires Ordered(s)
    ensures InsertionSort(s) == s
  {
    if s != [] {
      var n := |s| - 1;
      SortOrdered(s[..n]);
      assert s == s[..n] + [s[n]];
      assert n > 0 ==> s[..n][n - 1].genColumn <= s[n].genColumn;
    }
  }
}
