/** The whole chain: encoded lines, decoded table, search, and the mapping in effect. */
module SourceMapChain {
  import opened Wrappers
  import opened Int32
  import opened Mappings
  import opened MappingsText
  import opened MappingsEncoder
  import opened PositionLookup
  import Decoder = DecodeMappings

  predicate FitLines(lines: Lines) {
    forall l | 0 <= l < |lines| :: forall m | m in lines[l] :: Fits(m)
  }

  /** A line that a ';' ends comes out as the stable sort of what the text says. */
  lemma FinishIsStableSort(line: seq<Mapping>)
    requires forall m | m in line :: Fits(m)
    ensures IsStableSort(line, Finish(line))
  {
    StoredFits(line);
    InsertionSortStable(line);
  }

  lemma FinishMembers(line: seq<Mapping>)
    requires forall m | m in line :: Fits(m)
    ensures |Finish(line)| == |line| && multiset(Finish(line)) == multiset(line)
    ensures forall m :: m in Finish(line) <==> m in line
  {
    FinishIsStableSort(line);
    StableSortPermutes(line, Finish(line));
    forall m ensures m in Finish(line) <==> m in line {
      assert m in multiset(line) <==> m in multiset(Finish(line));
    }
  }

  // ---- When the table is sorted ---------------------------------------------------------------

  lemma {:induction false} FinishedSorted(lines: Lines, sourcesCount: nat)
    requires WellFormedLines(lines, sourcesCount) && FitLines(lines)
    ensures SortedTable(FinishAll(lines))
    ensures forall m | m in FinishAll(lines) :: 0 <= m.genLine < |lines| && m.genColumn >= 0
  {
    if lines != [] {
      var n := |lines| - 1;
      var before, last := FinishAll(lines[..n]), Finish(lines[n]);
      assert WellFormedLines(lines[..n], sourcesCount) && FitLines(lines[..n]);
      FinishedSorted(lines[..n], sourcesCount);
      FinishIsStableSort(lines[n]);
      FinishMembers(lines[n]);
      assert WellFormedLine(lines[n], n, sourcesCount);
      SortedConcat(before, last, n);
    }
  }

  lemma SortedConcat(before: seq<Mapping>, last: seq<Mapping>, n: int)
    requires SortedTable(before) && forall m | m in before :: m.genLine < n
    requires forall m | m in last :: m.genLine == n
    ensures SortedTable(before + last) <==> Ordered(last)
  {
    var s, k := before + last, |before|;
    if Ordered(last) {
      forall i, j | 0 <= i < j < |s| ensures PositionLE(s[i], s[j]) {
        if j >= k { assert last[j - k] in last; }
        if i < k { assert before[i] in before; }
        if i < k && j >= k { assert s[i].genLine < n == s[j].genLine; }
        if i >= k { assert last[i - k] in last; }
      }
    }
    if SortedTable(s) {
      forall i, j | 0 <= i < j < |last| ensures last[i].genColumn <= last[j].genColumn {
        assert PositionLE(s[k + i], s[k + j]);
        assert last[i] in last && last[j] in last;
      }
    }
  }

  /** The decoded table is sorted if and only if the text behind the last ';' is in order, because
      only a ';' makes the decoder sort. */
  lemma TableSortedExactly(t: Text, sourcesCount: nat)
    requires ReadMappings(t, sourcesCount).Some? && FitLines(ReadMappings(t, sourcesCount).value)
    ensures var lines := ReadMappings(t, sourcesCount).value;
            SortedTable(Table(lines)) <==> Ordered(lines[|lines| - 1])
  {
    var lines := ReadMappings(t, sourcesCount).value;
    var n := |lines| - 1;
    ReadWellFormed(t, sourcesCount);
    assert WellFormedLines(lines[..n], sourcesCount) && FitLines(lines[..n]);
    FinishedSorted(lines[..n], sourcesCount);
    StoredFits(lines[n]);
    assert WellFormedLine(lines[n], n, sourcesCount);
    SortedConcat(FinishAll(lines[..n]), lines[n], n);
  }

  /** No column at or before the given one stands behind a greater one. */
  predicate ColumnsOrdered(line: seq<Mapping>, column: int) {
    forall i, j | 0 <= i < j < |line| && line[j].genColumn <= column :: line[i].genColumn <= line[j].genColumn
  }

  lemma QueryOrderedConcat(before: seq<Mapping>, last: seq<Mapping>, n: int, line: int, column: int)
    requires SortedTable(before) && forall m | m in before :: m.genLine < n
    requires forall m | m in last :: m.genLine == n
    ensures QueryOrdered(before + last, line, column) <==> (line == n ==> ColumnsOrdered(last, column))
  {
    var s, k := before + last, |before|;
    forall i | 0 <= i < |s| ensures if i < k then s[i].genLine < n else s[i].genLine == n {
      if i < k { assert before[i] in before; } else { assert last[i - k] in last; }
    }
    forall i, j | 0 <= i < j < k ensures PositionLE(s[i], s[j]) {
      assert PositionLE(before[i], before[j]);
    }
    if QueryOrdered(s, line, column) && line == n {
      forall i, j | 0 <= i < j < |last| && last[j].genColumn <= column ensures last[i].genColumn <= last[j].genColumn {
        assert s[k + i] == last[i] && s[k + j] == last[j];
      }
    }
    if line == n && ColumnsOrdered(last, column) {
      forall i, j | k <= i < j < |s| && s[j].genColumn <= column ensures s[i].genColumn <= s[j].genColumn {
        assert s[i] == last[i - k] && s[j] == last[j - k];
      }
    }
  }

  lemma TableQueryOrdered(lines: Lines, sourcesCount: nat, line: int, column: int)
    requires lines != [] && WellFormedLines(lines, sourcesCount) && FitLines(lines)
    ensures QueryOrdered(Table(lines), line, column) <==>
            (line == |lines| - 1 ==> ColumnsOrdered(lines[|lines| - 1], column))
  {
    var n := |lines| - 1;
    assert WellFormedLines(lines[..n], sourcesCount) && FitLines(lines[..n]);
    FinishedSorted(lines[..n], sourcesCount);
    StoredFits(lines[n]);
    assert WellFormedLine(lines[n], n, sourcesCount);
    QueryOrderedConcat(FinishAll(lines[..n]), lines[n], n, line, column);
  }

  /** A decoded table orders every query on a line that a ';' ended, and a query on the last line
      exactly if the text there has no column at or before it behind a greater one. */
  lemma QueryOrderedExactly(t: Text, sourcesCount: nat, line: int, column: int)
    requires ReadMappings(t, sourcesCount).Some? && FitLines(ReadMappings(t, sourcesCount).value)
    ensures var lines := ReadMappings(t, sourcesCount).value;
            QueryOrdered(Table(lines), line, column) <==>
            (line == |lines| - 1 ==> ColumnsOrdered(lines[|lines| - 1], column))
  {
    hide ReadMappings;
    ReadWellFormed(t, sourcesCount);
    TableQueryOrdered(ReadMappings(t, sourcesCount).value, sourcesCount, line, column);
  }

  /** The decoder does produce such a table: one line with the columns 1, 5, 3 and no ';'. */
  lemma OutOfOrderDecoded() returns (t: Text)
    ensures ReadMappings(t, 1).Some?
    ensures Table(ReadMappings(t, 1).value) ==
            [Mapping(0, 1, 0, 0, 0, -1), Mapping(0, 5, 0, 1, 0, -1), Mapping(0, 3, 0, 2, 0, -1)]
  {
    hide ReadMappings, Table, StoredAll;
    var line := [Mapping(0, 1, 0, 0, 0, -1), Mapping(0, 5, 0, 1, 0, -1), Mapping(0, 3, 0, 2, 0, -1)];
    t := EncodeOpen([line]);
    assert LinesFit([line], NO_CARRY) by { SmallLinesFit([line], 0, NO_CARRY, 1); }
    ReadOpen([line], 1);
    OneLine(line);
    StoredFits(line);
  }

  lemma OneLine(line: seq<Mapping>)
    ensures Table([line]) == StoredAll(line)
    ensures Table([line, []]) == Finish(line)
  {
    hide Finish, StoredAll;
    var none: Lines := [];
    Decoder.FinishAllSnoc(none, line);
    Decoder.StoredNothing();
    assert none + [line] == [line] && [line][..0] == none && [line, []][..1] == [line];
    assert FinishAll(none) == [];
  }

  lemma SortTwo(a: Mapping, b: Mapping)
    requires a.genColumn > b.genColumn
    ensures InsertionSort([a, b]) == [b, a]
  {
    var line := [a, b];
    SortOrdered([a]);
    assert line[..1] == [a];
    assert [a][..0] == [];
    assert Insert([a], b) == Insert([], b) + [a];
  }

  /** Two out-of-order columns: sorted when a ';' follows, left alone when the text just ends. */
  lemma LastLineUnsorted(a: Mapping, b: Mapping)
    requires a == Mapping(0, 2, -1, -1, -1, -1) && b == Mapping(0, 1, -1, -1, -1, -1)
    ensures Table([[a, b]]) == [a, b] && !SortedTable([a, b])
    ensures Table([[a, b], []]) == [b, a]
  {
    hide Table, InsertionSort, FinishAll, StoredAll;
    var line := [a, b];
    OneLine(line);
    StoredFits(line);
    SortTwo(a, b);
    assert !PositionLE(line[0], line[1]) && !(line[0].genColumn <= line[1].genColumn);
  }

  /** Every record of a decoded table is well formed, and the generated lines never step back. */
  lemma TableWellFormed(t: Text, sourcesCount: nat)
    requires ReadMappings(t, sourcesCount).Some? && FitLines(ReadMappings(t, sourcesCount).value)
    ensures var table := Table(ReadMappings(t, sourcesCount).value);
            && (forall m | m in table :: WellFormed(m, m.genLine, sourcesCount))
            && (forall i, j | 0 <= i < j < |table| :: table[i].genLine <= table[j].genLine)
  {
    hide ReadMappings;
    var lines := ReadMappings(t, sourcesCount).value;
    ReadWellFormed(t, sourcesCount);
    var n := |lines| - 1;
    var before, last := FinishAll(lines[..n]), lines[n];
    assert WellFormedLines(lines[..n], sourcesCount) && FitLines(lines[..n]);
    assert WellFormedLine(last, n, sourcesCount);
    StoredFits(last);
    FinishedSorted(lines[..n], sourcesCount);
    forall m | m in before ensures WellFormed(m, m.genLine, sourcesCount) {
      FinishedMember(lines[..n], m, sourcesCount);
      assert WellFormedLine(lines[m.genLine], m.genLine, sourcesCount);
    }
    var table := before + last;
    forall i, j | 0 <= i < j < |table| ensures table[i].genLine <= table[j].genLine {
      if j < |before| { assert PositionLE(before[i], before[j]); }
      else {
        assert last[j - |before|] in last;
        if i < |before| { assert before[i] in before; } else { assert last[i - |before|] in last; }
      }
    }
  }

  // ---- From the table back to the lines as written --------------------------------------------

  /** The p-th mapping of the line, in the order written, is in effect at the column: none at or
      before the column is further right, and none as far right is written later. */
  ghost predicate InEffect(line: seq<Mapping>, column: int, p: nat) {
    && p < |line| && line[p].genColumn <= column
    && forall i | 0 <= i < |line| && line[i].genColumn <= column ::
         line[i].genColumn < line[p].genColumn || (line[i].genColumn == line[p].genColumn && i <= p)
  }

  lemma {:induction false} LastWithColumn(s: seq<Mapping>, c: int, p: nat)
    requires p < |s| && s[p].genColumn == c
    requires forall i | p < i < |s| :: s[i].genColumn != c
    ensures WithColumn(s, c) != [] && WithColumn(s, c)[|WithColumn(s, c)| - 1] == s[p]
  {
    if p < |s| - 1 { LastWithColumn(s[..|s| - 1], c, p); }
  }

  /** In the sorted line the mapping in effect is the last one at or before the column. */
  lemma SortedInEffect(line: seq<Mapping>, sorted: seq<Mapping>, column: int, p: nat) returns (q: nat)
    requires IsStableSort(line, sorted) && InEffect(line, column, p)
    ensures q < |sorted| && sorted[q] == line[p]
    ensures forall i | q < i < |sorted| :: sorted[i].genColumn > column
  {
    var c := line[p].genColumn;
    LastWithColumn(line, c, p);
    assert WithColumn(sorted, c) == WithColumn(line, c);
    q := LastAt(sorted, c);
    LastWithColumn(sorted, c, q);
    forall i | q < i < |sorted| ensures sorted[i].genColumn > column {
      assert sorted[q].genColumn <= sorted[i].genColumn;
      var d := sorted[i].genColumn;
      if d <= column {
        WithColumnMember(sorted, i);
        assert WithColumn(line, d) != [];
        var j := LastAt(line, d);
        assert false;
      }
    }
  }

  lemma LastAt(s: seq<Mapping>, c: int) returns (q: nat)
    requires WithColumn(s, c) != []
    ensures q < |s| && s[q].genColumn == c
    ensures forall i | q < i < |s| :: s[i].genColumn != c
  {
    q := |s| - 1;
    if s[q].genColumn != c { q := LastAt(s[..q], c); }
  }

  lemma ScanEarlier(before: seq<Mapping>, last: seq<Mapping>, n: int, l: int, column: int)
    requires l < n && forall m | m in last :: m.genLine == n
    ensures LinearScan(before + last, l, column) == LinearScan(before, l, column)
  {
    hide LinearScan;
    LinearScanFinds(before, l, column);
    LinearScanFinds(before + last, l, column);
    var s, r := before + last, LinearScan(before, l, column);
    forall i | |before| <= i < |s| ensures s[i].genLine == n {
      assert last[i - |before|] in last;
    }
    if r.Some? {
      LinearScanIs(s, l, column, r.value);
    }
  }

  lemma {:induction false} ScanFinished(lines: Lines, l: nat, column: int, p: nat, sourcesCount: nat)
    requires WellFormedLines(lines, sourcesCount) && FitLines(lines)
    requires l < |lines| && InEffect(lines[l], column, p)
    ensures var r := LinearScan(FinishAll(lines), l, column);
            r.Some? && FinishAll(lines)[r.value] == lines[l][p]
  {
    hide LinearScan, InEffect, Finish;
    var n := |lines| - 1;
    var before, last := FinishAll(lines[..n]), Finish(lines[n]);
    assert WellFormedLines(lines[..n], sourcesCount) && FitLines(lines[..n]);
    assert WellFormedLine(lines[n], n, sourcesCount);
    FinishMembers(lines[n]);
    if l < n {
      ScanFinished(lines[..n], l, column, p, sourcesCount);
      ScanEarlier(before, last, n, l, column);
    } else {
      FinishIsStableSort(lines[n]);
      var q := SortedInEffect(lines[n], last, column, p);
      assert last[q] in last;
      ColumnInEffect(lines[n], column, p);
      var s := before + last;
      forall i | |before| + q < i < |s| ensures s[i].genColumn > column {
        assert s[i] == last[i - |before|];
      }
      LinearScanIs(s, l, column, |before| + q);
    }
  }

  lemma ColumnInEffect(line: seq<Mapping>, column: int, p: nat)
    requires InEffect(line, column, p)
    ensures p < |line| && line[p].genColumn <= column
  {
  }

  /** The rows of the finished table are the written mappings. */
  lemma {:induction false} FinishedMember(lines: Lines, m: Mapping, sourcesCount: nat)
    requires WellFormedLines(lines, sourcesCount) && FitLines(lines)
    requires m in FinishAll(lines)
    ensures 0 <= m.genLine < |lines| && m in lines[m.genLine]
  {
    var n := |lines| - 1;
    assert WellFormedLines(lines[..n], sourcesCount) && FitLines(lines[..n]);
    FinishMembers(lines[n]);
    if m in Finish(lines[n]) {
      assert WellFormedLine(lines[n], n, sourcesCount);
      assert WellFormed(m, n, sourcesCount);
    } else {
      FinishedMember(lines[..n], m, sourcesCount);
    }
  }

  /** A miss in the table is a column before every mapping of the line, or a line without any. */
  lemma ScanMisses(lines: Lines, l: nat, column: int, sourcesCount: nat)
    requires lines != [] && WellFormedLines(lines, sourcesCount) && FitLines(lines)
    requires l < |lines| ==> forall m | m in lines[l] :: m.genColumn > column
    ensures LinearScan(Table(lines), l, column) == None
  {
    hide LinearScan, FinishAll;
    var table, n := Table(lines), |lines| - 1;
    assert WellFormedLines(lines[..n], sourcesCount) && FitLines(lines[..n]);
    assert WellFormedLine(lines[n], n, sourcesCount);
    StoredFits(lines[n]);
    LinearScanFinds(table, l, column);
    forall q | 0 <= q < |table| ensures !(table[q].genLine == l && table[q].genColumn <= column) {
      if q < |FinishAll(lines[..n])| {
        assert table[q] in FinishAll(lines[..n]);
        FinishedMember(lines[..n], table[q], sourcesCount);
      } else {
        assert table[q] in lines[n];
      }
    }
  }

  /** Encoding lines of mappings, decoding the text and searching the table finds the mapping that
      is in effect in the lines as they were written, and null exactly when there is none; on the last
      line, which no ';' ends, if the columns there are ordered up to the query. With a ';' behind
      every line the last one is empty. */
  method EncodeDecodeFind(lines: Lines, sourcesCount: nat, line: nat, column: int)
    returns (found: Option<nat>, table: seq<int>)
    requires lines != [] && WellFormedLines(lines, sourcesCount) && FitLines(lines) && LinesFit(lines, NO_CARRY)
    ensures |table| % 6 == 0 && Records(table) == Table(lines)
    ensures (line == |lines| - 1 ==> ColumnsOrdered(lines[line], column)) ==> Finds(lines, table, line, column, found)
  {
    hide Decoder.Decoded, ReadMappings, LinesFit, WellFormedLines, FitLines, Table, LinearScan, Found, QueryOrdered, Finds;
    ReadOpen(lines, sourcesCount);
    var ok, data, dataLength := Decoder.DecodeMappings(EncodeOpen(lines), sourcesCount);
    table := data[..dataLength];
    found := IndexOfMapping(table, line, column);
    TableQueryOrdered(lines, sourcesCount, line, column);
    if line == |lines| - 1 ==> ColumnsOrdered(lines[line], column) {
      OrderedInFront(Records(table), line, column);
      ScanFinds(lines, table, line, column, sourcesCount);
    }
  }

  lemma ScanFinds(lines: Lines, table: seq<int>, line: nat, column: int, sourcesCount: nat)
    requires lines != [] && WellFormedLines(lines, sourcesCount) && FitLines(lines)
    requires |table| % 6 == 0 && Records(table) == Table(lines)
    requires line == |lines| - 1 ==> ColumnsOrdered(lines[line], column)
    ensures Finds(lines, table, line, column,
                  match LinearScan(Records(table), line, column)
                  case None => None
                  case Some(q) => Some(6 * q))
  {
    hide LinearScan, WellFormedLines, FitLines, Table, InEffect;
    if line >= |lines| || forall m | m in lines[line] :: m.genColumn > column {
      ScanMisses(lines, line, column, sourcesCount);
    } else {
      var p := SomeInEffect(lines[line], column);
      ColumnInEffect(lines[line], column, p);
      ScanTable(lines, line, column, p, sourcesCount);
      var q := LinearScan(Records(table), line, column).value;
      assert Records(table)[q] == RecordAt(table, q);
      forall p': nat | InEffect(lines[line], column, p') ensures p' == p {
        InEffectUnique(lines[line], column, p, p');
      }
    }
  }

  lemma ScanTable(lines: Lines, l: nat, column: int, p: nat, sourcesCount: nat)
    requires WellFormedLines(lines, sourcesCount) && FitLines(lines)
    requires l < |lines| && InEffect(lines[l], column, p)
    requires l == |lines| - 1 ==> ColumnsOrdered(lines[l], column)
    ensures var r := LinearScan(Table(lines), l, column);
            r.Some? && Table(lines)[r.value] == lines[l][p]
  {
    hide LinearScan, FinishAll;
    var n := |lines| - 1;
    var before, last := FinishAll(lines[..n]), lines[n];
    assert WellFormedLines(lines[..n], sourcesCount) && FitLines(lines[..n]);
    assert WellFormedLine(last, n, sourcesCount);
    StoredFits(last);
    if l < n {
      ScanFinished(lines[..n], l, column, p, sourcesCount);
      ScanEarlier(before, last, n, l, column);
    } else {
      var s := before + last;
      assert last[p] in last;
      forall i | |before| + p < i < |s| ensures s[i].genColumn > column {
        assert s[i] == last[i - |before|];
      }
      LinearScanIs(s, l, column, |before| + p);
    }
  }

  lemma InEffectUnique(line: seq<Mapping>, column: int, p: nat, q: nat)
    requires InEffect(line, column, p) && InEffect(line, column, q)
    ensures p == q
  {
  }

  /** The found record is the mapping in effect at the position; null means that there is none. */
  ghost predicate Finds(lines: Lines, table: seq<int>, line: nat, column: int, found: Option<nat>) {
    && (found.None? <==> line >= |lines| || forall m | m in lines[line] :: m.genColumn > column)
    && (found.Some? ==> found.value % 6 == 0 && found.value + 6 <= |table|)
    && (found.Some? ==> forall p: nat | InEffect(lines[line], column, p) ::
          RecordAt(table, found.value / 6) == lines[line][p])
  }

  lemma {:induction false} SomeInEffect(line: seq<Mapping>, column: int) returns (p: nat)
    requires exists m :: m in line && m.genColumn <= column
    ensures InEffect(line, column, p)
  {
    var n := |line| - 1;
    if exists m :: m in line[..n] && m.genColumn <= column {
      p := SomeInEffect(line[..n], column);
      if line[n].genColumn <= column && line[p].genColumn <= line[n].genColumn { p := n; }
    } else {
      p := n;
      forall i | 0 <= i < n ensures line[i].genColumn > column {
        assert line[i] in line[..n];
      }
    }
  }
}
