/** Position lookup in a decoded table: `indexOfMapping` and `remapPosition` (sourcemap.ts,
    lines 209-228 and 304-331). */
module PositionLookup {
  import opened Wrappers
  import opened Mappings

  /** By generated line, then by generated column. */
  predicate SortedTable(s: seq<Mapping>) {
    forall i, j | 0 <= i < j < |s| :: PositionLE(s[i], s[j])
  }

  predicate PositionLE(m: Mapping, n: Mapping) {
    m.genLine < n.genLine || (m.genLine == n.genLine && m.genColumn <= n.genColumn)
  }

  predicate AtOrBefore(m: Mapping, line: int, column: int) {
    m.genLine < line || (m.genLine == line && m.genColumn <= column)
  }

  /** The simple form of the search: the last record on the line with column at most the query. */
  function LinearScan(s: seq<Mapping>, line: int, column: int): (r: Option<nat>)
    ensures r.Some? ==> r.value < |s|
  {
    if s == [] then None
    else
      var n := |s| - 1;
      if s[n].genLine == line && s[n].genColumn <= column then Some(n) else LinearScan(s[..n], line, column)
  }

  lemma {:induction false} LinearScanFinds(s: seq<Mapping>, line: int, column: int)
    ensures var r := LinearScan(s, line, column);
            match r
            case None => forall q | 0 <= q < |s| :: !(s[q].genLine == line && s[q].genColumn <= column)
            case Some(p) =>
              && s[p].genLine == line && s[p].genColumn <= column
              && forall q | p < q < |s| :: !(s[q].genLine == line && s[q].genColumn <= column)
  {
    if s != [] { LinearScanFinds(s[..|s| - 1], line, column); }
  }

  lemma {:induction false} LinearScanIs(s: seq<Mapping>, line: int, column: int, p: nat)
    requires p < |s| && s[p].genLine == line && s[p].genColumn <= column
    requires forall q | p < q < |s| :: !(s[q].genLine == line && s[q].genColumn <= column)
    ensures LinearScan(s, line, column) == Some(p)
  {
    LinearScanFinds(s, line, column);
  }

  // ---- The binary search ----------------------------------------------------------------------

  /** Where the halving of count records from index on ends. */
  function Search(s: seq<Mapping>, line: int, column: int, index: nat, count: nat): (r: nat)
    requires index + count <= |s|
    ensures index <= r <= index + count
    decreases count
  {
    if count == 0 then index
    else
      var step := count / 2;
      if AtOrBefore(s[index + step], line, column) then Search(s, line, column, index + step + 1, count - (step + 1))
      else Search(s, line, column, index, step)
  }

  /** What the search finds in any table, sorted or not. */
  function Found(s: seq<Mapping>, line: int, column: int): (r: Option<nat>)
    ensures r.Some? ==> r.value < |s| && s[r.value].genLine == line
  {
    var index := Search(s, line, column, 0, |s|);
    if index > 0 && s[index - 1].genLine == line then Some(index - 1) else None
  }

  lemma SearchStep(s: seq<Mapping>, line: int, column: int, index: nat, count: nat)
    requires index + count <= |s| && count > 0
    ensures var step := count / 2;
            Search(s, line, column, index, count) ==
            if AtOrBefore(s[index + step], line, column) then Search(s, line, column, index + step + 1, count - (step + 1))
            else Search(s, line, column, index, step)
  {
  }

  lemma SearchDone(s: seq<Mapping>, line: int, column: int, index: nat)
    requires index <= |s|
    ensures Search(s, line, column, index, 0) == index
    ensures index == Search(s, line, column, 0, |s|) ==>
              Found(s, line, column) == if index > 0 && s[index - 1].genLine == line then Some(index - 1) else None
  {
  }

  lemma CellsOf(mappings: seq<int>, i: nat, line: int, column: int)
    requires |mappings| % 6 == 0 && i < |mappings| / 6
    ensures 0 <= i * 6 < i * 6 + 6 <= |mappings| && Records(mappings)[i].genLine == mappings[i * 6]
    ensures AtOrBefore(Records(mappings)[i], line, column) <==>
            mappings[i * 6] < line || (mappings[i * 6] == line && mappings[i * 6 + 1] <= column)
  {
    assert Records(mappings)[i] == RecordAt(mappings, i);
  }

  // ---- Where it is the linear scan ------------------------------------------------------------

  ghost predicate LinesForward(s: seq<Mapping>) {
    forall i, j | 0 <= i < j < |s| :: s[i].genLine <= s[j].genLine
  }

  /** The records at or before the query stand in front of the others. */
  ghost predicate InFront(s: seq<Mapping>, line: int, column: int) {
    LinesForward(s) && forall i, j | 0 <= i < j < |s| && AtOrBefore(s[j], line, column) :: AtOrBefore(s[i], line, column)
  }

  lemma {:induction false} SearchBoundary(s: seq<Mapping>, line: int, column: int, index: nat, count: nat)
    requires index + count <= |s|
    requires index > 0 ==> AtOrBefore(s[index - 1], line, column)
    requires index + count < |s| ==> !AtOrBefore(s[index + count], line, column)
    ensures var r := Search(s, line, column, index, count);
            && (r > 0 ==> AtOrBefore(s[r - 1], line, column))
            && (r < |s| ==> !AtOrBefore(s[r], line, column))
    decreases count
  {
    hide Search, AtOrBefore;
    if count == 0 {
      SearchDone(s, line, column, index);
    } else {
      SearchStep(s, line, column, index, count);
      var step := count / 2;
      if AtOrBefore(s[index + step], line, column) {
        SearchBoundary(s, line, column, index + step + 1, count - (step + 1));
      } else {
        SearchBoundary(s, line, column, index, step);
      }
    }
  }

  lemma BehindBoundary(s: seq<Mapping>, index: nat, q: nat, line: int, column: int)
    requires InFront(s, line, column) && index <= q < |s| && !AtOrBefore(s[index], line, column)
    ensures !AtOrBefore(s[q], line, column)
  {
  }

  /** The halving search refines the linear scan for every query whose records stand in front. */
  lemma FoundIsScan(s: seq<Mapping>, line: int, column: int)
    requires InFront(s, line, column)
    ensures Found(s, line, column) == LinearScan(s, line, column)
  {
    hide Search;
    var index := Search(s, line, column, 0, |s|);
    SearchBoundary(s, line, column, 0, |s|);
    LinearScanFinds(s, line, column);
    forall q | index <= q < |s| ensures !AtOrBefore(s[q], line, column) {
      BehindBoundary(s, index, q, line, column);
    }
    if index > 0 && s[index - 1].genLine == line {
      LinearScanIs(s, line, column, index - 1);
    } else {
      forall q | 0 <= q < |s| ensures !(s[q].genLine == line && s[q].genColumn <= column) {
        assert q < index - 1 ==> s[q].genLine <= s[index - 1].genLine;
      }
    }
  }

  lemma FoundInFront(s: seq<Mapping>, line: int, column: int)
    ensures InFront(s, line, column) ==> Found(s, line, column) == LinearScan(s, line, column)
  {
    hide InFront, Found, LinearScan;
    if InFront(s, line, column) { FoundIsScan(s, line, column); }
  }

  /** The loop on the integer table; null is None. */
  method IndexOfMapping(mappings: seq<int>, line: int, column: int) returns (r: Option<nat>)
    requires |mappings| % 6 == 0
    ensures r == match Found(Records(mappings), line, column)
                 case None => None
                 case Some(q) => Some(6 * q)
    ensures InFront(Records(mappings), line, column) ==>
              r == match LinearScan(Records(mappings), line, column)
                   case None => None
                   case Some(q) => Some(6 * q)
  {
    hide *;
    ghost var s := Records(mappings);
    FoundInFront(s, line, column);
    var count := |mappings| / 6;
    var index := 0;
    while count > 0
      invariant 0 <= count && 0 <= index && index + count <= |s|
      invariant Search(s, line, column, index, count) == Search(s, line, column, 0, |s|)
      decreases count
    {
      var step := count / 2;
      var i := index + step;
      var j := i * 6;
      CellsOf(mappings, i, line, column);
      SearchStep(s, line, column, index, count);
      if mappings[j] < line || (mappings[j] == line && mappings[j + 1] <= column) {
        index := i + 1;
        count := count - (step + 1);
      } else {
        count := step;
      }
    }
    SearchDone(s, line, column, index);
    if index > 0 {
      CellsOf(mappings, index - 1, line, column);
      if mappings[(index - 1) * 6] == line {
        return Some((index - 1) * 6);
      }
    }
    return None;
  }

  // ---- remapPosition --------------------------------------------------------------------------

  datatype Position = Position(line: int, column: int)

  /** Record q is in effect at the position: no record of the line at or before the column is
      further right, and none as far right stands behind it. */
  ghost predicate EffectAt(s: seq<Mapping>, q: nat, line: int, column: int) {
    && q < |s| && s[q].genLine == line && s[q].genColumn <= column
    && forall i | 0 <= i < |s| && s[i].genLine == line && s[i].genColumn <= column ::
         s[i].genColumn < s[q].genColumn || (s[i].genColumn == s[q].genColumn && i <= q)
  }

  /** Going through the whole table for the record in effect. */
  function Effective(s: seq<Mapping>, line: int, column: int): (r: Option<nat>)
    ensures r.Some? ==> r.value < |s|
  {
    if s == [] then None
    else
      var n := |s| - 1;
      var r := Effective(s[..n], line, column);
      if s[n].genLine == line && s[n].genColumn <= column && (r.Some? ==> s[r.value].genColumn <= s[n].genColumn) then Some(n)
      else r
  }

  lemma {:induction false} EffectiveFinds(s: seq<Mapping>, line: int, column: int)
    ensures match Effective(s, line, column)
            case None => forall i | 0 <= i < |s| :: !(s[i].genLine == line && s[i].genColumn <= column)
            case Some(q) => EffectAt(s, q, line, column)
    ensures forall q: nat | EffectAt(s, q, line, column) :: Effective(s, line, column) == Some(q)
  {
    if s != [] { EffectiveFinds(s[..|s| - 1], line, column); }
  }

  /** What the caller wants: the original position of the record in effect, if there is one and it
      has one. A one-field mapping has no source and so no original position. */
  function PositionInEffect(s: seq<Mapping>, line: int, column: int): Option<Position> {
    match Effective(s, line, column)
    case None => None
    case Some(q) => if s[q].source == -1 then None else Some(Position(s[q].origLine + 1, s[q].origColumn))
  }

  /** What the code gives: it tests for -1 where a miss is null, and null + 3 is 3. */
  function Remapped(s: seq<Mapping>, line: int, column: int): Option<Position> {
    if s == [] || line < 0 || column < 0 then None
    else
      match Found(s, line, column)
      case None => Some(Position(s[0].origLine + 1, s[0].origColumn))
      case Some(q) => Some(Position(s[q].origLine + 1, s[q].origColumn))
  }

  method RemapPosition(mappings: seq<int>, line: int, column: int) returns (r: Option<Position>)
    requires |mappings| % 6 == 0
    ensures r == Remapped(Records(mappings), line, column)
  {
    hide Found, InFront, LinearScan;
    if |mappings| == 0 || line < 0 || column < 0 { return None; }
    var found := IndexOfMapping(mappings, line, column);
    var index := match found { case None => 0 case Some(i) => i };
    ghost var s := Records(mappings);
    FoundExists(s, line, column);
    assert s[0] == RecordAt(mappings, 0);
    assert s[index / 6] == RecordAt(mappings, index / 6);
    r := Some(Position(mappings[index + 3] + 1, mappings[index + 4]));
  }

  lemma FoundExists(s: seq<Mapping>, line: int, column: int)
    ensures Found(s, line, column).Some? ==> Found(s, line, column).value < |s|
  {
  }

  /** Generated lines never step back, and on the queried line no column at or before the query
      stands behind a greater one. */
  ghost predicate QueryOrdered(s: seq<Mapping>, line: int, column: int) {
    && LinesForward(s)
    && forall i, j | 0 <= i < j < |s| && s[i].genLine == line == s[j].genLine && s[j].genColumn <= column ::
         s[i].genColumn <= s[j].genColumn
  }

  lemma SortedOrdersQueries(s: seq<Mapping>, line: int, column: int)
    requires SortedTable(s)
    ensures QueryOrdered(s, line, column)
  {
    forall i, j | 0 <= i < j < |s| ensures PositionLE(s[i], s[j]) {
    }
  }

  lemma OrderedInFront(s: seq<Mapping>, line: int, column: int)
    requires QueryOrdered(s, line, column)
    ensures InFront(s, line, column)
  {
  }

  /** For such a query the search finds the record in effect, and null exactly if there is none. */
  lemma FoundIsEffective(s: seq<Mapping>, line: int, column: int)
    requires QueryOrdered(s, line, column)
    ensures Found(s, line, column) == Effective(s, line, column) == LinearScan(s, line, column)
  {
    OrderedInFront(s, line, column);
    FoundIsScan(s, line, column);
    LinearScanFinds(s, line, column);
    EffectiveFinds(s, line, column);
    hide Found, LinearScan, Effective;
    var r := LinearScan(s, line, column);
    if r.Some? { assert EffectAt(s, r.value, line, column); }
  }

  /** For a query that the table orders, remapPosition is right exactly if it screens the query out
      or a record with a source is in effect. Otherwise it answers all the same: with the first
      record of the table on a miss, with line 0 and column -1 for a mapping that has no source.
      Records start at line and column 0. */
  lemma RemapRightExactly(s: seq<Mapping>, line: int, column: int)
    requires forall m | m in s :: m.genLine >= 0 && m.genColumn >= 0
    requires QueryOrdered(s, line, column)
    ensures Remapped(s, line, column) == PositionInEffect(s, line, column)
            <==> || s == [] || line < 0 || column < 0
                 || exists q: nat :: EffectAt(s, q, line, column) && s[q].source != -1
  {
    FoundIsEffective(s, line, column);
    EffectiveFinds(s, line, column);
    hide Found, LinearScan, Effective;
    var r := Effective(s, line, column);
    if r.Some? { assert s[r.value] in s && EffectAt(s, r.value, line, column); }
  }

  /** So on a sorted table for every query. */
  lemma RemapRightSorted(s: seq<Mapping>, line: int, column: int)
    requires forall m | m in s :: m.genLine >= 0 && m.genColumn >= 0
    requires SortedTable(s)
    ensures Remapped(s, line, column) == PositionInEffect(s, line, column)
            <==> || s == [] || line < 0 || column < 0
                 || exists q: nat :: EffectAt(s, q, line, column) && s[q].source != -1
  {
    SortedOrdersQueries(s, line, column);
    hide SortedTable, QueryOrdered, Remapped, PositionInEffect, EffectAt;
    RemapRightExactly(s, line, column);
  }

  /** The order is not needed for every query: of the columns 5, 1 the search finds 1 for a query at 3. */
  lemma FoundOutOfOrder()
    ensures var s := [Mapping(0, 5, 0, 0, 0, -1), Mapping(0, 1, 0, 1, 0, -1)];
            && !QueryOrdered(s, 0, 3) && EffectAt(s, 1, 0, 3)
            && Found(s, 0, 3) == Effective(s, 0, 3) == Some(1)
  {
    hide Search, Effective, Found;
    var s := [Mapping(0, 5, 0, 0, 0, -1), Mapping(0, 1, 0, 1, 0, -1)];
    EffectiveFinds(s, 0, 3);
    assert EffectAt(s, 1, 0, 3);
    assert s[1].genColumn <= 3 && s[0].genColumn > s[1].genColumn;
    SearchStep(s, 0, 3, 0, 2);
    SearchDone(s, 0, 3, 2);
  }

  /** A query that the table does not order: of the columns 1, 5, 3 the search stops at 1 for a query
      at 4, where 3 is in effect. */
  lemma RemapWrongOutOfOrder()
    ensures var s := [Mapping(0, 1, 0, 0, 0, -1), Mapping(0, 5, 0, 1, 0, -1), Mapping(0, 3, 0, 2, 0, -1)];
            && !InFront(s, 0, 4) && EffectAt(s, 2, 0, 4)
            && PositionInEffect(s, 0, 4) == Some(Position(3, 0)) && Remapped(s, 0, 4) == Some(Position(1, 0))
  {
    hide Search, Effective, Found;
    var s := [Mapping(0, 1, 0, 0, 0, -1), Mapping(0, 5, 0, 1, 0, -1), Mapping(0, 3, 0, 2, 0, -1)];
    EffectiveFinds(s, 0, 4);
    assert EffectAt(s, 2, 0, 4);
    assert AtOrBefore(s[2], 0, 4) && !AtOrBefore(s[1], 0, 4);
    SearchStep(s, 0, 4, 0, 3);
    SearchStep(s, 0, 4, 0, 1);
    SearchDone(s, 0, 4, 1);
  }

  /** Columns 3, 1: the search is the linear scan, and finds 1 for a query at 3. */
  lemma RemapWrongBehind()
    ensures var s := [Mapping(0, 3, 0, 0, 0, -1), Mapping(0, 1, 0, 1, 0, -1)];
            && InFront(s, 0, 3) && EffectAt(s, 0, 0, 3)
            && PositionInEffect(s, 0, 3) == Some(Position(1, 0)) && Remapped(s, 0, 3) == Some(Position(2, 0))
  {
    hide Search, Effective, Found;
    var s := [Mapping(0, 3, 0, 0, 0, -1), Mapping(0, 1, 0, 1, 0, -1)];
    EffectiveFinds(s, 0, 3);
    assert EffectAt(s, 0, 0, 3);
    SearchStep(s, 0, 3, 0, 2);
    SearchDone(s, 0, 3, 2);
  }

  /** A miss is answered with the first record. */
  lemma MissIsFirst(s: seq<Mapping>, line: int, column: int)
    requires QueryOrdered(s, line, column) && s != [] && line >= 0 && column >= 0
    requires forall m | m in s :: !(m.genLine == line && m.genColumn <= column)
    ensures PositionInEffect(s, line, column) == None
    ensures Remapped(s, line, column) == Some(Position(s[0].origLine + 1, s[0].origColumn))
  {
    FoundIsEffective(s, line, column);
    EffectiveFinds(s, line, column);
    hide Found, LinearScan, Effective, QueryOrdered;
    assert forall i | 0 <= i < |s| :: s[i] in s;
  }

  /** Such a miss: line 5 has no mapping, and the first of two records answers. */
  lemma RemapWrongOnMiss()
    ensures var s := [Mapping(0, 0, 0, 7, 3, -1), Mapping(0, 4, 0, 9, 1, -1)];
            && QueryOrdered(s, 5, 0) && PositionInEffect(s, 5, 0) == None
            && Remapped(s, 5, 0) == Some(Position(8, 3))
  {
    MissIsFirst([Mapping(0, 0, 0, 7, 3, -1), Mapping(0, 4, 0, 9, 1, -1)], 5, 0);
  }

  /** A hit without an original position that is reported as one: the table of the text "A". */
  lemma RemapWrongWithoutSource()
    ensures var s := [Mapping(0, 0, -1, -1, -1, -1)];
            && QueryOrdered(s, 0, 0) && EffectAt(s, 0, 0, 0)
            && PositionInEffect(s, 0, 0) == None && Remapped(s, 0, 0) == Some(Position(0, -1))
  {
    var s := [Mapping(0, 0, -1, -1, -1, -1)];
    SearchStep(s, 0, 0, 0, 1);
    SearchDone(s, 0, 0, 1);
    EffectiveFinds(s, 0, 0);
  }
}
