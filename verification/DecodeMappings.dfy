/** The one-pass decoder of sourcemap.ts, lines 35-207, proved against MappingsText. */
module DecodeMappings {
  import opened Wrappers
  import opened Int32
  import opened Base64Vlq
  import opened Mappings
  import opened MappingsText
  import LineSort

  /** Prefixes the numbers of a segment that were read already. */
  function Prefixed(read: seq<int>, rest: Option<seq<int>>): Option<seq<int>> {
    match rest
    case None => None
    case Some(fs) => Some(read + fs)
  }

  lemma PrefixedNothing(rest: Option<seq<int>>)
    ensures Prefixed([], rest) == rest
  {
    if rest.Some? { assert [] + rest.value == rest.value; }
  }

  /** `decodeVLQ` as one step through a segment whose numbers before i are in `read`. */
  method ReadField(mappings: Text, start: nat, i: nat, ghost read: seq<int>)
    returns (r: Option<int>, next: nat)
    requires start <= i <= |mappings|
    requires Fields(Segment(mappings[start..])) == Prefixed(read, Fields(Segment(mappings[i..])))
    requires i - start + |Segment(mappings[i..])| == |Segment(mappings[start..])|
    ensures i <= next <= |mappings|
    ensures r.None? ==> Segment(mappings[i..]) == [] || Fields(Segment(mappings[start..])).None?
    ensures r.Some? ==> i < next
    ensures r.Some? ==> Fields(Segment(mappings[start..])) == Prefixed(read + [r.value], Fields(Segment(mappings[next..])))
    ensures r.Some? ==> next - start + |Segment(mappings[next..])| == |Segment(mappings[start..])|
  {
    hide Fields, Segment, ReadVlq, VlqLength;
    r, next := DecodeVLQ(mappings, i);
    NextField(mappings[i..]);
    if r.Some? {
      assert mappings[i..][next - i..] == mappings[next..];
      var fs := Fields(Segment(mappings[next..]));
      if fs.Some? { assert read + ([r.value] + fs.value) == (read + [r.value]) + fs.value; }
    }
  }

  predicate AtSegmentEnd(mappings: Text, i: nat)
    requires i <= |mappings|
  {
    i < |mappings| ==> IsSeparator(mappings[i])
  }

  lemma SegmentEnd(mappings: Text, i: nat)
    requires i <= |mappings|
    ensures AtSegmentEnd(mappings, i) <==> Segment(mappings[i..]) == []
  {
  }

  lemma NoMoreFields(mappings: Text, start: nat, i: nat, read: seq<int>)
    requires start <= i <= |mappings|
    requires Fields(Segment(mappings[start..])) == Prefixed(read, Fields(Segment(mappings[i..])))
    ensures AtSegmentEnd(mappings, i) ==> Fields(Segment(mappings[start..])) == Some(read)
    ensures !AtSegmentEnd(mappings, i) && Fields(Segment(mappings[start..])).Some? ==>
              |Fields(Segment(mappings[start..])).value| > |read|
    ensures Fields(Segment(mappings[start..])).Some? ==> read <= Fields(Segment(mappings[start..])).value
  {
    SegmentEnd(mappings, i);
    assert read + [] == read;
  }

  /** One mapping (lines 127-183). Stops behind the segment and the comma that follows it, if any. */
  method ReadOneMapping(mappings: Text, sourcesCount: nat, start: nat, generatedLine: nat, generatedColumn: int, carry: Carry)
    returns (r: Option<MappingRead>, i: nat)
    requires start < |mappings| && !IsSeparator(mappings[start])
    ensures r == ReadSegment(Segment(mappings[start..]), generatedLine, generatedColumn, carry, sourcesCount)
    ensures start <= i <= |mappings|
    ensures r.Some? ==> r.value.mapping.genColumn >= 0
    ensures r.Some? ==> var end := start + |Segment(mappings[start..])|;
                        i == end + if end < |mappings| && mappings[end] == COMMA then 1 else 0
  {
    hide Fields, Segment, Prefixed;
    var field, originalSource, originalLine, originalColumn, originalName;
    SegmentEnd(mappings, start);
    PrefixedNothing(Fields(Segment(mappings[start..])));
    field, i := ReadField(mappings, start, start, []);
    if field.None? { return None, i; }
    ghost var read := [] + [field.value];
    var column := generatedColumn + field.value;
    NoMoreFields(mappings, start, i, read);
    if column < 0 { return None, i; }

    if AtEnd(mappings, i) {
      i := SkipComma(mappings, start, i);
      return Some(MappingRead(Mapping(generatedLine, column, -1, -1, -1, -1), carry)), i;
    }

    field, i := ReadField(mappings, start, i, read);
    if field.None? { return None, i; }
    read := read + [field.value];
    originalSource := carry.source + field.value;
    NoMoreFields(mappings, start, i, read);
    if originalSource < 0 || originalSource >= sourcesCount { return None, i; }

    SegmentEnd(mappings, i);
    field, i := ReadField(mappings, start, i, read);
    if field.None? { return None, i; }
    read := read + [field.value];
    originalLine := carry.origLine + field.value;
    NoMoreFields(mappings, start, i, read);
    if originalLine < 0 { return None, i; }

    SegmentEnd(mappings, i);
    field, i := ReadField(mappings, start, i, read);
    if field.None? { return None, i; }
    read := read + [field.value];
    originalColumn := carry.origColumn + field.value;
    NoMoreFields(mappings, start, i, read);
    if originalColumn < 0 { return None, i; }

    if AtEnd(mappings, i) {
      i := SkipComma(mappings, start, i);
      return Some(MappingRead(Mapping(generatedLine, column, originalSource, originalLine, originalColumn, -1),
                              Carry(originalSource, originalLine, originalColumn, carry.name))), i;
    }

    field, i := ReadField(mappings, start, i, read);
    if field.None? { return None, i; }
    read := read + [field.value];
    originalName := carry.name + field.value;
    NoMoreFields(mappings, start, i, read);
    if originalName < 0 { return None, i; }

    // A sixth field
    if !AtEnd(mappings, i) { return None, i; }
    i := SkipComma(mappings, start, i);
    r := Some(MappingRead(Mapping(generatedLine, column, originalSource, originalLine, originalColumn, originalName),
                          Carry(originalSource, originalLine, originalColumn, originalName)));
  }

  /** `i < n` fails, or the next code unit is a comma or a semicolon. */
  predicate AtEnd(mappings: Text, i: nat)
    requires i <= |mappings|
    ensures AtEnd(mappings, i) <==> AtSegmentEnd(mappings, i)
  {
    i >= |mappings| || mappings[i] == COMMA || mappings[i] == SEMICOLON
  }

  method SkipComma(mappings: Text, start: nat, i: nat) returns (next: nat)
    requires start <= i <= |mappings| && AtSegmentEnd(mappings, i)
    requires i - start + |Segment(mappings[i..])| == |Segment(mappings[start..])|
    ensures var end := start + |Segment(mappings[start..])|;
            end == i && next == end + if end < |mappings| && mappings[end] == COMMA then 1 else 0
  {
    SegmentEnd(mappings, i);
    next := if i < |mappings| && mappings[i] == COMMA then i + 1 else i;
  }

  lemma AppendedWindow(a: seq<int>, b: seq<int>, n: nat, m: Mapping)
    requires 6 * n <= |a| && 6 * n + 6 <= |b| && a[..6 * n] == b[..6 * n]
    requires RecordAt(b, n) == m
    ensures Window(b, 0, n + 1) == Window(a, 0, n) + [m]
  {
    forall x | 0 <= x < 6 * n ensures a[x] == b[x] {
      assert a[..6 * n][x] == b[..6 * n][x];
    }
  }

  /** Appends a record, in a buffer of twice the length if there is no room (lines 186-203). */
  method Append(data: array<int>, dataLength: nat, m: Mapping) returns (grown: array<int>)
    requires dataLength % 6 == 0 && dataLength <= data.Length && data.Length >= 6
    modifies data
    ensures grown == data || (fresh(grown) && grown.Length == 2 * data.Length && data[..] == old(data[..]))
    ensures grown != data <==> dataLength + 6 > data.Length
    ensures dataLength + 6 <= grown.Length
    ensures Window(grown[..], 0, dataLength / 6 + 1) == Window(old(data[..]), 0, dataLength / 6) + [Stored(m)]
  {
    hide ToInt32, Window;
    grown := data;
    if dataLength + 6 > data.Length {
      grown := new int[2 * data.Length](_ => 0);
      forall x | 0 <= x < data.Length { grown[x] := data[x]; }
    }
    grown[dataLength] := ToInt32(m.genLine);
    grown[dataLength + 1] := ToInt32(m.genColumn);
    grown[dataLength + 2] := ToInt32(m.source);
    grown[dataLength + 3] := ToInt32(m.origLine);
    grown[dataLength + 4] := ToInt32(m.origColumn);
    grown[dataLength + 5] := ToInt32(m.name);
    AppendedWindow(old(data[..]), grown[..], dataLength / 6, Stored(m));
  }

  /** What the variables of the loop hold when the lines `done` were ended and `current` was read. */
  ghost predicate Decoded(cells: seq<int>, dataLength: nat, lineStart: nat, generatedColumn: int, needToSort: bool,
                          done: Lines, current: seq<Mapping>)
  {
    && dataLength % 6 == 0 && dataLength <= |cells| && lineStart == 6 * |FinishAll(done)|
    && dataLength == lineStart + 6 * |current|
    && Window(cells, 0, lineStart / 6) == FinishAll(done)
    && Window(cells, lineStart / 6, dataLength / 6) == StoredAll(current)
    && generatedColumn == (if current == [] then 0 else current[|current| - 1].genColumn)
    && needToSort == !Ordered(current)
  }

  lemma DecodedStart(cells: seq<int>)
    ensures Decoded(cells, 0, 0, 0, false, [], [])
  {
  }

  lemma DecodedBounds(cells: seq<int>, dataLength: nat, lineStart: nat, generatedColumn: int, needToSort: bool,
                      done: Lines, current: seq<Mapping>)
    requires Decoded(cells, dataLength, lineStart, generatedColumn, needToSort, done, current)
    ensures lineStart % 6 == 0 && dataLength % 6 == 0 && lineStart <= dataLength <= |cells|
  {
  }

  lemma DecodedTable(cells: seq<int>, dataLength: nat, lineStart: nat, generatedColumn: int, needToSort: bool,
                     done: Lines, current: seq<Mapping>)
    requires Decoded(cells, dataLength, lineStart, generatedColumn, needToSort, done, current)
    ensures Records(cells[..dataLength]) == Table(done + [current])
  {
    var lo, n := lineStart / 6, dataLength / 6;
    assert (done + [current])[..|done|] == done;
    var r := Records(cells[..dataLength]);
    forall q | 0 <= q < n ensures r[q] == (Window(cells, 0, lo) + Window(cells, lo, n))[q] {
      assert r[q] == RecordAt(cells, q);
    }
  }

  lemma NothingLeft(genLine: int, genColumn: int, carry: Carry, sourcesCount: nat, done: Lines, current: seq<Mapping>)
    ensures Under(done, Onto(current, ReadRest([], genLine, genColumn, carry, sourcesCount))) ==
            Some(done + [current])
  {
    var segments := Split([], COMMA);
    assert segments == [[]] && segments[1..] == [];
    assert ReadLine(segments, genLine, genColumn, carry, sourcesCount) == Some(LineRead([], carry));
    var lineTexts := Split([], SEMICOLON);
    assert lineTexts == [[]] && lineTexts[1..] == [];
    var first := ReadLine(segments, genLine, genColumn, carry, sourcesCount);
    assert ReadLines(lineTexts, genLine, genColumn, carry, sourcesCount) ==
           ReadLater(first, [], genLine, sourcesCount) == Some([first.value.mappings]);
    var none: seq<Mapping> := [];
    var lines := [none];
    assert ReadRest([], genLine, genColumn, carry, sourcesCount).value == lines;
    assert lines[1..] == [];
    assert current + none == current;
    assert [current + lines[0]] + lines[1..] == [current];
  }

  lemma StoredSnoc(s: seq<Mapping>, m: Mapping)
    ensures StoredAll(s + [m]) == StoredAll(s) + [Stored(m)]
  {
  }

  lemma DecodedOneMore(before: seq<int>, after: seq<int>, dataLength: nat, lineStart: nat, generatedColumn: int,
                       needToSort: bool, done: Lines, current: seq<Mapping>, m: Mapping)
    requires Decoded(before, dataLength, lineStart, generatedColumn, needToSort, done, current)
    requires dataLength + 6 <= |after|
    requires Window(after, 0, dataLength / 6 + 1) == Window(before, 0, dataLength / 6) + [Stored(m)]
    requires m.genColumn >= 0
    ensures Decoded(after, dataLength + 6, lineStart, m.genColumn, needToSort || m.genColumn < generatedColumn,
                    done, current + [m])
  {
    var lo, n := lineStart / 6, dataLength / 6;
    hide Window, Ordered, StoredAll;
    WindowSplit(after, lo, n + 1);
    WindowSplit(before, lo, n);
    StoredSnoc(current, m);
    OrderedSnoc(current, m);
    StoredNothing();
  }

  lemma FinishAllSnoc(done: Lines, line: seq<Mapping>)
    ensures FinishAll(done + [line]) == FinishAll(done) + Finish(line)
  {
    assert (done + [line])[..|done|] == done;
  }

  lemma StoredNothing()
    ensures StoredAll([]) == [] && Ordered([])
  {
  }

  lemma WindowSplit(a: seq<int>, lo: nat, n: nat)
    requires lo <= n && 6 * n <= |a|
    ensures Window(a, 0, n) == Window(a, 0, lo) + Window(a, lo, n)
    ensures Window(a, 0, n)[..lo] == Window(a, 0, lo) && Window(a, 0, n)[lo..] == Window(a, lo, n)
  {
  }

  lemma DecodedLineEnd(before: seq<int>, after: seq<int>, dataLength: nat, lineStart: nat, generatedColumn: int,
                       needToSort: bool, done: Lines, current: seq<Mapping>)
    requires Decoded(before, dataLength, lineStart, generatedColumn, needToSort, done, current)
    requires dataLength <= |after|
    requires Window(after, 0, lineStart / 6) == Window(before, 0, lineStart / 6)
    requires Window(after, lineStart / 6, dataLength / 6) ==
             if needToSort then InsertionSort(Window(before, lineStart / 6, dataLength / 6))
             else Window(before, lineStart / 6, dataLength / 6)
    ensures Decoded(after, dataLength, dataLength, 0, false, done + [current], [])
  {
    var lo, n := lineStart / 6, dataLength / 6;
    hide InsertionSort, Ordered, StoredAll;
    FinishAllSnoc(done, current);
    StoredNothing();
    assert Window(after, lo, n) == Finish(current);
    WindowSplit(after, lo, n);
    assert Window(after, n, n) == [];
  }

  method DecodeMappings(mappings: Text, sourcesCount: nat) returns (ok: bool, data: array<int>, dataLength: nat)
    ensures fresh(data)
    ensures ok <==> ReadMappings(mappings, sourcesCount).Some?
    ensures ok ==> dataLength <= data.Length && dataLength % 6 == 0
    ensures ok ==> Records(data[..dataLength]) == Table(ReadMappings(mappings, sourcesCount).value)
  {
    hide Decoded, ReadRest, FinishAll, Segment, ReadSegment, Ordered;
    var n := |mappings|;
    data := new int[1024](_ => 0);
    dataLength := 0;
    var generatedLine, generatedLineStart, generatedColumn, carry := 0, 0, 0, NO_CARRY;
    var needToSortGeneratedColumns := false;
    var i := 0;
    ghost var done: Lines, current: seq<Mapping> := [], [];
    ghost var all := ReadMappings(mappings, sourcesCount);
    assert mappings[0..] == mappings;
    FromStart(mappings, sourcesCount);
    OntoNothing(all);
    DecodedStart(data[..]);
    while i < n
      invariant 0 <= i <= n && fresh(data) && data.Length >= 1024
      invariant generatedLine == |done|
      invariant Decoded(data[..], dataLength, generatedLineStart, generatedColumn, needToSortGeneratedColumns, done, current)
      invariant all == Under(done, Onto(current, ReadRest(mappings[i..], generatedLine, generatedColumn, carry, sourcesCount)))
      decreases n - i
    {
      ghost var cells := data[..];
      ghost var t := mappings[i..];
      DecodedBounds(cells, dataLength, generatedLineStart, generatedColumn, needToSortGeneratedColumns, done, current);
      var c := mappings[i];
      if c == SEMICOLON {
        if needToSortGeneratedColumns {
          LineSort.SortLine(data, generatedLineStart, dataLength);
        }
        DecodedLineEnd(cells, data[..], dataLength, generatedLineStart, generatedColumn,
                       needToSortGeneratedColumns, done, current);
        ReadRestSemicolon(t, generatedLine, generatedColumn, carry, sourcesCount);
        generatedLine := generatedLine + 1;
        generatedColumn := 0;
        generatedLineStart := dataLength;
        needToSortGeneratedColumns := false;
        i := i + 1;
        assert t[1..] == mappings[i..];
        ghost var rest := ReadRest(mappings[i..], generatedLine, 0, carry, sourcesCount);
        if rest.Some? { UnderNewLine(done, current, rest.value); }
        done, current := done + [current], [];
        continue;
      }
      if c == COMMA {
        ReadRestComma(t, generatedLine, generatedColumn, carry, sourcesCount);
        i := i + 1;
        assert t[1..] == mappings[i..];
        continue;
      }
      ghost var start := i;
      var one;
      one, i := ReadOneMapping(mappings, sourcesCount, i, generatedLine, generatedColumn, carry);
      ReadRestSegment(t, generatedLine, generatedColumn, carry, sourcesCount);
      if one.None? { return false, data, 0; }
      var m := one.value.mapping;
      AfterSegment(mappings, start, i, generatedLine, m.genColumn, one.value.carry, sourcesCount);
      OntoTwice(current, m, ReadRest(mappings[i..], generatedLine, m.genColumn, one.value.carry, sourcesCount));
      ghost var before := needToSortGeneratedColumns;
      if m.genColumn - generatedColumn < 0 { needToSortGeneratedColumns := true; }
      data := Append(data, dataLength, m);
      DecodedOneMore(cells, data[..], dataLength, generatedLineStart, generatedColumn,
                     before, done, current, m);
      generatedColumn := m.genColumn;
      carry := one.value.carry;
      dataLength := dataLength + 6;
      current := current + [m];
    }
    ok := true;
    assert mappings[i..] == [];
    NothingLeft(generatedLine, generatedColumn, carry, sourcesCount, done, current);
    DecodedBounds(data[..], dataLength, generatedLineStart, generatedColumn, needToSortGeneratedColumns, done, current);
    DecodedTable(data[..], dataLength, generatedLineStart, generatedColumn, needToSortGeneratedColumns, done, current);
    assert data[..][..dataLength] == data[..dataLength];
  }

  lemma FromStart(mappings: Text, sourcesCount: nat)
    ensures ReadMappings(mappings, sourcesCount) == ReadRest(mappings, 0, 0, NO_CARRY, sourcesCount)
  {
  }

  lemma AfterSegment(mappings: Text, start: nat, i: nat, genLine: int, genColumn: int, carry: Carry, sourcesCount: nat)
    requires start < |mappings| && !IsSeparator(mappings[start])
    requires var end := start + |Segment(mappings[start..])|;
             i == end + if end < |mappings| && mappings[end] == COMMA then 1 else 0
    ensures start < i <= |mappings|
    ensures ReadRest(mappings[start..][|Segment(mappings[start..])|..], genLine, genColumn, carry, sourcesCount) ==
            ReadRest(mappings[i..], genLine, genColumn, carry, sourcesCount)
  {
    var end := start + |Segment(mappings[start..])|;
    var rest := mappings[start..][|Segment(mappings[start..])|..];
    assert rest == mappings[end..];
    if end < |mappings| && mappings[end] == COMMA {
      ReadRestComma(rest, genLine, genColumn, carry, sourcesCount);
      assert rest[1..] == mappings[i..];
    }
  }
}
