/** The characters of a mappings text: which of them end a line, which part segments, and what the
    others do. After ECMA-426, "Mappings structure". */
module MappingsSeparators {
  import opened Wrappers
  import opened Base64Vlq
  import opened Mappings
  import opened MappingsText
  import opened MappingsEncoder
  import Decoder = DecodeMappings

  function CountOf(t: Text, c: CodeUnit): nat {
    if t == [] then 0 else (if t[0] == c then 1 else 0) + CountOf(t[1..], c)
  }

  lemma {:induction false} SplitCounts(t: Text, c: CodeUnit)
    ensures |Split(t, c)| == 1 + CountOf(t, c)
  {
    if t != [] { SplitCounts(t[1..], c); }
  }

  lemma SplitNone(t: Text, c: CodeUnit)
    requires c !in t
    ensures Split(t, c) == [t]
  {
    SplitAfter(t, [], c);
    assert t + [] == t;
  }

  lemma SplitOnce(a: Text, b: Text, c: CodeUnit)
    requires c !in a
    ensures Split(a + [c] + b, c) == [a] + Split(b, c)
  {
    SplitAfter(a, [c] + b, c);
    assert a + [c] + b == a + ([c] + b) && ([c] + b)[1..] == b;
    assert Split([c] + b, c) == [[]] + Split(b, c) && a + [] == a;
  }

  /** A text has one line more than semicolons. */
  lemma LinesAreSemicolons(t: Text, sourcesCount: nat)
    ensures var r := ReadMappings(t, sourcesCount);
            r.Some? ==> |r.value| == 1 + CountOf(t, ';' as int)
  {
    SplitCounts(t, ';' as int);
  }

  /** What stands in front of the first semicolon is the first line; the rest of the text is read on
      the next line, from column 0, with the other running values as they are. */
  lemma SemicolonEndsLine(a: Text, b: Text, sourcesCount: nat)
    requires ';' as int !in a
    ensures var first := ReadLine(Split(a, ',' as int), 0, 0, NO_CARRY, sourcesCount);
            && ReadMappings(a, sourcesCount) == (match first case None => None case Some(l) => Some([l.mappings]))
            && ReadMappings(a + [';' as int] + b, sourcesCount) ==
               match first
               case None => None
               case Some(l) =>
                 match ReadRest(b, 1, 0, l.carry, sourcesCount)
                 case None => None
                 case Some(more) => Some([l.mappings] + more)
  {
    hide ReadLine;
    SplitNone(a, ';' as int);
    SplitOnce(a, b, ';' as int);
    var first := ReadLine(Split(a, ',' as int), 0, 0, NO_CARRY, sourcesCount);
    var lines := [a] + Split(b, ';' as int);
    assert lines[0] == a && lines[1..] == Split(b, ';' as int) && [a][1..] == [];
    assert ReadLines([a], 0, 0, NO_CARRY, sourcesCount) == ReadLater(first, [], 0, sourcesCount);
    assert ReadLines(lines, 0, 0, NO_CARRY, sourcesCount) == ReadLater(first, lines[1..], 0, sourcesCount);
  }

  /** A comma between two segments: the second goes on in the same line where the first left off. */
  lemma CommaGoesOn(a: Text, b: Text, sourcesCount: nat)
    requires a != [] && b != []
    requires ',' as int !in a && ';' as int !in a && ',' as int !in b && ';' as int !in b
    ensures ReadMappings(a + [',' as int] + b, sourcesCount) ==
            match ReadSegment(a, 0, 0, NO_CARRY, sourcesCount)
            case None => None
            case Some(one) =>
              match ReadSegment(b, 0, one.mapping.genColumn, one.carry, sourcesCount)
              case None => None
              case Some(two) => Some([[one.mapping, two.mapping]])
  {
    hide ReadSegment;
    var t := a + [',' as int] + b;
    SplitNone(t, ';' as int);
    SplitOnce(a, b, ',' as int);
    SplitNone(b, ',' as int);
    assert [t][1..] == [] && ([a] + [b])[1..] == [b];
    var one := ReadSegment(a, 0, 0, NO_CARRY, sourcesCount);
    var line := ReadLine([a] + [b], 0, 0, NO_CARRY, sourcesCount);
    assert ReadMappings(t, sourcesCount) == ReadLater(line, [], 0, sourcesCount);
    if one.Some? {
      var m := one.value.mapping;
      ReadAlone(b, m.genColumn, one.value.carry, sourcesCount);
      var two := ReadSegment(b, 0, m.genColumn, one.value.carry, sourcesCount);
      if two.Some? { assert [m] + [two.value.mapping] == [m, two.value.mapping]; }
    }
  }

  lemma ReadAlone(b: Text, genColumn: int, carry: Carry, sourcesCount: nat)
    requires b != []
    ensures ReadLine([b], 0, genColumn, carry, sourcesCount) ==
            match ReadSegment(b, 0, genColumn, carry, sourcesCount)
            case None => None
            case Some(two) => Some(LineRead([two.mapping], two.carry))
  {
    hide ReadSegment;
    assert [b][1..] == [];
    var two := ReadSegment(b, 0, genColumn, carry, sourcesCount);
    if two.Some? {
      var m := two.value.mapping;
      assert ReadLine([], 0, m.genColumn, two.value.carry, sourcesCount) == Some(LineRead([], two.value.carry));
      assert [m] + [] == [m];
    }
  }

  // ---- Other characters -----------------------------------------------------------------------

  lemma {:induction false} LengthOfDigits(t: Text, i: nat)
    requires VlqLength(t).Some? && i < VlqLength(t).value
    ensures Digit(t[i]) != NOT_A_DIGIT
  {
    if i > 0 { LengthOfDigits(t[1..], i - 1); }
  }

  lemma {:induction false} FieldsOfDigits(segment: Text, i: nat)
    requires Fields(segment).Some? && i < |segment|
    ensures Digit(segment[i]) != NOT_A_DIGIT
    decreases |segment|
  {
    var n := ReadVlq(segment).value.length;
    if i < n { LengthOfDigits(segment, i); } else { FieldsOfDigits(segment[n..], i - n); }
  }

  lemma {:induction false} PartWith(t: Text, c: CodeUnit, i: nat) returns (k: nat, j: nat)
    requires i < |t| && t[i] != c
    ensures k < |Split(t, c)| && j < |Split(t, c)[k]| && Split(t, c)[k][j] == t[i]
  {
    var rest := Split(t[1..], c);
    if i == 0 {
      k, j := 0, 0;
    } else {
      k, j := PartWith(t[1..], c, i - 1);
      if t[0] == c {
        k := k + 1;
      } else if k == 0 {
        assert Split(t, c)[0][j + 1] == rest[0][j];
        j := j + 1;
      } else {
        assert Split(t, c)[k] == rest[k];
      }
    }
  }

  lemma {:induction false} LineRefused(segments: seq<Text>, genLine: int, genColumn: int, carry: Carry, sourcesCount: nat, k: nat)
    requires k < |segments| && segments[k] != [] && Fields(segments[k]).None?
    ensures ReadLine(segments, genLine, genColumn, carry, sourcesCount).None?
    decreases k
  {
    hide Fields, ReadMapping;
    if k > 0 {
      var one := ReadSegment(segments[0], genLine, genColumn, carry, sourcesCount);
      if segments[0] == [] {
        LineRefused(segments[1..], genLine, genColumn, carry, sourcesCount, k - 1);
      } else if one.Some? {
        LineRefused(segments[1..], genLine, one.value.mapping.genColumn, one.value.carry, sourcesCount, k - 1);
      }
    }
  }

  lemma {:induction false} LinesRefused(lines: seq<Text>, genLine: int, genColumn: int, carry: Carry, sourcesCount: nat, k: nat)
    requires k < |lines|
    requires forall c: Carry, l: int, col: int :: ReadLine(Split(lines[k], COMMA), l, col, c, sourcesCount).None?
    ensures ReadLines(lines, genLine, genColumn, carry, sourcesCount).None?
    decreases k
  {
    hide ReadLine;
    var first := ReadLine(Split(lines[0], COMMA), genLine, genColumn, carry, sourcesCount);
    if k > 0 && first.Some? {
      LinesRefused(lines[1..], genLine + 1, 0, first.value.carry, sourcesCount, k - 1);
      assert ReadLines(lines, genLine, genColumn, carry, sourcesCount) == ReadLater(first, lines[1..], genLine, sourcesCount);
    }
  }

  /** Any other character than a separator or a digit makes the text invalid. */
  lemma OthersRefused(t: Text, sourcesCount: nat, i: nat)
    requires i < |t| && t[i] != ',' as int && t[i] != ';' as int && Digit(t[i]) == NOT_A_DIGIT
    ensures ReadMappings(t, sourcesCount).None?
  {
    var k, j := PartWith(t, ';' as int, i);
    var line := Split(t, ';' as int)[k];
    var l, h := PartWith(line, ',' as int, j);
    var segment := Split(line, ',' as int)[l];
    assert segment != [];
    if Fields(segment).Some? { FieldsOfDigits(segment, h); }
    hide ReadLine, ReadLines, Split, Fields;
    forall c: Carry, g: int, col: int ensures ReadLine(Split(line, COMMA), g, col, c, sourcesCount).None? {
      LineRefused(Split(line, COMMA), g, col, c, sourcesCount, l);
    }
    LinesRefused(Split(t, SEMICOLON), 0, 0, NO_CARRY, sourcesCount, k);
  }

  // ---- A text in full --------------------------------------------------------------------------

  lemma SmallNumber(v: nat)
    requires v < 16
    ensures EncodeVlq(v) == [Char(2 * v)]
  {
  }

  /** Two lines: a segment with the differences 0 to 4, and two segments with a column only. */
  lemma KnownText()
    ensures ReadMappings(['A' as int, 'C' as int, 'E' as int, 'G' as int, 'I' as int, ';' as int,
                          'A' as int, ',' as int, 'C' as int], 2) ==
            Some([[Mapping(0, 0, 1, 2, 3, 4)], [Mapping(1, 0, -1, -1, -1, -1), Mapping(1, 1, -1, -1, -1, -1)]])
  {
    var m, a, b := Mapping(0, 0, 1, 2, 3, 4), Mapping(1, 0, -1, -1, -1, -1), Mapping(1, 1, -1, -1, -1, -1);
    var lines := [[m], [a, b]];
    FiveFields(m);
    TwoColumns(a, b, CarryAfterLine([m], NO_CARRY));
    hide *;
    assert WellFormedLines(lines, 2) by { KnownWellFormed(m, a, b); }
    KnownEncoded([m], [a, b]);
    assert ['A' as int, 'C' as int, 'E' as int, 'G' as int, 'I' as int] + [';' as int] + ['A' as int, ',' as int, 'C' as int] ==
           ['A' as int, 'C' as int, 'E' as int, 'G' as int, 'I' as int, ';' as int, 'A' as int, ',' as int, 'C' as int];
    ReadOpen(lines, 2);
    KnownFits(m, a, b);
  }

  lemma KnownWellFormed(m: Mapping, a: Mapping, b: Mapping)
    requires m == Mapping(0, 0, 1, 2, 3, 4) && a == Mapping(1, 0, -1, -1, -1, -1) && b == Mapping(1, 1, -1, -1, -1, -1)
    ensures WellFormedLines([[m], [a, b]], 2)
  {
    assert WellFormedLine([m], 0, 2) && WellFormedLine([a, b], 1, 2);
  }

  lemma KnownFits(m: Mapping, a: Mapping, b: Mapping)
    requires m == Mapping(0, 0, 1, 2, 3, 4) && a == Mapping(1, 0, -1, -1, -1, -1) && b == Mapping(1, 1, -1, -1, -1, -1)
    ensures LinesFit([[m], [a, b]], NO_CARRY)
  {
    KnownWellFormed(m, a, b);
    assert forall x | x in [m] :: SmallFields(x);
    assert forall x | x in [a, b] :: SmallFields(x);
    SmallLinesFit([[m], [a, b]], 0, NO_CARRY, 2);
  }

  lemma FiveFields(m: Mapping)
    requires m == Mapping(0, 0, 1, 2, 3, 4)
    ensures EncodeLine([m], 0, NO_CARRY) == ['A' as int, 'C' as int, 'E' as int, 'G' as int, 'I' as int]
  {
    var fields := Differences(m, 0, NO_CARRY);
    assert fields == [0, 1, 2, 3, 4];
    hide *;
    SmallFieldsEncoded(fields);
    OneSegment(m, 0, NO_CARRY);
    CharsOf();
  }

  lemma CharsOf()
    ensures Char(0) == 'A' as int && Char(2) == 'C' as int && Char(4) == 'E' as int && Char(6) == 'G' as int && Char(8) == 'I' as int
  {
  }

  lemma {:induction false} SmallFieldsEncoded(fields: seq<int>)
    requires forall i | 0 <= i < |fields| :: 0 <= fields[i] < 16
    ensures |EncodeFields(fields)| == |fields|
    ensures forall i | 0 <= i < |fields| :: EncodeFields(fields)[i] == Char(2 * fields[i])
  {
    if fields != [] {
      SmallNumber(fields[0]);
      hide EncodeVlq, Char;
      SmallFieldsEncoded(fields[1..]);
    }
  }

  lemma OneSegment(m: Mapping, genColumn: int, carry: Carry)
    ensures EncodeLine([m], genColumn, carry) == EncodeFields(Differences(m, genColumn, carry))
  {
    assert [m][1..] == [];
  }

  lemma TwoColumns(a: Mapping, b: Mapping, carry: Carry)
    requires a == Mapping(1, 0, -1, -1, -1, -1) && b == Mapping(1, 1, -1, -1, -1, -1)
    ensures EncodeLine([a, b], 0, carry) == ['A' as int, ',' as int, 'C' as int]
  {
    assert Differences(a, 0, carry) == [0] && Differences(b, 0, carry) == [1];
    SmallFieldsEncoded([0]);
    SmallFieldsEncoded([1]);
    CharsOf();
    OneSegment(b, 0, carry);
    hide EncodeFields, Char, Differences;
    assert [a, b][1..] == [b];
    assert EncodeFields([0]) == ['A' as int] && EncodeFields([1]) == ['C' as int];
  }

  lemma KnownEncoded(first: seq<Mapping>, last: seq<Mapping>)
    ensures EncodeOpen([first, last]) ==
            EncodeLine(first, 0, NO_CARRY) + [';' as int] + EncodeLine(last, 0, CarryAfterLine(first, NO_CARRY))
  {
    var carry := CarryAfterLine(first, NO_CARRY);
    hide EncodeLine, CarryAfterLine;
    assert [first, last][1..] == [last];
    assert EncodeOpenFrom([last], carry) == EncodeLine(last, 0, carry);
  }

  lemma KnownStored(m: Mapping, a: Mapping, b: Mapping)
    requires Fits(m) && Fits(a) && Fits(b) && a.genColumn <= b.genColumn
    ensures Table([[m], [a, b]]) == [m, a, b]
  {
    StoredFits([m]);
    StoredFits([a, b]);
    hide StoredAll, InsertionSort;
    var none: Lines := [];
    Decoder.FinishAllSnoc(none, [m]);
    assert none + [[m]] == [[m]] && FinishAll(none) == [];
    assert [[m], [a, b]][..1] == [[m]];
    assert Finish([m]) == [m];
  }

  /** What the decoder makes of that text: three records of six numbers each. */
  method KnownTable() returns (ok: bool, table: seq<int>)
    ensures ok && table == [0, 0, 1, 2, 3, 4, 1, 0, -1, -1, -1, -1, 1, 1, -1, -1, -1, -1]
  {
    hide *;
    var data, dataLength;
    KnownText();
    ok, data, dataLength := Decoder.DecodeMappings(
      ['A' as int, 'C' as int, 'E' as int, 'G' as int, 'I' as int, ';' as int, 'A' as int, ',' as int, 'C' as int], 2);
    table := data[..dataLength];
    ghost var m, a, b := Mapping(0, 0, 1, 2, 3, 4), Mapping(1, 0, -1, -1, -1, -1), Mapping(1, 1, -1, -1, -1, -1);
    assert Fits(m) && Fits(a) && Fits(b) by { SmallFit(m, a, b); }
    KnownStored(m, a, b);
    CellsOfThree(table, m, a, b);
  }

  lemma SmallFit(m: Mapping, a: Mapping, b: Mapping)
    requires m == Mapping(0, 0, 1, 2, 3, 4) && a == Mapping(1, 0, -1, -1, -1, -1) && b == Mapping(1, 1, -1, -1, -1, -1)
    ensures Fits(m) && Fits(a) && Fits(b)
  {
  }

  lemma CellsOfThree(table: seq<int>, m: Mapping, a: Mapping, b: Mapping)
    requires |table| % 6 == 0 && Records(table) == [m, a, b]
    ensures table == [m.genLine, m.genColumn, m.source, m.origLine, m.origColumn, m.name,
                      a.genLine, a.genColumn, a.source, a.origLine, a.origColumn, a.name,
                      b.genLine, b.genColumn, b.source, b.origLine, b.origColumn, b.name]
  {
    assert |table| == 18;
    var s := Records(table);
    assert s[0] == RecordAt(table, 0) && s[1] == RecordAt(table, 1) && s[2] == RecordAt(table, 2);
  }
}
