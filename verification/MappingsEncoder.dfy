/** The encoder of ECMA-426, "Mappings structure", which the repository leaves to others, and what
    decoding makes of its texts. */
module MappingsEncoder {
  import opened Wrappers
  import opened Base64Vlq
  import opened Mappings
  import opened MappingsText
  import DecodeMappings

  /** A record of generated line genLine that the format can express. */
  predicate WellFormed(m: Mapping, genLine: int, sourcesCount: nat) {
    && m.genLine == genLine && m.genColumn >= 0
    && if m.source == -1 then m.origLine == -1 && m.origColumn == -1 && m.name == -1
       else 0 <= m.source < sourcesCount && m.origLine >= 0 && m.origColumn >= 0 && m.name >= -1
  }

  predicate WellFormedLine(line: seq<Mapping>, genLine: int, sourcesCount: nat) {
    forall m | m in line :: WellFormed(m, genLine, sourcesCount)
  }

  predicate WellFormedLines(lines: Lines, sourcesCount: nat) {
    forall l | 0 <= l < |lines| :: WellFormedLine(lines[l], l, sourcesCount)
  }

  function Differences(m: Mapping, genColumn: int, carry: Carry): seq<int> {
    if m.source == -1 then [m.genColumn - genColumn]
    else
      [m.genColumn - genColumn, m.source - carry.source, m.origLine - carry.origLine, m.origColumn - carry.origColumn]
      + if m.name == -1 then [] else [m.name - carry.name]
  }

  function CarryAfter(m: Mapping, carry: Carry): Carry {
    if m.source == -1 then carry
    else Carry(m.source, m.origLine, m.origColumn, if m.name == -1 then carry.name else m.name)
  }

  function CarryAfterLine(line: seq<Mapping>, carry: Carry): Carry {
    if line == [] then carry else CarryAfterLine(line[1..], CarryAfter(line[0], carry))
  }

  function EncodeFields(fields: seq<int>): Text {
    if fields == [] then [] else EncodeVlq(fields[0]) + EncodeFields(fields[1..])
  }

  /** Commas between the segments; the column runs on from genColumn. */
  function EncodeLine(line: seq<Mapping>, genColumn: int, carry: Carry): Text {
    if line == [] then []
    else
      EncodeFields(Differences(line[0], genColumn, carry))
      + (if |line| == 1 then [] else [COMMA])
      + EncodeLine(line[1..], line[0].genColumn, CarryAfter(line[0], carry))
  }

  /** A semicolon ends each line. */
  function EncodeFrom(lines: Lines, carry: Carry): Text {
    if lines == [] then []
    else EncodeLine(lines[0], 0, carry) + [SEMICOLON] + EncodeFrom(lines[1..], CarryAfterLine(lines[0], carry))
  }

  function Encode(lines: Lines): Text { EncodeFrom(lines, NO_CARRY) }

  /** A semicolon between the lines, and none behind the last one. */
  function EncodeOpenFrom(lines: Lines, carry: Carry): Text
    requires lines != []
  {
    if |lines| == 1 then EncodeLine(lines[0], 0, carry)
    else EncodeLine(lines[0], 0, carry) + [SEMICOLON] + EncodeOpenFrom(lines[1..], CarryAfterLine(lines[0], carry))
  }

  function EncodeOpen(lines: Lines): Text
    requires lines != []
  {
    EncodeOpenFrom(lines, NO_CARRY)
  }

  /** Ending each line is the same as an empty line behind the last. */
  lemma {:induction false} EncodeIsOpen(lines: Lines, carry: Carry)
    ensures EncodeFrom(lines, carry) == EncodeOpenFrom(lines + [[]], carry)
    ensures LinesFit(lines + [[]], carry) <==> LinesFit(lines, carry)
    decreases |lines|
  {
    hide EncodeLine, LineFits, CarryAfterLine;
    var open := lines + [[]];
    if lines == [] {
      NothingEncoded(carry);
      assert open == [[]] && open[1..] == [];
    } else {
      assert open[1..] == lines[1..] + [[]];
      EncodeIsOpen(lines[1..], CarryAfterLine(lines[0], carry));
    }
  }

  lemma NothingEncoded(carry: Carry)
    ensures EncodeLine([], 0, carry) == [] && LineFits([], 0, carry)
  {
  }

  // ---- The condition under which the decoder inverts the encoder -----------------------------

  predicate InVlqRange(v: int) { -0x4000_0000 < v < 0x4000_0000 }

  predicate DifferencesFit(m: Mapping, genColumn: int, carry: Carry) {
    forall v | v in Differences(m, genColumn, carry) :: InVlqRange(v)
  }

  predicate LineFits(line: seq<Mapping>, genColumn: int, carry: Carry) {
    line == []
    || (DifferencesFit(line[0], genColumn, carry)
        && LineFits(line[1..], line[0].genColumn, CarryAfter(line[0], carry)))
  }

  predicate LinesFit(lines: Lines, carry: Carry) {
    lines == [] || (LineFits(lines[0], 0, carry) && LinesFit(lines[1..], CarryAfterLine(lines[0], carry)))
  }

  // ---- One segment ----------------------------------------------------------------------------

  lemma {:induction false} EncodedDigits(u: nat)
    ensures forall i | 0 <= i < |EncodeUnsigned(u)| :: !IsSeparator(EncodeUnsigned(u)[i])
  {
    if u >= 32 { EncodedDigits(u / 32); }
  }

  lemma EncodedSegment(fields: seq<int>, rest: Text)
    requires rest == [] || IsSeparator(rest[0])
    ensures Segment(EncodeFields(fields) + rest) == EncodeFields(fields)
  {
    hide EncodeUnsigned, EncodeFields, IsSeparator;
    NoSeparators(fields);
    SegmentIs(EncodeFields(fields), rest);
  }

  lemma {:induction false} NoSeparators(fields: seq<int>)
    ensures forall i | 0 <= i < |EncodeFields(fields)| :: !IsSeparator(EncodeFields(fields)[i])
  {
    if fields != [] {
      NoSeparators(fields[1..]);
      EncodedDigits(UnsignedOf(fields[0]));
    }
  }

  lemma {:induction false} SegmentIs(s: Text, rest: Text)
    requires forall i | 0 <= i < |s| :: !IsSeparator(s[i])
    requires rest == [] || IsSeparator(rest[0])
    ensures Segment(s + rest) == s
  {
    if s == [] {
      assert s + rest == rest;
    } else {
      assert (s + rest)[1..] == s[1..] + rest;
      SegmentIs(s[1..], rest);
    }
  }

  /** Reading gives as many numbers as were written, each unchanged exactly if it is in range. */
  lemma {:induction false} ReadEncodedFields(fields: seq<int>) returns (read: seq<int>)
    ensures Fields(EncodeFields(fields)) == Some(read) && |read| == |fields|
    ensures forall i | 0 <= i < |fields| :: read[i] == fields[i] <==> InVlqRange(fields[i])
  {
    hide ReadVlq, EncodeVlq;
    if fields == [] {
      read := [];
    } else {
      var rest := EncodeFields(fields[1..]);
      DecodeEncodedVlq(fields[0], rest);
      var t := EncodeVlq(fields[0]) + rest;
      assert t[|EncodeVlq(fields[0])|..] == rest;
      var more := ReadEncodedFields(fields[1..]);
      read := [ReadVlq(t).value.value] + more;
    }
  }

  lemma ReadEncodedMapping(m: Mapping, genColumn: int, carry: Carry, sourcesCount: nat)
    requires WellFormed(m, m.genLine, sourcesCount)
    ensures var r := ReadSegment(EncodeFields(Differences(m, genColumn, carry)), m.genLine, genColumn, carry, sourcesCount);
            if DifferencesFit(m, genColumn, carry) then r == Some(MappingRead(m, CarryAfter(m, carry)))
            else r.None? || r.value.mapping != m
  {
    hide Fields, EncodeFields;
    var fields := Differences(m, genColumn, carry);
    var read := ReadEncodedFields(fields);
    if DifferencesFit(m, genColumn, carry) {
      assert forall i | 0 <= i < |fields| :: fields[i] in fields;
      assert read == fields;
    } else {
      var i :| 0 <= i < |fields| && !InVlqRange(fields[i]);
      assert read[i] != fields[i];
    }
  }

  // ---- One line -------------------------------------------------------------------------------

  /** tail is empty or starts with the ';' that ends the line. */
  lemma {:induction false} ReadEncodedLine(line: seq<Mapping>, genLine: int, genColumn: int, carry: Carry,
                                           tail: Text, sourcesCount: nat)
    requires WellFormedLine(line, genLine, sourcesCount)
    requires tail == [] || tail[0] == SEMICOLON
    ensures var r := ReadRest(EncodeLine(line, genColumn, carry) + tail, genLine, genColumn, carry, sourcesCount);
            var column := if line == [] then genColumn else line[|line| - 1].genColumn;
            if LineFits(line, genColumn, carry)
            then r == Onto(line, ReadRest(tail, genLine, column, CarryAfterLine(line, carry), sourcesCount))
            else r.None? || r.value[0] != line
    decreases |line|
  {
    hide ReadRest, EncodeFields, Differences, ReadSegment, DifferencesFit, CarryAfter, Segment;
    var t := EncodeLine(line, genColumn, carry) + tail;
    if line == [] {
      assert t == tail;
      OntoNothing(ReadRest(tail, genLine, genColumn, carry, sourcesCount));
    } else {
      var m, more := line[0], line[1..];
      assert m in line;
      var s := EncodeFields(Differences(m, genColumn, carry));
      var next := EncodeLine(more, m.genColumn, CarryAfter(m, carry)) + tail;
      var rest := if more == [] then next else [COMMA] + next;
      assert t == s + rest by { RestOfLine(line, genColumn, carry, tail); }
      assert rest == [] || IsSeparator(rest[0]) by {
        if more == [] { assert next == tail; }
      }
      EncodedSegment(Differences(m, genColumn, carry), rest);
      SegmentNotEmpty(m, genColumn, carry);
      ReadRestSegment(t, genLine, genColumn, carry, sourcesCount);
      assert t[|s|..] == rest;
      ReadEncodedMapping(m, genColumn, carry, sourcesCount);
      var one := ReadSegment(s, genLine, genColumn, carry, sourcesCount);
      if DifferencesFit(m, genColumn, carry) {
        if more != [] {
          ReadRestComma(rest, genLine, m.genColumn, CarryAfter(m, carry), sourcesCount);
          assert rest[1..] == next;
        }
        ReadEncodedLine(more, genLine, m.genColumn, CarryAfter(m, carry), tail, sourcesCount);
        var column := line[|line| - 1].genColumn;
        assert [m] + more == line;
        assert column == if more == [] then m.genColumn else more[|more| - 1].genColumn;
        assert CarryAfterLine(line, carry) == CarryAfterLine(more, CarryAfter(m, carry));
        OntoFirst(m, more, ReadRest(tail, genLine, column, CarryAfterLine(line, carry), sourcesCount));
      }
    }
  }

  lemma OntoFirst(m: Mapping, more: seq<Mapping>, rest: Option<Lines>)
    requires rest.Some? ==> rest.value != []
    ensures Onto([m], Onto(more, rest)) == Onto([m] + more, rest)
  {
    if rest.Some? {
      assert ([more + rest.value[0]] + rest.value[1..])[1..] == rest.value[1..];
      assert [m] + (more + rest.value[0]) == ([m] + more) + rest.value[0];
    }
  }

  lemma RestOfLine(line: seq<Mapping>, genColumn: int, carry: Carry, tail: Text)
    requires line != []
    ensures var next := EncodeLine(line[1..], line[0].genColumn, CarryAfter(line[0], carry)) + tail;
            EncodeLine(line, genColumn, carry) + tail ==
            EncodeFields(Differences(line[0], genColumn, carry)) + if |line| == 1 then next else [COMMA] + next
  {
  }

  lemma SegmentNotEmpty(m: Mapping, genColumn: int, carry: Carry)
    ensures EncodeFields(Differences(m, genColumn, carry)) != []
  {
    var fields := Differences(m, genColumn, carry);
    assert EncodeFields(fields) == EncodeVlq(fields[0]) + EncodeFields(fields[1..]);
  }

  // ---- The whole text -------------------------------------------------------------------------

  lemma {:induction false} ReadOpenFrom(lines: Lines, genLine: int, carry: Carry, sourcesCount: nat)
    requires lines != [] && forall l | 0 <= l < |lines| :: WellFormedLine(lines[l], genLine + l, sourcesCount)
    ensures ReadRest(EncodeOpenFrom(lines, carry), genLine, 0, carry, sourcesCount) == Some(lines) <==> LinesFit(lines, carry)
    decreases |lines|
  {
    hide ReadRest, EncodeLine, LineFits, CarryAfterLine, WellFormedLine;
    var line, more := lines[0], lines[1..];
    var carry' := CarryAfterLine(line, carry);
    var column := if line == [] then 0 else line[|line| - 1].genColumn;
    if more == [] {
      assert EncodeLine(line, 0, carry) + [] == EncodeLine(line, 0, carry);
      ReadEncodedLine(line, genLine, 0, carry, [], sourcesCount);
      DecodeMappings.NothingLeft(genLine, column, carry', sourcesCount, [], []);
      OntoNothing(ReadRest([], genLine, column, carry', sourcesCount));
      assert line + [] == line && [line] + [[]][1..] == lines;
    } else {
      var tail := [SEMICOLON] + EncodeOpenFrom(more, carry');
      assert EncodeOpenFrom(lines, carry) == EncodeLine(line, 0, carry) + tail;
      ReadEncodedLine(line, genLine, 0, carry, tail, sourcesCount);
      if LineFits(line, 0, carry) {
        ReadRestSemicolon(tail, genLine, column, carry', sourcesCount);
        assert tail[1..] == EncodeOpenFrom(more, carry');
        forall l | 0 <= l < |more| ensures WellFormedLine(more[l], genLine + 1 + l, sourcesCount) {
          assert more[l] == lines[l + 1];
        }
        ReadOpenFrom(more, genLine + 1, carry', sourcesCount);
        var r := ReadRest(EncodeOpenFrom(more, carry'), genLine + 1, 0, carry', sourcesCount);
        if r.Some? {
          var t: Lines := [[]] + r.value;
          assert t[1..] == r.value && line + t[0] == line;
          assert Onto(line, Some(t)) == Some([line] + r.value);
          assert ([line] + r.value)[1..] == r.value && lines == [line] + more;
        }
      }
    }
  }

  /** The round trip, for every list of well-formed lines, the last of them without a ';': reading
      gives the lines back if and only if every difference is in the reader's range. */
  lemma ReadOpen(lines: Lines, sourcesCount: nat)
    requires lines != [] && WellFormedLines(lines, sourcesCount)
    ensures ReadMappings(EncodeOpen(lines), sourcesCount) == Some(lines) <==> LinesFit(lines, NO_CARRY)
  {
    DecodeMappings.FromStart(EncodeOpen(lines), sourcesCount);
    ReadOpenFrom(lines, 0, NO_CARRY, sourcesCount);
  }

  /** The same with a ';' behind each line, which leaves an empty line at the end. */
  lemma ReadEncoded(lines: Lines, sourcesCount: nat)
    requires WellFormedLines(lines, sourcesCount)
    ensures ReadMappings(Encode(lines), sourcesCount) == Some(lines + [[]]) <==> LinesFit(lines, NO_CARRY)
  {
    EncodeIsOpen(lines, NO_CARRY);
    forall l | 0 <= l < |lines + [[]]| ensures WellFormedLine((lines + [[]])[l], l, sourcesCount) {
    }
    ReadOpen(lines + [[]], sourcesCount);
  }

  // ---- Fields below 2^30 are enough -----------------------------------------------------------

  predicate SmallFields(m: Mapping) {
    && m.genColumn < 0x4000_0000 && m.source < 0x4000_0000
    && m.origLine < 0x4000_0000 && m.origColumn < 0x4000_0000 && m.name < 0x4000_0000
  }

  predicate SmallCarry(carry: Carry) {
    && 0 <= carry.source < 0x4000_0000 && 0 <= carry.origLine < 0x4000_0000
    && 0 <= carry.origColumn < 0x4000_0000 && 0 <= carry.name < 0x4000_0000
  }

  lemma {:induction false} SmallLineFits(line: seq<Mapping>, genLine: int, genColumn: int, carry: Carry, sourcesCount: nat)
    requires WellFormedLine(line, genLine, sourcesCount) && SmallCarry(carry) && 0 <= genColumn < 0x4000_0000
    requires forall m | m in line :: SmallFields(m)
    ensures LineFits(line, genColumn, carry) && SmallCarry(CarryAfterLine(line, carry))
    decreases |line|
  {
    if line != [] {
      assert line[0] in line;
      assert WellFormed(line[0], genLine, sourcesCount) && SmallFields(line[0]);
      SmallLineFits(line[1..], genLine, line[0].genColumn, CarryAfter(line[0], carry), sourcesCount);
    }
  }

  lemma {:induction false} SmallLinesFit(lines: Lines, genLine: int, carry: Carry, sourcesCount: nat)
    requires forall l | 0 <= l < |lines| :: WellFormedLine(lines[l], genLine + l, sourcesCount)
    requires forall l | 0 <= l < |lines| :: forall m | m in lines[l] :: SmallFields(m)
    requires SmallCarry(carry)
    ensures LinesFit(lines, carry)
    decreases |lines|
  {
    if lines != [] {
      SmallLineFits(lines[0], genLine, 0, carry, sourcesCount);
      forall l | 0 <= l < |lines[1..]| ensures WellFormedLine(lines[1..][l], genLine + 1 + l, sourcesCount) {
        assert lines[1..][l] == lines[l + 1];
      }
      SmallLinesFit(lines[1..], genLine + 1, CarryAfterLine(lines[0], carry), sourcesCount);
    }
  }

  // ---- Whatever is accepted is well formed ----------------------------------------------------

  lemma {:induction false} ReadLineWellFormed(segments: seq<Text>, genLine: int, genColumn: int, carry: Carry, sourcesCount: nat)
    requires genColumn >= 0
    ensures var r := ReadLine(segments, genLine, genColumn, carry, sourcesCount);
            r.Some? ==> WellFormedLine(r.value.mappings, genLine, sourcesCount)
    decreases |segments|
  {
    hide Fields;
    if segments != [] {
      if segments[0] == [] {
        ReadLineWellFormed(segments[1..], genLine, genColumn, carry, sourcesCount);
      } else {
        var one := ReadSegment(segments[0], genLine, genColumn, carry, sourcesCount);
        if one.Some? {
          ReadLineWellFormed(segments[1..], genLine, one.value.mapping.genColumn, one.value.carry, sourcesCount);
        }
      }
    }
  }

  lemma {:induction false} ReadLinesWellFormed(lines: seq<Text>, genLine: int, genColumn: int, carry: Carry, sourcesCount: nat)
    requires lines != [] && genColumn >= 0
    ensures var r := ReadLines(lines, genLine, genColumn, carry, sourcesCount);
            r.Some? ==> forall l | 0 <= l < |r.value| :: WellFormedLine(r.value[l], genLine + l, sourcesCount)
    decreases |lines|
  {
    hide ReadLine, Split, WellFormedLine;
    ReadLineWellFormed(Split(lines[0], COMMA), genLine, genColumn, carry, sourcesCount);
    var first := ReadLine(Split(lines[0], COMMA), genLine, genColumn, carry, sourcesCount);
    if first.Some? && lines[1..] != [] {
      ReadLinesWellFormed(lines[1..], genLine + 1, 0, first.value.carry, sourcesCount);
      var r := ReadLines(lines, genLine, genColumn, carry, sourcesCount);
      assert r == ReadLater(first, lines[1..], genLine, sourcesCount);
      if r.Some? {
        var others := ReadLines(lines[1..], genLine + 1, 0, first.value.carry, sourcesCount).value;
        assert r.value == [first.value.mappings] + others;
        forall l | 0 <= l < |r.value| ensures WellFormedLine(r.value[l], genLine + l, sourcesCount) {
          if l > 0 { assert WellFormedLine(others[l - 1], genLine + 1 + (l - 1), sourcesCount); }
        }
      }
    }
  }

  /** Every accepted text gives one list per line, each record well formed and of its line. */
  lemma ReadWellFormed(t: Text, sourcesCount: nat)
    ensures var r := ReadMappings(t, sourcesCount);
            r.Some? ==> WellFormedLines(r.value, sourcesCount)
  {
    hide ReadLines, WellFormedLine;
    var parts := Split(t, SEMICOLON);
    ReadLinesWellFormed(parts, 0, 0, NO_CARRY, sourcesCount);
    assert ReadMappings(t, sourcesCount) == ReadLines(parts, 0, 0, NO_CARRY, sourcesCount);
  }
}
