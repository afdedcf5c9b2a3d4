/** What a mappings text means, by splitting it: lines at ';', segments at ',', then numbers.
    After ECMA-426, "Mappings structure"; the column starts over on each line and the other
    fields run on. */
module MappingsText {
  import opened Wrappers
  import opened Base64Vlq
  import opened Mappings

  const COMMA: CodeUnit := 44
  const SEMICOLON: CodeUnit := 59

  type Text = seq<CodeUnit>

  function Split(t: Text, sep: CodeUnit): (parts: seq<Text>)
    ensures |parts| >= 1
  {
    if t == [] then [[]]
    else
      var rest := Split(t[1..], sep);
      if t[0] == sep then [[]] + rest else [[t[0]] + rest[0]] + rest[1..]
  }

  /** The numbers of a segment; None when a number is incomplete or no Base64 digit. */
  function Fields(segment: Text): Option<seq<int>>
    decreases |segment|
  {
    if segment == [] then Some([])
    else
      match ReadVlq(segment)
      case None => None
      case Some(read) =>
        match Fields(segment[read.length..])
        case None => None
        case Some(fs) => Some([read.value] + fs)
  }

  /** The fields that run on from one mapping to the next, over line ends too. */
  datatype Carry = Carry(source: int, origLine: int, origColumn: int, name: int)

  const NO_CARRY := Carry(0, 0, 0, 0)

  datatype MappingRead = MappingRead(mapping: Mapping, carry: Carry)

  /** One, four or five differences to the running values, none of which may become negative;
      the source must exist. */
  function ReadMapping(fields: seq<int>, genLine: int, genColumn: int, carry: Carry, sourcesCount: nat)
    : Option<MappingRead>
  {
    if |fields| != 1 && |fields| != 4 && |fields| != 5 then None
    else
      var column := genColumn + fields[0];
      if column < 0 then None
      else if |fields| == 1 then Some(MappingRead(Mapping(genLine, column, -1, -1, -1, -1), carry))
      else
        var source := carry.source + fields[1];
        var origLine := carry.origLine + fields[2];
        var origColumn := carry.origColumn + fields[3];
        if !(0 <= source < sourcesCount) || origLine < 0 || origColumn < 0 then None
        else if |fields| == 4 then
          Some(MappingRead(Mapping(genLine, column, source, origLine, origColumn, -1),
                           Carry(source, origLine, origColumn, carry.name)))
        else
          var name := carry.name + fields[4];
          if name < 0 then None
          else Some(MappingRead(Mapping(genLine, column, source, origLine, origColumn, name),
                                Carry(source, origLine, origColumn, name)))
  }

  function ReadSegment(segment: Text, genLine: int, genColumn: int, carry: Carry, sourcesCount: nat)
    : Option<MappingRead>
  {
    match Fields(segment)
    case None => None
    case Some(fields) => ReadMapping(fields, genLine, genColumn, carry, sourcesCount)
  }

  datatype LineRead = LineRead(mappings: seq<Mapping>, carry: Carry)

  /** Empty segments are ignored. */
  function ReadLine(segments: seq<Text>, genLine: int, genColumn: int, carry: Carry, sourcesCount: nat)
    : Option<LineRead>
  {
    if segments == [] then Some(LineRead([], carry))
    else if segments[0] == [] then ReadLine(segments[1..], genLine, genColumn, carry, sourcesCount)
    else
      match ReadSegment(segments[0], genLine, genColumn, carry, sourcesCount)
      case None => None
      case Some(one) =>
        match ReadLine(segments[1..], genLine, one.mapping.genColumn, one.carry, sourcesCount)
        case None => None
        case Some(more) => Some(LineRead([one.mapping] + more.mappings, more.carry))
  }

  /** genColumn is where the first of the lines starts; the others start at 0. */
  function ReadLines(lines: seq<Text>, genLine: int, genColumn: int, carry: Carry, sourcesCount: nat)
    : (r: Option<seq<seq<Mapping>>>)
    requires lines != []
    ensures r.Some? ==> |r.value| == |lines|
    decreases |lines|, 1
  {
    ReadLater(ReadLine(Split(lines[0], COMMA), genLine, genColumn, carry, sourcesCount),
              lines[1..], genLine, sourcesCount)
  }

  function ReadLater(first: Option<LineRead>, later: seq<Text>, genLine: int, sourcesCount: nat)
    : (r: Option<seq<seq<Mapping>>>)
    ensures r.Some? ==> |r.value| == |later| + 1
    decreases |later| + 1, 0
  {
    match first
    case None => None
    case Some(line) =>
      if later == [] then Some([line.mappings])
      else
        match ReadLines(later, genLine + 1, 0, line.carry, sourcesCount)
        case None => None
        case Some(others) => Some([line.mappings] + others)
  }

  /** The mappings of each line in the order of the text, or None if the text is malformed. */
  function ReadMappings(t: Text, sourcesCount: nat): (r: Option<seq<seq<Mapping>>>)
    ensures r.Some? ==> r.value != []
  {
    ReadLines(Split(t, SEMICOLON), 0, 0, NO_CARRY, sourcesCount)
  }

  /** A line that a ';' ends is sorted if its columns ever step back. */
  function Finish(line: seq<Mapping>): (s: seq<Mapping>)
    ensures |s| == |line|
  {
    if Ordered(line) then StoredAll(line) else InsertionSort(StoredAll(line))
  }

  function FinishAll(lines: seq<seq<Mapping>>): seq<Mapping> {
    if lines == [] then [] else FinishAll(lines[..|lines| - 1]) + Finish(lines[|lines| - 1])
  }

  /** The decoded table: the text after the last ';' is never sorted. */
  function Table(lines: seq<seq<Mapping>>): seq<Mapping>
    requires lines != []
  {
    FinishAll(lines[..|lines| - 1]) + StoredAll(lines[|lines| - 1])
  }

  // ---- Reading from the middle of a line ------------------------------------------------------

  type Lines = seq<seq<Mapping>>

  /** Mappings already read on the line that the rest starts in. */
  function Onto(current: seq<Mapping>, rest: Option<Lines>): (r: Option<Lines>)
    requires rest.Some? ==> rest.value != []
    ensures r.Some? ==> r.value != []
  {
    match rest
    case None => None
    case Some(lines) => Some([current + lines[0]] + lines[1..])
  }

  /** Lines already ended before the rest. */
  function Under(done: Lines, rest: Option<Lines>): Option<Lines> {
    match rest
    case None => None
    case Some(lines) => Some(done + lines)
  }

  lemma OntoNothing(rest: Option<Lines>)
    requires rest.Some? ==> rest.value != []
    ensures Under([], Onto([], rest)) == Onto([], rest) == rest
  {
    if rest.Some? {
      assert [] + rest.value[0] == rest.value[0];
      assert [rest.value[0]] + rest.value[1..] == rest.value;
      assert [] + rest.value == rest.value;
    }
  }

  lemma OntoTwice(current: seq<Mapping>, m: Mapping, rest: Option<Lines>)
    requires rest.Some? ==> rest.value != []
    ensures Onto(current, Onto([m], rest)) == Onto(current + [m], rest)
  {
    if rest.Some? {
      assert ([[m] + rest.value[0]] + rest.value[1..])[1..] == rest.value[1..];
      assert current + ([m] + rest.value[0]) == (current + [m]) + rest.value[0];
    }
  }

  lemma UnderNewLine(done: Lines, current: seq<Mapping>, lines: Lines)
    requires lines != []
    ensures Under(done, Onto(current, Some([[]] + lines))) == Under(done + [current], Onto([], Some(lines)))
  {
    OntoNothing(Some(lines));
    assert ([[]] + lines)[1..] == lines;
    assert current + [] == current;
    assert done + ([current] + lines) == (done + [current]) + lines;
  }

  function ReadRest(t: Text, genLine: int, genColumn: int, carry: Carry, sourcesCount: nat)
    : (r: Option<seq<seq<Mapping>>>)
    ensures r.Some? ==> r.value != []
  {
    ReadLines(Split(t, SEMICOLON), genLine, genColumn, carry, sourcesCount)
  }

  predicate IsSeparator(c: CodeUnit) { c == COMMA || c == SEMICOLON }

  /** The text up to the next separator. */
  function Segment(t: Text): (s: Text)
    ensures s <= t
    ensures forall i | 0 <= i < |s| :: !IsSeparator(s[i])
    ensures |s| < |t| ==> IsSeparator(t[|s|])
  {
    if t == [] || IsSeparator(t[0]) then [] else [t[0]] + Segment(t[1..])
  }

  lemma {:induction false} SplitAfter(s: Text, t: Text, sep: CodeUnit)
    requires forall i | 0 <= i < |s| :: s[i] != sep
    ensures Split(s + t, sep) == [s + Split(t, sep)[0]] + Split(t, sep)[1..]
  {
    if s == [] {
      assert s + t == t;
      assert s + Split(t, sep)[0] == Split(t, sep)[0];
    } else {
      SplitAfter(s[1..], t, sep);
      assert (s + t)[1..] == s[1..] + t;
      assert [s[0]] + (s[1..] + Split(t, sep)[0]) == s + Split(t, sep)[0];
    }
  }

  lemma ReadRestSemicolon(t: Text, genLine: int, genColumn: int, carry: Carry, sourcesCount: nat)
    requires t != [] && t[0] == SEMICOLON
    ensures ReadRest(t, genLine, genColumn, carry, sourcesCount) ==
            match ReadRest(t[1..], genLine + 1, 0, carry, sourcesCount)
            case None => None
            case Some(lines) => Some([[]] + lines)
  {
    var lines := Split(t, SEMICOLON);
    assert lines[1..] == Split(t[1..], SEMICOLON);
    assert Split([], COMMA) == [[]];
    var empty: seq<Text> := [[]];
    assert empty[1..] == [];
    assert ReadLine(empty, genLine, genColumn, carry, sourcesCount) == Some(LineRead([], carry));
    assert lines[0] == [];
    assert ReadLines(lines, genLine, genColumn, carry, sourcesCount) ==
           ReadLater(Some(LineRead([], carry)), lines[1..], genLine, sourcesCount);
  }

  function After(head: seq<Mapping>, line: Option<LineRead>): Option<LineRead> {
    match line
    case None => None
    case Some(l) => Some(LineRead(head + l.mappings, l.carry))
  }

  lemma ReadLaterAfter(head: seq<Mapping>, line: Option<LineRead>, later: seq<Text>, genLine: int, sourcesCount: nat)
    ensures ReadLater(After(head, line), later, genLine, sourcesCount) ==
            Onto(head, ReadLater(line, later, genLine, sourcesCount))
  {
    if line.Some? {
      var l := line.value;
      if later == [] {
        var alone := [l.mappings];
        assert [head + alone[0]] + alone[1..] == [head + l.mappings];
      } else {
        var others := ReadLines(later, genLine + 1, 0, l.carry, sourcesCount);
        if others.Some? {
          assert ([l.mappings] + others.value)[1..] == others.value;
        }
      }
    }
  }

  lemma ReadRestComma(t: Text, genLine: int, genColumn: int, carry: Carry, sourcesCount: nat)
    requires t != [] && t[0] == COMMA
    ensures ReadRest(t, genLine, genColumn, carry, sourcesCount) ==
            ReadRest(t[1..], genLine, genColumn, carry, sourcesCount)
  {
    var ls, ms := Split(t, SEMICOLON), Split(t[1..], SEMICOLON);
    assert ls[0][1..] == ms[0];
    assert Split(ls[0], COMMA)[1..] == Split(ms[0], COMMA);
  }

  lemma ReadRestSegment(t: Text, genLine: int, genColumn: int, carry: Carry, sourcesCount: nat)
    requires Segment(t) != []
    ensures ReadRest(t, genLine, genColumn, carry, sourcesCount) ==
            match ReadSegment(Segment(t), genLine, genColumn, carry, sourcesCount)
            case None => None
            case Some(one) =>
              Onto([one.mapping],
                   ReadRest(t[|Segment(t)|..], genLine, one.mapping.genColumn, one.carry, sourcesCount))
  {
    var s := Segment(t);
    var rest := t[|s|..];
    assert t == s + rest;
    SplitAfter(s, rest, SEMICOLON);
    var ls, ms := Split(t, SEMICOLON), Split(rest, SEMICOLON);
    SplitAfter(s, ms[0], COMMA);
    var segments, others := Split(ls[0], COMMA), Split(ms[0], COMMA);
    assert others[0] == [] by {
      if rest != [] { assert rest[0] == t[|s|]; }
    }
    assert s + others[0] == s;
    assert segments[0] == s && segments[1..] == others[1..];
    var one := ReadSegment(s, genLine, genColumn, carry, sourcesCount);
    if one.Some? {
      var line := ReadLine(others, genLine, one.value.mapping.genColumn, one.value.carry, sourcesCount);
      assert ReadLine(others[1..], genLine, one.value.mapping.genColumn, one.value.carry, sourcesCount) == line;
      assert ReadLine(segments, genLine, genColumn, carry, sourcesCount) == After([one.value.mapping], line);
      assert ls[1..] == ms[1..];
      ReadLaterAfter([one.value.mapping], line, ms[1..], genLine, sourcesCount);
      assert ReadRest(t, genLine, genColumn, carry, sourcesCount) ==
             ReadLater(After([one.value.mapping], line), ms[1..], genLine, sourcesCount);
      assert ReadRest(rest, genLine, one.value.mapping.genColumn, one.value.carry, sourcesCount) ==
             ReadLater(line, ms[1..], genLine, sourcesCount);
    } else {
      assert ReadLine(segments, genLine, genColumn, carry, sourcesCount).None?;
      assert ReadRest(t, genLine, genColumn, carry, sourcesCount) == ReadLater(None, ls[1..], genLine, sourcesCount);
    }
  }

  // ---- Numbers do not reach over separators ---------------------------------------------------

  lemma {:induction false} VlqLengthLocal(t: Text)
    ensures VlqLength(t) == VlqLength(Segment(t))
    ensures VlqLength(t).Some? ==> Segment(t[VlqLength(t).value..]) == Segment(t)[VlqLength(t).value..]
  {
    if t != [] && !IsSeparator(t[0]) {
      assert Segment(t)[1..] == Segment(t[1..]);
      VlqLengthLocal(t[1..]);
      if Digit(t[0]) >= 32 && VlqLength(t[1..]).Some? {
        var n := VlqLength(t[1..]).value;
        assert t[1..][n..] == t[n + 1..];
        assert Segment(t)[n + 1..] == Segment(t)[1..][n..];
      }
    }
  }

  /** Reading a number at the front of the text reads the first field of its segment. */
  lemma NextField(t: Text)
    ensures ReadVlq(t).None? ==> Segment(t) == [] || Fields(Segment(t)).None?
    ensures ReadVlq(t).Some? ==>
              var n := ReadVlq(t).value.length;
              && 1 <= n <= |Segment(t)| && Segment(t[n..]) == Segment(t)[n..]
              && Fields(Segment(t)) ==
                 match Fields(Segment(t[n..]))
                 case None => None
                 case Some(fs) => Some([ReadVlq(t).value.value] + fs)
  {
    VlqLengthLocal(t);
    if ReadVlq(t).Some? {
      var n := ReadVlq(t).value.length;
      assert Segment(t)[..n] == t[..n];
    }
  }
}
