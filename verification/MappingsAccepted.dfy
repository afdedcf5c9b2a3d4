/** Which texts the decoder accepts and what their records are, told by sums over the segments of
    the whole text instead of by running values. */
module MappingsAccepted {
  import opened Wrappers
  import opened Base64Vlq
  import opened Mappings
  import opened MappingsText

  /** A non-empty segment: its generated line, and its numbers if they are all complete. */
  datatype Seg = Seg(line: int, fields: Option<seq<int>>)

  function LineSegs(segments: seq<Text>, line: int): seq<Seg> {
    if segments == [] then []
    else (if segments[0] == [] then [] else [Seg(line, Fields(segments[0]))]) + LineSegs(segments[1..], line)
  }

  function SegsFrom(lines: seq<Text>, line: int): seq<Seg> {
    if lines == [] then [] else LineSegs(Split(lines[0], COMMA), line) + SegsFrom(lines[1..], line + 1)
  }

  function Segs(t: Text): seq<Seg> { SegsFrom(Split(t, SEMICOLON), 0) }

  predicate HasField(s: Seg, i: nat) { s.fields.Some? && i < |s.fields.value| }

  /** The sum of the i-th numbers of all segments that have one. */
  function FieldSum(segs: seq<Seg>, i: nat): int {
    if segs == [] then 0
    else
      var n := |segs| - 1;
      FieldSum(segs[..n], i) + if HasField(segs[n], i) then segs[n].fields.value[i] else 0
  }

  /** The sum of the first numbers of the line's segments. */
  function ColumnSum(segs: seq<Seg>, line: int): int {
    if segs == [] then 0
    else
      var n := |segs| - 1;
      ColumnSum(segs[..n], line) + if segs[n].line == line && HasField(segs[n], 0) then segs[n].fields.value[0] else 0
  }

  predicate RightCount(s: Seg) { s.fields.Some? && (|s.fields.value| == 1 || |s.fields.value| == 4 || |s.fields.value| == 5) }

  /** The last segment may stand behind the others. */
  predicate LastRight(segs: seq<Seg>, sourcesCount: nat)
    requires segs != []
  {
    var s := segs[|segs| - 1];
    && RightCount(s) && ColumnSum(segs, s.line) >= 0
    && (HasField(s, 1) ==> 0 <= FieldSum(segs, 1) < sourcesCount && FieldSum(segs, 2) >= 0 && FieldSum(segs, 3) >= 0)
    && (HasField(s, 4) ==> FieldSum(segs, 4) >= 0)
  }

  function LastRecord(segs: seq<Seg>): Mapping
    requires segs != []
  {
    var s := segs[|segs| - 1];
    var column := ColumnSum(segs, s.line);
    if !HasField(s, 1) then Mapping(s.line, column, -1, -1, -1, -1)
    else Mapping(s.line, column, FieldSum(segs, 1), FieldSum(segs, 2), FieldSum(segs, 3),
                 if HasField(s, 4) then FieldSum(segs, 4) else -1)
  }

  function Sums(segs: seq<Seg>): Carry {
    Carry(FieldSum(segs, 1), FieldSum(segs, 2), FieldSum(segs, 3), FieldSum(segs, 4))
  }

  /** All segments of more may stand behind done and each other. */
  predicate AllRight(done: seq<Seg>, more: seq<Seg>, sourcesCount: nat)
    decreases |more|
  {
    more == [] || (LastRight(done + [more[0]], sourcesCount) && AllRight(done + [more[0]], more[1..], sourcesCount))
  }

  function Records(done: seq<Seg>, more: seq<Seg>): seq<Mapping>
    decreases |more|
  {
    if more == [] then [] else [LastRecord(done + [more[0]])] + Records(done + [more[0]], more[1..])
  }

  lemma SumsSnoc(done: seq<Seg>, s: Seg)
    ensures forall i: nat :: FieldSum(done + [s], i) == FieldSum(done, i) + if HasField(s, i) then s.fields.value[i] else 0
    ensures forall line :: ColumnSum(done + [s], line) ==
              ColumnSum(done, line) + if s.line == line && HasField(s, 0) then s.fields.value[0] else 0
  {
    assert (done + [s])[..|done|] == done;
  }

  /** One segment: the running values are the sums so far. */
  lemma ReadBySums(done: seq<Seg>, segment: Text, line: int, sourcesCount: nat)
    ensures var s := Seg(line, Fields(segment));
            ReadSegment(segment, line, ColumnSum(done, line), Sums(done), sourcesCount) ==
            if LastRight(done + [s], sourcesCount) then Some(MappingRead(LastRecord(done + [s]), Sums(done + [s]))) else None
  {
    hide Fields, FieldSum, ColumnSum;
    SumsSnoc(done, Seg(line, Fields(segment)));
  }

  lemma {:induction false} AllRightAppend(done: seq<Seg>, a: seq<Seg>, b: seq<Seg>, sourcesCount: nat)
    ensures AllRight(done, a + b, sourcesCount) <==> AllRight(done, a, sourcesCount) && AllRight(done + a, b, sourcesCount)
    ensures Records(done, a + b) == Records(done, a) + Records(done + a, b)
    decreases |a|
  {
    hide LastRight, LastRecord;
    if a == [] {
      assert a + b == b && done + a == done;
    } else {
      assert (a + b)[1..] == a[1..] + b;
      assert done + [a[0]] + a[1..] == done + a;
      AllRightAppend(done + [a[0]], a[1..], b, sourcesCount);
    }
  }

  lemma {:induction false} LineBySums(done: seq<Seg>, segments: seq<Text>, line: int, sourcesCount: nat)
    ensures var segs := LineSegs(segments, line);
            ReadLine(segments, line, ColumnSum(done, line), Sums(done), sourcesCount) ==
            if AllRight(done, segs, sourcesCount) then Some(LineRead(Records(done, segs), Sums(done + segs))) else None
    decreases |segments|
  {
    hide LastRight, LastRecord, Sums, ColumnSum, ReadSegment, Fields;
    var segs := LineSegs(segments, line);
    if segments == [] {
      assert done + segs == done;
    } else if segments[0] == [] {
      assert segs == LineSegs(segments[1..], line);
      LineBySums(done, segments[1..], line, sourcesCount);
    } else {
      var s := Seg(line, Fields(segments[0]));
      assert segs[0] == s && segs[1..] == LineSegs(segments[1..], line);
      ReadBySums(done, segments[0], line, sourcesCount);
      if LastRight(done + [s], sourcesCount) {
        LastColumn(done, s);
        LineBySums(done + [s], segments[1..], line, sourcesCount);
        assert done + [s] + segs[1..] == done + segs;
      }
    }
  }

  lemma LastColumn(done: seq<Seg>, s: Seg)
    ensures LastRecord(done + [s]).genColumn == ColumnSum(done + [s], s.line)
  {
  }

  /** Segments of earlier lines do not count for the columns of a line. */
  lemma {:induction false} NoColumnYet(segs: seq<Seg>, line: int)
    requires forall s | s in segs :: s.line < line
    ensures ColumnSum(segs, line) == 0
  {
    if segs != [] {
      assert segs[|segs| - 1] in segs;
      NoColumnYet(segs[..|segs| - 1], line);
    }
  }

  lemma {:induction false} LineSegsOfLine(segments: seq<Text>, line: int)
    ensures forall s | s in LineSegs(segments, line) :: s.line == line
  {
    if segments != [] { LineSegsOfLine(segments[1..], line); }
  }

  function Concat(lines: Lines): seq<Mapping> {
    if lines == [] then [] else lines[0] + Concat(lines[1..])
  }

  lemma {:induction false} LinesBySums(done: seq<Seg>, lines: seq<Text>, line: int, sourcesCount: nat)
    requires lines != [] && forall s | s in done :: s.line < line
    ensures var r := ReadLines(lines, line, 0, Sums(done), sourcesCount);
            var segs := SegsFrom(lines, line);
            && (r.Some? <==> AllRight(done, segs, sourcesCount))
            && (r.Some? ==> Concat(r.value) == Records(done, segs))
    decreases |lines|
  {
    hide LastRight, LastRecord, Sums, ColumnSum, ReadLine, LineSegs, Split;
    NoColumnYet(done, line);
    var segments := Split(lines[0], COMMA);
    var first := LineSegs(segments, line);
    LineBySums(done, segments, line, sourcesCount);
    AllRightAppend(done, first, SegsFrom(lines[1..], line + 1), sourcesCount);
    var r := ReadLines(lines, line, 0, Sums(done), sourcesCount);
    var l := ReadLine(segments, line, 0, Sums(done), sourcesCount);
    assert r == ReadLater(l, lines[1..], line, sourcesCount);
    if l.Some? {
      if lines[1..] == [] {
        var alone := [l.value.mappings];
        assert alone[1..] == [];
        assert Concat(alone) == l.value.mappings + Concat([]);
      } else {
        LineSegsOfLine(segments, line);
        LinesBySums(done + first, lines[1..], line + 1, sourcesCount);
        var others := ReadLines(lines[1..], line + 1, 0, Sums(done + first), sourcesCount);
        if others.Some? {
          assert r.value == [l.value.mappings] + others.value;
          assert r.value[1..] == others.value;
        }
      }
    }
  }

  /** The k-th segment may stand behind those before it. */
  predicate SegmentRight(segs: seq<Seg>, k: nat, sourcesCount: nat)
    requires k < |segs|
  {
    LastRight(segs[..k + 1], sourcesCount)
  }

  function RecordOf(segs: seq<Seg>, k: nat): Mapping
    requires k < |segs|
  {
    LastRecord(segs[..k + 1])
  }

  lemma {:induction false} AllRightAt(done: seq<Seg>, more: seq<Seg>, sourcesCount: nat)
    ensures AllRight(done, more, sourcesCount) <==>
            forall k | |done| <= k < |done + more| :: SegmentRight(done + more, k, sourcesCount)
    ensures |Records(done, more)| == |more|
    ensures forall k | 0 <= k < |more| :: Records(done, more)[k] == RecordOf(done + more, |done| + k)
    decreases |more|
  {
    hide LastRight, LastRecord;
    if more != [] {
      var next, rest := done + [more[0]], more[1..];
      assert next + rest == done + more;
      assert (done + more)[..|done| + 1] == next;
      AllRightAt(next, rest, sourcesCount);
      assert SegmentRight(done + more, |done|, sourcesCount) == LastRight(next, sourcesCount);
      assert RecordOf(done + more, |done|) == LastRecord(next);
      assert |next| == |done| + 1;
    }
  }

  /** A text is accepted if and only if every non-empty segment has one, four or five complete
      numbers, no sum up to it is negative, and the sources sum to one that exists; the records are
      then these sums. */
  lemma AcceptedExactly(t: Text, sourcesCount: nat)
    ensures var segs := Segs(t);
            var r := ReadMappings(t, sourcesCount);
            && (r.Some? <==> forall k | 0 <= k < |segs| :: SegmentRight(segs, k, sourcesCount))
            && (r.Some? ==> |Concat(r.value)| == |segs|
                            && forall k | 0 <= k < |segs| :: Concat(r.value)[k] == RecordOf(segs, k))
  {
    hide SegmentRight, RecordOf, Split, ReadLines;
    var segs := Segs(t);
    var none: seq<Seg> := [];
    assert Sums(none) == NO_CARRY;
    LinesBySums(none, Split(t, SEMICOLON), 0, sourcesCount);
    AllRightAt(none, segs, sourcesCount);
    assert none + segs == segs;
  }
}
