/** The main loop of scripts/sort-imports.ts, lines 312-377. */
module ProcessFile {
  import opened Wrappers
  import opened ImportPaths
  import opened ImportGroups
  import opened SortImports
  import opened StableSort

  // ---- The flattened groups hold each declaration once ----------------------------------------

  lemma {:induction false} AllOfExcept(order: seq<string>, table: Groups, k: string)
    requires (forall x | x in order :: x in table) && Distinct(order) && k in order
    requires forall x | x in Without(order, k) :: x in table
    ensures AllOf(order, table) == multiset(table[k].declarations) + AllOf(Without(order, k), table)
  {
    if order[0] == k {
      WithoutAbsent(order[1..], k);
    } else {
      AllOfExcept(order[1..], table, k);
    }
  }

  /** The whole does not depend on the order of the groups. */
  lemma {:induction false} AllOfPermuted(keys: seq<string>, order: seq<string>, table: Groups)
    requires Distinct(keys) && Distinct(order) && forall k :: k in keys <==> k in order
    requires forall k | k in order :: k in table
    ensures AllOf(keys, table) == AllOf(order, table)
    decreases |keys|
  {
    if keys == [] {
      assert order == [];
    } else {
      var k := keys[0];
      WithoutProperties(order, k);
      AllOfExcept(order, table, k);
      AllOfPermuted(keys[1..], Without(order, k), table);
    }
  }

  lemma {:induction false} FlattenIsAll(keys: seq<string>, table: Groups)
    requires forall k | k in keys :: k in table
    ensures multiset(Flatten(keys, table)) == AllOf(keys, table)
  {
    if keys != [] {
      var n := |keys| - 1;
      FlattenIsAll(keys[..n], table);
      AllOfAppend(keys[..n], table, keys[n]);
      assert keys[..n] + [keys[n]] == keys;
    }
  }

  lemma SortedKeys(order: seq<string>, keys: seq<string>)
    requires Distinct(order) && multiset(keys) == multiset(order)
    ensures Distinct(keys) && forall k :: k in keys <==> k in order
  {
    forall k ensures k in keys <==> k in order {
      assert k in multiset(keys) <==> k in multiset(order);
    }
    forall a, b | 0 <= a < b < |keys| ensures keys[a] != keys[b] {
      if keys[a] == keys[b] {
        TwiceCounts(keys, a, b);
        DistinctOnce(order, keys[a]);
      }
    }
  }

  lemma {:induction false} DistinctOnce(order: seq<string>, k: string)
    requires Distinct(order)
    ensures multiset(order)[k] <= 1
  {
    if order != [] {
      var n := |order| - 1;
      assert order == order[..n] + [order[n]];
      DistinctOnce(order[..n], k);
      if order[n] == k { assert k !in order[..n]; }
    }
  }

  /** The declarations stand for different lines. */
  ghost predicate DifferentLines(keys: seq<string>, declarations: Table) {
    && Distinct(keys) && (forall k | k in keys :: k in declarations)
    && forall a, b | a in keys && b in keys && a != b :: declarations[a].index != declarations[b].index
  }

  lemma {:induction false} GroupedOnce(keys: seq<string>, declarations: Table, steps: string -> nat)
    requires forall name :: EndsWithin(declarations, name, steps(name))
    requires DifferentLines(keys, declarations)
    ensures var m := GroupedAll(keys, declarations, steps);
            && (forall x | x in m :: exists k :: k in keys && x.index == declarations[k].index && x.whole == declarations[k].whole)
            && (forall x :: m[x] <= 1)
            && (forall x, y | x in m && y in m && x.index == y.index :: x == y)
  {
    if keys != [] {
      hide EndsWithin, Grouped;
      var n := |keys| - 1;
      GroupedOnce(keys[..n], declarations, steps);
      GroupedSame(declarations[keys[n]], declarations, steps);
      var m := GroupedAll(keys[..n], declarations, steps);
      var one := Grouped(declarations[keys[n]], declarations, steps);
      assert keys[n] !in keys[..n];
      if one.Some? {
        forall x | x in m ensures x.index != one.value.index {
          var k :| k in keys[..n] && x.index == declarations[k].index;
          assert k in keys && keys[n] in keys && k != keys[n];
        }
      }
    }
  }

  lemma GroupedSame(d: Declaration, declarations: Table, steps: string -> nat)
    requires forall name :: EndsWithin(declarations, name, steps(name))
    ensures var r := Grouped(d, declarations, steps);
            r.Some? ==> r.value.index == d.index && r.value.whole == d.whole
  {
  }

  lemma FlattenedOwnLines(lines: seq<string>, ds: seq<Declaration>, keys: seq<string>, declarations: Table, steps: string -> nat)
    requires forall name :: EndsWithin(declarations, name, steps(name))
    requires DifferentLines(keys, declarations)
    requires multiset(ds) == GroupedAll(keys, declarations, steps)
    requires forall k | k in keys ::
               declarations[k].index < |lines| && lines[declarations[k].index] == declarations[k].whole && IsKept(declarations[k].whole)
    ensures OwnLines(lines, ds)
    ensures forall d | d in ds :: exists k | k in declarations :: declarations[k].index == d.index && declarations[k].whole == d.whole
  {
    hide EndsWithin, GroupedAll;
    GroupedOnce(keys, declarations, steps);
    forall d | d in ds
      ensures exists k | k in declarations :: declarations[k].index == d.index && declarations[k].whole == d.whole
      ensures d.index < |lines| && d.whole == lines[d.index] && IsKept(d.whole)
    {
      assert d in multiset(ds);
    }
    forall i, j | 0 <= i < j < |ds| ensures ds[i].index != ds[j].index {
      if ds[i].index == ds[j].index {
        assert ds[i] in multiset(ds) && ds[j] in multiset(ds);
        TwiceCounts(ds, i, j);
      }
    }
  }

  // ---- Aliases without cycles -----------------------------------------------------------------

  /** No chain of aliases among the lines that declare the names to be sorted runs in a circle. */
  ghost predicate AliasesRanked(sc: Scanner, config: Config, lines: seq<string>, rank: string -> nat) {
    forall i | 0 <= i < |lines| && FirstOfName(sc, config, lines, i) ::
      var text := sc.declares(lines[i]).value;
      var segments := ParseSegments(text.value);
      segments.Some? && !IsRoot(segments.value[0]) ==> rank(segments.value[0]) < rank(text.name)
  }

  /** Each declaration is that of its own line in the file. */
  ghost predicate OfFile(sc: Scanner, config: Config, lines: seq<string>, declarations: Table) {
    forall k | k in declarations ::
      var i := declarations[k].index;
      && i < |lines| && FirstOfName(sc, config, lines, i)
      && declarations[k] == DeclarationAt(sc, lines, i) && declarations[k].key == k
  }

  lemma CollectedOfFile(sc: Scanner, config: Config, lines: seq<string>, keys: seq<string>, declarations: Table, unused: seq<nat>)
    requires Collected(sc, config, lines, LineOrder(lines), keys, declarations, unused)
    requires forall i | 0 <= i < |lines| :: i in LineOrder(lines)
    ensures OfFile(sc, config, lines, declarations)
  {
    CollectedAt(sc, config, lines, LineOrder(lines), keys, declarations, unused);
    hide Collected, ParseSegments, Eligible, LineOrder, FirstOfName, OneStays;
    forall k | k in declarations ensures FirstOfName(sc, config, lines, declarations[k].index) {
      TakenIsFirst(sc, config, lines, LineOrder(lines), keys, declarations, unused, declarations[k].index);
    }
  }

  lemma CollectedAt(sc: Scanner, config: Config, lines: seq<string>, done: seq<nat>, keys: seq<string>,
                    declarations: Table, unused: seq<nat>)
    requires Collected(sc, config, lines, done, keys, declarations, unused)
    ensures forall k | k in declarations ::
              var i := declarations[k].index;
              && i < |lines| && Eligible(sc, config, lines, i) && i !in unused
              && declarations[k] == DeclarationAt(sc, lines, i) && declarations[k].key == k
  {
    hide ParseSegments, IsUnused, IsPub, StartsWith, Before;
  }

  lemma RankedTable(sc: Scanner, config: Config, lines: seq<string>, declarations: Table, rank: string -> nat)
    requires OfFile(sc, config, lines, declarations) && AliasesRanked(sc, config, lines, rank)
    ensures Acyclic(declarations, rank)
  {
    hide ParseSegments;
    forall name | IsAlias(declarations, name) && !IsRoot(name)
      ensures !IsRoot(Target(declarations, name)[0]) ==> rank(Target(declarations, name)[0]) < rank(name)
    {
      assert FirstOfName(sc, config, lines, declarations[name].index);
    }
  }

  lemma NoEmptySegment(sc: Scanner, config: Config, lines: seq<string>, declarations: Table)
    requires OfFile(sc, config, lines, declarations)
    ensures forall k | k in declarations && declarations[k].segments.Some? :: "" !in declarations[k].segments.value
  {
    hide ParseSegments;
    NoEmptyValid(declarations);
  }

  lemma FileLinesDiffer(sc: Scanner, config: Config, lines: seq<string>, keys: seq<string>, declarations: Table)
    requires ValidScanner(sc) && OfFile(sc, config, lines, declarations) && Distinct(keys) && forall k :: k in keys <==> k in declarations
    ensures DifferentLines(keys, declarations)
    ensures forall k | k in declarations ::
              var i := declarations[k].index;
              i < |lines| && WithoutMarkers(lines)[i] == declarations[k].whole && IsKept(declarations[k].whole)
  {
    hide ParseSegments;
  }

  lemma NoEmptyValid(table: Table)
    ensures forall k | k in table && table[k].segments == ParseSegments(table[k].value) && table[k].segments.Some? ::
              "" !in table[k].segments.value
  {
    assert !IsValidSegment("");
  }

  // ---- Markers and unused lines ---------------------------------------------------------------

  function MarkersOf(lines: seq<string>): multiset<string> {
    if lines == [] then multiset{}
    else
      var n := |lines| - 1;
      MarkersOf(lines[..n]) + if lines[n] == MARKER then multiset{MARKER} else multiset{}
  }

  lemma {:induction false} MarkersKept(lines: seq<string>)
    ensures Kept(WithoutMarkers(lines)) + MarkersOf(lines) == Kept(lines)
    ensures forall x | x in MarkersOf(lines) :: x == MARKER
  {
    hide Kept;
    if lines == [] {
      assert WithoutMarkers(lines) == lines;
      assert Kept(lines) + multiset{} == Kept(lines);
    } else {
      var n := |lines| - 1;
      var line := lines[n];
      var shown := if line == MARKER then DELETED else line;
      MarkersKept(lines[..n]);
      assert lines == lines[..n] + [line];
      assert WithoutMarkers(lines) == WithoutMarkers(lines[..n]) + [shown];
      KeptAppend(lines[..n], [line]);
      KeptAppend(WithoutMarkers(lines[..n]), [shown]);
      KeptOne(line);
      KeptOne(shown);
    }
  }

  /** What stands in the given lines. */
  function LinesAt(lines: seq<string>, numbers: seq<nat>): (r: seq<string>)
    requires forall i | i in numbers :: i < |lines|
    ensures |r| == |numbers|
  {
    seq(|numbers|, q requires 0 <= q < |numbers| => assert numbers[q] in numbers; lines[numbers[q]])
  }

  /** The lines with the given numbers are marked as deleted. */
  ghost predicate Cleared(before: seq<string>, after: seq<string>, numbers: seq<nat>) {
    && |after| == |before|
    && forall i | 0 <= i < |after| :: after[i] == if i in numbers then DELETED else before[i]
  }

  lemma ClearOne(before: seq<string>, after: seq<string>, numbers: seq<nat>, i: nat)
    requires Cleared(before, after, numbers) && i < |after| && i !in numbers
    ensures after[i] == before[i] && Cleared(before, after[i := DELETED], numbers + [i])
  {
  }

  lemma LinesAtSnoc(lines: seq<string>, numbers: seq<nat>, i: nat)
    requires i < |lines| && forall q | q in numbers :: q < |lines|
    ensures (forall q | q in numbers + [i] :: q < |lines|) && LinesAt(lines, numbers + [i]) == LinesAt(lines, numbers) + [lines[i]]
  {
  }

  /** Deleting the unused lines takes from the kept lines just what stood in them. */
  method RemoveUnused(sortedLines: seq<string>, unused: seq<nat>) returns (r: seq<string>)
    requires forall a, b | 0 <= a < b < |unused| :: unused[a] != unused[b]
    requires forall i | i in unused :: i < |sortedLines|
    ensures Cleared(sortedLines, r, unused)
    ensures Kept(r) + Kept(LinesAt(sortedLines, unused)) == Kept(sortedLines)
  {
    hide Kept, Cleared, LinesAt;
    r := sortedLines;
    NothingCleared(sortedLines);
    var n := 0;
    while n < |unused|
      invariant 0 <= n <= |unused|
      invariant Cleared(sortedLines, r, unused[..n]) && |r| == |sortedLines|
      invariant forall i | i in unused[..n] :: i < |sortedLines|
      invariant Kept(r) + Kept(LinesAt(sortedLines, unused[..n])) == Kept(sortedLines)
    {
      var line := unused[n];
      assert line in unused && line !in unused[..n];
      assert unused[..n + 1] == unused[..n] + [line];
      ClearOne(sortedLines, r, unused[..n], line);
      KeptDelete(r, line);
      LinesAtSnoc(sortedLines, unused[..n], line);
      KeptAppend(LinesAt(sortedLines, unused[..n]), [sortedLines[line]]);
      r := r[line := DELETED];
      n := n + 1;
    }
    assert unused[..n] == unused;
  }

  lemma NothingCleared(lines: seq<string>)
    ensures Cleared(lines, lines, []) && Kept(lines) + Kept(LinesAt(lines, [])) == Kept(lines)
  {
    assert LinesAt(lines, []) == [];
  }

  lemma {:induction false} AllKept(lines: seq<string>)
    requires forall x | x in lines :: IsKept(x)
    ensures |Kept(lines)| == |lines|
  {
    if lines != [] {
      assert lines[|lines| - 1] in lines;
      AllKept(lines[..|lines| - 1]);
    }
  }

  // ---- const Self = @This(); ------------------------------------------------------------------

  /** r has the declaration's line behind the first lines of s, all of them file comments. */
  ghost predicate ThisMoved(s: seq<string>, d: Declaration, r: seq<string>, first: nat) {
    && d.index < |s| && first <= |s|
    && var lines := s[d.index := DELETED];
       && (forall q | 0 <= q < first :: StartsWith(lines[q], "//!"))
       && (first < |s| ==> !StartsWith(lines[first], "//!"))
       && r == lines[..first] + ((if first > 0 then [""] else []) + [d.whole, ""]) + lines[first..]
  }

  /** Moves the line up to the file comments, unless only comments stand in front of it. */
  method MoveThisUp(sortedLines: seq<string>, thisDeclaration: Declaration) returns (r: seq<string>)
    requires thisDeclaration.index < |sortedLines| && sortedLines[thisDeclaration.index] == thisDeclaration.whole
    ensures Kept(r) == Kept(sortedLines)
    ensures ThisPlaced(sortedLines, Some(thisDeclaration), r)
  {
    hide Kept, ThisMoved;
    var onlyCommentsBeforeThis := true;
    var i := 0;
    while i < thisDeclaration.index
      invariant 0 <= i <= thisDeclaration.index
      invariant onlyCommentsBeforeThis
      invariant forall q | 0 <= q < i :: !IsKept(sortedLines[q]) || StartsWith(sortedLines[q], "//")
    {
      var line := sortedLines[i];
      if line != "" && line != DELETED && !StartsWith(line, "//") {
        onlyCommentsBeforeThis := false;
        break;
      }
      i := i + 1;
    }
    if onlyCommentsBeforeThis { return sortedLines; }
    r := InsertThis(sortedLines, thisDeclaration);
  }

  method InsertThis(sortedLines: seq<string>, thisDeclaration: Declaration) returns (r: seq<string>)
    requires thisDeclaration.index < |sortedLines| && sortedLines[thisDeclaration.index] == thisDeclaration.whole
    ensures Kept(r) == Kept(sortedLines) && exists first :: ThisMoved(sortedLines, thisDeclaration, r, first)
  {
    hide Kept;
    var lines := sortedLines[thisDeclaration.index := DELETED];
    var first := 0;
    while first < |lines| && StartsWith(lines[first], "//!")
      invariant 0 <= first <= |lines|
      invariant forall q | 0 <= q < first :: StartsWith(lines[q], "//!")
    {
      first := first + 1;
    }
    var insert := [thisDeclaration.whole, ""];
    if first > 0 { insert := [""] + insert; }
    r := lines[..first] + insert + lines[first..];
    KeptDelete(sortedLines, thisDeclaration.index);
    assert insert == (if first > 0 then [""] else []) + [thisDeclaration.whole, ""];
    assert ThisMoved(sortedLines, thisDeclaration, r, first);
    InsertKept(lines[..first], thisDeclaration.whole, first > 0, lines[first..]);
    assert lines[..first] + lines[first..] == lines;
    KeptAppend(lines[..first], lines[first..]);
  }

  lemma InsertKept(a: seq<string>, line: string, blank: bool, b: seq<string>)
    ensures Kept(a + ((if blank then [""] else []) + [line, ""]) + b) == Kept(a) + Kept([line]) + Kept(b)
  {
    var insert := (if blank then [""] else []) + [line, ""];
    KeptAppend(a + insert, b);
    KeptAppend(a, insert);
    KeptAppend(if blank then [""] else [], [line, ""]);
    KeptAppend([line], [""]);
    KeptOne("");
    assert [line] + [""] == [line, ""];
  }

  // ---- What a turn removes --------------------------------------------------------------------

  predicate SameName(sc: Scanner, lines: seq<string>, i: nat, j: nat)
    requires i < |lines| && j < |lines|
  {
    sc.declares(lines[i]).Some? && sc.declares(lines[j]).Some?
    && sc.declares(lines[i]).value.name == sc.declares(lines[j]).value.name
  }

  /** An eligible line that is looked at before all others with its name. */
  ghost predicate FirstOfName(sc: Scanner, config: Config, lines: seq<string>, i: nat)
    requires i < |lines|
  {
    Eligible(sc, config, lines, i)
    && forall j | 0 <= j < |lines| && j != i && Eligible(sc, config, lines, j) && SameName(sc, lines, i, j) :: LooksFirst(lines, i, j)
  }

  /** An unused declaration, or an eligible one that is not the first of its name. */
  ghost predicate Removable(sc: Scanner, config: Config, lines: seq<string>, i: nat)
    requires i < |lines|
  {
    config.removeUnused
    && (IsUnused(sc, config, lines, i) || (Eligible(sc, config, lines, i) && !FirstOfName(sc, config, lines, i)))
  }

  /** gone are the numbers of all removable lines; of every name to be sorted one line stays. */
  ghost predicate Gone(sc: Scanner, config: Config, lines: seq<string>, gone: seq<nat>) {
    && (forall a, b | 0 <= a < b < |gone| :: gone[a] != gone[b])
    && (forall i | i in gone :: i < |lines|)
    && (forall i | 0 <= i < |lines| :: i in gone <==> Removable(sc, config, lines, i))
    && (forall i | 0 <= i < |lines| && Eligible(sc, config, lines, i) :: OneStays(sc, config, lines, gone, i))
  }

  ghost predicate OneStays(sc: Scanner, config: Config, lines: seq<string>, gone: seq<nat>, i: nat)
    requires i < |lines|
  {
    exists j | 0 <= j < |lines| :: j !in gone && Eligible(sc, config, lines, j) && SameName(sc, lines, i, j)
  }

  /** What is known of the lines that are to go. */
  ghost predicate UnusedFacts(sc: Scanner, config: Config, fileLines: seq<string>, declarations: Table, unused: seq<nat>) {
    && (config.removeUnused ==> Gone(sc, config, fileLines, unused))
    && (forall i | i in unused ::
          && i < |fileLines| && IsKept(fileLines[i]) && fileLines[i] != MARKER && sc.declares(fileLines[i]).Some?
          && forall k | k in declarations :: declarations[k].index != i)
  }

  /** What the collected declarations and unused lines are, once every line was looked at. */
  lemma CollectedFacts(sc: Scanner, config: Config, fileLines: seq<string>, keys: seq<string>, declarations: Table, unused: seq<nat>)
    requires ValidScanner(sc) && Collected(sc, config, fileLines, LineOrder(fileLines), keys, declarations, unused)
    requires forall i | 0 <= i < |fileLines| :: i in LineOrder(fileLines)
    ensures Distinct(keys) && forall k :: k in keys <==> k in declarations
    ensures UnusedFacts(sc, config, fileLines, declarations, unused)
  {
    hide Collected, LineOrder, FirstOfName, OneStays, IsKept, IsUnused, Eligible;
    var order := LineOrder(fileLines);
    UnusedApart(sc, config, fileLines, order, keys, declarations, unused);
    UnusedAre(sc, config, fileLines, order, keys, declarations, unused);
    forall i | 0 <= i < |fileLines| && Eligible(sc, config, fileLines, i)
      ensures FirstOfName(sc, config, fileLines, i) <==> i !in unused
      ensures OneStays(sc, config, fileLines, unused, i)
    {
      TakenIsFirst(sc, config, fileLines, order, keys, declarations, unused, i);
    }
  }

  lemma UnusedApart(sc: Scanner, config: Config, lines: seq<string>, done: seq<nat>, keys: seq<string>,
                    declarations: Table, unused: seq<nat>)
    requires ValidScanner(sc) && Collected(sc, config, lines, done, keys, declarations, unused)
    ensures Distinct(keys) && forall k :: k in keys <==> k in declarations
    ensures forall i | i in unused ::
              && i < |lines| && IsKept(lines[i]) && lines[i] != MARKER && sc.declares(lines[i]).Some?
              && forall k | k in declarations :: declarations[k].index != i
  {
    hide ParseSegments, Before, StartsWith, IsPub;
  }

  lemma UnusedAre(sc: Scanner, config: Config, lines: seq<string>, done: seq<nat>, keys: seq<string>,
                  declarations: Table, unused: seq<nat>)
    requires Collected(sc, config, lines, done, keys, declarations, unused) && forall i | 0 <= i < |lines| :: i in done
    ensures forall a, b | 0 <= a < b < |unused| :: unused[a] != unused[b]
    ensures forall i | i in unused :: i < |lines| && (IsUnused(sc, config, lines, i) || Eligible(sc, config, lines, i))
    ensures forall i | 0 <= i < |lines| && IsUnused(sc, config, lines, i) :: i in unused
  {
    hide ParseSegments, Before, StartsWith, IsPub, IsUnused, Eligible;
  }

  lemma TakenIsFirst(sc: Scanner, config: Config, lines: seq<string>, order: seq<nat>, keys: seq<string>,
                     declarations: Table, unused: seq<nat>, i: nat)
    requires order == LineOrder(lines) && Collected(sc, config, lines, order, keys, declarations, unused)
    requires (forall j | 0 <= j < |lines| :: j in order) && i < |lines| && Eligible(sc, config, lines, i)
    ensures FirstOfName(sc, config, lines, i) <==> i !in unused
    ensures OneStays(sc, config, lines, unused, i)
  {
    hide ParseSegments, LineOrder, LooksFirst, Before, IsUnused;
    var name := sc.declares(lines[i]).value.name;
    var taken := declarations[name].index;
    assert taken !in unused && Eligible(sc, config, lines, taken) && SameName(sc, lines, i, taken);
    if taken == i {
      forall j | 0 <= j < |lines| && j != i && Eligible(sc, config, lines, j) && SameName(sc, lines, i, j)
        ensures LooksFirst(lines, i, j)
      {
        BeforeLooksFirst(lines, i, j);
      }
    } else {
      BeforeLooksFirst(lines, taken, i);
      LooksFirstOnce(lines, taken, i);
    }
  }

  // ---- Where the lines of a turn come from ----------------------------------------------------

  /** A line that was to be sorted, the first of its name. */
  ghost predicate FromFirst(sc: Scanner, config: Config, fileLines: seq<string>, x: string) {
    exists j | 0 <= j < |fileLines| :: fileLines[j] == x && FirstOfName(sc, config, fileLines, j)
  }

  /** Whatever the next turn can sort was such a line in this one. */
  ghost predicate AllFrom(sc: Scanner, config: Config, fileLines: seq<string>, r: seq<string>) {
    forall i | 0 <= i < |r| && Candidate(sc, r, i) && (config.includePub || !IsPub(r[i])) ::
      FromFirst(sc, config, fileLines, r[i])
  }

  /** Only lines of declarations are marked as deleted, and only their text is appended. */
  ghost predicate Written(lines: seq<string>, declarations: Table, out: seq<string>) {
    && |out| >= |lines|
    && (forall i | 0 <= i < |lines| :: out[i] == lines[i] || (out[i] == DELETED && IsIndex(declarations, i)))
    && (forall i | |lines| <= i < |out| :: out[i] == "" || IsWhole(declarations, out[i]))
  }

  ghost predicate IsIndex(declarations: Table, i: nat) { exists k | k in declarations :: declarations[k].index == i }

  ghost predicate IsWhole(declarations: Table, x: string) { exists k | k in declarations :: declarations[k].whole == x }

  lemma {:induction false} BlockLines(keys: seq<string>, table: Groups)
    requires forall k | k in keys :: k in table
    ensures forall x | x in Blocks(keys, table) :: x == "" || exists d | d in Flatten(keys, table) :: d.whole == x
  {
    if keys != [] {
      var n := |keys| - 1;
      var ds := table[keys[n]].declarations;
      BlockLines(keys[..n], table);
      forall x | x in Blocks(keys, table) ensures x == "" || exists d | d in Flatten(keys, table) :: d.whole == x {
        if x in Blocks(keys[..n], table) {
          if x != "" {
            var d :| d in Flatten(keys[..n], table) && d.whole == x;
            assert d in Flatten(keys, table);
          }
        } else if x != "" {
          assert x in Wholes(ds);
          var q :| 0 <= q < |ds| && Wholes(ds)[q] == x;
          assert ds[q] in Flatten(keys, table);
        }
      }
    }
  }

  lemma OutputWritten(lines: seq<string>, keys: seq<string>, table: Groups, declarations: Table)
    requires (forall k | k in keys :: k in table) && OwnLines(lines, Flatten(keys, table))
    requires forall d | d in Flatten(keys, table) :: exists k | k in declarations :: declarations[k].index == d.index && declarations[k].whole == d.whole
    ensures Written(lines, declarations, Marked(lines, Flatten(keys, table)) + Blocks(keys, table))
  {
    hide Marked, Blocks, Flatten;
    var ds := Flatten(keys, table);
    var out := Marked(lines, ds) + Blocks(keys, table);
    BlockLines(keys, table);
    forall i | 0 <= i < |lines| ensures out[i] == lines[i] || (out[i] == DELETED && IsIndex(declarations, i)) {
      MarkedAt(lines, ds, i);
    }
    forall i | |lines| <= i < |out| ensures out[i] == "" || IsWhole(declarations, out[i]) {
      assert out[i] in Blocks(keys, table);
    }
  }

  /** The output once the unused lines are gone. */
  lemma ClearedAllFrom(sc: Scanner, config: Config, fileLines: seq<string>, declarations: Table,
                       written: seq<string>, unused: seq<nat>, s: seq<string>)
    requires ValidScanner(sc) && OfFile(sc, config, fileLines, declarations)
    requires Written(WithoutMarkers(fileLines), declarations, written)
    requires UnusedFacts(sc, config, fileLines, declarations, unused)
    requires config.removeUnused && Cleared(written, s, unused)
    ensures AllFrom(sc, config, fileLines, s)
  {
    hide ParseSegments, IsPub, FirstOfName, OneStays;
    var lines := WithoutMarkers(fileLines);
    forall i | 0 <= i < |s| && Candidate(sc, s, i) && (config.includePub || !IsPub(s[i]))
      ensures FromFirst(sc, config, fileLines, s[i])
    {
      assert s[i] == written[i] && s[i] != DELETED && s[i] != "";
      if i < |lines| {
        assert s[i] == lines[i] == fileLines[i];
        if i > 0 && StartsWith(fileLines[i - 1], "///") {
          CommentStays(sc, config, fileLines, declarations, written, unused, s, i - 1);
        }
        assert Candidate(sc, fileLines, i);
        assert Removable(sc, config, fileLines, i) ==> i in unused;
        assert FirstOfName(sc, config, fileLines, i);
      } else {
        var k :| k in declarations && declarations[k].whole == s[i];
        assert FirstOfName(sc, config, fileLines, declarations[k].index);
      }
    }
  }

  lemma CommentStays(sc: Scanner, config: Config, fileLines: seq<string>, declarations: Table,
                     written: seq<string>, unused: seq<nat>, s: seq<string>, i: nat)
    requires ValidScanner(sc) && OfFile(sc, config, fileLines, declarations)
    requires Written(WithoutMarkers(fileLines), declarations, written)
    requires UnusedFacts(sc, config, fileLines, declarations, unused)
    requires Cleared(written, s, unused)
    requires i < |fileLines| && StartsWith(fileLines[i], "///")
    ensures i < |s| && s[i] == fileLines[i]
  {
    hide ParseSegments, Gone, IsPub, IsUnused;
    assert fileLines[i][2] == "///"[2] != MARKER[2];
    assert StartsWith(fileLines[i], "//") && sc.declares(fileLines[i]).None?;
    forall k | k in declarations ensures declarations[k].index != i {
      assert FirstOfName(sc, config, fileLines, declarations[k].index);
    }
  }

  lemma ThisAllFrom(sc: Scanner, config: Config, fileLines: seq<string>, s: seq<string>, d: Declaration, r: seq<string>, first: nat)
    requires ValidScanner(sc) && AllFrom(sc, config, fileLines, s)
    requires ThisMoved(s, d, r, first) && FromFirst(sc, config, fileLines, d.whole)
    requires sc.declares(s[d.index]).Some?
    ensures AllFrom(sc, config, fileLines, r)
  {
    hide FromFirst, IsPub;
    var lines := s[d.index := DELETED];
    var insert := (if first > 0 then [""] else []) + [d.whole, ""];
    var k := |insert|;
    forall q | 0 <= q < first ensures sc.declares(r[q]).None? {
      assert r[q] == lines[q] && StartsWith(lines[q], "//!") && StartsWith(lines[q], "//");
    }
    forall i | 0 <= i < |r| && Candidate(sc, r, i) && (config.includePub || !IsPub(r[i]))
      ensures FromFirst(sc, config, fileLines, r[i])
    {
      if i < first {
        assert false;
      } else if i < first + k {
        assert r[i] == insert[i - first];
      } else {
        assert r[i] == lines[i - k] == s[i - k];
        if i > first + k {
          assert r[i - 1] == lines[i - k - 1];
        } else if first > 0 {
          assert StartsWith(lines[first - 1], "//!") && lines[first - 1][2] != '/';
        }
        assert Candidate(sc, s, i - k);
      }
    }
  }

  // ---- The output of a turn -------------------------------------------------------------------

  /** The declarations that a turn groups: all that are taken but the This declaration. */
  function Rest(sc: Scanner, config: Config, lines: seq<string>): seq<Declaration> { RestOf(Taken(sc, config, lines)) }

  /** Following aliases ends for every name. */
  ghost predicate Resolvable(sc: Scanner, config: Config, lines: seq<string>) {
    forall name :: Ends(TableOf(Rest(sc, config, lines)), name)
  }

  ghost function Depths(declarations: Table): string -> nat { (name: string) => RankOf(declarations, name) }

  lemma DepthsEnd(declarations: Table)
    requires forall name :: Ends(declarations, name)
    ensures forall name :: EndsWithin(declarations, name, Depths(declarations)(name))
  {
    hide RankOf;
    forall name ensures EndsWithin(declarations, name, Depths(declarations)(name)) {
      RankIsLeast(declarations, name);
    }
  }

  /** The groups that are written out for a file. */
  ghost function GroupsIn(sc: Scanner, config: Config, lines: seq<string>): Grouping
    requires Resolvable(sc, config, lines)
  {
    var rest := Rest(sc, config, lines);
    var declarations := TableOf(rest);
    DepthsEnd(declarations);
    GroupsOf(KeysOf(rest), declarations, Depths(declarations))
  }

  /** The declaration of line i with its expanded path, if that resolves. */
  ghost function Expanded(sc: Scanner, config: Config, lines: seq<string>, i: nat): Option<Declaration>
    requires Resolvable(sc, config, lines) && i < |lines| && sc.declares(lines[i]).Some?
  {
    var declarations := TableOf(Rest(sc, config, lines));
    DepthsEnd(declarations);
    Grouped(DeclarationAt(sc, lines, i), declarations, Depths(declarations))
  }

  /** The This declaration is the one of that line. */
  predicate IsThis(sc: Scanner, config: Config, lines: seq<string>, i: nat) {
    ThisOf(Taken(sc, config, lines)).Some? && ThisOf(Taken(sc, config, lines)).value.index == i
  }

  /** The blocks hold just the first lines of their names that resolve, but for the This declaration,
      each once; the keys of the groups and the items in each are in order, each key spells the path
      of its group, and no one-item group has an ancestor among them. */
  ghost predicate BlocksRight(sc: Scanner, config: Config, lines: seq<string>, g: Grouping)
    requires Resolvable(sc, config, lines)
  {
    && Distinct(g.order) && (forall k :: k in g.order <==> k in g.table) && SortedBy(g.order, StringLe)
    && (forall k | k in g.table ::
          && k == Join(g.table[k].keySegments) && SortedBy(g.table[k].declarations, DeclarationLe) && !Mergeable(g.table, k))
    && var ds := Flatten(g.order, g.table);
       && (forall p, q | 0 <= p < q < |ds| :: ds[p].index != ds[q].index)
       && (forall d | d in ds :: InBlocks(sc, config, lines, d.index) && Expanded(sc, config, lines, d.index) == Some(d))
       && (forall i | 0 <= i < |lines| && InBlocks(sc, config, lines, i) :: Expanded(sc, config, lines, i).value in ds)
  }

  /** Line i goes to the blocks. */
  ghost predicate InBlocks(sc: Scanner, config: Config, lines: seq<string>, i: nat)
    requires Resolvable(sc, config, lines)
  {
    && i < |lines| && FirstOfName(sc, config, lines, i) && !IsThis(sc, config, lines, i)
    && Expanded(sc, config, lines, i).Some?
  }

  /** The This declaration is the first in line order with value @This() among the first of their names. */
  ghost predicate ThisRight(sc: Scanner, config: Config, lines: seq<string>) {
    match ThisOf(Taken(sc, config, lines))
    case None => forall i | 0 <= i < |lines| && FirstOfName(sc, config, lines, i) :: sc.declares(lines[i]).value.value != THIS
    case Some(d) =>
      && d.index < |lines| && FirstOfName(sc, config, lines, d.index) && d == DeclarationAt(sc, lines, d.index) && d.value == THIS
      && forall i | 0 <= i < |lines| && i != d.index && FirstOfName(sc, config, lines, i) && sc.declares(lines[i]).value.value == THIS ::
           LooksFirst(lines, d.index, i)
  }

  /** The declarations that are taken are those of the first lines of their names, in line order. */
  ghost predicate TakenRight(sc: Scanner, config: Config, lines: seq<string>) {
    var ds := Taken(sc, config, lines);
    && Distinct(KeysOf(ds))
    && (forall d | d in ds :: d.index < |lines| && FirstOfName(sc, config, lines, d.index) && d == DeclarationAt(sc, lines, d.index))
    && (forall i | 0 <= i < |lines| && FirstOfName(sc, config, lines, i) :: DeclarationAt(sc, lines, i) in ds)
    && (forall p, q | 0 <= p < q < |ds| :: LooksFirst(lines, ds[p].index, ds[q].index))
  }

  /** The line goes up, unless only comments and what is not kept stand in front of it. */
  ghost predicate ThisPlaced(s: seq<string>, thisDeclaration: Option<Declaration>, r: seq<string>) {
    match thisDeclaration
    case None => r == s
    case Some(d) =>
      && d.index < |s| && s[d.index] == d.whole
      && if OnTop(s, d.index) then r == s else exists first :: ThisMoved(s, d, r, first)
  }

  predicate OnTop(s: seq<string>, n: nat)
    requires n <= |s|
  {
    forall i | 0 <= i < n :: !IsKept(s[i]) || StartsWith(s[i], "//")
  }

  /** The marked input followed by the blocks. */
  function WrittenOut(lines: seq<string>, g: Grouping): seq<string>
    requires (forall k | k in g.order :: k in g.table) && forall d | d in Flatten(g.order, g.table) :: d.index < |lines|
  {
    Marked(WithoutMarkers(lines), Flatten(g.order, g.table)) + Blocks(g.order, g.table)
  }

  /** What a turn makes of a file, to the letter: the marked input followed by the blocks, with the
      removed lines marked and the This declaration in its place. */
  ghost predicate SortedOutput(sc: Scanner, config: Config, before: seq<string>, after: seq<string>, gone: seq<nat>) {
    && TakenRight(sc, config, before) && Resolvable(sc, config, before) && ThisRight(sc, config, before)
    && BlocksRight(sc, config, before, GroupsIn(sc, config, before))
    && TidiedUp(WrittenOut(before, GroupsIn(sc, config, before)), gone, ThisOf(Taken(sc, config, before)), after)
  }

  lemma SortKeepsUnmergeable(before: Groups, after: Groups)
    requires after.Keys == before.Keys && forall k | k in before :: !Mergeable(before, k)
    requires forall k | k in after :: after[k].keySegments == before[k].keySegments
    requires forall k | k in after :: StablySorted(after[k].declarations, before[k].declarations, DeclarationLe)
    ensures forall k | k in after :: SortedBy(after[k].declarations, DeclarationLe) && !Mergeable(after, k)
  {
    hide DeclarationLe, SortedBy, Join;
    forall k | k in after ensures !Mergeable(after, k) {
      assert |multiset(after[k].declarations)| == |multiset(before[k].declarations)|;
    }
  }

  lemma KeysSpell(order: seq<string>, table: Groups)
    requires ValidGroups(order, table)
    ensures forall k | k in table :: k == Join(table[k].keySegments)
  {
    hide Join;
  }

  // ---- One turn and the whole loop ------------------------------------------------------------

  /** Grouping, promotion, merging and sorting. */
  method BuildGroups(keys: seq<string>, declarations: Table, ghost steps: string -> nat)
    returns (sortedGroupKeys: seq<string>, table: Groups)
    requires forall name :: EndsWithin(declarations, name, steps(name))
    requires Distinct(keys) && forall k | k in keys :: k in declarations
    requires forall k | k in declarations && declarations[k].segments.Some? :: "" !in declarations[k].segments.value
    ensures Grouping(sortedGroupKeys, table) == GroupsOf(keys, declarations, steps)
    ensures Distinct(sortedGroupKeys) && (forall k :: k in sortedGroupKeys <==> k in table)
    ensures SortedBy(sortedGroupKeys, StringLe) && forall k | k in table :: k == Join(table[k].keySegments)
    ensures forall k | k in table :: SortedBy(table[k].declarations, DeclarationLe) && !Mergeable(table, k)
    ensures multiset(Flatten(sortedGroupKeys, table)) == GroupedAll(keys, declarations, steps)
  {
    hide EndsWithin, GroupedAll, StablySorted, Mergeable, SortedBy, ValidGroups, AllOf, Distinct, AllPlaced;
    hide PromotedAll, OnlyAppended, Flatten, DeclarationLe, StringLe, Filed, MergedAll, SortedAll, SortBy, Join;
    var groups := new GroupTable();
    groups.GroupDeclarationsByImportPath(keys, declarations, steps);
    groups.PromoteItemsWithChildGroups();
    groups.MergeSingleItemGroups();
    ghost var merged := groups.table;
    sortedGroupKeys := groups.SortGroupsAndDeclarations();
    table := groups.table;
    SortKeepsUnmergeable(merged, table);
    OrderIsKeys(groups.order, table);
    KeysSpell(groups.order, table);
    StablyOrdered(sortedGroupKeys, groups.order, StringLe);
    StablyPermuted(sortedGroupKeys, groups.order, StringLe);
    SortedKeys(groups.order, sortedGroupKeys);
    AllOfPermuted(sortedGroupKeys, groups.order, table);
    FlattenIsAll(sortedGroupKeys, table);
  }

  /** The output of one turn: no line is lost, and only the lines of grouped declarations move. */
  method WriteSorted(lines: seq<string>, keys: seq<string>, declarations: Table, ghost steps: string -> nat)
    returns (sortedLines: seq<string>, ghost g: Grouping)
    requires forall name :: EndsWithin(declarations, name, steps(name))
    requires DifferentLines(keys, declarations) && forall k | k in declarations :: k in keys
    requires forall k | k in declarations && declarations[k].segments.Some? :: "" !in declarations[k].segments.value
    requires forall k | k in declarations ::
               declarations[k].index < |lines| && lines[declarations[k].index] == declarations[k].whole && IsKept(declarations[k].whole)
    ensures g == GroupsOf(keys, declarations, steps)
    ensures Distinct(g.order) && (forall k :: k in g.order <==> k in g.table)
    ensures SortedBy(g.order, StringLe) && forall k | k in g.table :: k == Join(g.table[k].keySegments)
    ensures forall k | k in g.table :: SortedBy(g.table[k].declarations, DeclarationLe) && !Mergeable(g.table, k)
    ensures multiset(Flatten(g.order, g.table)) == GroupedAll(keys, declarations, steps)
    ensures OwnLines(lines, Flatten(g.order, g.table))
    ensures sortedLines == Marked(lines, Flatten(g.order, g.table)) + Blocks(g.order, g.table)
    ensures Kept(sortedLines) == Kept(lines) && Written(lines, declarations, sortedLines)
  {
    hide EndsWithin, GroupedAll, Marked, Blocks, Kept, Written, Mergeable, SortedBy, DeclarationLe, StringLe, GroupsOf, Join;
    var sortedGroupKeys, table := BuildGroups(keys, declarations, steps);
    g := Grouping(sortedGroupKeys, table);
    ghost var moved := Flatten(sortedGroupKeys, table);
    FlattenedOwnLines(lines, moved, keys, declarations, steps);
    FlattenContains(sortedGroupKeys, table);
    sortedLines := GenerateSortedOutput(lines, table, sortedGroupKeys);
    OutputKeepsLines(lines, sortedGroupKeys, table);
    OutputWritten(lines, sortedGroupKeys, table, declarations);
  }

  lemma {:induction false} FlattenContains(keys: seq<string>, table: Groups)
    requires forall k | k in keys :: k in table
    ensures forall k, d | k in keys && d in table[k].declarations :: d in Flatten(keys, table)
  {
    if keys != [] {
      FlattenContains(keys[..|keys| - 1], table);
    }
  }

  lemma RankedEnds(declarations: Table, rank: string -> nat)
    requires Acyclic(declarations, rank)
    ensures forall name :: Ends(declarations, name)
  {
    forall name ensures Ends(declarations, name) {
      AcyclicEnds(declarations, rank, name);
    }
  }

  lemma {:induction false} TakenBefore(sc: Scanner, config: Config, lines: seq<string>, done: seq<nat>)
    requires forall i | i in done :: i < |lines|
    ensures var ds := TakenIn(sc, config, lines, done);
            && (forall d | d in ds :: d.index in done && sc.declares(lines[d.index]).Some? && d == DeclarationAt(sc, lines, d.index))
            && (forall p, q | 0 <= p < q < |ds| :: Before(done, ds[p].index, ds[q].index))
  {
    if done != [] {
      hide ParseSegments, IsUnused, IsPub, Before;
      var n := |done| - 1;
      assert done[..n] + [done[n]] == done && forall i | i in done[..n] :: i in done;
      TakenBefore(sc, config, lines, done[..n]);
      BeforeSnoc(done[..n], done[n]);
      var ds, front := TakenIn(sc, config, lines, done), TakenIn(sc, config, lines, done[..n]);
      forall p, q | 0 <= p < q < |ds| ensures Before(done, ds[p].index, ds[q].index) {
        assert ds[p] == front[p] && front[p] in front;
      }
    }
  }

  lemma CollectedTaken(sc: Scanner, config: Config, lines: seq<string>, keys: seq<string>, declarations: Table, unused: seq<nat>)
    requires Collected(sc, config, lines, LineOrder(lines), keys, declarations, unused)
    requires TakenSoFar(sc, config, lines, LineOrder(lines), keys, declarations)
    ensures keys == KeysOf(Taken(sc, config, lines)) && declarations == TableOf(Taken(sc, config, lines))
    ensures TakenRight(sc, config, lines)
  {
    var order, ds := LineOrder(lines), Taken(sc, config, lines);
    TakenBefore(sc, config, lines, order);
    CollectedNames(sc, config, lines, order, keys, declarations, unused);
    assert Distinct(keys) && keys == KeysOf(ds) && declarations == TableOf(ds);
    hide *;
    forall d | d in ds ensures d.index < |lines| && FirstOfName(sc, config, lines, d.index) {
      TakenFirst(sc, config, lines, keys, declarations, unused, d);
    }
    forall i | 0 <= i < |lines| && FirstOfName(sc, config, lines, i) ensures DeclarationAt(sc, lines, i) in ds {
      FirstTaken(sc, config, lines, keys, declarations, unused, i);
    }
    forall p, q | 0 <= p < q < |ds| ensures LooksFirst(lines, ds[p].index, ds[q].index) {
      assert ds[p] in ds && ds[q] in ds;
      BeforeLooksFirst(lines, ds[p].index, ds[q].index);
    }
    MakeTakenRight(sc, config, lines);
  }

  lemma MakeTakenRight(sc: Scanner, config: Config, lines: seq<string>)
    requires var ds := Taken(sc, config, lines);
             && Distinct(KeysOf(ds))
             && (forall d | d in ds :: d.index < |lines| && FirstOfName(sc, config, lines, d.index))
             && (forall d | d in ds :: sc.declares(lines[d.index]).Some? && d == DeclarationAt(sc, lines, d.index))
             && (forall i | 0 <= i < |lines| && FirstOfName(sc, config, lines, i) :: DeclarationAt(sc, lines, i) in ds)
             && (forall p, q | 0 <= p < q < |ds| :: LooksFirst(lines, ds[p].index, ds[q].index))
    ensures TakenRight(sc, config, lines)
  {
    hide FirstOfName, LooksFirst, TakenIn, LineOrder, Distinct, KeysOf, DeclarationAt;
  }

  lemma TakenFirst(sc: Scanner, config: Config, lines: seq<string>, keys: seq<string>, declarations: Table, unused: seq<nat>, d: Declaration)
    requires Collected(sc, config, lines, LineOrder(lines), keys, declarations, unused)
    requires Distinct(keys) && keys == KeysOf(Taken(sc, config, lines)) && declarations == TableOf(Taken(sc, config, lines))
    requires d in Taken(sc, config, lines)
    ensures d.index < |lines| && FirstOfName(sc, config, lines, d.index)
  {
    var ds := Taken(sc, config, lines);
    CollectedAt(sc, config, lines, LineOrder(lines), keys, declarations, unused);
    hide *;
    var q :| 0 <= q < |ds| && ds[q] == d;
    KeyAt(ds, q);
    TakenIsFirst(sc, config, lines, LineOrder(lines), keys, declarations, unused, d.index);
  }

  lemma FirstTaken(sc: Scanner, config: Config, lines: seq<string>, keys: seq<string>, declarations: Table, unused: seq<nat>, i: nat)
    requires Collected(sc, config, lines, LineOrder(lines), keys, declarations, unused)
    requires Distinct(keys) && keys == KeysOf(Taken(sc, config, lines)) && declarations == TableOf(Taken(sc, config, lines))
    requires i < |lines| && FirstOfName(sc, config, lines, i)
    ensures DeclarationAt(sc, lines, i) in Taken(sc, config, lines)
  {
    var ds := Taken(sc, config, lines);
    FirstEligible(sc, config, lines, i);
    CollectedAt(sc, config, lines, LineOrder(lines), keys, declarations, unused);
    CollectedNames(sc, config, lines, LineOrder(lines), keys, declarations, unused);
    hide *;
    TakenIsFirst(sc, config, lines, LineOrder(lines), keys, declarations, unused, i);
    var name := sc.declares(lines[i]).value.name;
    var q :| 0 <= q < |ds| && KeysOf(ds)[q] == name;
    KeyAt(ds, q);
  }

  lemma FirstEligible(sc: Scanner, config: Config, lines: seq<string>, i: nat)
    requires i < |lines| && FirstOfName(sc, config, lines, i)
    ensures Eligible(sc, config, lines, i) && sc.declares(lines[i]).Some?
  {
  }

  lemma CollectedNames(sc: Scanner, config: Config, lines: seq<string>, done: seq<nat>, keys: seq<string>,
                       declarations: Table, unused: seq<nat>)
    requires Collected(sc, config, lines, done, keys, declarations, unused)
    ensures Distinct(keys) && forall k :: k in keys <==> k in declarations
    ensures forall i | i in done && Eligible(sc, config, lines, i) && i !in unused ::
              var name := sc.declares(lines[i]).value.name;
              name in declarations && declarations[name].index == i
  {
    hide ParseSegments, IsUnused, IsPub, StartsWith, Before;
  }

  lemma TakenThis(sc: Scanner, config: Config, lines: seq<string>)
    requires TakenRight(sc, config, lines)
    ensures ThisRight(sc, config, lines)
  {
    hide TakenIn, FirstOfName, LooksFirst, ParseSegments, LineOrder;
    var ds := Taken(sc, config, lines);
    var t := ThisIndex(ds);
    forall i | 0 <= i < |lines| && FirstOfName(sc, config, lines, i) && sc.declares(lines[i]).Some?
               && sc.declares(lines[i]).value.value == THIS
      ensures t.Some? && (i == ds[t.value].index || LooksFirst(lines, ds[t.value].index, i))
    {
      var q :| 0 <= q < |ds| && ds[q] == DeclarationAt(sc, lines, i);
      assert ds[q].value == THIS;
    }
    forall i | 0 <= i < |lines| && FirstOfName(sc, config, lines, i) ensures sc.declares(lines[i]).Some? {
      FirstEligible(sc, config, lines, i);
    }
    if t.Some? { assert ds[t.value] in ds; }
  }

  lemma {:induction false} GroupedMembers(keys: seq<string>, declarations: Table, steps: string -> nat, x: Declaration)
    requires forall name :: EndsWithin(declarations, name, steps(name))
    requires forall k | k in keys :: k in declarations
    ensures x in GroupedAll(keys, declarations, steps) <==>
            exists k | k in keys :: Grouped(declarations[k], declarations, steps) == Some(x)
  {
    if keys != [] {
      hide Grouped, EndsWithin;
      var n := |keys| - 1;
      GroupedMembers(keys[..n], declarations, steps, x);
      assert keys == keys[..n] + [keys[n]];
    }
  }

  lemma RestMembers(ds: seq<Declaration>, d: Declaration)
    requires Distinct(KeysOf(ds))
    ensures d in RestOf(ds) <==> d in ds && ThisOf(ds) != Some(d)
    ensures Distinct(KeysOf(RestOf(ds)))
  {
    if ThisIndex(ds).Some? {
      var q := ThisIndex(ds).value;
      WithoutKeys(ds, q);
      KeysOnce(ds, q);
      hide KeysOf, Distinct, TableOf, Without;
      assert ds == ds[..q] + [ds[q]] + ds[q + 1..];
    }
  }

  lemma KeysOnce(ds: seq<Declaration>, q: nat)
    requires Distinct(KeysOf(ds)) && q < |ds|
    ensures ds[q] !in ds[..q] && ds[q] !in ds[q + 1..]
  {
    var keys := KeysOf(ds);
    forall p | 0 <= p < |ds| && p != q ensures ds[p] != ds[q] {
      assert keys[p] == ds[p].key && keys[q] == ds[q].key;
    }
  }

  lemma RestTable(sc: Scanner, config: Config, lines: seq<string>, i: nat)
    requires TakenRight(sc, config, lines) && i < |lines| && sc.declares(lines[i]).Some?
    ensures DeclarationAt(sc, lines, i) in Rest(sc, config, lines) <==>
            FirstOfName(sc, config, lines, i) && !IsThis(sc, config, lines, i)
  {
    var ds, d := Taken(sc, config, lines), DeclarationAt(sc, lines, i);
    RestMembers(ds, d);
    hide TakenIn, FirstOfName, ParseSegments, LineOrder, RestOf, LooksFirst;
    if ThisOf(ds).Some? { assert ThisOf(ds).value in ds; }
  }

  lemma BlocksAreRight(sc: Scanner, config: Config, lines: seq<string>, g: Grouping)
    requires Resolvable(sc, config, lines) && TakenRight(sc, config, lines)
    requires Distinct(g.order) && (forall k :: k in g.order <==> k in g.table)
    requires SortedBy(g.order, StringLe) && forall k | k in g.table :: k == Join(g.table[k].keySegments)
    requires forall k | k in g.table :: SortedBy(g.table[k].declarations, DeclarationLe) && !Mergeable(g.table, k)
    requires OwnLines(WithoutMarkers(lines), Flatten(g.order, g.table))
    requires var declarations := TableOf(Rest(sc, config, lines));
             && (forall name :: EndsWithin(declarations, name, Depths(declarations)(name)))
             && multiset(Flatten(g.order, g.table)) == GroupedAll(KeysOf(Rest(sc, config, lines)), declarations, Depths(declarations))
    ensures BlocksRight(sc, config, lines, g)
  {
    var ds := Flatten(g.order, g.table);
    OwnLinesDiffer(WithoutMarkers(lines), ds);
    hide OwnLines, InBlocks, Expanded, Flatten, Mergeable, SortedBy, Join, Distinct, TakenRight, GroupedAll, TableOf, Rest, Depths, EndsWithin, Ends;
    forall d | d in ds
      ensures InBlocks(sc, config, lines, d.index) && Expanded(sc, config, lines, d.index) == Some(d)
    {
      BlockMember(sc, config, lines, ds, d);
    }
    forall i | 0 <= i < |lines| && InBlocks(sc, config, lines, i)
      ensures Expanded(sc, config, lines, i).value in ds
    {
      BlockMemberOf(sc, config, lines, ds, i);
    }
  }

  lemma OwnLinesDiffer(lines: seq<string>, ds: seq<Declaration>)
    requires OwnLines(lines, ds)
    ensures forall p, q | 0 <= p < q < |ds| :: ds[p].index != ds[q].index
  {
  }

  lemma BlockMember(sc: Scanner, config: Config, lines: seq<string>, ds: seq<Declaration>, d: Declaration)
    requires Resolvable(sc, config, lines) && TakenRight(sc, config, lines) && d in ds
    requires var declarations := TableOf(Rest(sc, config, lines));
             && (forall name :: EndsWithin(declarations, name, Depths(declarations)(name)))
             && multiset(ds) == GroupedAll(KeysOf(Rest(sc, config, lines)), declarations, Depths(declarations))
    ensures InBlocks(sc, config, lines, d.index) && Expanded(sc, config, lines, d.index) == Some(d)
  {
    hide GroupedAll, Grouped, EndsWithin, FirstOfName, TakenIn, LooksFirst, ParseSegments, TableOf, RestOf, LineOrder, IsThis;
    var rest := Rest(sc, config, lines);
    var declarations := TableOf(rest);
    assert d in multiset(ds);
    GroupedMembers(KeysOf(rest), declarations, Depths(declarations), d);
    var k :| k in KeysOf(rest) && Grouped(declarations[k], declarations, Depths(declarations)) == Some(d);
    var q :| 0 <= q < |rest| && KeysOf(rest)[q] == k;
    RestMembers(Taken(sc, config, lines), rest[q]);
    KeysDistinct(rest, q);
    assert rest[q] in rest && rest[q].index == d.index;
    FirstEligible(sc, config, lines, d.index);
    RestTable(sc, config, lines, d.index);
  }

  lemma BlockMemberOf(sc: Scanner, config: Config, lines: seq<string>, ds: seq<Declaration>, i: nat)
    requires Resolvable(sc, config, lines) && TakenRight(sc, config, lines) && InBlocks(sc, config, lines, i)
    requires var declarations := TableOf(Rest(sc, config, lines));
             && (forall name :: EndsWithin(declarations, name, Depths(declarations)(name)))
             && multiset(ds) == GroupedAll(KeysOf(Rest(sc, config, lines)), declarations, Depths(declarations))
    ensures Expanded(sc, config, lines, i).value in ds
  {
    FirstEligible(sc, config, lines, i);
    hide GroupedAll, Grouped, EndsWithin, FirstOfName, TakenIn, LooksFirst, ParseSegments, TableOf, RestOf, LineOrder, IsThis;
    var rest := Rest(sc, config, lines);
    var declarations := TableOf(rest);
    RestTable(sc, config, lines, i);
    var d := DeclarationAt(sc, lines, i);
    RestMembers(Taken(sc, config, lines), d);
    var q :| 0 <= q < |rest| && rest[q] == d;
    KeysDistinct(rest, q);
    var x := Expanded(sc, config, lines, i).value;
    assert KeysOf(rest)[q] in KeysOf(rest);
    GroupedMembers(KeysOf(rest), declarations, Depths(declarations), x);
    assert x in multiset(ds);
  }

  method WriteRanked(sc: Scanner, config: Config, fileLines: seq<string>, lines: seq<string>, keys: seq<string>,
                     declarations: Table, ghost rank: string -> nat)
    returns (sortedLines: seq<string>)
    requires ValidScanner(sc) && AliasesRanked(sc, config, fileLines, rank) && TakenRight(sc, config, fileLines)
    requires lines == WithoutMarkers(fileLines) && OfFile(sc, config, fileLines, declarations)
    requires Distinct(keys) && forall k :: k in keys <==> k in declarations
    requires keys == KeysOf(Rest(sc, config, fileLines)) && declarations == TableOf(Rest(sc, config, fileLines))
    ensures Resolvable(sc, config, fileLines)
    ensures BlocksRight(sc, config, fileLines, GroupsIn(sc, config, fileLines))
    ensures sortedLines == WrittenOut(fileLines, GroupsIn(sc, config, fileLines))
    ensures Kept(sortedLines) == Kept(lines) && Written(lines, declarations, sortedLines)
  {
    RankedTable(sc, config, fileLines, declarations, rank);
    NoEmptySegment(sc, config, fileLines, declarations);
    FileLinesDiffer(sc, config, fileLines, keys, declarations);
    RankedEnds(declarations, rank);
    DepthsEnd(declarations);
    hide Kept, Written, GroupedAll, EndsWithin, AliasesRanked, OfFile, Acyclic, TakenRight, FirstOfName, Mergeable, SortedBy, Join, Marked, Blocks;
    hide GroupsOf, BlocksRight, KeysOf, TableOf, Rest, Depths, Ends, OwnLines;
    ghost var g;
    sortedLines, g := WriteSorted(lines, keys, declarations, Depths(declarations));
    BlocksAreRight(sc, config, fileLines, g);
  }

  /** The part of a turn before the output. */
  method Collect(sc: Scanner, config: Config, fileLines: seq<string>)
    returns (lines: seq<string>, thisDeclaration: Option<Declaration>, keys: seq<string>, declarations: Table, unused: seq<nat>)
    requires ValidScanner(sc)
    ensures lines == WithoutMarkers(fileLines) && OfFile(sc, config, fileLines, declarations)
    ensures Distinct(keys) && forall k :: k in keys <==> k in declarations
    ensures TakenRight(sc, config, fileLines) && thisDeclaration == ThisOf(Taken(sc, config, fileLines))
    ensures keys == KeysOf(Rest(sc, config, fileLines)) && declarations == TableOf(Rest(sc, config, fileLines))
    ensures UnusedFacts(sc, config, fileLines, declarations, unused)
    ensures thisDeclaration.Some? ==> ApartFrom(sc, config, fileLines, thisDeclaration.value, declarations, unused)
  {
    hide Collected, IsUnused, Eligible, FirstOfName, Gone, LineOrder, ParseSegments, StablySorted, TakenRight, TakenIn, TableOf;
    hide ThisOf, RestOf;
    var allKeys, all;
    lines, allKeys, all, unused := ParseDeclarations(sc, config, fileLines);
    CollectedFacts(sc, config, fileLines, allKeys, all, unused);
    CollectedOfFile(sc, config, fileLines, allKeys, all, unused);
    CollectedTaken(sc, config, fileLines, allKeys, all, unused);
    thisDeclaration, keys, declarations := ExtractThisDeclaration(allKeys, all, Taken(sc, config, fileLines));
    FileLinesDiffer(sc, config, fileLines, allKeys, all);
  }

  /** The declaration stands in its line, which neither moves nor goes. */
  ghost predicate ApartFrom(sc: Scanner, config: Config, fileLines: seq<string>, d: Declaration, declarations: Table, unused: seq<nat>) {
    && d.index < |fileLines| && fileLines[d.index] == d.whole && FirstOfName(sc, config, fileLines, d.index)
    && d.index !in unused && forall k | k in declarations :: declarations[k].index != d.index
  }

  /** The part of a turn after the output. */
  method Tidy(sc: Scanner, config: Config, fileLines: seq<string>, written: seq<string>,
              thisDeclaration: Option<Declaration>, ghost declarations: Table, unused: seq<nat>)
    returns (sortedLines: seq<string>, needsRecurse: bool, ghost gone: seq<nat>)
    requires ValidScanner(sc) && OfFile(sc, config, fileLines, declarations)
    requires Kept(written) == Kept(WithoutMarkers(fileLines)) && Written(WithoutMarkers(fileLines), declarations, written)
    requires UnusedFacts(sc, config, fileLines, declarations, unused)
    requires thisDeclaration.Some? ==> ApartFrom(sc, config, fileLines, thisDeclaration.value, declarations, unused)
    ensures Gone(sc, config, fileLines, gone)
    ensures Kept(sortedLines) + MarkersOf(fileLines) + Kept(LinesAt(fileLines, gone)) == Kept(fileLines)
    ensures TidiedUp(written, gone, thisDeclaration, sortedLines)
    ensures (gone != [] ==> config.removeUnused) && (config.removeUnused ==> AllFrom(sc, config, fileLines, sortedLines))
    ensures needsRecurse <==> gone != []
    ensures needsRecurse ==> |Kept(sortedLines)| < |Kept(fileLines)|
  {
    hide Kept, MarkersOf, WithoutMarkers, Gone, OfFile, AllFrom, Eligible, ThisMoved, UnusedFacts, Written, ApartFrom, Cleared;
    hide ThisPlaced, LinesAt;
    sortedLines, needsRecurse, gone := written, false, [];
    MarkersKept(fileLines);
    if config.removeUnused {
      UnusedGoes(sc, config, fileLines, declarations, written, unused);
      gone := unused;
      sortedLines := RemoveUnused(written, unused);
      needsRecurse := |unused| > 0;
      assert Kept(sortedLines) + MarkersOf(fileLines) + Kept(LinesAt(fileLines, gone)) ==
             (Kept(sortedLines) + Kept(LinesAt(fileLines, gone))) + MarkersOf(fileLines);
      ClearedAllFrom(sc, config, fileLines, declarations, written, unused, sortedLines);
    } else {
      NothingGoes(sc, config, fileLines);
      NothingCleared(written);
    }
    ghost var before := sortedLines;
    if thisDeclaration.Some? {
      ThisThere(sc, config, fileLines, declarations, written, unused, sortedLines, thisDeclaration.value);
      sortedLines := MoveThisUp(sortedLines, thisDeclaration.value);
      if config.removeUnused { PlacedAllFrom(sc, config, fileLines, before, thisDeclaration.value, sortedLines); }
    } else {
      NotPlaced(before);
    }
    assert |Kept(sortedLines)| + |MarkersOf(fileLines)| + |Kept(LinesAt(fileLines, gone))| == |Kept(fileLines)|;
  }

  /** The lines of the given numbers are marked as deleted, and the This declaration is in its place. */
  ghost predicate TidiedUp(written: seq<string>, gone: seq<nat>, thisDeclaration: Option<Declaration>, r: seq<string>) {
    exists s :: Cleared(written, s, gone) && ThisPlaced(s, thisDeclaration, r)
  }

  lemma NotPlaced(s: seq<string>)
    ensures ThisPlaced(s, None, s)
  {
  }

  lemma PlacedAllFrom(sc: Scanner, config: Config, fileLines: seq<string>, s: seq<string>, d: Declaration, r: seq<string>)
    requires ValidScanner(sc) && AllFrom(sc, config, fileLines, s) && ThisPlaced(s, Some(d), r)
    requires FromFirst(sc, config, fileLines, d.whole) && sc.declares(d.whole).Some?
    ensures AllFrom(sc, config, fileLines, r)
  {
    hide AllFrom, ThisMoved, FromFirst;
    if !OnTop(s, d.index) {
      var first :| ThisMoved(s, d, r, first);
      ThisAllFrom(sc, config, fileLines, s, d, r, first);
    }
  }

  /** A turn takes from the kept lines the markers and just the removable lines, and sorts the rest. */
  ghost predicate Turn(sc: Scanner, config: Config, before: seq<string>, after: seq<string>, gone: seq<nat>) {
    && Gone(sc, config, before, gone)
    && Kept(after) + MarkersOf(before) + Kept(LinesAt(before, gone)) == Kept(before)
    && SortedOutput(sc, config, before, after, gone)
  }

  lemma NothingGoes(sc: Scanner, config: Config, lines: seq<string>)
    requires !config.removeUnused
    ensures Gone(sc, config, lines, []) && Kept(LinesAt(lines, [])) == multiset{}
  {
    forall i | 0 <= i < |lines| && Eligible(sc, config, lines, i) ensures OneStays(sc, config, lines, [], i) {
      assert SameName(sc, lines, i, i);
    }
  }

  lemma UnusedGoes(sc: Scanner, config: Config, fileLines: seq<string>, declarations: Table, written: seq<string>, unused: seq<nat>)
    requires config.removeUnused && UnusedFacts(sc, config, fileLines, declarations, unused)
    requires Written(WithoutMarkers(fileLines), declarations, written)
    ensures Gone(sc, config, fileLines, unused) && (forall i | i in unused :: i < |fileLines|)
    ensures forall a, b | 0 <= a < b < |unused| :: unused[a] != unused[b]
    ensures |written| >= |fileLines| && LinesAt(written, unused) == LinesAt(fileLines, unused)
    ensures |Kept(LinesAt(fileLines, unused))| == |unused|
  {
    hide Kept, Removable, OneStays;
    var gone := LinesAt(fileLines, unused);
    forall q | 0 <= q < |unused| ensures LinesAt(written, unused)[q] == gone[q] && IsKept(gone[q]) {
      var i := unused[q];
      assert i in unused && !IsIndex(declarations, i);
    }
    AllKept(gone);
  }

  lemma ThisThere(sc: Scanner, config: Config, fileLines: seq<string>, declarations: Table,
                  written: seq<string>, unused: seq<nat>, s: seq<string>, d: Declaration)
    requires ValidScanner(sc) && Written(WithoutMarkers(fileLines), declarations, written)
    requires ApartFrom(sc, config, fileLines, d, declarations, unused)
    requires if config.removeUnused then Cleared(written, s, unused) else s == written
    ensures d.index < |s| && s[d.index] == d.whole
    ensures sc.declares(d.whole).Some? && FromFirst(sc, config, fileLines, d.whole)
  {
    hide IsUnused, IsPub, StartsWith;
    assert !IsIndex(declarations, d.index);
  }

  /** One turn of the loop. */
  method SortOnce(sc: Scanner, config: Config, fileLines: seq<string>, ghost rank: string -> nat)
    returns (sortedLines: seq<string>, needsRecurse: bool, ghost gone: seq<nat>)
    requires ValidScanner(sc) && AliasesRanked(sc, config, fileLines, rank)
    ensures Turn(sc, config, fileLines, sortedLines, gone)
    ensures needsRecurse ==> AllFrom(sc, config, fileLines, sortedLines)
    ensures needsRecurse <==> gone != []
    ensures needsRecurse ==> |Kept(sortedLines)| < |Kept(fileLines)|
  {
    hide *;
    var lines, thisDeclaration, keys, declarations, unused := Collect(sc, config, fileLines);
    TakenThis(sc, config, fileLines);
    var written := WriteRanked(sc, config, fileLines, lines, keys, declarations, rank);
    sortedLines, needsRecurse, gone := Tidy(sc, config, fileLines, written, thisDeclaration, declarations, unused);
    TurnIs(sc, config, fileLines, sortedLines, gone);
  }

  lemma TurnIs(sc: Scanner, config: Config, before: seq<string>, after: seq<string>, gone: seq<nat>)
    requires Gone(sc, config, before, gone)
    requires Kept(after) + MarkersOf(before) + Kept(LinesAt(before, gone)) == Kept(before)
    requires TakenRight(sc, config, before) && Resolvable(sc, config, before) && ThisRight(sc, config, before)
    requires BlocksRight(sc, config, before, GroupsIn(sc, config, before))
    requires TidiedUp(WrittenOut(before, GroupsIn(sc, config, before)), gone, ThisOf(Taken(sc, config, before)), after)
    ensures Turn(sc, config, before, after, gone)
  {
  }

  lemma StillRanked(sc: Scanner, config: Config, before: seq<string>, after: seq<string>, rank: string -> nat)
    requires AliasesRanked(sc, config, before, rank) && AllFrom(sc, config, before, after)
    ensures AliasesRanked(sc, config, after, rank)
  {
    hide ParseSegments, IsUnused, IsPub;
    forall i | 0 <= i < |after| && FirstOfName(sc, config, after, i) ensures FromFirst(sc, config, before, after[i]) {
      assert Candidate(sc, after, i);
    }
  }

  /** files are the file before each turn; gone, the numbers of the lines that the turn removed. */
  ghost predicate Turns(sc: Scanner, config: Config, files: seq<seq<string>>, gone: seq<seq<nat>>, r: seq<string>) {
    && |gone| == |files|
    && (forall n | 0 <= n < |files| :: TurnAt(sc, config, files, gone, r, n))
    && (forall n | 0 <= n < |files| - 1 :: gone[n] != [])
  }

  ghost predicate TurnAt(sc: Scanner, config: Config, files: seq<seq<string>>, gone: seq<seq<nat>>, r: seq<string>, n: nat)
    requires n < |files| == |gone|
  {
    Turn(sc, config, files[n], if n + 1 < |files| then files[n + 1] else r, gone[n])
  }

  lemma OneMoreTurn(sc: Scanner, config: Config, files: seq<seq<string>>, gone: seq<seq<nat>>, before: seq<string>,
                    after: seq<string>, now: seq<nat>)
    requires Turns(sc, config, files, gone, before) && Turn(sc, config, before, after, now)
    requires forall g | g in gone :: g != []
    ensures Turns(sc, config, files + [before], gone + [now], after)
  {
    hide Turn;
    var all, numbers := files + [before], gone + [now];
    forall n | 0 <= n < |all| ensures TurnAt(sc, config, all, numbers, after, n) {
      if n < |files| { assert TurnAt(sc, config, files, gone, before, n); }
    }
    forall n | 0 <= n < |all| - 1 ensures numbers[n] != [] {
      assert numbers[n] in gone;
    }
  }

  /** The loop ends, because each repetition leaves fewer lines to keep. Every turn but the last has
      removed something, and each of them just the removable lines of the file that it read and the
      markers; the last one read a file with nothing to remove. */
  method ProcessLines(sc: Scanner, config: Config, fileLines: seq<string>, ghost rank: string -> nat)
    returns (r: seq<string>, ghost files: seq<seq<string>>, ghost gone: seq<seq<nat>>)
    requires ValidScanner(sc) && AliasesRanked(sc, config, fileLines, rank)
    ensures |files| > 0 && files[0] == fileLines && Turns(sc, config, files, gone, r)
    ensures gone[|files| - 1] == [] && Kept(r) + MarkersOf(files[|files| - 1]) == Kept(files[|files| - 1])
  {
    NoTurns(sc, config, fileLines);
    hide *;
    r, files, gone := fileLines, [], [];
    var needsRecurse := true;
    while needsRecurse
      invariant needsRecurse ==> AliasesRanked(sc, config, r, rank)
      invariant Turns(sc, config, files, gone, r) && |gone| == |files|
      invariant if files == [] then r == fileLines && needsRecurse else files[0] == fileLines
      invariant needsRecurse ==> forall g | g in gone :: g != []
      invariant !needsRecurse ==> gone[|files| - 1] == []
      decreases needsRecurse, |Kept(r)|
    {
      ghost var before, now := r, [];
      r, needsRecurse, now := SortOnce(sc, config, r, rank);
      if needsRecurse { StillRanked(sc, config, before, r, rank); }
      OneMoreTurn(sc, config, files, gone, before, r, now);
      files, gone := files + [before], gone + [now];
    }
    LastTurn(sc, config, files, gone, r);
  }

  lemma NoTurns(sc: Scanner, config: Config, r: seq<string>)
    ensures Turns(sc, config, [], [], r)
  {
  }

  lemma LastTurn(sc: Scanner, config: Config, files: seq<seq<string>>, gone: seq<seq<nat>>, r: seq<string>)
    requires Turns(sc, config, files, gone, r) && files != [] && gone[|files| - 1] == []
    ensures Kept(r) + MarkersOf(files[|files| - 1]) == Kept(files[|files| - 1])
  {
    var last := files[|files| - 1];
    assert TurnAt(sc, config, files, gone, r, |files| - 1);
    assert LinesAt(last, []) == [];
  }

  /** Over all turns: what the file had and the result has not are markers and removable lines. */
  lemma {:induction false} TurnsRemove(sc: Scanner, config: Config, files: seq<seq<string>>, gone: seq<seq<nat>>, r: seq<string>, x: string)
    requires files != [] && Turns(sc, config, files, gone, r)
    ensures Kept(r)[x] <= Kept(files[0])[x]
    ensures Kept(r)[x] < Kept(files[0])[x] ==> x == MARKER || RemovedIn(sc, config, files, x)
    decreases |files|
  {
    FirstTurn(sc, config, files, gone, r);
    hide *;
    var next := if |files| > 1 then files[1] else r;
    OneTurnRemoves(sc, config, files[0], next, gone[0], x);
    if RemovedFrom(sc, config, files[0], x) { RemovedFirst(sc, config, files, x); }
    if |files| > 1 {
      TurnsRemove(sc, config, files[1..], gone[1..], r, x);
      if RemovedIn(sc, config, files[1..], x) { RemovedLater(sc, config, files, x); }
    }
  }

  lemma FirstTurn(sc: Scanner, config: Config, files: seq<seq<string>>, gone: seq<seq<nat>>, r: seq<string>)
    requires files != [] && Turns(sc, config, files, gone, r)
    ensures |gone| == |files| && Turn(sc, config, files[0], if |files| > 1 then files[1] else r, gone[0])
    ensures |files| > 1 ==> Turns(sc, config, files[1..], gone[1..], r)
  {
    hide Turn;
    assert TurnAt(sc, config, files, gone, r, 0);
    if |files| > 1 {
      forall n | 0 <= n < |files| - 1 ensures TurnAt(sc, config, files[1..], gone[1..], r, n) {
        assert TurnAt(sc, config, files, gone, r, n + 1);
      }
      forall n | 0 <= n < |files[1..]| - 1 ensures gone[1..][n] != [] {
        assert gone[1..][n] == gone[n + 1];
      }
    }
  }

  lemma RemovedFirst(sc: Scanner, config: Config, files: seq<seq<string>>, x: string)
    requires files != [] && RemovedFrom(sc, config, files[0], x)
    ensures RemovedIn(sc, config, files, x)
  {
  }

  lemma RemovedLater(sc: Scanner, config: Config, files: seq<seq<string>>, x: string)
    requires |files| > 1 && RemovedIn(sc, config, files[1..], x)
    ensures RemovedIn(sc, config, files, x)
  {
    hide RemovedFrom;
    var n :| 0 <= n < |files[1..]| && RemovedFrom(sc, config, files[1..][n], x);
    assert RemovedFrom(sc, config, files[n + 1], x);
  }

  /** The line is removable in the file. */
  ghost predicate RemovedFrom(sc: Scanner, config: Config, file: seq<string>, x: string) {
    exists i | 0 <= i < |file| :: file[i] == x && Removable(sc, config, file, i)
  }

  ghost predicate RemovedIn(sc: Scanner, config: Config, files: seq<seq<string>>, x: string) {
    exists n | 0 <= n < |files| :: RemovedFrom(sc, config, files[n], x)
  }

  lemma OneTurnRemoves(sc: Scanner, config: Config, before: seq<string>, after: seq<string>, gone: seq<nat>, x: string)
    requires Turn(sc, config, before, after, gone)
    ensures Kept(after)[x] <= Kept(before)[x]
    ensures Kept(after)[x] < Kept(before)[x] && x != MARKER ==> RemovedFrom(sc, config, before, x)
  {
    hide Kept, Removable, MarkersOf, OneStays, SortedOutput;
    var there := LinesAt(before, gone);
    MarkersKept(before);
    if Kept(after)[x] < Kept(before)[x] && x != MARKER {
      assert x in Kept(there);
      KeptFrom(there, x);
      var q :| 0 <= q < |gone| && there[q] == x;
      assert gone[q] in gone && Removable(sc, config, before, gone[q]);
    }
  }
}
