/** Import paths of scripts/sort-imports.ts: segments of a declared value, and alias resolution. */
module ImportPaths {
  import opened Wrappers

  const IMPORT := "@import("
  const THIS := "@This()"

  predicate StartsWith(s: string, prefix: string) { prefix <= s }

  function Split(s: string, sep: char): (parts: seq<string>)
    ensures |parts| >= 1
  {
    if s == [] then [""]
    else
      var rest := Split(s[1..], sep);
      if s[0] == sep then [""] + rest else [[s[0]] + rest[0]] + rest[1..]
  }

  function Join(parts: seq<string>): string {
    if parts == [] then ""
    else if |parts| == 1 then parts[0]
    else parts[0] + "." + Join(parts[1..])
  }

  predicate IsWordChar(c: char) { 'a' <= c <= 'z' || 'A' <= c <= 'Z' || '0' <= c <= '9' || c == '_' }

  predicate IsValidSegment(segment: string) {
    StartsWith(segment, IMPORT) || segment == THIS
    || (segment != "" && forall c | c in segment :: IsWordChar(c))
  }

  predicate AllValid(segments: seq<string>) { forall segment | segment in segments :: IsValidSegment(segment) }

  function IndexOf(s: string, c: char): (r: Option<nat>)
    ensures r.Some? ==> r.value < |s| && s[r.value] == c
  {
    if s == [] then None
    else if s[0] == c then Some(0)
    else match IndexOf(s[1..], c) case None => None case Some(i) => Some(i + 1)
  }

  function ParseSegments(value: string): (r: Option<seq<string>>)
    ensures r.Some? ==> r.value != [] && AllValid(r.value)
  {
    if StartsWith(value, IMPORT) then
      match IndexOf(value, ')')
      case None => None
      case Some(right) =>
        var importPart, remainingPart := value[..right + 1], value[right + 1..];
        assert StartsWith(importPart, IMPORT) by { BracketBehind(value, right); }
        if StartsWith(remainingPart, ".") then
          var segments := Split(remainingPart[1..], '.');
          if AllValid(segments) then Some([importPart] + segments) else None
        else if remainingPart == "" then Some([importPart])
        else None
    else
      var segments := Split(value, '.');
      if AllValid(segments) then Some(segments) else None
  }

  lemma BracketBehind(value: string, right: nat)
    requires StartsWith(value, IMPORT) && right < |value| && value[right] == ')'
    ensures StartsWith(value[..right + 1], IMPORT)
  {
    if right < |IMPORT| { assert false; }
  }

  // ---- Joining and splitting ------------------------------------------------------------------

  lemma {:induction false} JoinSplit(s: string)
    ensures Join(Split(s, '.')) == s
  {
    if s != [] {
      JoinSplit(s[1..]);
      var rest := Split(s[1..], '.');
      if s[0] == '.' {
        assert ([""] + rest)[1..] == rest;
        assert "." + s[1..] == s;
      } else {
        JoinHead([s[0]], rest);
      }
    }
  }

  lemma JoinHead(head: string, parts: seq<string>)
    requires parts != []
    ensures Join([head + parts[0]] + parts[1..]) == head + Join(parts)
  {
    var longer := [head + parts[0]] + parts[1..];
    if |parts| > 1 {
      assert longer[1..] == parts[1..];
      assert (head + parts[0]) + "." + Join(parts[1..]) == head + (parts[0] + "." + Join(parts[1..]));
    }
  }

  /** The segments of a value spell the value. */
  lemma ParsedSegmentsSpell(value: string)
    ensures ParseSegments(value).Some? ==> Join(ParseSegments(value).value) == value
  {
    if ParseSegments(value).Some? && StartsWith(value, IMPORT) {
      var right := IndexOf(value, ')').value;
      var importPart, remainingPart := value[..right + 1], value[right + 1..];
      if StartsWith(remainingPart, ".") {
        var segments := Split(remainingPart[1..], '.');
        JoinSplit(remainingPart[1..]);
        assert ([importPart] + segments)[1..] == segments;
        assert importPart + "." + remainingPart[1..] == value;
      }
    } else if ParseSegments(value).Some? {
      JoinSplit(value);
    }
  }

  lemma {:induction false} JoinAppend(a: seq<string>, last: string)
    ensures Join(a + [last]) == if a == [] then last else Join(a) + "." + last
  {
    if |a| >= 1 {
      assert (a + [last])[1..] == a[1..] + [last];
      JoinAppend(a[1..], last);
      if |a| > 1 {
        assert a[0] + "." + (Join(a[1..]) + "." + last) == a[0] + "." + Join(a[1..]) + "." + last;
      }
    } else {
      assert a + [last] == [last];
    }
  }

  /** Leaving segments off the end of a path makes its key shorter, so a path is no ancestor of itself. */
  lemma {:induction false} JoinPrefixShorter(a: seq<string>, n: nat)
    requires n < |a| && forall s | s in a :: s != ""
    ensures |Join(a[..n])| < |Join(a)|
    decreases |a| - n
  {
    assert a[..n + 1] == a[..n] + [a[n]];
    assert a[n] in a;
    JoinAppend(a[..n], a[n]);
    if n + 1 < |a| {
      JoinPrefixShorter(a, n + 1);
    } else {
      assert a[..n + 1] == a;
    }
  }

  // ---- Which values are paths -----------------------------------------------------------------

  /** Letters, digits and underscores, or `@This()`, or what begins like an import. */
  predicate SegmentText(s: string) {
    || (s != "" && forall c | c in s :: 'a' <= c <= 'z' || 'A' <= c <= 'Z' || '0' <= c <= '9' || c == '_')
    || s == "@This()" || "@import(" <= s
  }

  /** An import up to its first closing bracket. */
  predicate ImportText(s: string) {
    |s| >= 9 && "@import(" <= s && s[|s| - 1] == ')' && ')' !in s[..|s| - 1]
  }

  /** Segments without a dot; only the first one may be an import with dots in it. */
  predicate IsPathText(ss: seq<string>) {
    && ss != [] && (ImportText(ss[0]) || (SegmentText(ss[0]) && '.' !in ss[0] && !("@import(" <= ss[0])))
    && forall i | 0 < i < |ss| :: SegmentText(ss[i]) && '.' !in ss[i]
  }

  lemma SegmentValid(s: string)
    ensures IsValidSegment(s) <==> SegmentText(s)
  {
  }

  lemma {:induction false} SplitParts(s: string, sep: char)
    ensures forall i | 0 <= i < |Split(s, sep)| :: sep !in Split(s, sep)[i]
  {
    if s != "" { SplitParts(s[1..], sep); }
  }

  lemma {:induction false} SplitHead(a: string, b: string)
    requires '.' !in a
    ensures Split(a, '.') == [a] && Split(a + "." + b, '.') == [a] + Split(b, '.')
  {
    if a == "" {
      assert "" + "." + b == "." + b && ("." + b)[1..] == b;
    } else {
      SplitHead(a[1..], b);
      assert (a + "." + b)[1..] == a[1..] + "." + b;
      assert [a[0]] + a[1..] == a;
    }
  }

  lemma {:induction false} SplitJoin(parts: seq<string>)
    requires parts != [] && forall i | 0 <= i < |parts| :: '.' !in parts[i]
    ensures Split(Join(parts), '.') == parts
  {
    if |parts| == 1 {
      SplitHead(parts[0], "");
      assert parts == [parts[0]];
    } else {
      SplitHead(parts[0], Join(parts[1..]));
      SplitJoin(parts[1..]);
      assert parts == [parts[0]] + parts[1..];
    }
  }

  lemma {:induction false} IndexOfFirst(s: string, n: nat, c: char)
    requires n < |s| && s[n] == c && c !in s[..n]
    ensures IndexOf(s, c) == Some(n)
  {
    if n > 0 {
      assert s[0] == s[..n][0] && s[1..][..n - 1] == s[..n][1..];
      IndexOfFirst(s[1..], n - 1, c);
    }
  }

  lemma {:induction false} IndexOfIs(s: string, c: char)
    ensures IndexOf(s, c).None? ==> c !in s
    ensures IndexOf(s, c).Some? ==> c !in s[..IndexOf(s, c).value]
  {
    if s != "" && s[0] != c {
      IndexOfIs(s[1..], c);
      if IndexOf(s, c).Some? {
        var n := IndexOf(s[1..], c).value;
        assert s[..n + 1] == [s[0]] + s[1..][..n];
      }
    }
  }

  /** Every value that is the text of a path parses to its segments. */
  lemma PathParses(ss: seq<string>)
    requires IsPathText(ss)
    ensures ParseSegments(Join(ss)) == Some(ss)
  {
    var value, rest := Join(ss), ss[1..];
    assert ss == [ss[0]] + rest;
    forall i | 0 <= i < |ss| ensures SegmentText(ss[i]) && IsValidSegment(ss[i]) {
      SegmentValid(ss[i]);
    }
    hide SegmentText, IsValidSegment, Split;
    if ImportText(ss[0]) {
      var n := |ss[0]| - 1;
      ImportFront(ss);
      IndexOfFirst(value, n, ')');
      if rest != [] {
        SplitJoin(rest);
        assert value[n + 1..] == "." + Join(rest) && ("." + Join(rest))[1..] == Join(rest);
      } else {
        assert value == ss[0] && value[n + 1..] == "" && [ss[0]] + [] == [ss[0]] == ss;
      }
    } else {
      SplitJoin(ss);
      NoImport(ss);
    }
  }

  lemma ImportFront(ss: seq<string>)
    requires ss != [] && ImportText(ss[0])
    ensures var value, n := Join(ss), |ss[0]| - 1;
            && n < |value| && value[..n + 1] == ss[0] && value[n] == ')' && ')' !in value[..n] && StartsWith(value, IMPORT)
  {
    var value, n := Join(ss), |ss[0]| - 1;
    assert ss[0] <= value;
    assert value[..n] == ss[0][..n];
  }

  lemma NoImport(ss: seq<string>)
    requires ss != [] && '.' !in ss[0] && !StartsWith(ss[0], IMPORT)
    ensures !StartsWith(Join(ss), IMPORT)
  {
    var value, n := Join(ss), |ss[0]|;
    assert ss[0] <= value && (|ss| > 1 ==> n < |value| && value[n] == '.');
    assert n < |IMPORT| ==> IMPORT[n] != '.';
    if n >= |IMPORT| { assert value[..|IMPORT|] == ss[0][..|IMPORT|]; }
  }

  /** A value parses to segments if and only if it is the text of a path, and then to its segments;
      to nothing exactly if it is the text of none. */
  lemma PathsExactly(value: string)
    ensures forall ss :: ParseSegments(value) == Some(ss) <==> IsPathText(ss) && Join(ss) == value
    ensures ParseSegments(value) == None <==> forall ss | IsPathText(ss) :: Join(ss) != value
  {
    var r := ParseSegments(value);
    if r.Some? {
      ParsedSegmentsSpell(value);
      ParsedIsPath(value);
    }
    forall ss | IsPathText(ss) && Join(ss) == value ensures r == Some(ss) {
      PathParses(ss);
    }
    hide ParseSegments, IsPathText, Join;
  }

  lemma ParsedIsPath(value: string)
    requires ParseSegments(value).Some?
    ensures IsPathText(ParseSegments(value).value)
  {
    var ss := ParseSegments(value).value;
    forall i | 0 <= i < |ss| ensures IsValidSegment(ss[i]) && SegmentText(ss[i]) {
      assert ss[i] in ss;
      SegmentValid(ss[i]);
    }
    hide SegmentText, IsValidSegment, Split;
    IndexOfIs(value, ')');
    SplitParts(value, '.');
    if StartsWith(value, IMPORT) {
      var n := IndexOf(value, ')').value;
      assert value[..n + 1][..n] == value[..n];
      BracketBehind(value, n);
      assert ImportText(ss[0]);
      if |ss| > 1 { SplitParts(value[n + 1..][1..], '.'); }
    } else {
      JoinSplit(value);
      assert IMPORT <= ss[0] ==> IMPORT <= value;
    }
  }

  // ---- Declarations and alias resolution ------------------------------------------------------

  /** last and wholepath are set when the declaration is grouped. */
  datatype Declaration = Declaration(
    index: nat, key: string, value: string, segments: Option<seq<string>>, whole: string,
    last: string, wholepath: seq<string>)

  type Table = map<string, Declaration>

  predicate IsRoot(segment: string) { StartsWith(segment, IMPORT) || StartsWith(segment, THIS) }

  /** The name is declared as a path. */
  predicate IsAlias(declarations: Table, name: string) {
    name in declarations && declarations[name].segments.Some? && declarations[name].segments.value != []
  }

  function Target(declarations: Table, name: string): seq<string>
    requires IsAlias(declarations, name)
  {
    declarations[name].segments.value
  }

  /** Following aliases from the name ends within n steps. */
  ghost predicate EndsWithin(declarations: Table, name: string, n: nat)
    decreases n
  {
    IsRoot(name) || !IsAlias(declarations, name)
    || (n > 0 && EndsWithin(declarations, Target(declarations, name)[0], n - 1))
  }

  /** n bounds the depth of the recursion, which in the code has no bound on a cycle of aliases. */
  function ResolveFirstSegment(firstSegment: string, declarations: Table, ghost n: nat): Option<seq<string>>
    requires EndsWithin(declarations, firstSegment, n)
    decreases n
  {
    if IsRoot(firstSegment) then Some([firstSegment])
    else if !IsAlias(declarations, firstSegment) then None
    else
      match ResolveFirstSegment(Target(declarations, firstSegment)[0], declarations, n - 1)
      case None => None
      case Some(resolved) => Some(resolved + Target(declarations, firstSegment)[1..])
  }

  /** The meaning of aliases: a path whose first segment is an alias stands for the path with the
      alias's target in its place, until the path starts at a root. */
  ghost function Expand(path: seq<string>, declarations: Table, n: nat): Option<seq<string>>
    requires path != [] && EndsWithin(declarations, path[0], n)
    decreases n
  {
    if IsRoot(path[0]) then Some(path)
    else if !IsAlias(declarations, path[0]) then None
    else Expand(Target(declarations, path[0]) + path[1..], declarations, n - 1)
  }

  /** An import or `@This()` stands for itself; any other name for what its declared path stands for,
      if it has one. */
  lemma NamesResolve(name: string, declarations: Table, n: nat)
    requires EndsWithin(declarations, name, n)
    ensures var r := ResolveFirstSegment(name, declarations, n);
            if "@import(" <= name || "@This()" <= name then r == Some([name])
            else if name !in declarations || declarations[name].segments.None? || declarations[name].segments.value == [] then r == None
            else
              var path := declarations[name].segments.value;
              n > 0 && EndsWithin(declarations, path[0], n - 1)
              && match ResolveFirstSegment(path[0], declarations, n - 1)
                 case None => r == None
                 case Some(resolved) => r == Some(resolved + path[1..])
  {
  }

  /** Where following the aliases stops. */
  ghost function ChainEnd(name: string, declarations: Table, n: nat): string
    requires EndsWithin(declarations, name, n)
    decreases n
  {
    if IsRoot(name) || !IsAlias(declarations, name) then name
    else ChainEnd(Target(declarations, name)[0], declarations, n - 1)
  }

  /** Resolving the first segment of any path expands the whole path; it fails exactly when the
      chain ends at a name that is unknown or not declared as a path; else the path is rooted. */
  lemma {:induction false} ResolveExpands(path: seq<string>, declarations: Table, n: nat)
    requires path != [] && EndsWithin(declarations, path[0], n)
    ensures var r := ResolveFirstSegment(path[0], declarations, n);
            && Expand(path, declarations, n) == (match r case None => None case Some(p) => Some(p + path[1..]))
            && (r.Some? <==> IsRoot(ChainEnd(path[0], declarations, n)))
            && (r.Some? ==> r.value != [] && r.value[0] == ChainEnd(path[0], declarations, n))
    decreases n
  {
    if IsRoot(path[0]) {
      assert [path[0]] + path[1..] == path;
    } else if IsAlias(declarations, path[0]) {
      var target := Target(declarations, path[0]);
      var longer := target + path[1..];
      ResolveExpands(longer, declarations, n - 1);
      var r := ResolveFirstSegment(target[0], declarations, n - 1);
      if r.Some? {
        assert longer[1..] == target[1..] + path[1..];
        assert r.value + longer[1..] == (r.value + target[1..]) + path[1..];
      }
    }
  }

  /** Every table that can be ranked, that is, without a cycle of aliases, ends for every name. */
  ghost predicate Acyclic(declarations: Table, rank: string -> nat) {
    forall name | IsAlias(declarations, name) && !IsRoot(name) ::
      var first := Target(declarations, name)[0];
      !IsRoot(first) ==> rank(first) < rank(name)
  }

  lemma {:induction false} AcyclicEnds(declarations: Table, rank: string -> nat, name: string)
    requires Acyclic(declarations, rank)
    ensures EndsWithin(declarations, name, rank(name) + 1)
    decreases rank(name)
  {
    if IsAlias(declarations, name) && !IsRoot(name) {
      var first := Target(declarations, name)[0];
      if !IsRoot(first) {
        AcyclicEnds(declarations, rank, first);
        EndsLater(declarations, first, rank(first) + 1, rank(name));
      }
    }
  }

  /** The fewest steps within which following the aliases ends. */
  ghost function Depth(declarations: Table, name: string, n: nat): (least: nat)
    requires EndsWithin(declarations, name, n)
    ensures least <= n && EndsWithin(declarations, name, least)
    ensures forall m: nat | EndsWithin(declarations, name, m) :: least <= m
    decreases n
  {
    if n > 0 && EndsWithin(declarations, name, n - 1) then Depth(declarations, name, n - 1)
    else NeverBelow(declarations, name, n); n
  }

  lemma NeverBelow(declarations: Table, name: string, n: nat)
    requires n > 0 ==> !EndsWithin(declarations, name, n - 1)
    ensures forall m: nat | EndsWithin(declarations, name, m) :: n <= m
  {
    forall m: nat | EndsWithin(declarations, name, m) ensures n <= m {
      if m < n { EndsLater(declarations, name, m, n - 1); }
    }
  }

  ghost predicate Ends(declarations: Table, name: string) { exists n: nat :: EndsWithin(declarations, name, n) }

  ghost function RankOf(declarations: Table, name: string): nat {
    if Ends(declarations, name) then var n: nat :| EndsWithin(declarations, name, n); Depth(declarations, name, n) else 0
  }

  lemma RankIsLeast(declarations: Table, name: string)
    requires Ends(declarations, name)
    ensures EndsWithin(declarations, name, RankOf(declarations, name))
    ensures forall m: nat | EndsWithin(declarations, name, m) :: RankOf(declarations, name) <= m
  {
  }

  /** The recursion ends for every name only if the table can be ranked. */
  lemma EndsOnlyRanked(declarations: Table) returns (rank: string -> nat)
    requires forall name :: Ends(declarations, name)
    ensures Acyclic(declarations, rank)
  {
    hide RankOf;
    rank := (name: string) => RankOf(declarations, name);
    forall name | IsAlias(declarations, name) && !IsRoot(name)
      ensures var first := Target(declarations, name)[0]; !IsRoot(first) ==> rank(first) < rank(name)
    {
      var first := Target(declarations, name)[0];
      RankIsLeast(declarations, name);
      RankIsLeast(declarations, first);
      assert EndsWithin(declarations, first, rank(name) - 1);
    }
  }

  /** Two names that stand for each other: the recursion never ends for either. */
  lemma {:induction false} CycleNeverEnds(declarations: Table, a: string, b: string, n: nat)
    requires !IsRoot(a) && !IsRoot(b) && IsAlias(declarations, a) && IsAlias(declarations, b)
    requires Target(declarations, a)[0] == b && Target(declarations, b)[0] == a
    ensures !EndsWithin(declarations, a, n)
    decreases n
  {
    if n > 0 { CycleNeverEnds(declarations, b, a, n - 1); }
  }

  lemma {:induction false} EndsLater(declarations: Table, name: string, m: nat, n: nat)
    requires EndsWithin(declarations, name, m) && m <= n
    ensures EndsWithin(declarations, name, n)
    decreases m
  {
    if IsAlias(declarations, name) && !IsRoot(name) {
      EndsLater(declarations, Target(declarations, name)[0], m - 1, n - 1);
    }
  }
}
