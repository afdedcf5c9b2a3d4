/** scripts/sort-imports.ts, lines 54-119 and 280-377: collecting the declarations of a file,
    writing the sorted output, and repeating until nothing is left to remove. A file is its lines. */
module SortImports {
  import opened Wrappers
  import opened ImportPaths
  import opened ImportGroups
  import opened StableSort

  const DELETED := "%DELETED_LINE%"
  const MARKER := "// @sortImports"

  datatype Config = Config(includePub: bool, removeUnused: bool)

  datatype DeclText = DeclText(name: string, value: string)

  /** The pattern matches of the program: the declaration pattern, and the test that a name occurs
      in the file no more often than in its own line. */
  datatype Scanner = Scanner(declares: string -> Option<DeclText>, unused: (string, string, seq<string>) -> bool)

  /** The pattern matches neither an empty line nor a comment nor the deletion mark. */
  ghost predicate ValidScanner(sc: Scanner) {
    && sc.declares("").None? && sc.declares(DELETED).None?
    && forall line | sc.declares(line).Some? :: !StartsWith(line, "//")
  }

  predicate Includes(s: string, t: string) {
    t <= s || (s != "" && Includes(s[1..], t))
  }

  // ---- What counts as kept --------------------------------------------------------------------

  predicate IsKept(line: string) { line != "" && line != DELETED }

  /** The lines that are neither empty nor marked as deleted. */
  function Kept(lines: seq<string>): multiset<string> {
    if lines == [] then multiset{}
    else
      var n := |lines| - 1;
      Kept(lines[..n]) + if IsKept(lines[n]) then multiset{lines[n]} else multiset{}
  }

  lemma {:induction false} KeptAppend(a: seq<string>, b: seq<string>)
    ensures Kept(a + b) == Kept(a) + Kept(b)
  {
    if b == [] {
      assert a + b == a;
    } else {
      var n := |b| - 1;
      assert (a + b)[..|a| + n] == a + b[..n];
      KeptAppend(a, b[..n]);
    }
  }

  lemma KeptOne(line: string)
    ensures Kept([line]) == if IsKept(line) then multiset{line} else multiset{}
  {
    assert [line][..0] == [];
  }

  lemma KeptDelete(lines: seq<string>, i: nat)
    requires i < |lines|
    ensures Kept(lines[i := DELETED]) + Kept([lines[i]]) == Kept(lines)
  {
    var a, b := lines[..i], lines[i + 1..];
    assert lines == a + [lines[i]] + b;
    assert lines[i := DELETED] == a + [DELETED] + b;
    KeptAppend(a + [lines[i]], b);
    KeptAppend(a, [lines[i]]);
    KeptAppend(a + [DELETED], b);
    KeptAppend(a, [DELETED]);
    KeptOne(DELETED);
  }

  lemma {:induction false} KeptMember(lines: seq<string>, i: nat)
    requires i < |lines| && IsKept(lines[i])
    ensures lines[i] in Kept(lines)
  {
    if i < |lines| - 1 { KeptMember(lines[..|lines| - 1], i); }
  }

  lemma {:induction false} KeptFrom(lines: seq<string>, x: string)
    requires x in Kept(lines)
    ensures x in lines && IsKept(x)
  {
    var n := |lines| - 1;
    if x in Kept(lines[..n]) { KeptFrom(lines[..n], x); }
  }

  // ---- Collecting declarations ----------------------------------------------------------------

  predicate IsPub(line: string) { Includes(line, "pub ") }

  /** A doc comment stands right above the line. */
  predicate Documented(lines: seq<string>, i: nat)
    requires i < |lines|
  {
    i > 0 && StartsWith(lines[i - 1], "///")
  }

  /** A declaration line without a doc comment above it. */
  predicate Candidate(sc: Scanner, lines: seq<string>, i: nat)
    requires i < |lines|
  {
    lines[i] != MARKER && sc.declares(lines[i]).Some? && !Documented(lines, i)
  }

  predicate IsUnused(sc: Scanner, config: Config, lines: seq<string>, i: nat)
    requires i < |lines|
  {
    Candidate(sc, lines, i) && config.removeUnused && !IsPub(lines[i])
    && sc.unused(sc.declares(lines[i]).value.name, lines[i], lines)
  }

  /** A candidate that is to be sorted, unless it repeats a name. */
  predicate Eligible(sc: Scanner, config: Config, lines: seq<string>, i: nat)
    requires i < |lines|
  {
    Candidate(sc, lines, i) && !IsUnused(sc, config, lines, i) && (config.includePub || !IsPub(lines[i]))
  }

  lemma {:induction false} IncludesExactly(s: string, t: string)
    ensures Includes(s, t) <==> exists i | 0 <= i <= |s| :: t <= s[i..]
  {
    if t <= s {
      assert s[0..] == s;
    } else if s != "" {
      IncludesExactly(s[1..], t);
      forall i | 0 < i <= |s| ensures s[i..] == s[1..][i - 1..] {
      }
      assert s[0..] == s;
      if exists i | 0 <= i <= |s[1..]| :: t <= s[1..][i..] {
        var i :| 0 <= i <= |s[1..]| && t <= s[1..][i..];
        assert t <= s[i + 1..];
      }
    } else {
      assert s[0..] == "";
    }
  }

  /** Which lines are sorted: declarations that are not the marker, have no doc comment right above
      them and, unless public ones are included, nowhere say `pub `; a private one that is unused
      is not, where such are removed. */
  lemma EligibleLines(sc: Scanner, config: Config, lines: seq<string>, i: nat)
    requires i < |lines|
    ensures var public := exists j | 0 <= j <= |lines[i]| :: "pub " <= lines[i][j..];
            Eligible(sc, config, lines, i) <==>
            && sc.declares(lines[i]).Some? && lines[i] != "// @sortImports" && !(i > 0 && "///" <= lines[i - 1])
            && (if public then config.includePub
                else config.removeUnused ==> !sc.unused(sc.declares(lines[i]).value.name, lines[i], lines))
  {
    IncludesExactly(lines[i], "pub ");
    hide Includes;
  }

  function DeclarationAt(sc: Scanner, lines: seq<string>, i: nat): Declaration
    requires i < |lines| && sc.declares(lines[i]).Some?
  {
    var text := sc.declares(lines[i]).value;
    Declaration(i, text.name, text.value, ParseSegments(text.value), lines[i], "", [])
  }

  // The table of declarations is told by the list of those that were taken, in order

  function KeysOf(ds: seq<Declaration>): (r: seq<string>)
    ensures |r| == |ds|
  {
    seq(|ds|, q requires 0 <= q < |ds| => ds[q].key)
  }

  function TableOf(ds: seq<Declaration>): (r: Table)
    ensures forall k :: k in r <==> k in KeysOf(ds)
  {
    if ds == [] then map[]
    else
      var n := |ds| - 1;
      KeysSnoc(ds[..n], ds[n]);
      assert ds[..n] + [ds[n]] == ds;
      TableOf(ds[..n])[ds[n].key := ds[n]]
  }

  lemma KeysSnoc(ds: seq<Declaration>, d: Declaration)
    ensures KeysOf(ds + [d]) == KeysOf(ds) + [d.key]
    ensures forall k :: k in KeysOf(ds + [d]) <==> k in KeysOf(ds) || k == d.key
  {
    assert KeysOf(ds + [d]) == KeysOf(ds) + [d.key];
  }

  lemma TableSnoc(ds: seq<Declaration>, d: Declaration)
    ensures TableOf(ds + [d]) == TableOf(ds)[d.key := d]
  {
    assert (ds + [d])[..|ds|] == ds;
  }

  /** Of the lines in the given order: the eligible ones whose name has not come up before. */
  function TakenIn(sc: Scanner, config: Config, lines: seq<string>, done: seq<nat>): (ds: seq<Declaration>)
    requires forall i | i in done :: i < |lines|
  {
    if done == [] then []
    else
      var n := |done| - 1;
      assert done[n] in done && forall i | i in done[..n] :: i in done;
      var before := TakenIn(sc, config, lines, done[..n]);
      if Eligible(sc, config, lines, done[n]) && sc.declares(lines[done[n]]).value.name !in KeysOf(before)
      then before + [DeclarationAt(sc, lines, done[n])]
      else before
  }

  lemma TakenSnoc(sc: Scanner, config: Config, lines: seq<string>, done: seq<nat>, i: nat)
    requires (forall j | j in done :: j < |lines|) && i < |lines|
    ensures TakenIn(sc, config, lines, done + [i]) ==
            var before := TakenIn(sc, config, lines, done);
            if Eligible(sc, config, lines, i) && sc.declares(lines[i]).value.name !in KeysOf(before)
            then before + [DeclarationAt(sc, lines, i)] else before
  {
    assert (done + [i])[..|done|] == done;
  }

  function WithoutMarkers(lines: seq<string>): (r: seq<string>)
    ensures |r| == |lines|
  {
    seq(|lines|, i requires 0 <= i < |lines| => if lines[i] == MARKER then DELETED else lines[i])
  }

  /** Of the line numbers in done: which declarations were taken, and which lines are to go. Of
      several eligible lines with one name the first in done is taken, the others are to go. */
  ghost predicate Collected(sc: Scanner, config: Config, lines: seq<string>, done: seq<nat>,
                            keys: seq<string>, declarations: Table, unused: seq<nat>)
  {
    && (forall i | i in done :: i < |lines|)
    && Distinct(keys) && (forall k :: k in keys <==> k in declarations)
    && (forall k | k in declarations ::
          var i := declarations[k].index;
          i in done && Eligible(sc, config, lines, i) && declarations[k] == DeclarationAt(sc, lines, i) && k == declarations[k].key)
    && (forall a, b | 0 <= a < b < |unused| :: unused[a] != unused[b])
    && (forall i | i in unused ::
          i in done && (IsUnused(sc, config, lines, i) || Eligible(sc, config, lines, i))
          && forall k | k in declarations :: declarations[k].index != i)
    && (forall i | i in done && IsUnused(sc, config, lines, i) :: i in unused)
    && (forall i | i in done && Eligible(sc, config, lines, i) ::
          var name := sc.declares(lines[i]).value.name;
          && name in declarations
          && (declarations[name].index == i || (i in unused && Before(done, declarations[name].index, i))))
  }

  /** The table is that of the lines taken in done. */
  ghost predicate TakenSoFar(sc: Scanner, config: Config, lines: seq<string>, done: seq<nat>, keys: seq<string>, declarations: Table) {
    && (forall i | i in done :: i < |lines|)
    && keys == KeysOf(TakenIn(sc, config, lines, done)) && declarations == TableOf(TakenIn(sc, config, lines, done))
  }

  lemma TakenNothing(sc: Scanner, config: Config, lines: seq<string>)
    ensures TakenSoFar(sc, config, lines, [], [], map[])
  {
  }

  lemma TakenStays(sc: Scanner, config: Config, lines: seq<string>, done: seq<nat>, i: nat, keys: seq<string>, declarations: Table)
    requires TakenSoFar(sc, config, lines, done, keys, declarations) && i < |lines|
    requires Eligible(sc, config, lines, i) ==> sc.declares(lines[i]).value.name in declarations
    ensures TakenSoFar(sc, config, lines, done + [i], keys, declarations)
  {
    TakenSnoc(sc, config, lines, done, i);
    hide TakenIn, TableOf, KeysOf, Eligible;
  }

  lemma TakenMore(sc: Scanner, config: Config, lines: seq<string>, done: seq<nat>, i: nat, keys: seq<string>, declarations: Table)
    requires TakenSoFar(sc, config, lines, done, keys, declarations) && i < |lines|
    requires Eligible(sc, config, lines, i) && sc.declares(lines[i]).value.name !in declarations
    ensures var d := DeclarationAt(sc, lines, i);
            TakenSoFar(sc, config, lines, done + [i], keys + [d.key], declarations[d.key := d])
  {
    TakenSnoc(sc, config, lines, done, i);
    var taken, d := TakenIn(sc, config, lines, done), DeclarationAt(sc, lines, i);
    KeysSnoc(taken, d);
    TableSnoc(taken, d);
    hide TakenIn, TableOf, KeysOf, Eligible, ParseSegments;
  }

  function Numbers(n: nat): (r: seq<nat>)
    ensures |r| == n && forall i | 0 <= i < n :: r[i] == i
  {
    seq(n, i requires 0 <= i < n => i)
  }

  function LineLe(lines: seq<string>): (nat, nat) -> bool {
    (a: nat, b: nat) => StringLe(LineAt(lines, a), LineAt(lines, b))
  }

  function LineAt(lines: seq<string>, i: nat): string { if i < |lines| then lines[i] else "" }

  /** The line numbers in the order in which their lines are looked at. */
  function LineOrder(lines: seq<string>): (order: seq<nat>)
    ensures forall i :: i in order <==> 0 <= i < |lines|
  {
    SortedNumbers(lines, SortBy(Numbers(|lines|), LineLe(lines)));
    SortBy(Numbers(|lines|), LineLe(lines))
  }

  lemma LineOrderDistinct(lines: seq<string>)
    ensures |LineOrder(lines)| == |lines|
    ensures forall a, b | 0 <= a < b < |LineOrder(lines)| :: LineOrder(lines)[a] != LineOrder(lines)[b]
  {
    SortedNumbers(lines, LineOrder(lines));
  }

  /** The declarations of a file that are taken, in the order in which they come up. */
  function Taken(sc: Scanner, config: Config, lines: seq<string>): seq<Declaration> {
    TakenIn(sc, config, lines, LineOrder(lines))
  }

  lemma LineOrderStable(lines: seq<string>)
    ensures TotalPreorder(LineLe(lines)) && StablySorted(LineOrder(lines), Numbers(|lines|), LineLe(lines))
  {
    StringLePreorder();
    hide StringLe;
    SortByStable(Numbers(|lines|), LineLe(lines));
  }

  /** Line i is looked at before line j: it is the smaller one, or the upper of two that are equal. */
  predicate LooksFirst(lines: seq<string>, i: nat, j: nat)
    requires i < |lines| && j < |lines|
  {
    if lines[i] == lines[j] then i < j else StringLe(lines[i], lines[j])
  }

  lemma LooksFirstOnce(lines: seq<string>, i: nat, j: nat)
    requires i < |lines| && j < |lines| && LooksFirst(lines, i, j)
    ensures !LooksFirst(lines, j, i)
  {
    if StringLe(lines[i], lines[j]) && StringLe(lines[j], lines[i]) { StringLeAntisymmetric(lines[i], lines[j]); }
  }

  lemma BeforeLooksFirst(lines: seq<string>, i: nat, j: nat)
    requires i < |lines| && j < |lines| && Before(LineOrder(lines), i, j)
    ensures LooksFirst(lines, i, j)
  {
    var le, order := LineLe(lines), LineOrder(lines);
    LineOrderStable(lines);
    hide StringLe, LineOrder;
    var a, b :| 0 <= a < b < |order| && order[a] == i && order[b] == j;
    assert le(i, j);
    if lines[i] == lines[j] {
      assert le(j, i);
      StableKeepsSmaller(order, Numbers(|lines|), le, i, j);
    }
  }

  lemma SortedNumbers(lines: seq<string>, keys: seq<nat>)
    requires keys == SortBy(Numbers(|lines|), LineLe(lines))
    ensures |keys| == |lines| && (forall i :: i in keys <==> 0 <= i < |lines|)
    ensures forall a, b | 0 <= a < b < |keys| :: keys[a] != keys[b]
  {
    var all := Numbers(|lines|);
    SortByPermutes(all, LineLe(lines));
    assert multiset(keys) == multiset(all);
    forall i ensures i in keys <==> 0 <= i < |lines| {
      assert i in keys <==> i in multiset(keys);
      assert i in all <==> i in multiset(all);
      if 0 <= i < |lines| { assert all[i] == i; }
    }
    NumbersOnce(|lines|);
    forall a, b | 0 <= a < b < |keys| ensures keys[a] != keys[b] {
      if keys[a] == keys[b] {
        TwiceCounts(keys, a, b);
        assert false;
      }
    }
    assert |multiset(keys)| == |keys| && |multiset(all)| == |all|;
  }

  lemma {:induction false} NumbersOnce(n: nat)
    ensures forall i :: multiset(Numbers(n))[i] <= 1
    ensures forall i :: i in multiset(Numbers(n)) ==> 0 <= i < n
  {
    if n == 0 {
      assert Numbers(0) == [];
    } else {
      NumbersOnce(n - 1);
      var last: nat := n - 1;
      assert Numbers(n) == Numbers(n - 1) + [last];
    }
  }

  lemma TwiceCounts<T>(s: seq<T>, a: nat, b: nat)
    requires a < b < |s| && s[a] == s[b]
    ensures multiset(s)[s[a]] >= 2
  {
    assert s == s[..a] + [s[a]] + s[a + 1..b] + [s[b]] + s[b + 1..];
  }

  method ParseDeclarations(sc: Scanner, config: Config, fileLines: seq<string>)
    returns (lines: seq<string>, keys: seq<string>, declarations: Table, unused: seq<nat>)
    requires ValidScanner(sc)
    ensures lines == WithoutMarkers(fileLines)
    ensures Collected(sc, config, fileLines, LineOrder(fileLines), keys, declarations, unused)
    ensures TakenSoFar(sc, config, fileLines, LineOrder(fileLines), keys, declarations)
    ensures forall i | 0 <= i < |fileLines| :: i in LineOrder(fileLines)
    ensures StablySorted(LineOrder(fileLines), Numbers(|fileLines|), LineLe(fileLines))
  {
    LineOrderStable(fileLines);
    hide Collected, TakenSoFar, Unmarked, LineOrder, StablySorted, TotalPreorder, Numbers, LineLe, WithoutMarkers;
    lines, keys, declarations, unused := fileLines, [], map[], [];
    var sortedLineKeys := LineOrder(lines);
    LineOrderDistinct(lines);
    var n := 0;
    NothingCollected(sc, config, fileLines);
    TakenNothing(sc, config, fileLines);
    while n < |sortedLineKeys|
      invariant 0 <= n <= |sortedLineKeys|
      invariant Unmarked(fileLines, lines, sortedLineKeys[..n])
      invariant Collected(sc, config, fileLines, sortedLineKeys[..n], keys, declarations, unused)
      invariant TakenSoFar(sc, config, fileLines, sortedLineKeys[..n], keys, declarations)
    {
      var i := sortedLineKeys[n];
      assert i in sortedLineKeys && i !in sortedLineKeys[..n];
      assert sortedLineKeys[..n + 1] == sortedLineKeys[..n] + [i];
      lines, keys, declarations, unused :=
        ScanLine(sc, config, fileLines, lines, i, sortedLineKeys[..n], keys, declarations, unused);
      n := n + 1;
    }
    assert sortedLineKeys[..n] == sortedLineKeys;
    AllUnmarked(fileLines, lines, sortedLineKeys);
  }

  lemma NothingCollected(sc: Scanner, config: Config, fileLines: seq<string>)
    ensures Collected(sc, config, fileLines, [], [], map[], []) && Unmarked(fileLines, fileLines, [])
  {
  }

  lemma AllUnmarked(fileLines: seq<string>, lines: seq<string>, done: seq<nat>)
    requires Unmarked(fileLines, lines, done) && forall i :: i in done <==> 0 <= i < |fileLines|
    ensures lines == WithoutMarkers(fileLines)
  {
  }

  /** The marker lines among those in done are marked as deleted. */
  ghost predicate Unmarked(fileLines: seq<string>, lines: seq<string>, done: seq<nat>) {
    && |lines| == |fileLines|
    && forall i | 0 <= i < |lines| :: lines[i] == if fileLines[i] == MARKER && i in done then DELETED else fileLines[i]
  }

  lemma UnmarkedOneMore(fileLines: seq<string>, lines: seq<string>, done: seq<nat>, i: nat)
    requires Unmarked(fileLines, lines, done) && i < |lines|
    ensures Unmarked(fileLines, if fileLines[i] == MARKER then lines[i := DELETED] else lines, done + [i])
  {
  }

  /** One turn of the loop over the sorted line numbers. */
  method ScanLine(sc: Scanner, config: Config, fileLines: seq<string>, lines: seq<string>, i: nat, ghost done: seq<nat>,
                  keys: seq<string>, declarations: Table, unused: seq<nat>)
    returns (lines': seq<string>, keys': seq<string>, declarations': Table, unused': seq<nat>)
    requires ValidScanner(sc) && i < |fileLines| && i !in done
    requires Unmarked(fileLines, lines, done)
    requires Collected(sc, config, fileLines, done, keys, declarations, unused)
    requires TakenSoFar(sc, config, fileLines, done, keys, declarations)
    ensures Unmarked(fileLines, lines', done + [i])
    ensures Collected(sc, config, fileLines, done + [i], keys', declarations', unused')
    ensures TakenSoFar(sc, config, fileLines, done + [i], keys', declarations')
  {
    UnmarkedOneMore(fileLines, lines, done, i);
    assert |lines| == |fileLines| && lines[i] == fileLines[i];
    PreviousLine(fileLines, lines, i);
    hide Collected, TakenSoFar, Unmarked, ParseSegments, Includes, StartsWith;
    lines', keys', declarations', unused' := lines, keys, declarations, unused;
    var line := lines[i];
    if line == MARKER {
      CollectOther(sc, config, fileLines, done, i, keys, declarations, unused);
      TakenStays(sc, config, fileLines, done, i, keys, declarations);
      lines' := lines[i := DELETED];
      return;
    }
    var m := sc.declares(line);
    if m.None? || (i > 0 && StartsWith(lines[i - 1], "///")) {
      CollectOther(sc, config, fileLines, done, i, keys, declarations, unused);
      TakenStays(sc, config, fileLines, done, i, keys, declarations);
      return;
    }
    var name := m.value.name;
    if config.removeUnused && !IsPub(line) && sc.unused(name, line, fileLines) {
      CollectUnused(sc, config, fileLines, done, i, keys, declarations, unused);
      TakenStays(sc, config, fileLines, done, i, keys, declarations);
      unused' := unused + [i];
    } else if !config.includePub && IsPub(line) {
      CollectOther(sc, config, fileLines, done, i, keys, declarations, unused);
      TakenStays(sc, config, fileLines, done, i, keys, declarations);
    } else if name in declarations {
      CollectUnused(sc, config, fileLines, done, i, keys, declarations, unused);
      TakenStays(sc, config, fileLines, done, i, keys, declarations);
      unused' := unused + [i];
    } else {
      CollectDeclaration(sc, config, fileLines, done, i, keys, declarations, unused);
      TakenMore(sc, config, fileLines, done, i, keys, declarations);
      keys' := keys + [name];
      declarations' := declarations[name := Declaration(i, name, m.value.value, ParseSegments(m.value.value), line, "", [])];
    }
  }

  lemma PreviousLine(fileLines: seq<string>, lines: seq<string>, i: nat)
    requires i < |lines| == |fileLines|
    requires forall j | 0 <= j < |lines| :: lines[j] == fileLines[j] || (fileLines[j] == MARKER && lines[j] == DELETED)
    ensures i > 0 ==> (StartsWith(lines[i - 1], "///") <==> StartsWith(fileLines[i - 1], "///"))
  {
    if i > 0 && lines[i - 1] != fileLines[i - 1] {
      assert DELETED[0] != '/' && MARKER[2] == ' ';
      assert "///"[0] == '/' && "///"[2] == '/';
    }
  }

  lemma CollectOther(sc: Scanner, config: Config, lines: seq<string>, done: seq<nat>, i: nat,
                     keys: seq<string>, declarations: Table, unused: seq<nat>)
    requires Collected(sc, config, lines, done, keys, declarations, unused) && i < |lines|
    requires !IsUnused(sc, config, lines, i) && !Eligible(sc, config, lines, i)
    ensures Collected(sc, config, lines, done + [i], keys, declarations, unused)
  {
    BeforeSnoc(done, i);
    hide Before, Candidate, IsUnused, Eligible;
  }

  lemma CollectUnused(sc: Scanner, config: Config, lines: seq<string>, done: seq<nat>, i: nat,
                      keys: seq<string>, declarations: Table, unused: seq<nat>)
    requires Collected(sc, config, lines, done, keys, declarations, unused) && i < |lines| && i !in done
    requires IsUnused(sc, config, lines, i)
             || (Eligible(sc, config, lines, i) && sc.declares(lines[i]).value.name in declarations)
    ensures Collected(sc, config, lines, done + [i], keys, declarations, unused + [i])
  {
    BeforeSnoc(done, i);
    hide Before, Candidate;
  }

  lemma CollectDeclaration(sc: Scanner, config: Config, lines: seq<string>, done: seq<nat>, i: nat,
                           keys: seq<string>, declarations: Table, unused: seq<nat>)
    requires Collected(sc, config, lines, done, keys, declarations, unused) && i < |lines| && i !in done
    requires Eligible(sc, config, lines, i) && sc.declares(lines[i]).value.name !in declarations
    ensures var d := DeclarationAt(sc, lines, i);
            Collected(sc, config, lines, done + [i], keys + [d.key], declarations[d.key := d], unused)
  {
    BeforeSnoc(done, i);
    hide Before, Candidate, IsUnused;
  }

  /** Where the first declaration with value `@This()` is, if there is one. */
  function ThisIndex(ds: seq<Declaration>): (r: Option<nat>)
    ensures r.Some? ==> r.value < |ds| && ds[r.value].value == THIS && forall q | 0 <= q < r.value :: ds[q].value != THIS
    ensures r.None? ==> forall d | d in ds :: d.value != THIS
  {
    if ds == [] then None
    else if ds[0].value == THIS then Some(0)
    else match ThisIndex(ds[1..]) case None => None case Some(q) => Some(q + 1)
  }

  function ThisOf(ds: seq<Declaration>): Option<Declaration> {
    match ThisIndex(ds) case None => None case Some(q) => Some(ds[q])
  }

  /** All but that declaration. */
  function RestOf(ds: seq<Declaration>): seq<Declaration> {
    match ThisIndex(ds) case None => ds case Some(q) => ds[..q] + ds[q + 1..]
  }

  lemma {:induction false} KeysDistinct(ds: seq<Declaration>, q: nat)
    requires Distinct(KeysOf(ds)) && q < |ds|
    ensures ds[q].key in TableOf(ds) && TableOf(ds)[ds[q].key] == ds[q]
  {
    var n := |ds| - 1;
    assert ds == ds[..n] + [ds[n]];
    KeysSnoc(ds[..n], ds[n]);
    assert KeysOf(ds)[q] in KeysOf(ds);
    if q < n {
      assert KeysOf(ds[..n]) == KeysOf(ds)[..n] && KeysOf(ds)[q] != KeysOf(ds)[n];
      KeysDistinct(ds[..n], q);
    }
  }

  lemma WithoutKeys(ds: seq<Declaration>, q: nat)
    requires Distinct(KeysOf(ds)) && q < |ds|
    ensures var rest := ds[..q] + ds[q + 1..];
            && Distinct(KeysOf(rest)) && KeysOf(rest) == Without(KeysOf(ds), ds[q].key)
            && TableOf(rest) == TableOf(ds) - {ds[q].key}
  {
    var rest, keys, k := ds[..q] + ds[q + 1..], KeysOf(ds), ds[q].key;
    WithoutAt(keys, q);
    assert KeysOf(rest) == keys[..q] + keys[q + 1..];
    WithoutProperties(keys, k);
    hide TableOf, Without, Distinct;
    forall x | x in TableOf(rest) ensures x in TableOf(ds) && TableOf(rest)[x] == TableOf(ds)[x] {
      RestEntry(ds, q, x);
    }
    assert forall x :: x in TableOf(rest) <==> x in TableOf(ds) && x != k;
  }

  lemma RestEntry(ds: seq<Declaration>, q: nat, x: string)
    requires Distinct(KeysOf(ds)) && q < |ds|
    requires var rest := ds[..q] + ds[q + 1..]; Distinct(KeysOf(rest)) && x in TableOf(rest)
    ensures x in TableOf(ds) && TableOf(ds[..q] + ds[q + 1..])[x] == TableOf(ds)[x]
  {
    hide TableOf, Distinct;
    var rest := ds[..q] + ds[q + 1..];
    var p :| 0 <= p < |rest| && KeysOf(rest)[p] == x;
    KeysDistinct(rest, p);
    KeysDistinct(ds, if p < q then p else p + 1);
  }

  lemma {:induction false} WithoutAt(keys: seq<string>, q: nat)
    requires Distinct(keys) && q < |keys|
    ensures Without(keys, keys[q]) == keys[..q] + keys[q + 1..]
  {
    if q == 0 {
      WithoutAbsent(keys[1..], keys[0]);
      assert keys[..0] + keys[1..] == keys[1..];
    } else {
      WithoutAt(keys[1..], q - 1);
      assert [keys[0]] + (keys[1..][..q - 1] + keys[1..][q..]) == keys[..q] + keys[q + 1..];
    }
  }

  lemma {:induction false} WithoutAbsent(keys: seq<string>, k: string)
    requires k !in keys
    ensures Without(keys, k) == keys
  {
    if keys != [] { WithoutAbsent(keys[1..], k); }
  }

  /** `const Self = @This();` is taken out of the declarations, if there is one. */
  method ExtractThisDeclaration(keys: seq<string>, declarations: Table, ghost ds: seq<Declaration>)
    returns (r: Option<Declaration>, keys': seq<string>, declarations': Table)
    requires Distinct(keys) && keys == KeysOf(ds) && declarations == TableOf(ds)
    ensures Distinct(keys') && forall k :: k in keys' <==> k in declarations'
    ensures r == ThisOf(ds) && keys' == KeysOf(RestOf(ds)) && declarations' == TableOf(RestOf(ds))
    ensures r.Some? ==> exists k | k in declarations ::
                          r.value == declarations[k] && r.value.value == THIS && declarations' == declarations - {k}
    ensures r.None? ==> declarations' == declarations
  {
    assert NotThisBefore(ds, 0);
    hide *;
    var i := 0;
    while i < |keys|
      invariant 0 <= i <= |keys|
      invariant NotThisBefore(ds, i)
    {
      var k := keys[i];
      KeyAt(ds, i);
      if declarations[k].value == THIS {
        ThisFound(ds, i);
        SameMembers(RestOf(ds));
        return Some(declarations[k]), Without(keys, k), declarations - {k};
      }
      NotThisNext(ds, i);
      i := i + 1;
    }
    ThisMissing(ds);
    r, keys', declarations' := None, keys, declarations;
  }

  ghost predicate NotThisBefore(ds: seq<Declaration>, n: nat) {
    n <= |ds| && forall q | 0 <= q < n :: ds[q].value != THIS
  }

  lemma KeyAt(ds: seq<Declaration>, i: nat)
    requires Distinct(KeysOf(ds)) && i < |ds|
    ensures KeysOf(ds)[i] in TableOf(ds) && TableOf(ds)[KeysOf(ds)[i]] == ds[i]
  {
    KeysDistinct(ds, i);
  }

  lemma NotThisNext(ds: seq<Declaration>, i: nat)
    requires NotThisBefore(ds, i) && i < |ds| && ds[i].value != THIS
    ensures NotThisBefore(ds, i + 1)
  {
  }

  lemma ThisFound(ds: seq<Declaration>, i: nat)
    requires Distinct(KeysOf(ds)) && NotThisBefore(ds, i) && i < |ds| && ds[i].value == THIS
    ensures ThisOf(ds) == Some(ds[i]) && ds[i].key == KeysOf(ds)[i] && ds[i].key in TableOf(ds) && TableOf(ds)[ds[i].key] == ds[i]
    ensures var k := ds[i].key;
            && KeysOf(RestOf(ds)) == Without(KeysOf(ds), k) && TableOf(RestOf(ds)) == TableOf(ds) - {k}
            && Distinct(Without(KeysOf(ds), k))
  {
    ThisAt(ds, i);
    hide *;
    KeyAt(ds, i);
    WithoutKeys(ds, i);
  }

  lemma ThisAt(ds: seq<Declaration>, i: nat)
    requires NotThisBefore(ds, i) && i < |ds| && ds[i].value == THIS
    ensures ThisOf(ds) == Some(ds[i]) && RestOf(ds) == ds[..i] + ds[i + 1..] && KeysOf(ds)[i] == ds[i].key
  {
    assert ThisIndex(ds) == Some(i);
  }

  lemma SameMembers(ds: seq<Declaration>)
    ensures forall k :: k in KeysOf(ds) <==> k in TableOf(ds)
  {
    hide *;
  }

  lemma ThisMissing(ds: seq<Declaration>)
    requires NotThisBefore(ds, |ds|)
    ensures ThisOf(ds) == None && RestOf(ds) == ds
    ensures forall k :: k in KeysOf(ds) <==> k in TableOf(ds)
  {
  }

  // ---- Output ---------------------------------------------------------------------------------

  function Wholes(ds: seq<Declaration>): (r: seq<string>)
    ensures |r| == |ds|
  {
    seq(|ds|, i requires 0 <= i < |ds| => ds[i].whole)
  }

  /** The declarations of the groups, group after group. */
  function Flatten(keys: seq<string>, table: Groups): seq<Declaration>
    requires forall k | k in keys :: k in table
  {
    if keys == [] then []
    else
      var n := |keys| - 1;
      Flatten(keys[..n], table) + table[keys[n]].declarations
  }

  /** A blank line in front of each group that has declarations. */
  function Blocks(keys: seq<string>, table: Groups): seq<string>
    requires forall k | k in keys :: k in table
  {
    if keys == [] then []
    else
      var n := |keys| - 1;
      var ds := table[keys[n]].declarations;
      Blocks(keys[..n], table) + if ds == [] then [] else [""] + Wholes(ds)
  }

  /** The blocks begin with a blank line, end with another one, and have no two in a row. */
  lemma {:induction false} BlocksSpaced(keys: seq<string>, table: Groups)
    requires forall k | k in keys :: k in table && forall d | d in table[k].declarations :: d.whole != ""
    ensures var b := Blocks(keys, table);
            && (b != [] ==> b[0] == "" && b[|b| - 1] != "")
            && forall i | 0 <= i < |b| - 1 && b[i] == "" :: b[i + 1] != ""
  {
    if keys != [] {
      var n := |keys| - 1;
      var ds := table[keys[n]].declarations;
      assert keys[n] in keys && forall k | k in keys[..n] :: k in keys;
      BlocksSpaced(keys[..n], table);
      var front := Blocks(keys[..n], table);
      forall i | 0 <= i < |ds| ensures Wholes(ds)[i] != "" {
        assert ds[i] in ds;
      }
      hide Blocks;
      var block := [""] + Wholes(ds);
      assert forall i | 0 < i < |block| :: block[i] == Wholes(ds)[i - 1];
      if ds != [] {
        var b := front + block;
        forall i | 0 <= i < |b| - 1 && b[i] == "" ensures b[i + 1] != "" {
          if i < |front| { assert b[i] == front[i]; } else { assert b[i] == block[i - |front|]; }
        }
      }
    }
  }

  /** The original lines of the declarations are marked as deleted. */
  function Marked(lines: seq<string>, ds: seq<Declaration>): (r: seq<string>)
    requires forall d | d in ds :: d.index < |lines|
    ensures |r| == |lines|
  {
    if ds == [] then lines
    else
      var n := |ds| - 1;
      assert ds[n] in ds;
      Marked(lines, ds[..n])[ds[n].index := DELETED]
  }

  method GenerateSortedOutput(lines: seq<string>, groups: Groups, sortedGroupKeys: seq<string>)
    returns (outputLines: seq<string>)
    requires forall k | k in sortedGroupKeys :: k in groups
    requires forall k | k in sortedGroupKeys :: forall d | d in groups[k].declarations :: d.index < |lines|
    ensures (forall d | d in Flatten(sortedGroupKeys, groups) :: d.index < |lines|)
    ensures outputLines == Marked(lines, Flatten(sortedGroupKeys, groups)) + Blocks(sortedGroupKeys, groups)
  {
    outputLines := lines;
    var n := 0;
    assert Marked(lines, []) + [] == lines;
    while n < |sortedGroupKeys|
      invariant 0 <= n <= |sortedGroupKeys|
      invariant forall d | d in Flatten(sortedGroupKeys[..n], groups) :: d.index < |lines|
      invariant outputLines == Marked(lines, Flatten(sortedGroupKeys[..n], groups)) + Blocks(sortedGroupKeys[..n], groups)
    {
      hide Marked, Flatten, Blocks;
      var groupKey := sortedGroupKeys[n];
      ghost var earlier, blocks := Flatten(sortedGroupKeys[..n], groups), Blocks(sortedGroupKeys[..n], groups);
      OneMoreGroup(sortedGroupKeys, groups, n);
      var ds := groups[groupKey].declarations;
      if |ds| == 0 {
        assert earlier + ds == earlier && blocks + [] == blocks;
      } else {
        outputLines := EmitGroup(lines, outputLines, ds, earlier, blocks);
      }
      n := n + 1;
    }
    assert sortedGroupKeys[..n] == sortedGroupKeys;
  }

  method EmitGroup(lines: seq<string>, output: seq<string>, ds: seq<Declaration>,
                   ghost earlier: seq<Declaration>, ghost blocks: seq<string>)
    returns (outputLines: seq<string>)
    requires forall d | d in earlier + ds :: d.index < |lines|
    requires output == Marked(lines, earlier) + blocks
    ensures outputLines == Marked(lines, earlier + ds) + (blocks + ([""] + Wholes(ds)))
  {
    hide Marked, Wholes;
    outputLines := output + [""];
    var i := 0;
    MarkedNothing(lines, earlier, ds);
    NoWholes(ds);
    while i < |ds|
      invariant 0 <= i <= |ds|
      invariant forall d | d in earlier + ds[..i] :: d.index < |lines|
      invariant outputLines == Marked(lines, earlier + ds[..i]) + (blocks + [""] + Wholes(ds[..i]))
    {
      var d := ds[i];
      assert d in earlier + ds;
      MarkedOneMore(lines, earlier, ds, i);
      OneMoreWhole(ds, i);
      outputLines := outputLines + [d.whole];
      outputLines := outputLines[d.index := DELETED];
      i := i + 1;
    }
    assert ds[..i] == ds;
    assert blocks + [""] + Wholes(ds) == blocks + ([""] + Wholes(ds));
  }

  lemma NoWholes(ds: seq<Declaration>)
    ensures Wholes(ds[..0]) == []
  {
  }

  lemma OneMoreWhole(ds: seq<Declaration>, i: nat)
    requires i < |ds|
    ensures Wholes(ds[..i + 1]) == Wholes(ds[..i]) + [ds[i].whole]
  {
  }

  lemma OneMoreGroup(keys: seq<string>, table: Groups, n: nat)
    requires n < |keys| && forall k | k in keys :: k in table
    ensures Flatten(keys[..n + 1], table) == Flatten(keys[..n], table) + table[keys[n]].declarations
    ensures var ds := table[keys[n]].declarations;
            Blocks(keys[..n + 1], table) == Blocks(keys[..n], table) + if ds == [] then [] else [""] + Wholes(ds)
  {
    assert keys[..n + 1][..n] == keys[..n];
  }

  lemma MarkedNothing(lines: seq<string>, earlier: seq<Declaration>, ds: seq<Declaration>)
    requires forall d | d in earlier :: d.index < |lines|
    ensures (forall d | d in earlier + ds[..0] :: d.index < |lines|)
            && Marked(lines, earlier + ds[..0]) == Marked(lines, earlier)
  {
    assert earlier + ds[..0] == earlier;
  }

  lemma MarkedOneMore(lines: seq<string>, earlier: seq<Declaration>, ds: seq<Declaration>, i: nat)
    requires i < |ds| && ds[i].index < |lines|
    requires forall d | d in earlier + ds[..i] :: d.index < |lines|
    ensures (forall d | d in earlier + ds[..i + 1] :: d.index < |lines|)
            && Marked(lines, earlier + ds[..i + 1]) == Marked(lines, earlier + ds[..i])[ds[i].index := DELETED]
  {
    assert earlier + ds[..i + 1] == (earlier + ds[..i]) + [ds[i]];
    MarkedSnoc(lines, earlier + ds[..i], ds[i]);
  }

  lemma MarkedSnoc(lines: seq<string>, ds: seq<Declaration>, d: Declaration)
    requires (forall e | e in ds :: e.index < |lines|) && d.index < |lines|
    ensures (forall e | e in ds + [d] :: e.index < |lines|)
            && Marked(lines, ds + [d]) == Marked(lines, ds)[d.index := DELETED]
  {
    assert (ds + [d])[..|ds|] == ds;
  }

  // ---- The output loses nothing ---------------------------------------------------------------

  /** Each declaration stands for its own line of the file. */
  ghost predicate OwnLines(lines: seq<string>, ds: seq<Declaration>) {
    && (forall i, j | 0 <= i < j < |ds| :: ds[i].index != ds[j].index)
    && (forall d | d in ds :: d.index < |lines| && d.whole == lines[d.index] && IsKept(d.whole))
  }

  lemma {:induction false} MarkedAt(lines: seq<string>, ds: seq<Declaration>, i: nat)
    requires (forall d | d in ds :: d.index < |lines|) && i < |lines|
    ensures Marked(lines, ds)[i] == if exists d :: d in ds && d.index == i then DELETED else lines[i]
  {
    if ds != [] {
      var n := |ds| - 1;
      assert ds[n] in ds;
      MarkedAt(lines, ds[..n], i);
      assert forall d :: d in ds <==> d in ds[..n] || d == ds[n];
    }
  }

  lemma MarkedLast(lines: seq<string>, ds: seq<Declaration>)
    requires OwnLines(lines, ds) && ds != []
    ensures var n := |ds| - 1;
            && OwnLines(lines, ds[..n]) && (forall d | d in ds[..n] :: d.index < |lines|) && ds[n].index < |lines|
            && Marked(lines, ds) == Marked(lines, ds[..n])[ds[n].index := DELETED]
            && Marked(lines, ds[..n])[ds[n].index] == ds[n].whole
  {
    OwnFront(lines, ds);
    hide OwnLines;
    MarkedAt(lines, ds[..|ds| - 1], ds[|ds| - 1].index);
  }

  lemma OwnFront(lines: seq<string>, ds: seq<Declaration>)
    requires OwnLines(lines, ds) && ds != []
    ensures var d := ds[|ds| - 1];
            && OwnLines(lines, ds[..|ds| - 1]) && d.index < |lines| && lines[d.index] == d.whole
            && !(exists e :: e in ds[..|ds| - 1] && e.index == d.index)
  {
    var n := |ds| - 1;
    assert ds[n] in ds;
    assert forall q | 0 <= q < n :: ds[..n][q] == ds[q] && ds[q] in ds && ds[q].index != ds[n].index;
  }

  lemma {:induction false} MarkedKept(lines: seq<string>, ds: seq<Declaration>)
    requires OwnLines(lines, ds)
    ensures Kept(Marked(lines, ds)) + Kept(Wholes(ds)) == Kept(lines)
  {
    if ds == [] {
      assert Wholes(ds) == [];
    } else {
      hide Kept, Wholes;
      var n := |ds| - 1;
      var d := ds[n];
      MarkedLast(lines, ds);
      hide Marked, OwnLines;
      MarkedKept(lines, ds[..n]);
      var m := Marked(lines, ds[..n]);
      KeptDelete(m, d.index);
      assert ds[..n + 1] == ds;
      OneMoreWhole(ds, n);
      KeptAppend(Wholes(ds[..n]), [d.whole]);
    }
  }

  lemma {:induction false} BlocksKept(keys: seq<string>, table: Groups)
    requires forall k | k in keys :: k in table
    ensures Kept(Blocks(keys, table)) == Kept(Wholes(Flatten(keys, table)))
  {
    if keys == [] {
      assert Wholes([]) == [];
    } else {
      var n := |keys| - 1;
      var ds := table[keys[n]].declarations;
      BlocksKept(keys[..n], table);
      var before := Flatten(keys[..n], table);
      assert Wholes(before + ds) == Wholes(before) + Wholes(ds);
      KeptAppend(Wholes(before), Wholes(ds));
      KeptOne("");
      KeptAppend([""], Wholes(ds));
      KeptAppend(Blocks(keys[..n], table), if ds == [] then [] else [""] + Wholes(ds));
      if ds == [] { assert Wholes(ds) == []; }
    }
  }

  /** Without blank lines and deletion marks, the output is a permutation of the input. */
  lemma OutputKeepsLines(lines: seq<string>, keys: seq<string>, table: Groups)
    requires forall k | k in keys :: k in table
    requires OwnLines(lines, Flatten(keys, table))
    ensures Kept(Marked(lines, Flatten(keys, table)) + Blocks(keys, table)) == Kept(lines)
  {
    var ds := Flatten(keys, table);
    MarkedKept(lines, ds);
    BlocksKept(keys, table);
    KeptAppend(Marked(lines, ds), Blocks(keys, table));
  }
}
