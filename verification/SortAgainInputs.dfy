/** Two files whose sorted form changes when it is sorted again (scripts/sort-imports.ts, lines 312-399). */
module SortAgainInputs {
  import opened Wrappers
  import opened ImportPaths
  import opened ImportGroups
  import opened StableSort
  import opened SortImports
  import opened ProcessFile
  import opened ShownLines
  import opened SortResult
  import opened SortAgain

  /** Declares one line; a name is unused if no other line has it. */
  function OneLine(line: string, text: DeclText): Scanner {
    Scanner(
      (x: string) => if x == line then Some(text) else None,
      (name: string, own: string, file: seq<string>) => forall i | 0 <= i < |file| :: file[i] == own || !Includes(file[i], name))
  }

  lemma {:induction false} NotIncludes(s: string, t: string, c: char)
    requires c in t && c !in s
    ensures !Includes(s, t)
  {
    if s != "" { NotIncludes(s[1..], t, c); }
  }

  lemma {:induction false} IncludesEnd(s: string, t: string)
    ensures Includes(s + t, t)
  {
    if s == "" {
      assert s + t == t;
    } else {
      assert (s + t)[1..] == s[1..] + t;
      IncludesEnd(s[1..], t);
    }
  }

  lemma {:induction false} IndexOfLast(s: string, c: char)
    requires c !in s
    ensures IndexOf(s + [c], c) == Some(|s|)
  {
    if s != "" {
      assert (s + [c])[1..] == s[1..] + [c];
      IndexOfLast(s[1..], c);
    }
  }

  /** The value is an import and nothing more. */
  lemma ImportIsRoot(file: string)
    requires ')' !in file
    ensures ParseSegments(IMPORT + file + ")") == Some([IMPORT + file + ")"]) && IsRoot(IMPORT + file + ")")
    ensures IMPORT + file + ")" != THIS
  {
    var value := IMPORT + file + ")";
    assert ')' !in IMPORT + file;
    IndexOfLast(IMPORT + file, ')');
    assert IMPORT + file + [')'] == value && value[..|value|] == value && value[|value|..] == "";
    assert StartsWith(value, IMPORT);
    assert value[1] == 'i' && THIS[1] == 'T';
  }

  function NoRank(): string -> nat { (x: string) => 0 }

  /** No aliases, so none in a circle. */
  lemma ImportsRanked(config: Config, line: string, name: string, file: string, lines: seq<string>)
    requires ')' !in file
    ensures AliasesRanked(OneLine(line, DeclText(name, IMPORT + file + ")")), config, lines, NoRank())
  {
    hide ParseSegments;
    ImportIsRoot(file);
    hide FirstOfName, IsRoot;
    var sc := OneLine(line, DeclText(name, IMPORT + file + ")"));
    forall i | 0 <= i < |lines| && FirstOfName(sc, config, lines, i) ensures lines[i] == line {
      FirstEligible(sc, config, lines, i);
    }
  }

  lemma {:induction false} TextsSize(s: seq<Entry>)
    ensures |Texts(s)| == |s|
  {
    if s != [] { TextsSize(s[..|s| - 1]); }
  }

  lemma OnlyLine(lines: seq<string>, x: string)
    requires Kept(lines) == multiset{x} && !StartsWith(x, "//") && IsKept(x)
    ensures Shown(lines) == [Entry(x, false)]
    ensures forall y | y in lines :: y == x || !IsKept(y)
  {
    TextsShown(lines);
    TextsSize(Shown(lines));
    assert |Shown(lines)| == 1;
    LongerPrefix(x);
    forall i | 0 <= i < |lines| && IsKept(lines[i]) ensures lines[i] == x {
      KeptMember(lines, i);
    }
    assert DELETED[0] != '/' && "///"[0] == '/';
    forall y | y in lines ensures !StartsWith(y, "///") {
      assert y == x || !IsKept(y);
    }
    ShownPlain(lines);
    assert Shown(lines)[0] in Shown(lines);
  }

  /** An ordinary line of a declaration. */
  ghost predicate Plain(line: string) { IsKept(line) && line != MARKER && !StartsWith(line, "//") && !IsPub(line) }

  lemma OneLineValid(line: string, text: DeclText)
    requires Plain(line)
    ensures ValidScanner(OneLine(line, text))
  {
    hide IsPub;
  }

  const SORT_LINE := "const sortImports = @import(\"a.zig\");"
  const SORT_NAME := "sortImports"

  lemma SortLinePlain()
    ensures Plain(SORT_LINE)
  {
    SortLineChars();
    hide *;
    NotIncludes(SORT_LINE, "pub ", 'u');
    PlainByChars(SORT_LINE);
  }

  lemma SortLineChars()
    ensures 'u' !in SORT_LINE && SORT_LINE != "" && SORT_LINE[0] == 'c'
  {
  }

  lemma PlainByChars(line: string)
    requires line != "" && line[0] == 'c' && !Includes(line, "pub ")
    ensures Plain(line)
  {
    hide Includes;
    assert DELETED[0] == '%' && MARKER[0] == '/' && "//"[0] == '/';
  }

  lemma MarkerHasName()
    ensures Includes(MARKER, SORT_NAME) && !Includes("", SORT_NAME) && !Includes(DELETED, SORT_NAME)
  {
    IncludesEnd("// @", SORT_NAME);
    assert "// @" + SORT_NAME == MARKER;
    NotIncludes("", SORT_NAME, 's');
    NotIncludes(DELETED, SORT_NAME, 's');
    hide Includes;
  }

  /** A name that occurs in the marker counts as used beside it. */
  lemma UsedBesideMarker(sc: Scanner, config: Config, line: string, text: DeclText, f: seq<string>, r: seq<string>, gone: seq<nat>)
    requires sc == OneLine(line, text) && Plain(line) && Includes(MARKER, text.name)
    requires f == [MARKER, line] && Turn(sc, config, f, r, gone)
    ensures gone == [] && Kept(r) == multiset{line}
  {
    hide *;
    GoneExactly(sc, config, f, r, gone);
    forall i | 0 <= i < |f| ensures !Removable(sc, config, f, i) {
      NotRemovable(sc, config, line, text, f, i);
    }
    KeptBesideMarker(line);
    SameButMarkers(sc, config, f, r);
    PlainLine(line);
    assert Kept(r) + multiset{MARKER} == multiset{line} + multiset{MARKER};
    ThereAndBack(Kept(r), Kept(r) + multiset{MARKER}, multiset{line}, multiset{MARKER});
  }

  lemma NotRemovable(sc: Scanner, config: Config, line: string, text: DeclText, f: seq<string>, i: nat)
    requires sc == OneLine(line, text) && Plain(line) && Includes(MARKER, text.name) && f == [MARKER, line] && i < |f|
    ensures !Removable(sc, config, f, i)
  {
    hide Includes, IsPub, StartsWith;
    assert f[0] == MARKER && f[1] == line;
  }

  lemma KeptBesideMarker(line: string)
    requires Plain(line)
    ensures Kept([MARKER, line]) == multiset{line} + multiset{MARKER} && MarkersOf([MARKER, line]) == multiset{MARKER}
  {
    hide IsPub;
    assert MARKER[0] == '/' && DELETED[0] == '%';
    KeptOne(MARKER);
    KeptOne(line);
    KeptAppend([MARKER], [line]);
    assert [MARKER] + [line] == [MARKER, line] && [MARKER][..0] == [] && [MARKER, line][..1] == [MARKER];
    assert MarkersOf([MARKER]) == MarkersOf([]) + multiset{MARKER};
  }

  lemma SameButMarkers(sc: Scanner, config: Config, f: seq<string>, r: seq<string>)
    requires Turn(sc, config, f, r, [])
    ensures Kept(r) + MarkersOf(f) == Kept(f)
  {
    hide SortedOutput, MarkersOf;
    assert LinesAt(f, []) == [];
  }

  /** Without the marker it does not. */
  lemma UnusedWithoutMarker(sc: Scanner, config: Config, line: string, text: DeclText, lines: seq<string>, i: nat)
    requires sc == OneLine(line, text) && Plain(line) && !Includes("", text.name) && !Includes(DELETED, text.name)
    requires config.removeUnused && i < |lines| && lines[i] == line && !Documented(lines, i)
    requires forall y | y in lines :: y == line || !IsKept(y)
    ensures Removable(sc, config, lines, i)
  {
    hide Includes, IsPub, StartsWith, Eligible;
    forall j | 0 <= j < |lines| ensures lines[j] == line || !Includes(lines[j], text.name) {
      assert lines[j] in lines;
    }
    assert IsUnused(sc, config, lines, i);
  }

  /** A declaration with the name that the marker has is removed when the result is sorted again. */
  method MarkerCounted() returns (lines: seq<string>, r: seq<string>, again: seq<string>)
    ensures lines == ["// @sortImports", "const sortImports = @import(\"a.zig\");"]
    ensures Shown(r) == [Entry(SORT_LINE, false)] && Shown(again) == []
  {
    SortLinePlain();
    MarkerHasName();
    TwoLines();
    hide *;
    lines := [MARKER, SORT_LINE];
    r, again := SortTwice(Config(false, true), SORT_LINE, SORT_NAME, "\"a.zig\"", lines);
  }

  lemma TwoLines()
    ensures [MARKER, SORT_LINE] == ["// @sortImports", "const sortImports = @import(\"a.zig\");"]
  {
  }

  method SortTwice(config: Config, line: string, name: string, file: string, lines: seq<string>)
    returns (r: seq<string>, again: seq<string>)
    requires config.removeUnused && Plain(line) && ')' !in file && lines == [MARKER, line]
    requires Includes(MARKER, name) && !Includes("", name) && !Includes(DELETED, name)
    ensures Shown(r) == [Entry(line, false)] && Shown(again) == []
  {
    hide *;
    var text := DeclText(name, IMPORT + file + ")");
    var sc := OneLine(line, text);
    OneLineValid(line, text);
    ImportsRanked(config, line, name, file, lines);
    ghost var files, gone;
    r, files, gone := ProcessLines(sc, config, lines, NoRank());
    FirstTurn(sc, config, files, gone, r);
    UsedBesideMarker(sc, config, line, text, lines, if |files| > 1 then files[1] else r, gone[0]);
    OneTurn(sc, config, files, gone, r);
    PlainLine(line);
    OnlyLine(r, line);
    ImportsRanked(config, line, name, file, r);
    again, files, gone := ProcessLines(sc, config, r, NoRank());
    NothingLeft(sc, config, line, text, files, gone, again);
  }

  lemma PlainLine(line: string)
    requires Plain(line)
    ensures IsKept(line) && !StartsWith(line, "//")
  {
  }

  lemma NothingLeft(sc: Scanner, config: Config, line: string, text: DeclText, files: seq<seq<string>>, gone: seq<seq<nat>>, r: seq<string>)
    requires sc == OneLine(line, text) && Plain(line) && !Includes("", text.name) && !Includes(DELETED, text.name)
    requires config.removeUnused && files != [] && Turns(sc, config, files, gone, r) && Kept(files[0]) == multiset{line}
    ensures Shown(r) == []
  {
    hide *;
    var f, next := files[0], if |files| > 1 then files[1] else r;
    PlainLine(line);
    OneLineValid(line, text);
    OnlyLine(f, line);
    LineOf(f, Entry(line, false));
    FirstTurn(sc, config, files, gone, r);
    GoneExactly(sc, config, f, next, gone[0]);
    var i :| 0 <= i < |f| && IsKept(f[i]) && Entry(line, false) == Entry(f[i], Documented(f, i));
    UnusedWithoutMarker(sc, config, line, text, f, i);
    LessKept(sc, config, f, next, gone[0]);
    forall x ensures Kept(r)[x] == 0 {
      OneTurnRemoves(sc, config, f, next, gone[0], x);
      if |files| > 1 { TurnsRemove(sc, config, files[1..], gone[1..], r, x); }
    }
    TextsShown(r);
    TextsSize(Shown(r));
    assert Texts(Shown(r)) == multiset{};
  }

  /** With one line to declare and no doc comments: a turn moves the topmost of its copies. */
  lemma TopmostMoves(sc: Scanner, config: Config, line: string, name: string, file: string, f: seq<string>, p: nat, r: seq<string>)
    returns (b: seq<string>)
    requires ')' !in file && sc == OneLine(line, DeclText(name, IMPORT + file + ")")) && Plain(line)
    requires !config.removeUnused && config.includePub && Turn(sc, config, f, r, [])
    requires forall x | x in f :: !StartsWith(x, "///") && x != MARKER
    requires p < |f| && f[p] == line && forall i | 0 <= i < p :: f[i] != line
    ensures r == f[p := DELETED] + b && (forall x | x in b :: x == "" || x == line)
    ensures Shown(b) == [Entry(line, false)] && Shown(r) == Shown(f[p := DELETED]) + [Entry(line, false)]
  {
    hide *;
    var g := OutputFacts(sc, config, f, r);
    var ds := Flatten(g.order, g.table);
    OneLineValid(line, DeclText(name, IMPORT + file + ")"));
    forall i | 0 <= i < |f| ensures InBlocks(sc, config, f, i) <==> i == p {
      TopmostInBlocks(sc, config, line, name, file, f, p, i);
    }
    forall d | d in ds ensures d.index == p && d.whole == line {
      BlockMemberIs(sc, config, f, g, d);
    }
    InBlocksIn(sc, config, f, g, p);
    OnlyMarked(f, ds, p);
    b := Blocks(g.order, g.table);
    BlockLines(g.order, g.table);
    NoThis(sc, config, line, name, file, f);
    NotMoved(WrittenOut(f, g), None, r);
    WrittenIs(f, g);
    SameButMarkers(sc, config, f, r);
    ShownTopmost(line, f, p, r, b);
    ShownResult(g, f[p := DELETED]);
  }

  lemma ShownTopmost(line: string, f: seq<string>, p: nat, r: seq<string>, b: seq<string>)
    requires Plain(line) && p < |f| && f[p] == line && r == f[p := DELETED] + b && (forall x | x in f :: x != MARKER)
    requires Kept(r) + MarkersOf(f) == Kept(f)
    ensures Shown(b) == [Entry(line, false)]
  {
    hide *;
    NoMarkersOf(f);
    PlainLine(line);
    KeptDelete(f, p);
    KeptOne(line);
    KeptAppend(f[p := DELETED], b);
    assert Kept(b) + Kept(f[p := DELETED]) == Kept(r) == Kept(f);
    ThereAndBack(Kept(b), Kept(f), multiset{line}, Kept(f[p := DELETED]));
    OnlyLine(b, line);
  }

  lemma OutputFacts(sc: Scanner, config: Config, f: seq<string>, r: seq<string>) returns (g: Grouping)
    requires Turn(sc, config, f, r, [])
    ensures Resolvable(sc, config, f) && g == GroupsIn(sc, config, f) && BlocksRight(sc, config, f, g) && ThisRight(sc, config, f)
    ensures forall k | k in g.order :: k in g.table
    ensures forall d | d in Flatten(g.order, g.table) :: d.index < |f|
    ensures TidiedUp(WrittenOut(f, g), [], ThisOf(Taken(sc, config, f)), r)
  {
    g := GroupsIn(sc, config, f);
  }

  lemma WrittenIs(f: seq<string>, g: Grouping)
    requires (forall k | k in g.order :: k in g.table) && forall d | d in Flatten(g.order, g.table) :: d.index < |f|
    ensures WrittenOut(f, g) == Marked(WithoutMarkers(f), Flatten(g.order, g.table)) + Blocks(g.order, g.table)
  {
  }

  lemma OnlyMarked(f: seq<string>, ds: seq<Declaration>, p: nat)
    requires p < |f| && (forall d | d in ds :: d.index == p) && (exists d :: d in ds && d.index == p)
    requires forall x | x in f :: x != MARKER
    ensures Marked(WithoutMarkers(f), ds) == f[p := DELETED]
  {
    var w := WithoutMarkers(f);
    forall i | 0 <= i < |f| ensures w[i] == f[i] {
      assert f[i] in f;
    }
    assert w == f;
    forall i | 0 <= i < |f| ensures Marked(w, ds)[i] == f[p := DELETED][i] {
      MarkedAt(w, ds, i);
    }
  }

  lemma TopmostInBlocks(sc: Scanner, config: Config, line: string, name: string, file: string, f: seq<string>, p: nat, i: nat)
    requires ')' !in file && sc == OneLine(line, DeclText(name, IMPORT + file + ")")) && Plain(line)
    requires !config.removeUnused && config.includePub && Resolvable(sc, config, f) && ThisRight(sc, config, f)
    requires forall x | x in f :: !StartsWith(x, "///") && x != MARKER
    requires p < |f| && f[p] == line && (forall i | 0 <= i < p :: f[i] != line) && i < |f|
    ensures InBlocks(sc, config, f, i) <==> i == p
  {
    hide *;
    NoThis(sc, config, line, name, file, f);
    forall j | 0 <= j < |f| ensures Eligible(sc, config, f, j) <==> f[j] == line {
      EligibleLine(sc, config, line, DeclText(name, IMPORT + file + ")"), f, j);
    }
    FirstIsTopmost(sc, config, line, f, p, i);
    if i == p {
      DeclaresLine(sc, line, DeclText(name, IMPORT + file + ")"));
      ExpandsImport(sc, config, f, i, file);
    }
    InBlocksIs(sc, config, f, i);
  }

  lemma DeclaresLine(sc: Scanner, line: string, text: DeclText)
    requires sc == OneLine(line, text)
    ensures sc.declares(line) == Some(text)
  {
  }

  lemma InBlocksIs(sc: Scanner, config: Config, f: seq<string>, i: nat)
    requires Resolvable(sc, config, f) && i < |f| && ThisOf(Taken(sc, config, f)) == None
    requires FirstOfName(sc, config, f, i) ==> sc.declares(f[i]).Some? && Expanded(sc, config, f, i).Some?
    ensures InBlocks(sc, config, f, i) <==> FirstOfName(sc, config, f, i)
  {
    hide FirstOfName, Expanded, Resolvable, Taken, ThisOf;
  }

  lemma EligibleLine(sc: Scanner, config: Config, line: string, text: DeclText, f: seq<string>, j: nat)
    requires sc == OneLine(line, text) && Plain(line) && !config.removeUnused && config.includePub && j < |f|
    requires forall x | x in f :: !StartsWith(x, "///") && x != MARKER
    ensures Eligible(sc, config, f, j) <==> f[j] == line
    ensures f[j] == line ==> sc.declares(f[j]) == Some(text)
  {
    hide IsPub, StartsWith;
    if j > 0 { assert f[j - 1] in f; }
    assert f[j] in f;
  }

  lemma FirstIsTopmost(sc: Scanner, config: Config, line: string, f: seq<string>, p: nat, i: nat)
    requires p < |f| && f[p] == line && (forall i | 0 <= i < p :: f[i] != line) && i < |f|
    requires forall j | 0 <= j < |f| :: Eligible(sc, config, f, j) <==> f[j] == line
    ensures FirstOfName(sc, config, f, i) <==> i == p
  {
    hide Eligible, StringLe;
    if f[i] == line { EligibleSame(sc, config, f, i, p); }
  }

  lemma EligibleSame(sc: Scanner, config: Config, f: seq<string>, i: nat, j: nat)
    requires i < |f| && j < |f| && f[i] == f[j] && Eligible(sc, config, f, i)
    ensures SameName(sc, f, i, j)
  {
  }

  lemma ExpandsImport(sc: Scanner, config: Config, f: seq<string>, i: nat, file: string)
    requires Resolvable(sc, config, f) && i < |f| && ')' !in file
    requires sc.declares(f[i]).Some? && sc.declares(f[i]).value.value == IMPORT + file + ")"
    ensures Expanded(sc, config, f, i).Some?
  {
    ImportIsRoot(file);
    DepthsEnd(TableOf(Rest(sc, config, f)));
    hide ParseSegments, IsRoot, EndsWithin, Resolvable, Rest, TableOf, Depths;
  }

  lemma NoThis(sc: Scanner, config: Config, line: string, name: string, file: string, f: seq<string>)
    requires ')' !in file && sc == OneLine(line, DeclText(name, IMPORT + file + ")")) && ThisRight(sc, config, f)
    ensures ThisOf(Taken(sc, config, f)) == None
  {
    hide *;
    ImportIsRoot(file);
    if ThisOf(Taken(sc, config, f)).Some? {
      var i := ThisLine(sc, config, f);
      DeclaresOnly(sc, line, DeclText(name, IMPORT + file + ")"), f[i]);
    }
  }

  lemma ThisLine(sc: Scanner, config: Config, f: seq<string>) returns (i: nat)
    requires ThisRight(sc, config, f) && ThisOf(Taken(sc, config, f)).Some?
    ensures i < |f| && sc.declares(f[i]).Some? && sc.declares(f[i]).value.value == THIS
  {
    hide ParseSegments, Taken, FirstOfName, LooksFirst, ThisOf, Eligible;
    i := ThisOf(Taken(sc, config, f)).value.index;
    FirstEligible(sc, config, f, i);
  }

  lemma DeclaresOnly(sc: Scanner, line: string, text: DeclText, x: string)
    requires sc == OneLine(line, text)
    ensures sc.declares(x).Some? ==> sc.declares(x).value == text
  {
  }

  /** Where unused lines are kept, the upper one of two equal declarations moves, and the next time
      the other one. */
  method RepeatedMoves(line: string, name: string, file: string, other: string)
    returns (r: seq<string>, again: seq<string>)
    requires Plain(line) && ')' !in file && Plain(other) && other != line
    ensures Shown(r) == [Entry(line, false), Entry(other, false), Entry(line, false)]
    ensures Shown(again) == [Entry(other, false), Entry(line, false), Entry(line, false)]
  {
    hide *;
    var config, sc := Config(true, false), OneLine(line, DeclText(name, IMPORT + file + ")"));
    OneLineValid(line, DeclText(name, IMPORT + file + ")"));
    var lines := [line, line, other];
    ImportsRanked(config, line, name, file, lines);
    ghost var files, gone;
    r, files, gone := ProcessLines(sc, config, lines, NoRank());
    KeepingOnce(sc, config, files, gone, r);
    FirstTurn(sc, config, files, gone, r);
    PlainChars(line);
    PlainChars(other);
    MarkChars();
    ghost var b := TopmostMoves(sc, config, line, name, file, lines, 0, r);
    assert lines[0 := DELETED] == [DELETED, line, other];
    ShownThree(DELETED, line, other);
    ImportsRanked(config, line, name, file, r);
    again, files, gone := ProcessLines(sc, config, r, NoRank());
    KeepingOnce(sc, config, files, gone, again);
    FirstTurn(sc, config, files, gone, again);
    assert r[0] == DELETED && r[1] == line && r[1 := DELETED] == [DELETED, DELETED, other] + b;
    ghost var b' := TopmostMoves(sc, config, line, name, file, r, 1, again);
    ShownThree(DELETED, DELETED, other);
    ShownAppend([DELETED, DELETED, other], b);
  }

  lemma MarkChars()
    ensures !StartsWith(DELETED, "///") && !StartsWith("", "///") && DELETED != MARKER && "" != MARKER && !IsKept(DELETED)
  {
    assert DELETED[0] == '%' && "///"[0] == '/' && MARKER[0] == '/';
  }

  lemma PlainChars(x: string)
    requires Plain(x)
    ensures x != MARKER && IsKept(x) && x != DELETED && !StartsWith(x, "///")
  {
    LongerPrefix(x);
  }

  lemma ShownThree(x: string, y: string, z: string)
    requires !StartsWith(x, "///") && !StartsWith(y, "///")
    ensures Shown([x, y, z]) == (if IsKept(x) then [Entry(x, false)] else []) + (if IsKept(y) then [Entry(y, false)] else [])
                                + (if IsKept(z) then [Entry(z, false)] else [])
  {
    ShownSnoc([], x);
    ShownSnoc([x], y);
    ShownSnoc([x, y], z);
    assert [] + [x] == [x] && [x] + [y] == [x, y] && [x, y] + [z] == [x, y, z];
  }
}
