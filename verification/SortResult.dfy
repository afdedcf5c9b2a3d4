/** What one turn of scripts/sort-imports.ts, lines 328-376, makes of a file with nothing to remove. */
module SortResult {
  import opened Wrappers
  import opened ImportPaths
  import opened ImportGroups
  import opened StableSort
  import opened SortImports
  import opened ProcessFile
  import opened SameGroups
  import opened ShownLines

  // ---- What is to be sorted in a file with nothing to remove -----------------------------------

  /** The line declares a name and is of a kind that is sorted. */
  predicate SortableText(sc: Scanner, config: Config, x: string) {
    x != MARKER && sc.declares(x).Some? && (config.includePub || !IsPub(x))
  }

  predicate ToSort(sc: Scanner, config: Config, lines: seq<string>, i: nat)
    requires i < |lines|
  {
    SortableText(sc, config, lines[i]) && !Documented(lines, i)
  }

  lemma EligibleExactly(sc: Scanner, config: Config, lines: seq<string>, i: nat)
    requires Gone(sc, config, lines, []) && i < |lines|
    ensures Eligible(sc, config, lines, i) <==> ToSort(sc, config, lines, i)
  {
    hide FirstOfName, OneStays, IsPub, StartsWith;
    assert !Removable(sc, config, lines, i);
  }

  /** No line to be sorted is there twice. */
  ghost predicate NoneTwice(sc: Scanner, config: Config, lines: seq<string>) {
    forall i, j | 0 <= i < j < |lines| && ToSort(sc, config, lines, i) && ToSort(sc, config, lines, j) :: lines[i] != lines[j]
  }

  /** Where unused lines are removed, so are repeated ones. */
  lemma NothingTwice(sc: Scanner, config: Config, lines: seq<string>)
    requires config.removeUnused && Gone(sc, config, lines, [])
    ensures NoneTwice(sc, config, lines)
  {
    hide ToSort, OneStays, Eligible, FirstOfName;
    forall i, j | 0 <= i < j < |lines| && ToSort(sc, config, lines, i) && ToSort(sc, config, lines, j) ensures lines[i] != lines[j] {
      EligibleExactly(sc, config, lines, i);
      EligibleExactly(sc, config, lines, j);
      assert !Removable(sc, config, lines, i) && !Removable(sc, config, lines, j);
      if lines[i] == lines[j] { FirstUnique(sc, config, lines, i, j); }
    }
  }

  /** The text shows undocumented and is the smallest of its name that does. */
  ghost predicate ShowsFirst(sc: Scanner, config: Config, s: seq<Entry>, x: string) {
    && SortableText(sc, config, x) && Entry(x, false) in s
    && forall e | e in s && !e.documented && SortableText(sc, config, e.text)
                  && sc.declares(e.text).value.name == sc.declares(x).value.name :: StringLe(x, e.text)
  }

  lemma FirstShows(sc: Scanner, config: Config, lines: seq<string>, x: string)
    requires ValidScanner(sc) && Gone(sc, config, lines, [])
    ensures FromFirst(sc, config, lines, x) <==> ShowsFirst(sc, config, Shown(lines), x)
  {
    hide Gone, Shown, FirstOfName, ShowsFirst;
    if FromFirst(sc, config, lines, x) {
      var j :| 0 <= j < |lines| && lines[j] == x && FirstOfName(sc, config, lines, j);
      FirstShowsFirst(sc, config, lines, j);
    }
    if ShowsFirst(sc, config, Shown(lines), x) { ShowsFirstIsFirst(sc, config, lines, x); }
  }

  lemma FirstShowsFirst(sc: Scanner, config: Config, lines: seq<string>, j: nat)
    requires ValidScanner(sc) && Gone(sc, config, lines, []) && j < |lines| && FirstOfName(sc, config, lines, j)
    ensures ShowsFirst(sc, config, Shown(lines), lines[j])
  {
    FirstEligible(sc, config, lines, j);
    EligibleExactly(sc, config, lines, j);
    EntryOf(lines, j);
    hide Gone, Shown, IsPub, Documented, Eligible, StringLe;
    var x := lines[j];
    forall e | e in Shown(lines) && !e.documented && SortableText(sc, config, e.text)
               && sc.declares(e.text).value.name == sc.declares(x).value.name
      ensures StringLe(x, e.text)
    {
      LineOf(lines, e);
      var i :| 0 <= i < |lines| && IsKept(lines[i]) && e == Entry(lines[i], Documented(lines, i));
      EligibleExactly(sc, config, lines, i);
      StringLeTotal(x, x);
      assert i == j || LooksFirst(lines, j, i);
    }
  }

  lemma ShowsFirstIsFirst(sc: Scanner, config: Config, lines: seq<string>, x: string)
    requires ValidScanner(sc) && Gone(sc, config, lines, []) && ShowsFirst(sc, config, Shown(lines), x)
    ensures FromFirst(sc, config, lines, x)
  {
    TopLineOf(lines, Entry(x, false));
    hide Gone, Shown, IsPub, Documented, Eligible, StringLe;
    var j :| 0 <= j < |lines| && IsEntry(lines, j, Entry(x, false)) && forall i | 0 <= i < j :: !IsEntry(lines, i, Entry(x, false));
    EligibleExactly(sc, config, lines, j);
    forall i | 0 <= i < |lines| && i != j && Eligible(sc, config, lines, i) && SameName(sc, lines, j, i) ensures LooksFirst(lines, j, i) {
      EligibleExactly(sc, config, lines, i);
      EntryOf(lines, i);
      if lines[i] == x { assert IsEntry(lines, i, Entry(x, false)); }
    }
    assert FirstOfName(sc, config, lines, j);
  }

  predicate IsEntry(lines: seq<string>, i: nat, e: Entry)
    requires i < |lines|
  {
    IsKept(lines[i]) && e == Entry(lines[i], Documented(lines, i))
  }

  lemma {:induction false} TopLineOf(lines: seq<string>, e: Entry)
    requires e in Shown(lines)
    ensures exists j | 0 <= j < |lines| :: IsEntry(lines, j, e) && forall i | 0 <= i < j :: !IsEntry(lines, i, e)
  {
    var n := |lines| - 1;
    if e in Shown(lines[..n]) {
      TopLineOf(lines[..n], e);
      var j :| 0 <= j < n && IsEntry(lines[..n], j, e) && forall i | 0 <= i < j :: !IsEntry(lines[..n], i, e);
      assert IsEntry(lines, j, e) && forall i | 0 <= i < j :: IsEntry(lines, i, e) == IsEntry(lines[..n], i, e);
    } else {
      forall i | 0 <= i < n ensures !IsEntry(lines, i, e) {
        if IsEntry(lines, i, e) {
          EntryOf(lines[..n], i);
          assert false;
        }
      }
      assert IsEntry(lines, n, e);
    }
  }

  lemma FirstUnique(sc: Scanner, config: Config, lines: seq<string>, i: nat, j: nat)
    requires i < |lines| && j < |lines| && FirstOfName(sc, config, lines, i) && FirstOfName(sc, config, lines, j)
    requires lines[i] == lines[j]
    ensures i == j
  {
    FirstEligible(sc, config, lines, i);
    FirstEligible(sc, config, lines, j);
    hide Eligible, LooksFirst;
    if i != j { LooksFirstOnce(lines, i, j); }
  }

  lemma EntryOnce(sc: Scanner, config: Config, lines: seq<string>, a: nat, b: nat)
    requires NoneTwice(sc, config, lines) && a < b < |Shown(lines)|
    requires SortableText(sc, config, Shown(lines)[a].text) && !Shown(lines)[a].documented
    ensures Shown(lines)[a] != Shown(lines)[b]
  {
    LinesOf(lines, a, b);
    hide Shown, SortableText, Documented;
    var i, j :| 0 <= i < j < |lines| && Shown(lines)[a] == Entry(lines[i], Documented(lines, i))
                && Shown(lines)[b] == Entry(lines[j], Documented(lines, j));
  }

  /** What is taken depends only on what the lines to be sorted say. */
  lemma SameTaken(sc: Scanner, config: Config, f: seq<string>, x: seq<string>)
    requires TakenRight(sc, config, f) && TakenRight(sc, config, x)
    requires forall t :: FromFirst(sc, config, f, t) <==> FromFirst(sc, config, x, t)
    ensures SameAll(Taken(sc, config, f), Taken(sc, config, x))
  {
    var a, b := Taken(sc, config, f), Taken(sc, config, x);
    TakenTexts(sc, config, f);
    TakenTexts(sc, config, x);
    hide TakenRight, FromFirst, StringLe, Wholes;
    forall t ensures t in Wholes(a) <==> t in Wholes(b) {
      assert FromFirst(sc, config, f, t) <==> FromFirst(sc, config, x, t);
    }
    IncreasingSame(Wholes(a), Wholes(b));
    forall i | 0 <= i < |a| ensures |b| == |a| && Same(a[i], b[i]) {
      TakenSame(sc, config, f, x, i);
    }
  }

  lemma TakenSame(sc: Scanner, config: Config, f: seq<string>, x: seq<string>, i: nat)
    requires TakenRight(sc, config, f) && TakenRight(sc, config, x)
    requires i < |Taken(sc, config, f)| && Wholes(Taken(sc, config, f)) == Wholes(Taken(sc, config, x))
    ensures |Taken(sc, config, x)| == |Taken(sc, config, f)| && Same(Taken(sc, config, f)[i], Taken(sc, config, x)[i])
  {
    var a, b := Taken(sc, config, f), Taken(sc, config, x);
    assert |Wholes(a)| == |Wholes(b)| && Wholes(a)[i] == Wholes(b)[i];
    assert a[i] in a && b[i] in b;
    FirstEligible(sc, config, f, a[i].index);
    FirstEligible(sc, config, x, b[i].index);
    hide FirstOfName, LooksFirst, ParseSegments, TakenIn, LineOrder, Eligible;
  }

  ghost predicate Increasing(a: seq<string>) {
    forall i, j | 0 <= i < j < |a| :: StringLe(a[i], a[j]) && a[i] != a[j]
  }

  lemma TakenTexts(sc: Scanner, config: Config, lines: seq<string>)
    requires TakenRight(sc, config, lines)
    ensures Increasing(Wholes(Taken(sc, config, lines)))
    ensures forall t :: t in Wholes(Taken(sc, config, lines)) <==> FromFirst(sc, config, lines, t)
  {
    var ds := Taken(sc, config, lines);
    hide FirstOfName, ParseSegments, TakenIn, LineOrder, KeysOf, StringLe;
    forall p, q | 0 <= p < q < |ds| ensures StringLe(Wholes(ds)[p], Wholes(ds)[q]) && Wholes(ds)[p] != Wholes(ds)[q] {
      assert ds[p] in ds && ds[q] in ds;
      assert LooksFirst(lines, ds[p].index, ds[q].index);
      LooksFirstOnce(lines, ds[p].index, ds[q].index);
      if lines[ds[p].index] == lines[ds[q].index] { FirstUnique(sc, config, lines, ds[p].index, ds[q].index); }
    }
    forall t ensures t in Wholes(ds) <==> FromFirst(sc, config, lines, t) {
      if t in Wholes(ds) {
        var q :| 0 <= q < |ds| && Wholes(ds)[q] == t;
        assert ds[q] in ds;
      }
      if FromFirst(sc, config, lines, t) {
        var j :| 0 <= j < |lines| && lines[j] == t && FirstOfName(sc, config, lines, j);
        FirstEligible(sc, config, lines, j);
        var q :| 0 <= q < |ds| && ds[q] == DeclarationAt(sc, lines, j);
        assert Wholes(ds)[q] == t;
      }
    }
  }

  lemma {:induction false} IncreasingSame(a: seq<string>, b: seq<string>)
    requires Increasing(a) && Increasing(b) && forall t :: t in a <==> t in b
    ensures a == b
  {
    assert b != [] ==> b[0] in a;
    if a != [] {
      assert a[0] in b;
      hide StringLe;
      if a[0] != b[0] {
        var p :| 0 <= p < |b| && b[p] == a[0];
        var q :| 0 <= q < |a| && a[q] == b[0];
        StringLeAntisymmetric(a[0], b[0]);
        assert false;
      }
      forall t ensures t in a[1..] <==> t in b[1..] {
        TailMember(a, t);
        TailMember(b, t);
      }
      IncreasingSame(a[1..], b[1..]);
      assert a == [a[0]] + a[1..] && b == [b[0]] + b[1..];
    }
  }

  lemma TailMember(a: seq<string>, t: string)
    requires Increasing(a) && a != []
    ensures t in a[1..] <==> t in a && t != a[0]
  {
    if t in a && t != a[0] {
      var i :| 0 <= i < |a| && a[i] == t;
      assert a[1..][i - 1] == t;
    }
  }

  lemma SameThis(a: seq<Declaration>, b: seq<Declaration>)
    requires SameAll(a, b)
    ensures SameAll(RestOf(a), RestOf(b))
    ensures (ThisOf(a).Some? <==> ThisOf(b).Some?) && (ThisOf(a).Some? ==> Same(ThisOf(a).value, ThisOf(b).value))
  {
    SameThisIndex(a, b);
  }

  lemma {:induction false} SameThisIndex(a: seq<Declaration>, b: seq<Declaration>)
    requires SameAll(a, b)
    ensures ThisIndex(a) == ThisIndex(b)
  {
    if a != [] { SameThisIndex(a[1..], b[1..]); }
  }

  // ---- What a turn that removes nothing leaves ------------------------------------------------

  lemma NotInBlocks(sc: Scanner, config: Config, f: seq<string>, g: Grouping, i: nat)
    requires Resolvable(sc, config, f) && BlocksRight(sc, config, f, g) && i < |f| && !InBlocks(sc, config, f, i)
    ensures forall d | d in Flatten(g.order, g.table) :: d.index != i
  {
    hide InBlocks, Expanded, Flatten, Mergeable, SortedBy;
  }

  lemma {:induction false} BlocksStart(keys: seq<string>, table: Groups)
    requires forall k | k in keys :: k in table
    ensures Blocks(keys, table) != [] ==> Blocks(keys, table)[0] == ""
  {
    if keys != [] { BlocksStart(keys[..|keys| - 1], table); }
  }

  lemma {:induction false} BlocksHold(keys: seq<string>, table: Groups, d: Declaration)
    requires (forall k | k in keys :: k in table) && d in Flatten(keys, table)
    ensures d.whole in Blocks(keys, table)
  {
    var n := |keys| - 1;
    var ds := table[keys[n]].declarations;
    if d in Flatten(keys[..n], table) {
      BlocksHold(keys[..n], table, d);
    } else {
      var q :| 0 <= q < |ds| && ds[q] == d;
      assert Wholes(ds)[q] == d.whole;
      assert ([""] + Wholes(ds))[q + 1] == d.whole;
      assert d.whole in [""] + Wholes(ds);
    }
  }

  /** A declaration in the blocks is that of a line that is to be sorted. */
  lemma BlockMemberIs(sc: Scanner, config: Config, f: seq<string>, g: Grouping, d: Declaration)
    requires ValidScanner(sc) && Resolvable(sc, config, f) && BlocksRight(sc, config, f, g) && d in Flatten(g.order, g.table)
    ensures InBlocks(sc, config, f, d.index) && d.index < |f| && d.whole == f[d.index]
    ensures SortableText(sc, config, d.whole) && !StartsWith(d.whole, "//") && IsKept(d.whole)
    ensures !Documented(f, d.index)
  {
    hide Flatten, Blocks, Mergeable, SortedBy, FirstOfName, IsPub;
    assert InBlocks(sc, config, f, d.index);
    FirstEligible(sc, config, f, d.index);
    assert Expanded(sc, config, f, d.index) == Some(d);
  }

  /** What shows in the blocks: their declarations, undocumented. */
  lemma BlocksShow(sc: Scanner, config: Config, f: seq<string>, g: Grouping)
    requires ValidScanner(sc) && Resolvable(sc, config, f) && BlocksRight(sc, config, f, g)
    ensures forall e :: e in Shown(Blocks(g.order, g.table)) <==> e.text in Wholes(Flatten(g.order, g.table)) && !e.documented
  {
    var ds, b := Flatten(g.order, g.table), Blocks(g.order, g.table);
    BlockLines(g.order, g.table);
    hide *;
    forall d | d in ds ensures d.whole in b && !StartsWith(d.whole, "//") && IsKept(d.whole) {
      BlocksHold(g.order, g.table, d);
      BlockMemberIs(sc, config, f, g, d);
    }
    PlainTexts(b, ds);
    ShownPlain(b);
  }

  lemma PlainTexts(b: seq<string>, ds: seq<Declaration>)
    requires forall d | d in ds :: d.whole in b && !StartsWith(d.whole, "//") && IsKept(d.whole)
    requires forall x | x in b :: x == "" || exists d | d in ds :: d.whole == x
    ensures forall t :: t in b && IsKept(t) <==> t in Wholes(ds)
    ensures forall x | x in b :: !StartsWith(x, "///")
  {
    forall t ensures t in b && IsKept(t) <==> t in Wholes(ds) {
      if t in Wholes(ds) {
        var q :| 0 <= q < |ds| && Wholes(ds)[q] == t;
        assert ds[q] in ds;
      }
      if t in b && t != "" {
        var d :| d in ds && d.whole == t;
        var q :| 0 <= q < |ds| && ds[q] == d;
        assert Wholes(ds)[q] == t;
      }
    }
    forall x | x in b ensures !StartsWith(x, "///") {
      assert "///"[..2] == "//";
    }
  }

  /** In the marked input a line is to be sorted where it is in the file, but for the marked lines. */
  lemma InPlace(sc: Scanner, config: Config, f: seq<string>, ds: seq<Declaration>, m: seq<string>, i: nat)
    requires ValidScanner(sc) && (forall d | d in ds :: d.index < |f| && !StartsWith(f[d.index], "//"))
    requires m == Marked(WithoutMarkers(f), ds) && i < |f|
    ensures ToSort(sc, config, m, i) <==> ToSort(sc, config, f, i) && !exists d :: d in ds && d.index == i
    ensures ToSort(sc, config, m, i) ==> m[i] == f[i]
  {
    MarkedAt(WithoutMarkers(f), ds, i);
    if i > 0 {
      MarkedAt(WithoutMarkers(f), ds, i - 1);
      LongerPrefix(f[i - 1]);
    }
    hide Marked, IsPub;
    assert DELETED[0] != '/' && "///"[0] == '/' && MARKER[2] != '/' && "///"[2] == '/';
  }

  /** The line put behind the first lines. */
  function Inserted(m: seq<string>, first: nat, x: string): seq<string>
    requires first <= |m|
  {
    m[..first] + ((if first > 0 then [""] else []) + [x, ""]) + m[first..]
  }

  lemma InsertedOnTop(m: seq<string>, first: nat, x: string)
    requires first <= |m| && IsKept(x) && forall q | 0 <= q < first :: StartsWith(m[q], "//!")
    ensures TopEntry(Shown(Inserted(m, first, x)), x)
  {
    hide Shown, TopEntry;
    var r := Inserted(m, first, x);
    var i := if first > 0 then first + 1 else 0;
    assert r[i] == x && (i > 0 ==> r[i - 1] == "");
    forall q | 0 <= q < i ensures !IsKept(r[q]) || StartsWith(r[q], "//") {
      if q < first { assert r[q] == m[q]; }
    }
    TopShows(r, i);
  }

  lemma InsertedKeeps(sc: Scanner, config: Config, m: seq<string>, first: nat, x: string, i: nat)
    requires ValidScanner(sc) && first <= i < |m| && ToSort(sc, config, m, i)
    ensures Entry(m[i], false) in Shown(Inserted(m, first, x))
  {
    hide Shown, IsPub;
    var r := Inserted(m, first, x);
    var k := if first > 0 then 3 else 2;
    assert r[i + k] == m[i] && r[i + k - 1] == if i == first then "" else m[i - 1];
    EntryOf(r, i + k);
  }

  /** Where the lines to be sorted stand afterwards. */
  lemma InsertedAt(sc: Scanner, config: Config, m: seq<string>, first: nat, x: string, q: nat)
    requires ValidScanner(sc) && first <= |m| && forall p | 0 <= p < first :: StartsWith(m[p], "//!")
    requires q < |Inserted(m, first, x)| && ToSort(sc, config, Inserted(m, first, x), q)
    ensures var k := if first > 0 then 3 else 2;
            if q < first + k then q == first + k - 2 && Inserted(m, first, x)[q] == x
            else q - k < |m| && m[q - k] == Inserted(m, first, x)[q] && ToSort(sc, config, m, q - k)
  {
    hide IsPub;
    var r := Inserted(m, first, x);
    var k := if first > 0 then 3 else 2;
    forall p | 0 <= p < first ensures r[p] == m[p] && !SortableText(sc, config, r[p]) {
      if SortableText(sc, config, m[p]) { NotComment(sc, config, m[p]); }
    }
    if q >= first + k {
      var i := q - k;
      assert r[q] == m[i];
      if i > first {
        assert r[q - 1] == m[i - 1];
      } else if i > 0 {
        assert StartsWith(m[i - 1], "//!") && m[i - 1][2] != '/' && "///"[2] == '/';
      }
    }
  }

  /** In front of the blocks stand the other lines to be sorted, with the This declaration on top. */
  ghost predicate Front(sc: Scanner, config: Config, f: seq<string>, front: seq<string>)
    requires Resolvable(sc, config, f)
  {
    && (forall j | 0 <= j < |f| && ToSort(sc, config, f, j) && !InBlocks(sc, config, f, j) :: Entry(f[j], false) in Shown(front))
    && (forall q | 0 <= q < |front| && ToSort(sc, config, front, q) :: FromOther(sc, config, f, front[q]))
    && (NoneTwice(sc, config, f) ==> NoneTwice(sc, config, front))
    && match ThisOf(Taken(sc, config, f)) case None => true case Some(d) => TopEntry(Shown(front), d.whole)
  }

  /** The line is one to be sorted, but not in the blocks. */
  ghost predicate FromOther(sc: Scanner, config: Config, f: seq<string>, x: string)
    requires Resolvable(sc, config, f)
  {
    exists j | 0 <= j < |f| :: f[j] == x && ToSort(sc, config, f, j) && !InBlocks(sc, config, f, j)
  }

  /** The other lines to be sorted are still there, the This declaration among them. */
  ghost predicate OthersIn(sc: Scanner, config: Config, f: seq<string>, m: seq<string>)
    requires Resolvable(sc, config, f)
  {
    && |m| == |f|
    && (forall j | 0 <= j < |f| && ToSort(sc, config, f, j) && !InBlocks(sc, config, f, j) :: m[j] == f[j] && ToSort(sc, config, m, j))
    && (forall j | 0 <= j < |f| && ToSort(sc, config, m, j) :: m[j] == f[j] && ToSort(sc, config, f, j) && !InBlocks(sc, config, f, j))
    && match ThisOf(Taken(sc, config, f)) case None => true
       case Some(d) => d.index < |f| && f[d.index] == d.whole && ToSort(sc, config, f, d.index) && !InBlocks(sc, config, f, d.index)
  }

  lemma OthersStay(sc: Scanner, config: Config, f: seq<string>, g: Grouping)
    requires ValidScanner(sc) && Resolvable(sc, config, f) && BlocksRight(sc, config, f, g)
    requires ThisRight(sc, config, f) && forall d | d in Flatten(g.order, g.table) :: d.index < |f|
    ensures OthersIn(sc, config, f, Marked(WithoutMarkers(f), Flatten(g.order, g.table)))
  {
    var ds := Flatten(g.order, g.table);
    var m := Marked(WithoutMarkers(f), ds);
    ThisToSort(sc, config, f);
    hide *;
    forall d | d in ds ensures d.index < |f| && !StartsWith(f[d.index], "//") {
      BlockMemberIs(sc, config, f, g, d);
    }
    forall j | 0 <= j < |f|
      ensures ToSort(sc, config, m, j) ==> m[j] == f[j] && ToSort(sc, config, f, j) && !InBlocks(sc, config, f, j)
      ensures ToSort(sc, config, f, j) && !InBlocks(sc, config, f, j) ==> m[j] == f[j] && ToSort(sc, config, m, j)
    {
      InPlace(sc, config, f, ds, m, j);
      if InBlocks(sc, config, f, j) { InBlocksIn(sc, config, f, g, j); } else { NotInBlocks(sc, config, f, g, j); }
    }
    MakeOthersIn(sc, config, f, m);
  }

  lemma MakeOthersIn(sc: Scanner, config: Config, f: seq<string>, m: seq<string>)
    requires Resolvable(sc, config, f) && |m| == |f|
    requires forall j | 0 <= j < |f| ::
               && (ToSort(sc, config, m, j) ==> m[j] == f[j] && ToSort(sc, config, f, j) && !InBlocks(sc, config, f, j))
               && (ToSort(sc, config, f, j) && !InBlocks(sc, config, f, j) ==> m[j] == f[j] && ToSort(sc, config, m, j))
    requires match ThisOf(Taken(sc, config, f)) case None => true
             case Some(d) => d.index < |f| && f[d.index] == d.whole && ToSort(sc, config, f, d.index) && !InBlocks(sc, config, f, d.index)
    ensures OthersIn(sc, config, f, m)
  {
    hide ToSort, InBlocks, Taken, ThisOf, Resolvable;
  }

  lemma ThisToSort(sc: Scanner, config: Config, f: seq<string>)
    requires ThisRight(sc, config, f) && Resolvable(sc, config, f)
    ensures match ThisOf(Taken(sc, config, f)) case None => true
            case Some(d) => d.index < |f| && f[d.index] == d.whole && ToSort(sc, config, f, d.index) && !InBlocks(sc, config, f, d.index)
  {
    hide FirstOfName, Taken, LooksFirst, ParseSegments, Expanded, ThisOf, Resolvable;
    if ThisOf(Taken(sc, config, f)).Some? { FirstToSort(sc, config, f, ThisOf(Taken(sc, config, f)).value.index); }
  }

  lemma FirstToSort(sc: Scanner, config: Config, f: seq<string>, j: nat)
    requires j < |f| && FirstOfName(sc, config, f, j)
    ensures ToSort(sc, config, f, j)
  {
  }

  lemma FrontUnmoved(sc: Scanner, config: Config, f: seq<string>, m: seq<string>)
    requires ValidScanner(sc) && Resolvable(sc, config, f) && OthersIn(sc, config, f, m)
    requires ThisOf(Taken(sc, config, f)).Some? ==> OnTop(m, ThisOf(Taken(sc, config, f)).value.index)
    ensures Front(sc, config, f, m)
  {
    hide InBlocks, Taken, Shown, TopEntry, Documented, OnTop, StartsWith, ThisOf, IsPub;
    forall j | 0 <= j < |f| && ToSort(sc, config, f, j) && !InBlocks(sc, config, f, j) ensures Entry(f[j], false) in Shown(m) {
      EntryOf(m, j);
    }
    forall q | 0 <= q < |m| && ToSort(sc, config, m, q) ensures FromOther(sc, config, f, m[q]) {
      assert f[q] == m[q];
    }
    if ThisOf(Taken(sc, config, f)).Some? { TopShows(m, ThisOf(Taken(sc, config, f)).value.index); }
  }

  /** With one of its lines to be sorted marked, the others are still to be sorted, and no more. */
  lemma MarkOne(sc: Scanner, config: Config, m: seq<string>, m': seq<string>, i: nat, j: nat)
    requires ValidScanner(sc) && i < |m| && j < |m| && m' == m[i := DELETED] && ToSort(sc, config, m, i)
    ensures ToSort(sc, config, m', j) <==> j != i && ToSort(sc, config, m, j)
  {
    hide IsPub;
    LongerPrefix(m[i]);
    assert DELETED[0] != '/' && "///"[0] == '/';
  }

  lemma FrontMoved(sc: Scanner, config: Config, f: seq<string>, m: seq<string>, m': seq<string>, d: Declaration, first: nat)
    requires ValidScanner(sc) && Resolvable(sc, config, f) && OthersIn(sc, config, f, m) && ThisOf(Taken(sc, config, f)) == Some(d)
    requires d.index < |m| && m' == m[d.index := DELETED]
    requires first <= |m'| && forall q | 0 <= q < first :: StartsWith(m'[q], "//!")
    ensures Front(sc, config, f, Inserted(m', first, d.whole))
  {
    hide InBlocks, Taken, Shown, TopEntry, Inserted, ThisOf, IsPub, Documented;
    var front := Inserted(m', first, d.whole);
    InsertedOnTop(m', first, d.whole);
    TopIn(Shown(front), d.whole);
    forall j | 0 <= j < |f| && ToSort(sc, config, f, j) && !InBlocks(sc, config, f, j) ensures Entry(f[j], false) in Shown(front) {
      if j != d.index {
        MarkOne(sc, config, m, m', d.index, j);
        NotComment(sc, config, m'[j]);
        InsertedKeeps(sc, config, m', first, d.whole, j);
      }
    }
    assert ToSort(sc, config, m, d.index);
    var k := if first > 0 then 3 else 2;
    forall q | 0 <= q < |front| && ToSort(sc, config, front, q)
      ensures FromOther(sc, config, f, front[q])
      ensures var j := if q < first + k then d.index else q - k; j < |f| && f[j] == front[q] && ToSort(sc, config, f, j)
      ensures q >= first + k ==> q - k != d.index
    {
      InsertedAt(sc, config, m', first, d.whole, q);
      if q < first + k {
        assert f[d.index] == front[q];
      } else {
        MarkOne(sc, config, m, m', d.index, q - k);
        assert f[q - k] == front[q];
      }
    }
    if NoneTwice(sc, config, f) {
      forall p, q | 0 <= p < q < |front| && ToSort(sc, config, front, p) && ToSort(sc, config, front, q) ensures front[p] != front[q] {
        InsertedAt(sc, config, m', first, d.whole, p);
        InsertedAt(sc, config, m', first, d.whole, q);
        if p < first + k && q < first + k { assert false; }
        assert f[if p < first + k then d.index else p - k] == front[p];
        assert f[if q < first + k then d.index else q - k] == front[q];
      }
    }
  }

  lemma NotComment(sc: Scanner, config: Config, x: string)
    requires ValidScanner(sc) && SortableText(sc, config, x)
    ensures !StartsWith(x, "//!") && !StartsWith(x, "//") && IsKept(x)
  {
    assert "//!"[..2] == "//";
  }

  lemma TopIn(s: seq<Entry>, x: string)
    requires TopEntry(s, x)
    ensures Entry(x, false) in s
  {
  }

  /** The line of d is marked as deleted in m, and put behind the first lines, all file comments. */
  ghost predicate MovedIn(m: seq<string>, d: Declaration, first: nat, front: seq<string>) {
    && d.index < |m| && first <= |m|
    && var m' := m[d.index := DELETED];
       (forall q | 0 <= q < first :: StartsWith(m'[q], "//!")) && front == Inserted(m', first, d.whole)
  }

  ghost predicate PlacedIn(m: seq<string>, thisDeclaration: Option<Declaration>, front: seq<string>) {
    match thisDeclaration
    case None => front == m
    case Some(d) => d.index < |m| && if OnTop(m, d.index) then front == m else exists first :: MovedIn(m, d, first, front)
  }

  /** The This declaration stays in front of the blocks. */
  lemma PlacedInFront(m: seq<string>, b: seq<string>, thisDeclaration: Option<Declaration>, r: seq<string>) returns (front: seq<string>)
    requires TidiedUp(m + b, [], thisDeclaration, r) && (b != [] ==> b[0] == "") && (thisDeclaration.Some? ==> thisDeclaration.value.index < |m|)
    ensures r == front + b && PlacedIn(m, thisDeclaration, front)
  {
    var s :| Cleared(m + b, s, []) && ThisPlaced(s, thisDeclaration, r);
    assert s == m + b;
    front := m;
    if thisDeclaration.Some? {
      var d := thisDeclaration.value;
      assert OnTop(s, d.index) <==> OnTop(m, d.index) by {
        assert forall q | 0 <= q < d.index :: s[q] == m[q];
      }
      if !OnTop(m, d.index) {
        var first :| ThisMoved(s, d, r, first);
        front := MovedInFront(m, b, d, first, r);
      }
    }
  }

  lemma MovedInFront(m: seq<string>, b: seq<string>, d: Declaration, first: nat, r: seq<string>) returns (front: seq<string>)
    requires ThisMoved(m + b, d, r, first) && (b != [] ==> b[0] == "") && d.index < |m|
    ensures r == front + b && MovedIn(m, d, first, front)
  {
    var m', s' := m[d.index := DELETED], (m + b)[d.index := DELETED];
    assert s' == m' + b;
    if b != [] { assert s'[|m|] == b[0]; }
    assert first <= |m|;
    forall q | 0 <= q < first ensures StartsWith(m'[q], "//!") {
      assert s'[q] == m'[q];
    }
    front := Inserted(m', first, d.whole);
    Behind(m', b, first, (if first > 0 then [""] else []) + [d.whole, ""]);
  }

  lemma Behind(a: seq<string>, b: seq<string>, n: nat, x: seq<string>)
    requires n <= |a|
    ensures (a + b)[..n] + x + (a + b)[n..] == (a[..n] + x + a[n..]) + b
  {
    assert (a + b)[..n] == a[..n] && (a + b)[n..] == a[n..] + b;
  }

  /** The result of such a turn: what Front says, followed by the blocks. */
  lemma ResultForm(sc: Scanner, config: Config, f: seq<string>, r: seq<string>) returns (front: seq<string>)
    requires ValidScanner(sc) && SortedOutput(sc, config, f, r, [])
    ensures var g := GroupsIn(sc, config, f);
            r == front + Blocks(g.order, g.table) && Front(sc, config, f, front)
  {
    var g := GroupsIn(sc, config, f);
    var ds := Flatten(g.order, g.table);
    var m, b := Marked(WithoutMarkers(f), ds), Blocks(g.order, g.table);
    var thisDeclaration := ThisOf(Taken(sc, config, f));
    OthersStay(sc, config, f, g);
    BlocksStart(g.order, g.table);
    assert TidiedUp(m + b, [], thisDeclaration, r);
    ThisIndexIn(sc, config, f, m);
    hide *;
    front := PlacedInFront(m, b, thisDeclaration, r);
    FrontPlaced(sc, config, f, m, front);
  }

  lemma ThisIndexIn(sc: Scanner, config: Config, f: seq<string>, m: seq<string>)
    requires Resolvable(sc, config, f) && OthersIn(sc, config, f, m)
    ensures ThisOf(Taken(sc, config, f)).Some? ==> ThisOf(Taken(sc, config, f)).value.index < |m|
  {
  }

  lemma FrontPlaced(sc: Scanner, config: Config, f: seq<string>, m: seq<string>, front: seq<string>)
    requires ValidScanner(sc) && Resolvable(sc, config, f) && OthersIn(sc, config, f, m) && PlacedIn(m, ThisOf(Taken(sc, config, f)), front)
    ensures Front(sc, config, f, front)
  {
    hide Resolvable, OthersIn, Front, Inserted, OnTop, ThisOf, Taken;
    var thisDeclaration := ThisOf(Taken(sc, config, f));
    if thisDeclaration.Some? && !OnTop(m, thisDeclaration.value.index) {
      var first :| MovedIn(m, thisDeclaration.value, first, front);
      FrontMoved(sc, config, f, m, m[thisDeclaration.value.index := DELETED], thisDeclaration.value, first);
    } else {
      FrontUnmoved(sc, config, f, m);
    }
  }

  /** What is to be sorted shows alike in the result. */
  lemma SortableStays(sc: Scanner, config: Config, f: seq<string>, r: seq<string>, x: string)
    requires ValidScanner(sc) && SortedOutput(sc, config, f, r, []) && SortableText(sc, config, x)
    ensures Entry(x, false) in Shown(r) <==> Entry(x, false) in Shown(f)
  {
    var front := ResultForm(sc, config, f, r);
    var g := GroupsIn(sc, config, f);
    var b, ds := Blocks(g.order, g.table), Flatten(g.order, g.table);
    assert BlocksRight(sc, config, f, g);
    ShownResult(g, front);
    BlocksShow(sc, config, f, g);
    FrontShows(sc, config, f, front, x);
    hide *;
    if Entry(x, false) in Shown(b) {
      var q :| 0 <= q < |Wholes(ds)| && Wholes(ds)[q] == x;
      WholeLength(ds);
      WholeAt(ds, q);
      BlockMemberIs(sc, config, f, g, ds[q]);
      EntryOf(f, ds[q].index);
    }
    if Entry(x, false) in Shown(f) && !(Entry(x, false) in Shown(front)) {
      var j :| 0 <= j < |f| && f[j] == x && InBlocks(sc, config, f, j);
      InBlocksText(sc, config, f, g, j);
    }
  }

  lemma FrontShows(sc: Scanner, config: Config, f: seq<string>, front: seq<string>, x: string)
    requires ValidScanner(sc) && Resolvable(sc, config, f) && Front(sc, config, f, front) && SortableText(sc, config, x)
    ensures Entry(x, false) in Shown(front) ==> Entry(x, false) in Shown(f)
    ensures Entry(x, false) in Shown(f) && Entry(x, false) !in Shown(front) ==>
              exists j | 0 <= j < |f| :: f[j] == x && InBlocks(sc, config, f, j)
  {
    hide Shown, SortableText, InBlocks, ThisOf, Taken, TopEntry, Resolvable, Documented;
    if Entry(x, false) in Shown(front) {
      LineOf(front, Entry(x, false));
      var q :| 0 <= q < |front| && IsKept(front[q]) && Entry(x, false) == Entry(front[q], Documented(front, q));
      assert ToSort(sc, config, front, q);
      var j :| 0 <= j < |f| && f[j] == x && ToSort(sc, config, f, j) && !InBlocks(sc, config, f, j);
      EntryOf(f, j);
    }
    if Entry(x, false) in Shown(f) && Entry(x, false) !in Shown(front) {
      LineOf(f, Entry(x, false));
      var j :| 0 <= j < |f| && IsKept(f[j]) && Entry(x, false) == Entry(f[j], Documented(f, j));
      assert InBlocks(sc, config, f, j);
    }
  }

  lemma InBlocksText(sc: Scanner, config: Config, f: seq<string>, g: Grouping, j: nat)
    requires ValidScanner(sc) && Resolvable(sc, config, f) && BlocksRight(sc, config, f, g) && InBlocks(sc, config, f, j)
    ensures f[j] in Wholes(Flatten(g.order, g.table))
  {
    FirstEligible(sc, config, f, j);
    var ds := Flatten(g.order, g.table);
    var d := Expanded(sc, config, f, j).value;
    assert d in ds;
    ExpandedSame(sc, config, f, j);
    hide *;
    var q :| 0 <= q < |ds| && ds[q] == d;
    assert Wholes(ds)[q] == f[j];
  }

  lemma InBlocksIn(sc: Scanner, config: Config, f: seq<string>, g: Grouping, j: nat)
    requires Resolvable(sc, config, f) && BlocksRight(sc, config, f, g) && InBlocks(sc, config, f, j)
    ensures exists d :: d in Flatten(g.order, g.table) && d.index == j
  {
    FirstEligible(sc, config, f, j);
    var d := Expanded(sc, config, f, j).value;
    assert d in Flatten(g.order, g.table);
    ExpandedSame(sc, config, f, j);
  }

  lemma ExpandedSame(sc: Scanner, config: Config, f: seq<string>, j: nat)
    requires Resolvable(sc, config, f) && j < |f| && sc.declares(f[j]).Some? && Expanded(sc, config, f, j).Some?
    ensures Expanded(sc, config, f, j).value.index == j && Expanded(sc, config, f, j).value.whole == f[j]
  {
    var declarations := TableOf(Rest(sc, config, f));
    DepthsEnd(declarations);
    GroupedSame(DeclarationAt(sc, f, j), declarations, Depths(declarations));
  }

  lemma ShownResult(g: Grouping, front: seq<string>)
    requires forall k | k in g.order :: k in g.table
    ensures var b := Blocks(g.order, g.table); Shown(front + b) == Shown(front) + Shown(b)
  {
    var b := Blocks(g.order, g.table);
    BlocksStart(g.order, g.table);
    hide Blocks;
    ShownAppend(front, b);
  }
}
