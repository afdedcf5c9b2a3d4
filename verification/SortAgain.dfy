/** Sorting a sorted file again, after scripts/sort-imports.ts, lines 312-399. */
module SortAgain {
  import opened Wrappers
  import opened ImportPaths
  import opened ImportGroups
  import opened StableSort
  import opened SortImports
  import opened ProcessFile
  import opened SameGroups
  import opened ShownLines
  import opened SortResult

  // ---- Sorting again --------------------------------------------------------------------------

  lemma SameFirst(sc: Scanner, config: Config, f: seq<string>, r: seq<string>, x: seq<string>)
    requires ValidScanner(sc) && SortedOutput(sc, config, f, r, []) && Shown(x) == Shown(r)
    requires Gone(sc, config, f, []) && Gone(sc, config, x, [])
    ensures forall t :: FromFirst(sc, config, f, t) <==> FromFirst(sc, config, x, t)
  {
    hide *;
    forall t | SortableText(sc, config, t) ensures Entry(t, false) in Shown(f) <==> Entry(t, false) in Shown(x) {
      SortableStays(sc, config, f, r, t);
    }
    forall t ensures FromFirst(sc, config, f, t) <==> FromFirst(sc, config, x, t) {
      FirstShows(sc, config, f, t);
      FirstShows(sc, config, x, t);
      ShowsSame(sc, config, Shown(f), Shown(x), t);
    }
  }

  lemma ShowsSame(sc: Scanner, config: Config, a: seq<Entry>, b: seq<Entry>, x: string)
    requires forall t | SortableText(sc, config, t) :: Entry(t, false) in a <==> Entry(t, false) in b
    ensures ShowsFirst(sc, config, a, x) <==> ShowsFirst(sc, config, b, x)
  {
    hide SortableText, StringLe;
    forall e: Entry | !e.documented && SortableText(sc, config, e.text) ensures e in a <==> e in b {
      assert e == Entry(e.text, false);
    }
  }

  /** The blocks are the same ones. */
  lemma SameBlocks(sc: Scanner, config: Config, f: seq<string>, x: seq<string>)
    requires Resolvable(sc, config, f) && Resolvable(sc, config, x) && SameAll(Taken(sc, config, f), Taken(sc, config, x))
    ensures var g, h := GroupsIn(sc, config, f), GroupsIn(sc, config, x);
            && (forall k | k in g.order :: k in g.table) && (forall k | k in h.order :: k in h.table)
            ==> Blocks(h.order, h.table) == Blocks(g.order, g.table) && Wholes(Flatten(h.order, h.table)) == Wholes(Flatten(g.order, g.table))
  {
    SameThis(Taken(sc, config, f), Taken(sc, config, x));
    SameGroupsOf(Rest(sc, config, f), Rest(sc, config, x));
    hide Blocks, Flatten, Wholes, RestOf, Taken, GroupsOf, SameAll, Ends, EndsWithin;
    var g, h := GroupsIn(sc, config, f), GroupsIn(sc, config, x);
    if (forall k | k in g.order :: k in g.table) && forall k | k in h.order :: k in h.table {
      SameFlatten(g.order, g.table, h.table);
      SameWholes(Flatten(g.order, g.table), Flatten(h.order, h.table));
    }
  }

  lemma SameWholes(a: seq<Declaration>, b: seq<Declaration>)
    requires SameAll(a, b)
    ensures Wholes(a) == Wholes(b)
  {
  }

  lemma {:induction false} MarkersOfKept(lines: seq<string>)
    ensures MarkersOf(lines)[MARKER] == Kept(lines)[MARKER]
  {
    if lines != [] { MarkersOfKept(lines[..|lines| - 1]); }
  }

  /** No marker shows in a result. */
  lemma NoMarker(sc: Scanner, config: Config, f: seq<string>, r: seq<string>, x: seq<string>)
    requires Turn(sc, config, f, r, []) && Shown(x) == Shown(r)
    ensures WithoutMarkers(x) == x
  {
    TextsShown(x);
    TextsShown(r);
    MarkersOfKept(f);
    hide Shown, Kept, MarkersOf, Gone, SortedOutput;
    assert MARKER !in Kept(x) by {
      assert Kept(r)[MARKER] + MarkersOf(f)[MARKER] <= Kept(f)[MARKER];
    }
    forall i | 0 <= i < |x| ensures x[i] != MARKER {
      if x[i] == MARKER { KeptMember(x, i); }
    }
    assert WithoutMarkers(x) == x;
  }

  /** The lines marked in the second turn are the undocumented ones with a text of the blocks. */
  lemma MarkedAgain(sc: Scanner, config: Config, x: seq<string>, g: Grouping)
    requires ValidScanner(sc) && NoneTwice(sc, config, x)
    requires Resolvable(sc, config, x) && BlocksRight(sc, config, x, g)
    requires forall d | d in Flatten(g.order, g.table) :: d.index < |x|
    ensures var ds := Flatten(g.order, g.table);
            MarkedBut(x, Marked(x, ds), Wholes(ds)) && forall t | t in Wholes(ds) :: SortableText(sc, config, t)
  {
    var ds := Flatten(g.order, g.table);
    var ts := Wholes(ds);
    hide *;
    forall t | t in ts ensures !StartsWith(t, "///") && SortableText(sc, config, t) {
      var q :| 0 <= q < |ds| && ts[q] == t;
      WholeAt(ds, q);
      BlockMemberIs(sc, config, x, g, ds[q]);
      LongerPrefix(t);
    }
    forall i | 0 <= i < |x| ensures Marked(x, ds)[i] == if x[i] in ts && !Documented(x, i) then DELETED else x[i] {
      MarkedAt(x, ds, i);
      MarkedHere(sc, config, x, g, i);
    }
    MakeMarkedBut(x, Marked(x, ds), ts);
  }

  lemma MakeMarkedBut(lines: seq<string>, marked: seq<string>, ts: seq<string>)
    requires |marked| == |lines| && forall t | t in ts :: !StartsWith(t, "///")
    requires forall i | 0 <= i < |lines| :: marked[i] == if lines[i] in ts && !Documented(lines, i) then DELETED else lines[i]
    ensures MarkedBut(lines, marked, ts)
  {
  }

  lemma MarkedHere(sc: Scanner, config: Config, x: seq<string>, g: Grouping, i: nat)
    requires ValidScanner(sc) && NoneTwice(sc, config, x)
    requires Resolvable(sc, config, x) && BlocksRight(sc, config, x, g) && i < |x|
    ensures var ds := Flatten(g.order, g.table);
            (exists d :: d in ds && d.index == i) <==> x[i] in Wholes(ds) && !Documented(x, i)
  {
    var ds := Flatten(g.order, g.table);
    hide *;
    if exists d :: d in ds && d.index == i {
      var d :| d in ds && d.index == i;
      BlockMemberIs(sc, config, x, g, d);
      var q :| 0 <= q < |ds| && ds[q] == d;
      WholeAt(ds, q);
    }
    if x[i] in Wholes(ds) && !Documented(x, i) {
      var q :| 0 <= q < |Wholes(ds)| && Wholes(ds)[q] == x[i];
      WholeLength(ds);
      WholeAt(ds, q);
      var d := ds[q];
      BlockMemberIs(sc, config, x, g, d);
      OnlyOne(sc, config, x, i, d.index);
    }
  }

  lemma OnlyOne(sc: Scanner, config: Config, x: seq<string>, i: nat, j: nat)
    requires NoneTwice(sc, config, x) && i < |x| && j < |x| && x[i] == x[j]
    requires SortableText(sc, config, x[i]) && !Documented(x, i) && !Documented(x, j)
    ensures i == j
  {
    hide SortableText, Documented;
    assert ToSort(sc, config, x, i) && ToSort(sc, config, x, j);
  }

  /** Without the texts of the blocks, what shows in front of them is left. */
  lemma FrontLeft(sc: Scanner, config: Config, x: seq<string>, front: seq<Entry>, blocks: seq<Entry>, ts: seq<string>)
    requires NoneTwice(sc, config, x) && Shown(x) == front + blocks
    requires forall t | t in ts :: SortableText(sc, config, t)
    requires forall e :: e in blocks <==> e.text in ts && !e.documented
    ensures But(Shown(x), ts) == front
  {
    hide Shown, SortableText, NoneTwice;
    forall e | e in front ensures !(e.text in ts && !e.documented) {
      if e.text in ts && !e.documented {
        var a :| 0 <= a < |front| && front[a] == e;
        var b :| 0 <= b < |blocks| && blocks[b] == e;
        assert Shown(x)[a] == e && Shown(x)[|front| + b] == e;
        EntryOnce(sc, config, x, a, |front| + b);
      }
    }
    ButAppend(front, blocks, ts);
    ButNone(front, ts);
    ButAll(blocks, ts);
  }

  /** The This declaration is on top already. */
  lemma ThisOnTop(sc: Scanner, config: Config, f: seq<string>, x: seq<string>, front: seq<Entry>, blocks: seq<Entry>, marked: seq<string>)
    requires ValidScanner(sc) && NoneTwice(sc, config, x) && Shown(x) == front + blocks
    requires ThisRight(sc, config, x) && SameAll(Taken(sc, config, f), Taken(sc, config, x))
    requires match ThisOf(Taken(sc, config, f)) case None => true case Some(d) => TopEntry(front, d.whole)
    requires |marked| >= |x| && forall i | 0 <= i < |x| :: marked[i] == x[i] || marked[i] == DELETED
    ensures match ThisOf(Taken(sc, config, x)) case None => true case Some(d) => d.index <= |marked| && OnTop(marked, d.index)
  {
    SameThis(Taken(sc, config, f), Taken(sc, config, x));
    hide Taken, Shown, NoneTwice, FirstOfName, ThisOf, LooksFirst, TopEntry, SortableText, Documented, SameAll, OnTop;
    if ThisOf(Taken(sc, config, x)).Some? {
      var d := ThisOf(Taken(sc, config, x)).value;
      TopLonger(front, blocks, d.whole);
      ShowsTop(x, d.whole);
      var i :| 0 <= i < |x| && x[i] == d.whole && !Documented(x, i) && OnTop(x, i);
      FirstToSort(sc, config, x, d.index);
      OnlyOne(sc, config, x, i, d.index);
      OnTopMarked(x, marked, i);
    }
  }

  lemma TopLonger(front: seq<Entry>, blocks: seq<Entry>, x: string)
    requires TopEntry(front, x)
    ensures TopEntry(front + blocks, x)
  {
    var k :| 0 <= k < |front| && front[k] == Entry(x, false) && forall j | 0 <= j < k :: StartsWith(front[j].text, "//");
    assert (front + blocks)[k] == Entry(x, false);
  }

  lemma OnTopMarked(x: seq<string>, marked: seq<string>, i: nat)
    requires i < |x| <= |marked| && OnTop(x, i) && forall q | 0 <= q < |x| :: marked[q] == x[q] || marked[q] == DELETED
    ensures OnTop(marked, i)
  {
  }

  /** A turn with nothing to remove leaves what shows in the result of another such turn, if no
      line to be sorted is there twice. */
  lemma TurnAgain(sc: Scanner, config: Config, f: seq<string>, r: seq<string>, x: seq<string>, y: seq<string>)
    requires ValidScanner(sc) && Turn(sc, config, f, r, []) && Turn(sc, config, x, y, [])
    requires Shown(x) == Shown(r) && NoneTwice(sc, config, x)
    ensures Shown(y) == Shown(x)
  {
    NoMarker(sc, config, f, r, x);
    hide Shown, Gone, SortedOutput, Kept;
    SameFirst(sc, config, f, r, x);
    OutputAgain(sc, config, f, r, x, y);
  }

  lemma OutputAgain(sc: Scanner, config: Config, f: seq<string>, r: seq<string>, x: seq<string>, y: seq<string>)
    requires ValidScanner(sc) && NoneTwice(sc, config, x) && Shown(x) == Shown(r)
    requires SortedOutput(sc, config, f, r, []) && SortedOutput(sc, config, x, y, []) && WithoutMarkers(x) == x
    requires forall t :: FromFirst(sc, config, f, t) <==> FromFirst(sc, config, x, t)
    ensures Shown(y) == Shown(x)
  {
    var g, h := GroupsIn(sc, config, f), GroupsIn(sc, config, x);
    SameTaken(sc, config, f, x);
    SameBlocks(sc, config, f, x);
    BlocksShow(sc, config, f, g);
    var front := ResultForm(sc, config, f, r);
    ShownResult(g, front);
    assert match ThisOf(Taken(sc, config, f)) case None => true case Some(d) => TopEntry(Shown(front), d.whole);
    hide *;
    WrittenAgain(sc, config, f, x, h, Shown(front), y);
  }

  lemma WrittenAgain(sc: Scanner, config: Config, f: seq<string>, x: seq<string>, h: Grouping, front: seq<Entry>, y: seq<string>)
    requires ValidScanner(sc) && NoneTwice(sc, config, x) && WithoutMarkers(x) == x
    requires Resolvable(sc, config, x) && ThisRight(sc, config, x) && BlocksRight(sc, config, x, h)
    requires TidiedUp(WrittenOut(x, h), [], ThisOf(Taken(sc, config, x)), y)
    requires Shown(x) == front + Shown(Blocks(h.order, h.table))
    requires SameAll(Taken(sc, config, f), Taken(sc, config, x))
    requires match ThisOf(Taken(sc, config, f)) case None => true case Some(d) => TopEntry(front, d.whole)
    ensures Shown(y) == Shown(x)
  {
    var b, ds := Blocks(h.order, h.table), Flatten(h.order, h.table);
    var m, d := Marked(x, ds), ThisOf(Taken(sc, config, x));
    BlocksShow(sc, config, x, h);
    MarkedAgain(sc, config, x, h);
    ShownResult(h, m);
    assert WrittenOut(x, h) == m + b;
    hide *;
    ShownBut(x, m, Wholes(ds));
    FrontLeft(sc, config, x, front, Shown(b), Wholes(ds));
    MarkedOr(x, m, Wholes(ds), b);
    ThisOnTop(sc, config, f, x, front, Shown(b), m + b);
    NotMoved(m + b, d, y);
  }

  lemma MarkedOr(x: seq<string>, m: seq<string>, ts: seq<string>, b: seq<string>)
    requires MarkedBut(x, m, ts)
    ensures |m + b| >= |x| && forall i | 0 <= i < |x| :: (m + b)[i] == x[i] || (m + b)[i] == DELETED
  {
  }

  lemma NotMoved(w: seq<string>, d: Option<Declaration>, y: seq<string>)
    requires TidiedUp(w, [], d, y) && (d.Some? ==> d.value.index <= |w| && OnTop(w, d.value.index))
    ensures y == w
  {
    var s :| Cleared(w, s, []) && ThisPlaced(s, d, y);
    assert s == w;
  }

  // ---- Once in the file, once in the result ----------------------------------------------------

  /** No entry that is to be sorted is there twice. */
  ghost predicate OnceEach(sc: Scanner, config: Config, s: seq<Entry>) {
    forall a, b | 0 <= a < b < |s| && SortableText(sc, config, s[a].text) && !s[a].documented :: s[a] != s[b]
  }

  lemma NoneTwiceShows(sc: Scanner, config: Config, lines: seq<string>)
    requires ValidScanner(sc)
    ensures NoneTwice(sc, config, lines) <==> OnceEach(sc, config, Shown(lines))
  {
    hide Shown, SortableText, Documented, NoneTwice;
    if NoneTwice(sc, config, lines) {
      forall a, b | 0 <= a < b < |Shown(lines)| && SortableText(sc, config, Shown(lines)[a].text) && !Shown(lines)[a].documented
        ensures Shown(lines)[a] != Shown(lines)[b]
      {
        EntryOnce(sc, config, lines, a, b);
      }
    }
    if OnceEach(sc, config, Shown(lines)) { OnceNoneTwice(sc, config, lines); }
  }

  lemma OnceNoneTwice(sc: Scanner, config: Config, lines: seq<string>)
    requires ValidScanner(sc) && OnceEach(sc, config, Shown(lines))
    ensures NoneTwice(sc, config, lines)
  {
    hide Shown, SortableText, Documented;
    forall i, j | 0 <= i < j < |lines| && ToSort(sc, config, lines, i) && ToSort(sc, config, lines, j) ensures lines[i] != lines[j] {
      NotComment(sc, config, lines[i]);
      NotComment(sc, config, lines[j]);
      EntriesOf(lines, i, j);
      var a, b :| 0 <= a < b < |Shown(lines)| && Shown(lines)[a] == Entry(lines[i], Documented(lines, i))
                  && Shown(lines)[b] == Entry(lines[j], Documented(lines, j));
    }
  }

  lemma {:induction false} EntriesOf(lines: seq<string>, i: nat, j: nat)
    requires i < j < |lines| && IsKept(lines[i]) && IsKept(lines[j])
    ensures exists a, b | 0 <= a < b < |Shown(lines)| ::
              Shown(lines)[a] == Entry(lines[i], Documented(lines, i)) && Shown(lines)[b] == Entry(lines[j], Documented(lines, j))
  {
    var n := |lines| - 1;
    var front := Shown(lines[..n]);
    if j < n {
      EntriesOf(lines[..n], i, j);
      var a, b :| 0 <= a < b < |front| && front[a] == Entry(lines[..n][i], Documented(lines[..n], i))
                  && front[b] == Entry(lines[..n][j], Documented(lines[..n], j));
      assert Shown(lines)[a] == Entry(lines[i], Documented(lines, i)) && Shown(lines)[b] == Entry(lines[j], Documented(lines, j));
    } else {
      EntryOf(lines[..n], i);
      var a :| 0 <= a < |front| && front[a] == Entry(lines[..n][i], Documented(lines[..n], i));
      assert Shown(lines)[a] == Entry(lines[i], Documented(lines, i)) && Shown(lines)[|front|] == Entry(lines[n], Documented(lines, n));
    }
  }

  lemma {:induction false} KeptOnce(w: seq<string>, t: string)
    requires forall i, j | 0 <= i < j < |w| :: w[i] != w[j]
    ensures Kept(w)[t] <= 1
  {
    if w != [] {
      var n := |w| - 1;
      KeptOnce(w[..n], t);
      if w[n] == t && t in Kept(w[..n]) { KeptFrom(w[..n], t); }
    }
  }

  lemma {:induction false} TextIn(s: seq<Entry>, a: nat)
    requires a < |s|
    ensures s[a].text in Texts(s)
  {
    if a < |s| - 1 { TextIn(s[..|s| - 1], a); }
  }

  lemma {:induction false} TextTwice(s: seq<Entry>, a: nat, b: nat)
    requires a < b < |s| && s[a] == s[b]
    ensures Texts(s)[s[a].text] >= 2
  {
    var n := |s| - 1;
    if b < n { TextTwice(s[..n], a, b); } else { TextIn(s[..n], a); }
  }

  /** The blocks show each of their declarations once. */
  lemma BlocksOnce(sc: Scanner, config: Config, f: seq<string>, g: Grouping)
    requires ValidScanner(sc) && Resolvable(sc, config, f) && BlocksRight(sc, config, f, g) && NoneTwice(sc, config, f)
    ensures OnceEach(sc, config, Shown(Blocks(g.order, g.table)))
  {
    var b, ds := Blocks(g.order, g.table), Flatten(g.order, g.table);
    var w, s := Wholes(ds), Shown(b);
    BlocksKept(g.order, g.table);
    TextsShown(b);
    assert forall p, q | 0 <= p < q < |ds| :: ds[p].index != ds[q].index;
    hide *;
    WholeLength(ds);
    forall p, q | 0 <= p < q < |w| ensures w[p] != w[q] {
      WholeAt(ds, p);
      WholeAt(ds, q);
      BlockMemberIs(sc, config, f, g, ds[p]);
      BlockMemberIs(sc, config, f, g, ds[q]);
      if w[p] == w[q] { OnlyOne(sc, config, f, ds[p].index, ds[q].index); }
    }
    forall a, c | 0 <= a < c < |s| ensures s[a] != s[c] {
      if s[a] == s[c] {
        TextTwice(s, a, c);
        KeptOnce(w, s[a].text);
      }
    }
    MakeOnceEach(sc, config, s);
  }

  lemma MakeOnceEach(sc: Scanner, config: Config, s: seq<Entry>)
    requires forall a, b | 0 <= a < b < |s| :: s[a] != s[b]
    ensures OnceEach(sc, config, s)
  {
  }

  /** A line to be sorted that is there once is there once in the result. */
  lemma OnceInResult(sc: Scanner, config: Config, f: seq<string>, r: seq<string>)
    requires ValidScanner(sc) && SortedOutput(sc, config, f, r, []) && NoneTwice(sc, config, f)
    ensures OnceEach(sc, config, Shown(r))
  {
    var front := ResultForm(sc, config, f, r);
    var g := GroupsIn(sc, config, f);
    var b, ds := Blocks(g.order, g.table), Flatten(g.order, g.table);
    assert BlocksRight(sc, config, f, g);
    ShownResult(g, front);
    BlocksShow(sc, config, f, g);
    assert NoneTwice(sc, config, front);
    hide *;
    NoneTwiceShows(sc, config, front);
    BlocksOnce(sc, config, f, g);
    forall e | e in Shown(b) && SortableText(sc, config, e.text) && !e.documented ensures e !in Shown(front) {
      if e in Shown(front) { NotInBoth(sc, config, f, g, front, e); }
    }
    OnceTogether(sc, config, Shown(front), Shown(b));
  }

  lemma OnceTogether(sc: Scanner, config: Config, s: seq<Entry>, t: seq<Entry>)
    requires OnceEach(sc, config, s) && OnceEach(sc, config, t)
    requires forall e | e in t && SortableText(sc, config, e.text) && !e.documented :: e !in s
    ensures OnceEach(sc, config, s + t)
  {
    hide SortableText;
  }

  lemma NotInBoth(sc: Scanner, config: Config, f: seq<string>, g: Grouping, front: seq<string>, e: Entry)
    requires ValidScanner(sc) && Resolvable(sc, config, f) && BlocksRight(sc, config, f, g) && NoneTwice(sc, config, f)
    requires Front(sc, config, f, front) && e.text in Wholes(Flatten(g.order, g.table))
    requires SortableText(sc, config, e.text) && !e.documented
    ensures e !in Shown(front)
  {
    if e in Shown(front) {
      LineOf(front, e);
      var ds := Flatten(g.order, g.table);
      hide Shown, SortableText, Documented, InBlocks, ThisOf, Taken, TopEntry, BlocksRight, Resolvable, Flatten, NoneTwice, Wholes;
      var q :| 0 <= q < |front| && IsKept(front[q]) && e == Entry(front[q], Documented(front, q));
      assert ToSort(sc, config, front, q);
      var j :| 0 <= j < |f| && f[j] == e.text && ToSort(sc, config, f, j) && !InBlocks(sc, config, f, j);
      var p :| 0 <= p < |Wholes(ds)| && Wholes(ds)[p] == e.text;
      WholeLength(ds);
      WholeAt(ds, p);
      BlockMemberIs(sc, config, f, g, ds[p]);
      OnlyOne(sc, config, f, j, ds[p].index);
    }
  }

  // ---- Whole runs -----------------------------------------------------------------------------

  /** Whether a name is unused depends only on the lines that show. */
  ghost predicate Counting(sc: Scanner) {
    forall name, line, a, b | Kept(a) == Kept(b) :: sc.unused(name, line, a) == sc.unused(name, line, b)
  }

  lemma SameUnused(sc: Scanner, config: Config, x: seq<string>, i: nat, f: seq<string>, j: nat)
    requires Counting(sc) && Kept(x) == Kept(f) && i < |x| && j < |f| && x[i] == f[j] && !Documented(f, j)
    ensures IsUnused(sc, config, x, i) ==> IsUnused(sc, config, f, j)
  {
    hide Kept, IsPub, StartsWith;
  }

  lemma ToSortFrom(sc: Scanner, config: Config, f: seq<string>, r: seq<string>, x: seq<string>, i: nat) returns (j: nat)
    requires ValidScanner(sc) && SortedOutput(sc, config, f, r, []) && Shown(x) == Shown(r) && i < |x| && ToSort(sc, config, x, i)
    ensures j < |f| && f[j] == x[i] && ToSort(sc, config, f, j)
  {
    hide SortedOutput, Shown, IsPub, Documented;
    NotComment(sc, config, x[i]);
    EntryOf(x, i);
    SortableStays(sc, config, f, r, x[i]);
    LineOf(f, Entry(x[i], false));
    j :| 0 <= j < |f| && IsKept(f[j]) && Entry(x[i], false) == Entry(f[j], Documented(f, j));
  }

  lemma UnusedToSort(sc: Scanner, config: Config, lines: seq<string>, i: nat)
    requires i < |lines| && (IsUnused(sc, config, lines, i) || Eligible(sc, config, lines, i))
    ensures ToSort(sc, config, lines, i)
  {
  }

  /** With such a test for unused names and without markers, nothing becomes removable. */
  lemma NothingNew(sc: Scanner, config: Config, f: seq<string>, r: seq<string>, x: seq<string>, i: nat)
    requires ValidScanner(sc) && Counting(sc) && Turn(sc, config, f, r, []) && MARKER !in f
    requires Shown(x) == Shown(r) && i < |x|
    ensures !Removable(sc, config, x, i)
  {
    if Removable(sc, config, x, i) {
      SameKept(sc, config, f, r, x);
      assert Gone(sc, config, f, []) && SortedOutput(sc, config, f, r, []);
      hide Counting, Shown, Kept, Gone, SortedOutput, FirstOfName, Eligible, IsUnused, ToSort;
      UnusedToSort(sc, config, x, i);
      var i' := ToSortFrom(sc, config, f, r, x, i);
      ToSortStays(sc, config, f, i');
      if IsUnused(sc, config, x, i) {
        SameUnused(sc, config, x, i, f, i') by { UndocumentedLine(sc, config, f, i'); }
      } else {
        var j := FirstFrom(sc, config, x, i);
        UnusedToSort(sc, config, x, j);
        var j' := ToSortFrom(sc, config, f, r, x, j);
        ToSortStays(sc, config, f, j');
        NothingTwice(sc, config, f);
        OnceInResult(sc, config, f, r);
        NoneTwiceShows(sc, config, x);
        OneOfName(sc, config, f, x, i, j, i', j');
      }
    }
  }

  lemma UndocumentedLine(sc: Scanner, config: Config, f: seq<string>, j: nat)
    requires j < |f| && ToSort(sc, config, f, j)
    ensures !Documented(f, j)
  {
  }

  lemma SameKept(sc: Scanner, config: Config, f: seq<string>, r: seq<string>, x: seq<string>)
    requires Turn(sc, config, f, r, []) && MARKER !in f && Shown(x) == Shown(r)
    ensures Kept(x) == Kept(f)
  {
    TextsShown(x);
    TextsShown(r);
    MarkersKept(f);
    NoMarkersOf(f);
    hide Shown, Kept, Gone, SortedOutput, MarkersOf;
    NothingCleared(f);
    assert Kept(LinesAt(f, [])) == multiset{} by { assert LinesAt(f, []) == []; EmptyKept(); }
  }

  lemma EmptyKept()
    ensures Kept([]) == multiset{}
  {
  }

  lemma {:induction false} NoMarkersOf(lines: seq<string>)
    requires MARKER !in lines
    ensures MarkersOf(lines) == multiset{}
  {
    if lines != [] {
      assert lines[|lines| - 1] in lines;
      NoMarkersOf(lines[..|lines| - 1]);
    }
  }

  /** A line to be sorted of a file with nothing to remove is used and the first of its name. */
  lemma ToSortStays(sc: Scanner, config: Config, f: seq<string>, j: nat)
    requires Gone(sc, config, f, []) && config.removeUnused && j < |f| && ToSort(sc, config, f, j)
    ensures FirstOfName(sc, config, f, j) && !IsUnused(sc, config, f, j)
  {
    EligibleExactly(sc, config, f, j);
    hide FirstOfName, OneStays, Eligible, IsUnused, ToSort;
    assert !Removable(sc, config, f, j);
  }

  /** Another line with the name, which is not looked at later. */
  lemma FirstFrom(sc: Scanner, config: Config, x: seq<string>, i: nat) returns (j: nat)
    requires i < |x| && Eligible(sc, config, x, i) && !FirstOfName(sc, config, x, i)
    ensures j < |x| && j != i && Eligible(sc, config, x, j) && SameName(sc, x, i, j)
  {
    hide Eligible, LooksFirst;
    j :| 0 <= j < |x| && j != i && Eligible(sc, config, x, j) && SameName(sc, x, i, j) && !LooksFirst(x, i, j);
  }

  lemma OneOfName(sc: Scanner, config: Config, f: seq<string>, x: seq<string>, i: nat, j: nat, i': nat, j': nat)
    requires NoneTwice(sc, config, x) && i < |x| && j < |x| && i != j
    requires ToSort(sc, config, x, i) && ToSort(sc, config, x, j)
    requires i' < |f| && j' < |f| && f[i'] == x[i] && f[j'] == x[j]
    requires FirstOfName(sc, config, f, i') && FirstOfName(sc, config, f, j')
    ensures !SameName(sc, x, i, j)
  {
    FirstEligible(sc, config, f, i');
    FirstEligible(sc, config, f, j');
    hide ToSort, Eligible, LooksFirst;
    if SameName(sc, x, i, j) && i' != j' { LooksFirstOnce(f, i', j'); }
  }

  /** What the last turn of a run read. */
  lemma LastOf(sc: Scanner, config: Config, files: seq<seq<string>>, gone: seq<seq<nat>>, r: seq<string>)
    requires files != [] && Turns(sc, config, files, gone, r) && gone[|files| - 1] == []
    ensures Turn(sc, config, files[|files| - 1], r, [])
    ensures |files| > 1 ==> MARKER !in files[|files| - 1]
  {
    hide Turn, MarkersOf;
    assert TurnAt(sc, config, files, gone, r, |files| - 1);
    if |files| > 1 {
      assert TurnAt(sc, config, files, gone, r, |files| - 2);
      MarkersGo(sc, config, files[|files| - 2], files[|files| - 1], gone[|files| - 2]);
    }
  }

  /** No turn leaves a marker. */
  lemma MarkersGo(sc: Scanner, config: Config, before: seq<string>, after: seq<string>, gone: seq<nat>)
    requires Turn(sc, config, before, after, gone)
    ensures "// @sortImports" !in after
  {
    MarkersOfKept(before);
    hide Kept, MarkersOf, Gone, SortedOutput;
    assert Kept(after)[MARKER] + MarkersOf(before)[MARKER] <= Kept(before)[MARKER];
    if MARKER in after {
      var i :| 0 <= i < |after| && after[i] == MARKER;
      KeptMember(after, i);
    }
  }

  /** A turn that removes a line changes what shows, and later turns do not bring it back. */
  lemma RemovingShows(sc: Scanner, config: Config, files: seq<seq<string>>, gone: seq<seq<nat>>, r: seq<string>)
    requires ValidScanner(sc) && files != [] && Turns(sc, config, files, gone, r) && gone[0] != []
    ensures Shown(r) != Shown(files[0])
  {
    FirstTurn(sc, config, files, gone, r);
    var f, next := files[0], if |files| > 1 then files[1] else r;
    hide Turns, Turn, Kept;
    LessKept(sc, config, f, next, gone[0]);
    var x := f[gone[0][0]];
    if |files| > 1 { TurnsRemove(sc, config, files[1..], gone[1..], r, x); }
    TextsShown(f);
    TextsShown(r);
  }

  lemma LessKept(sc: Scanner, config: Config, before: seq<string>, after: seq<string>, gone: seq<nat>)
    requires ValidScanner(sc) && Turn(sc, config, before, after, gone) && gone != []
    ensures gone[0] < |before| && Kept(after)[before[gone[0]]] < Kept(before)[before[gone[0]]]
  {
    hide Kept, MarkersOf, SortedOutput, IsUnused, Eligible, FirstOfName, OneStays;
    assert gone[0] in gone && Removable(sc, config, before, gone[0]);
    UnusedToSort(sc, config, before, gone[0]);
    NotComment(sc, config, before[gone[0]]);
    assert LinesAt(before, gone)[0] == before[gone[0]];
    KeptMember(LinesAt(before, gone), 0);
  }

  /** Running the program again on what shows of its result leaves that as it is, exactly if no line
      of it is removable then. */
  lemma RunAgainExactly(sc: Scanner, config: Config, files: seq<seq<string>>, gone: seq<seq<nat>>, r: seq<string>,
                        files': seq<seq<string>>, gone': seq<seq<nat>>, r': seq<string>)
    requires ValidScanner(sc) && config.removeUnused
    requires files != [] && Turns(sc, config, files, gone, r) && gone[|files| - 1] == []
    requires files' != [] && Turns(sc, config, files', gone', r') && gone'[|files'| - 1] == []
    requires Shown(files'[0]) == Shown(r)
    ensures Shown(r') == Shown(r) <==> forall i | 0 <= i < |files'[0]| :: !Removable(sc, config, files'[0], i)
  {
    hide *;
    var x := files'[0];
    LastOf(sc, config, files, gone, r);
    FirstTurn(sc, config, files', gone', r');
    GoneExactly(sc, config, x, if |files'| > 1 then files'[1] else r', gone'[0]);
    if gone'[0] == [] {
      OneTurn(sc, config, files', gone', r');
      RunAgain(sc, config, files[|files| - 1], r, x, r');
    } else {
      RemovingShows(sc, config, files', gone', r');
    }
  }

  lemma GoneExactly(sc: Scanner, config: Config, before: seq<string>, after: seq<string>, gone: seq<nat>)
    requires Turn(sc, config, before, after, gone)
    ensures gone == [] <==> forall i | 0 <= i < |before| :: !Removable(sc, config, before, i)
    ensures gone == [] ==> Gone(sc, config, before, [])
  {
    hide Removable, OneStays, SortedOutput, Kept, MarkersOf;
    if gone != [] { assert gone[0] in gone; }
  }

  lemma OneTurn(sc: Scanner, config: Config, files: seq<seq<string>>, gone: seq<seq<nat>>, r: seq<string>)
    requires files != [] && Turns(sc, config, files, gone, r) && gone[0] == []
    ensures |files| == 1
  {
    hide TurnAt;
  }

  lemma RunAgain(sc: Scanner, config: Config, f: seq<string>, r: seq<string>, x: seq<string>, y: seq<string>)
    requires ValidScanner(sc) && config.removeUnused && Turn(sc, config, f, r, []) && Turn(sc, config, x, y, [])
    requires Shown(x) == Shown(r)
    ensures Shown(y) == Shown(x)
  {
    GoneExactly(sc, config, x, y, []);
    hide Turn, Gone, Shown, NoneTwice;
    NothingTwice(sc, config, x);
    TurnAgain(sc, config, f, r, x, y);
  }

  /** It does so for good, if the test for unused names depends only on what shows, and the marker
      was gone before the last turn. */
  lemma RunAgainForGood(sc: Scanner, config: Config, files: seq<seq<string>>, gone: seq<seq<nat>>, r: seq<string>,
                        files': seq<seq<string>>, gone': seq<seq<nat>>, r': seq<string>)
    requires ValidScanner(sc) && Counting(sc) && config.removeUnused
    requires files != [] && Turns(sc, config, files, gone, r) && gone[|files| - 1] == []
    requires files' != [] && Turns(sc, config, files', gone', r') && gone'[|files'| - 1] == []
    requires Shown(files'[0]) == Shown(r) && (|files| > 1 || MARKER !in files[0])
    ensures Shown(r') == Shown(r)
  {
    hide *;
    RunAgainExactly(sc, config, files, gone, r, files', gone', r');
    LastOf(sc, config, files, gone, r);
    forall i | 0 <= i < |files'[0]| ensures !Removable(sc, config, files'[0], i) {
      NothingNew(sc, config, files[|files| - 1], r, files'[0], i);
    }
  }

  /** Where unused lines are kept, it does so if no line to be sorted was there twice. */
  lemma RunAgainKeeping(sc: Scanner, config: Config, files: seq<seq<string>>, gone: seq<seq<nat>>, r: seq<string>,
                        files': seq<seq<string>>, gone': seq<seq<nat>>, r': seq<string>)
    requires ValidScanner(sc) && !config.removeUnused && files != [] && NoneTwice(sc, config, files[0])
    requires Turns(sc, config, files, gone, r) && files' != [] && Turns(sc, config, files', gone', r')
    requires Shown(files'[0]) == Shown(r)
    ensures Shown(r') == Shown(r)
  {
    var f, x := files[0], files'[0];
    FirstTurn(sc, config, files, gone, r);
    FirstTurn(sc, config, files', gone', r');
    KeepingOnce(sc, config, files, gone, r);
    KeepingOnce(sc, config, files', gone', r');
    assert SortedOutput(sc, config, f, r, []);
    hide *;
    OnceInResult(sc, config, f, r);
    NoneTwiceShows(sc, config, x);
    TurnAgain(sc, config, f, r, x, r');
  }

  lemma KeepingOnce(sc: Scanner, config: Config, files: seq<seq<string>>, gone: seq<seq<nat>>, r: seq<string>)
    requires !config.removeUnused && files != [] && Turns(sc, config, files, gone, r)
    ensures |files| == 1 && gone[0] == []
  {
    FirstTurn(sc, config, files, gone, r);
    GoneExactly(sc, config, files[0], if |files| > 1 then files[1] else r, gone[0]);
    hide Turn, TurnAt;
  }
}
