/** What shows of a file in scripts/sort-imports.ts: its lines without blank lines and deletion marks. */
module ShownLines {
  import opened ImportPaths
  import opened SortImports
  import opened ProcessFile

  /** A line that shows, and whether a doc comment stands right above it. */
  datatype Entry = Entry(text: string, documented: bool)

  /** The lines of a file without blank lines and deletion marks. */
  function Shown(lines: seq<string>): (r: seq<Entry>) {
    if lines == [] then []
    else
      var n := |lines| - 1;
      Shown(lines[..n]) + if IsKept(lines[n]) then [Entry(lines[n], Documented(lines, n))] else []
  }

  function Texts(s: seq<Entry>): multiset<string> {
    if s == [] then multiset{} else Texts(s[..|s| - 1]) + multiset{s[|s| - 1].text}
  }

  lemma {:induction false} TextsShown(lines: seq<string>)
    ensures Texts(Shown(lines)) == Kept(lines)
  {
    if lines != [] {
      var n := |lines| - 1;
      TextsShown(lines[..n]);
      if IsKept(lines[n]) {
        assert Shown(lines)[..|Shown(lines)| - 1] == Shown(lines[..n]);
      } else {
        assert Shown(lines) == Shown(lines[..n]);
      }
    }
  }

  lemma ShownNothing()
    ensures Shown([]) == []
  {
  }

  lemma ShownSnoc(lines: seq<string>, x: string)
    ensures Shown(lines + [x]) ==
            Shown(lines) + if IsKept(x) then [Entry(x, lines != [] && StartsWith(lines[|lines| - 1], "///"))] else []
  {
    assert (lines + [x])[..|lines|] == lines;
  }

  lemma {:induction false} ShownAppend(a: seq<string>, b: seq<string>)
    requires a != [] && b != [] && IsKept(b[0]) ==> !StartsWith(a[|a| - 1], "///")
    ensures Shown(a + b) == Shown(a) + Shown(b)
  {
    hide *;
    if b == [] {
      ShownNothing();
      assert a + b == a;
    } else {
      var n := |b| - 1;
      ShownAppend(a, b[..n]);
      assert a + b == (a + b[..n]) + [b[n]] && b == b[..n] + [b[n]];
      ShownSnoc(a + b[..n], b[n]);
      ShownSnoc(b[..n], b[n]);
    }
  }

  lemma {:induction false} EntryOf(lines: seq<string>, i: nat)
    requires i < |lines| && IsKept(lines[i])
    ensures Entry(lines[i], Documented(lines, i)) in Shown(lines)
  {
    if i < |lines| - 1 { EntryOf(lines[..|lines| - 1], i); }
  }

  lemma {:induction false} LineOf(lines: seq<string>, e: Entry)
    requires e in Shown(lines)
    ensures exists i | 0 <= i < |lines| :: IsKept(lines[i]) && e == Entry(lines[i], Documented(lines, i))
  {
    var n := |lines| - 1;
    if e in Shown(lines[..n]) {
      LineOf(lines[..n], e);
      var i :| 0 <= i < n && IsKept(lines[..n][i]) && e == Entry(lines[..n][i], Documented(lines[..n], i));
      assert IsKept(lines[i]) && e == Entry(lines[i], Documented(lines, i));
    }
  }

  /** Two entries are those of two lines, in the same order. */
  lemma {:induction false} LinesOf(lines: seq<string>, a: nat, b: nat)
    requires a < b < |Shown(lines)|
    ensures exists i, j | 0 <= i < j < |lines| ::
              Shown(lines)[a] == Entry(lines[i], Documented(lines, i)) && Shown(lines)[b] == Entry(lines[j], Documented(lines, j))
  {
    var n := |lines| - 1;
    var front := Shown(lines[..n]);
    if b < |front| {
      LinesOf(lines[..n], a, b);
      var i, j :| 0 <= i < j < n && front[a] == Entry(lines[..n][i], Documented(lines[..n], i))
                  && front[b] == Entry(lines[..n][j], Documented(lines[..n], j));
      assert Shown(lines)[a] == Entry(lines[i], Documented(lines, i)) && Shown(lines)[b] == Entry(lines[j], Documented(lines, j));
    } else {
      LineOf(lines[..n], front[a]);
      var i :| 0 <= i < n && IsKept(lines[..n][i]) && front[a] == Entry(lines[..n][i], Documented(lines[..n], i));
      assert Shown(lines)[a] == Entry(lines[i], Documented(lines, i)) && Shown(lines)[b] == Entry(lines[n], Documented(lines, n));
    }
  }

  /** What shows in lines none of which is a doc comment. */
  lemma {:induction false} ShownPlain(lines: seq<string>)
    requires forall x | x in lines :: !StartsWith(x, "///")
    ensures forall e :: e in Shown(lines) <==> e.text in lines && IsKept(e.text) && !e.documented
  {
    if lines != [] {
      var n := |lines| - 1;
      assert lines[n] in lines && forall x :: x in lines <==> x in lines[..n] || x == lines[n];
      ShownPlain(lines[..n]);
    }
  }

  /** An undocumented line with only comments in front of it. */
  predicate TopEntry(s: seq<Entry>, x: string) {
    exists k | 0 <= k < |s| :: s[k] == Entry(x, false) && forall j | 0 <= j < k :: StartsWith(s[j].text, "//")
  }

  lemma {:induction false} TopShows(lines: seq<string>, i: nat)
    requires i < |lines| && OnTop(lines, i) && IsKept(lines[i]) && !Documented(lines, i)
    ensures TopEntry(Shown(lines), lines[i])
  {
    var n := |lines| - 1;
    var s, front := Shown(lines), Shown(lines[..n]);
    if i < n {
      TopShows(lines[..n], i);
      var k :| 0 <= k < |front| && front[k] == Entry(lines[i], false) && forall j | 0 <= j < k :: StartsWith(front[j].text, "//");
      assert s[k] == Entry(lines[i], false);
    } else {
      forall j | 0 <= j < |front| ensures StartsWith(s[j].text, "//") {
        assert s[j] == front[j];
        LineOf(lines[..n], front[j]);
      }
      assert s[|front|] == Entry(lines[i], false);
    }
  }

  lemma {:induction false} ShowsTop(lines: seq<string>, x: string)
    requires TopEntry(Shown(lines), x)
    ensures exists i | 0 <= i < |lines| :: lines[i] == x && !Documented(lines, i) && OnTop(lines, i)
  {
    var n := |lines| - 1;
    var s, front := Shown(lines), Shown(lines[..n]);
    hide Shown, StartsWith;
    assert lines == [] ==> s == [] by { ShownNothing(); }
    var k :| 0 <= k < |s| && s[k] == Entry(x, false) && forall j | 0 <= j < k :: StartsWith(s[j].text, "//");
    assert lines == lines[..n] + [lines[n]];
    ShownSnoc(lines[..n], lines[n]);
    if k < |front| {
      assert front[k] == s[k] && forall j | 0 <= j < k :: front[j] == s[j];
      ShowsTop(lines[..n], x);
      var i :| 0 <= i < n && lines[..n][i] == x && !Documented(lines[..n], i) && OnTop(lines[..n], i);
      assert lines[i] == x && !Documented(lines, i) && OnTop(lines, i);
    } else {
      forall i | 0 <= i < n ensures !IsKept(lines[i]) || StartsWith(lines[i], "//") {
        if IsKept(lines[i]) {
          EntryOf(lines[..n], i);
          var j :| 0 <= j < |front| && front[j] == Entry(lines[i], Documented(lines[..n], i));
          assert s[j] == front[j];
        }
      }
      assert lines[n] == x && !Documented(lines, n) && OnTop(lines, n);
    }
  }

  /** The entries but the undocumented ones with a text in ts. */
  function But(s: seq<Entry>, ts: seq<string>): seq<Entry> {
    if s == [] then []
    else
      var n := |s| - 1;
      But(s[..n], ts) + if s[n].text in ts && !s[n].documented then [] else [s[n]]
  }

  lemma {:induction false} ButAppend(a: seq<Entry>, b: seq<Entry>, ts: seq<string>)
    ensures But(a + b, ts) == But(a, ts) + But(b, ts)
  {
    if b == [] {
      assert a + b == a;
    } else {
      var n := |b| - 1;
      assert (a + b)[..|a| + n] == a + b[..n];
      ButAppend(a, b[..n], ts);
    }
  }

  lemma {:induction false} ButNone(s: seq<Entry>, ts: seq<string>)
    requires forall e | e in s :: !(e.text in ts && !e.documented)
    ensures But(s, ts) == s
  {
    if s != [] {
      assert s[|s| - 1] in s;
      ButNone(s[..|s| - 1], ts);
    }
  }

  lemma {:induction false} ButAll(s: seq<Entry>, ts: seq<string>)
    requires forall e | e in s :: e.text in ts && !e.documented
    ensures But(s, ts) == []
  {
    if s != [] {
      assert s[|s| - 1] in s;
      ButAll(s[..|s| - 1], ts);
    }
  }

  lemma ButSnoc(s: seq<Entry>, e: Entry, ts: seq<string>)
    ensures But(s + [e], ts) == But(s, ts) + if e.text in ts && !e.documented then [] else [e]
  {
    assert (s + [e])[..|s|] == s;
  }

  /** The lines with those in ts marked as deleted, where they are not documented. */
  ghost predicate MarkedBut(lines: seq<string>, marked: seq<string>, ts: seq<string>) {
    && |marked| == |lines| && (forall t | t in ts :: !StartsWith(t, "///"))
    && forall i | 0 <= i < |lines| :: marked[i] == if lines[i] in ts && !Documented(lines, i) then DELETED else lines[i]
  }

  lemma MarkedFront(lines: seq<string>, marked: seq<string>, ts: seq<string>)
    requires MarkedBut(lines, marked, ts) && lines != []
    ensures var n := |lines| - 1;
            && MarkedBut(lines[..n], marked[..n], ts) && |marked| == |lines|
            && marked[n] == (if lines[n] in ts && !(n > 0 && StartsWith(lines[n - 1], "///")) then DELETED else lines[n])
            && (n > 0 ==> (StartsWith(marked[n - 1], "///") <==> StartsWith(lines[n - 1], "///")))
  {
    var n := |lines| - 1;
    assert DELETED[0] != '/' && "///"[0] == '/';
    forall i | 0 <= i < n
      ensures marked[..n][i] == if lines[..n][i] in ts && !Documented(lines[..n], i) then DELETED else lines[..n][i]
    {
      assert marked[i] == if lines[i] in ts && !Documented(lines, i) then DELETED else lines[i];
    }
  }

  /** Marking lines as deleted takes just their entries, where none of them is a doc comment. */
  lemma {:induction false} ShownBut(lines: seq<string>, marked: seq<string>, ts: seq<string>)
    requires MarkedBut(lines, marked, ts)
    ensures Shown(marked) == But(Shown(lines), ts)
  {
    hide *;
    if lines == [] {
      NoneMarked(lines, marked, ts);
      return;
    }
    var n := |lines| - 1;
    MarkedFront(lines, marked, ts);
    ShownBut(lines[..n], marked[..n], ts);
    assert lines == lines[..n] + [lines[n]] && marked == marked[..n] + [marked[n]];
    ShownButSnoc(lines[..n], marked[..n], lines[n], marked[n], ts);
  }

  lemma NoneMarked(lines: seq<string>, marked: seq<string>, ts: seq<string>)
    requires MarkedBut(lines, marked, ts) && lines == []
    ensures Shown(marked) == But(Shown(lines), ts)
  {
  }

  lemma ShownButSnoc(lines: seq<string>, marked: seq<string>, x: string, y: string, ts: seq<string>)
    requires Shown(marked) == But(Shown(lines), ts) && |marked| == |lines|
    requires lines != [] ==> (StartsWith(marked[|marked| - 1], "///") <==> StartsWith(lines[|lines| - 1], "///"))
    requires y == if x in ts && !(lines != [] && StartsWith(lines[|lines| - 1], "///")) then DELETED else x
    ensures Shown(marked + [y]) == But(Shown(lines + [x]), ts)
  {
    ShownSnoc(lines, x);
    ShownSnoc(marked, y);
    hide Shown, But, StartsWith;
    var e := Entry(x, lines != [] && StartsWith(lines[|lines| - 1], "///"));
    if IsKept(x) {
      ButSnoc(Shown(lines), e, ts);
    } else {
      assert Shown(lines + [x]) == Shown(lines) && Shown(marked + [y]) == Shown(marked);
    }
  }

  lemma LongerPrefix(t: string)
    ensures StartsWith(t, "///") ==> StartsWith(t, "//")
  {
    assert "///"[..2] == "//";
  }

  lemma WholeAt(ds: seq<Declaration>, q: nat)
    requires q < |ds|
    ensures |Wholes(ds)| == |ds| && Wholes(ds)[q] == ds[q].whole && ds[q] in ds
  {
  }

  lemma WholeLength(ds: seq<Declaration>)
    ensures |Wholes(ds)| == |ds|
  {
  }
}
