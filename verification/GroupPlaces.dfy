/** Where declarations end up in scripts/sort-imports.ts, lines 178-277: what promotion does to each. */
module GroupPlaces {
  import opened ImportPaths
  import opened ImportGroups
  import opened StableSort

  /** Where a declaration of group k stands after the groups of order had their turns: in the turn of
      its group it goes to its child group, if there is one. */
  function Lands(order: seq<string>, keys: set<string>, k: string, d: Declaration): string {
    if order == [] then k
    else
      var n := |order| - 1;
      var at := Lands(order[..n], keys, k, d);
      if order[n] == at && ChildKey(at, d) in keys then ChildKey(at, d) else at
  }

  /** Every declaration has a last segment. */
  predicate LastsNamed(table: Groups) { forall k | k in table :: forall d | d in table[k].declarations :: d.last != "" }

  ghost predicate FromIn(table: Groups, order: seq<string>, d: Declaration, q: string) {
    exists k | k in table :: d in table[k].declarations && Lands(order, table.Keys, k, d) == q
  }

  lemma {:induction false} StayingExactly(keys: set<string>, groupKey: string, ds: seq<Declaration>, d: Declaration)
    ensures d in Staying(keys, groupKey, ds) <==> d in ds && ChildKey(groupKey, d) !in keys
  {
    if ds != [] {
      hide ChildKey;
      var n := |ds| - 1;
      assert d in ds <==> d in ds[..n] || d == ds[n];
      StayingExactly(keys, groupKey, ds[..n], d);
    }
  }

  lemma {:induction false} GoingExactly(c: string, groupKey: string, ds: seq<Declaration>, d: Declaration)
    ensures d in GoingTo(c, groupKey, ds) <==> d in ds && ChildKey(groupKey, d) == c
  {
    if ds != [] {
      hide ChildKey;
      var n := |ds| - 1;
      assert d in ds <==> d in ds[..n] || d == ds[n];
      GoingExactly(c, groupKey, ds[..n], d);
    }
  }

  lemma PromotedExactly(table: Groups, g: string, q: string, d: Declaration)
    requires g in table && q in table && (d in table[g].declarations ==> d.last != "")
    ensures d in Promoted(table, g)[q].declarations <==>
            || (q != g && d in table[q].declarations)
            || (d in table[g].declarations && q == if ChildKey(g, d) in table then ChildKey(g, d) else g)
  {
    PromotedGroup(table, g, q);
    var ds := table[g].declarations;
    StayingExactly(table.Keys, g, ds, d);
    GoingExactly(q, g, ds, d);
    if d in ds { LongerKey(g, d); }
    hide ChildKey, Staying, GoingTo, Promoted;
  }

  lemma FromStep(table: Groups, order: seq<string>, g: string, d: Declaration, q: string)
    ensures FromIn(table, order + [g], d, q) <==>
            || (q != g && FromIn(table, order, d, q))
            || (FromIn(table, order, d, g) && q == if ChildKey(g, d) in table then ChildKey(g, d) else g)
  {
    assert (order + [g])[..|order|] == order;
    forall k ensures Lands(order + [g], table.Keys, k, d) ==
                     var at := Lands(order, table.Keys, k, d);
                     if at == g && ChildKey(g, d) in table then ChildKey(g, d) else at
    {
    }
    hide Lands, ChildKey;
    if FromIn(table, order + [g], d, q) {
      var k :| k in table && d in table[k].declarations && Lands(order + [g], table.Keys, k, d) == q;
      assert FromIn(table, order, d, Lands(order, table.Keys, k, d));
    }
    if q != g && FromIn(table, order, d, q) {
      var k :| k in table && d in table[k].declarations && Lands(order, table.Keys, k, d) == q;
      assert Lands(order + [g], table.Keys, k, d) == q;
    }
    if FromIn(table, order, d, g) {
      var k :| k in table && d in table[k].declarations && Lands(order, table.Keys, k, d) == g;
      assert Lands(order + [g], table.Keys, k, d) == if ChildKey(g, d) in table then ChildKey(g, d) else g;
    }
  }

  lemma PromotedNext(order: seq<string>, table: Groups, g: string)
    requires g in table
    ensures g in PromotedAll(order, table) && PromotedAll(order + [g], table) == Promoted(PromotedAll(order, table), g)
  {
    assert (order + [g])[..|order|] == order;
  }

  lemma NoPromotion(table: Groups, q: string, d: Declaration)
    requires q in table
    ensures PromotedAll([], table) == table && (d in table[q].declarations <==> FromIn(table, [], d, q))
  {
    assert Lands([], table.Keys, q, d) == q;
  }

  /** After promotion a group holds just the declarations that land there. */
  lemma {:induction false} PromotedWhere(order: seq<string>, table: Groups, q: string, d: Declaration)
    requires (forall k | k in order :: k in table) && q in table && LastsNamed(table)
    ensures d in PromotedAll(order, table)[q].declarations <==> FromIn(table, order, d, q)
  {
    hide *;
    if order == [] {
      NoPromotion(table, q, d);
    } else {
      var n := |order| - 1;
      var front, g := order[..n], order[n];
      assert g in order && (forall k | k in front :: k in order) && order == front + [g];
      var t := PromotedAll(front, table);
      assert t.Keys == table.Keys && (g in table <==> g in table.Keys) && (q in table <==> q in table.Keys);
      PromotedWhere(front, table, q, d);
      PromotedWhere(front, table, g, d);
      if d in t[g].declarations { FromNamed(table, front, d, g); }
      PromotedNext(front, table, g);
      PromotedExactly(t, g, q, d);
      FromStep(table, front, g, d, q);
      assert ChildKey(g, d) in t <==> ChildKey(g, d) in table by {
        assert ChildKey(g, d) in t.Keys <==> ChildKey(g, d) in table.Keys;
      }
    }
  }

  lemma FromNamed(table: Groups, order: seq<string>, d: Declaration, q: string)
    requires LastsNamed(table) && FromIn(table, order, d, q)
    ensures d.last != ""
  {
  }

  // ---- When a declaration moves and when it stops ---------------------------------------------

  lemma {:induction false} LandsElsewhere(order: seq<string>, keys: set<string>, k: string, d: Declaration)
    requires k !in order
    ensures Lands(order, keys, k, d) == k
  {
    if order != [] {
      var n := |order| - 1;
      assert order[n] in order;
      LandsElsewhere(order[..n], keys, k, d);
    }
  }

  /** It leaves its group exactly if it has a child group, and never comes back. */
  lemma {:induction false} LeavesExactly(order: seq<string>, keys: set<string>, k: string, d: Declaration)
    requires k in order && d.last != ""
    ensures Lands(order, keys, k, d) == k <==> ChildKey(k, d) !in keys
  {
    LandsLonger(order, keys, k, d);
  }

  lemma {:induction false} LandsLonger(order: seq<string>, keys: set<string>, k: string, d: Declaration)
    requires d.last != ""
    ensures |Lands(order, keys, k, d)| >= |k|
    ensures ChildKey(k, d) !in keys ==> Lands(order, keys, k, d) == k
    ensures k in order && ChildKey(k, d) in keys ==> |Lands(order, keys, k, d)| > |k|
  {
    if order != [] {
      var n := |order| - 1;
      LandsLonger(order[..n], keys, k, d);
      var at := Lands(order[..n], keys, k, d);
      LongerChild(at, d);
      LongerChild(k, d);
      assert order == order[..n] + [order[n]];
      if k !in order[..n] { LandsElsewhere(order[..n], keys, k, d); }
      hide ChildKey;
    }
  }

  lemma LongerChild(k: string, d: Declaration)
    requires d.last != ""
    ensures |ChildKey(k, d)| > |k|
  {
  }

  // ---- What merging leaves --------------------------------------------------------------------

  /** A group that is left holds what it held; what it gained comes from groups that are not left. */
  ghost predicate OnlyMerged(before: Groups, after: Groups) {
    && after.Keys <= before.Keys
    && (forall q, d | q in after && d in before[q].declarations :: d in after[q].declarations)
    && (forall q, d | q in after && d in after[q].declarations :: Came(before, after, q, d))
    && (forall k | k in before && |before[k].declarations| >= 2 :: k in after && |after[k].declarations| >= 2)
  }

  ghost predicate Came(before: Groups, after: Groups, q: string, d: Declaration) {
    exists k | k in before :: d in before[k].declarations && (k == q || k !in after)
  }

  lemma OnlyMergedTrans(a: Groups, b: Groups, c: Groups)
    requires OnlyMerged(a, b) && OnlyMerged(b, c)
    ensures OnlyMerged(a, c)
  {
    forall q, d | q in c && d in c[q].declarations ensures Came(a, c, q, d) {
      assert q in b.Keys && c.Keys <= b.Keys;
      var k :| k in b && d in b[k].declarations && (k == q || k !in c);
      var l :| l in a && d in a[l].declarations && (l == k || l !in b);
      assert l !in b ==> l !in c.Keys;
    }
    forall q, d | q in c && d in a[q].declarations ensures d in c[q].declarations {
      assert q in b.Keys;
    }
  }

  lemma MergeTurnOnly(table: Groups, g: string)
    requires g in table
    ensures OnlyMerged(table, MergeTurn(table, g))
  {
    hide NearestAncestorKey;
    var t := MergeTurn(table, g);
    forall q, d | q in t && d in t[q].declarations ensures Came(table, t, q, d) {
      if d !in table[q].declarations { assert d in table[g].declarations; }
    }
  }

  lemma NothingMerged(table: Groups)
    ensures OnlyMerged(table, table)
  {
  }

  lemma {:induction false} MergeTurnsOnly(keys: seq<string>, table: Groups)
    ensures OnlyMerged(table, MergeTurns(keys, table))
  {
    hide OnlyMerged, MergeTurn;
    NothingMerged(table);
    if keys != [] {
      var n := |keys| - 1;
      MergeTurnsOnly(keys[..n], table);
      var t := MergeTurns(keys[..n], table);
      if keys[n] in t {
        MergeTurnOnly(t, keys[n]);
        OnlyMergedTrans(table, t, MergeTurn(t, keys[n]));
      }
    }
  }

  lemma {:induction false} MergedAllOnly(g: Grouping)
    ensures OnlyMerged(g.table, MergedAll(g).table)
    decreases |g.order|
  {
    hide OnlyMerged, MergeTurns, Left;
    NothingMerged(g.table);
    var t := MergeTurns(g.order, g.table);
    MergeTurnsOnly(g.order, g.table);
    if |Left(g.order, t.Keys)| < |g.order| {
      MergedAllOnly(Grouping(Left(g.order, t.Keys), t));
      OnlyMergedTrans(g.table, t, MergedAll(g).table);
    }
  }

  /** A group with two items is never merged away. */
  lemma LargeGroupsStay(keys: seq<string>, declarations: Table, steps: string -> nat, k: string)
    requires forall name :: EndsWithin(declarations, name, steps(name))
    requires forall k | k in keys :: k in declarations
    requires var filed := Filed(keys, declarations, steps);
             k in filed.table && |PromotedAll(filed.order, filed.table)[k].declarations| >= 2
    ensures k in GroupsOf(keys, declarations, steps).table
  {
    hide EndsWithin, Filed, PromotedAll, MergedAll, SortBy;
    var filed := Filed(keys, declarations, steps);
    assert k in PromotedAll(filed.order, filed.table).Keys;
    MergedAllOnly(filed.(table := PromotedAll(filed.order, filed.table)));
  }

  /** Whether the groups of table hold a declaration of the filed groups where it lands, or, once its
      group has been merged away, elsewhere. */
  ghost predicate HeldWhere(filed: Grouping, table: Groups, d: Declaration) {
    && (forall k | k in filed.table && d in filed.table[k].declarations ::
          var q := Lands(filed.order, filed.table.Keys, k, d); q in table ==> d in table[q].declarations)
    && (forall q | q in table && d in table[q].declarations :: ComesFrom(filed, table, d, q))
  }

  ghost predicate ComesFrom(filed: Grouping, table: Groups, d: Declaration, q: string) {
    exists k | k in filed.table :: d in filed.table[k].declarations
      && (Lands(filed.order, filed.table.Keys, k, d) == q || Lands(filed.order, filed.table.Keys, k, d) !in table)
  }

  lemma HeldMerged(filed: Grouping, merged: Groups, d: Declaration)
    requires (forall k | k in filed.order :: k in filed.table) && LastsNamed(filed.table)
    requires OnlyMerged(PromotedAll(filed.order, filed.table), merged)
    ensures HeldWhere(filed, merged, d)
  {
    var promoted := PromotedAll(filed.order, filed.table);
    assert forall q :: q in promoted <==> q in promoted.Keys;
    hide PromotedAll, LastsNamed, Lands;
    forall k | k in filed.table && d in filed.table[k].declarations
      ensures var q := Lands(filed.order, filed.table.Keys, k, d); q in merged ==> d in merged[q].declarations
    {
      var q := Lands(filed.order, filed.table.Keys, k, d);
      if q in merged {
        assert q in merged.Keys && q in filed.table.Keys;
        PromotedWhere(filed.order, filed.table, q, d);
      }
    }
    forall q | q in merged && d in merged[q].declarations ensures ComesFrom(filed, merged, d, q) {
      var p :| p in promoted && d in promoted[p].declarations && (p == q || p !in merged);
      assert p in filed.table.Keys;
      PromotedWhere(filed.order, filed.table, p, d);
      var k :| k in filed.table && d in filed.table[k].declarations && Lands(filed.order, filed.table.Keys, k, d) == p;
    }
  }

  lemma HeldSorted(filed: Grouping, merged: Groups, d: Declaration)
    requires HeldWhere(filed, merged, d)
    ensures HeldWhere(filed, SortedAll(merged), d)
  {
    var sorted := SortedAll(merged);
    forall q | q in merged ensures q in sorted && (d in sorted[q].declarations <==> d in merged[q].declarations) {
      SortByPermutes(merged[q].declarations, DeclarationLe);
      assert d in multiset(merged[q].declarations) <==> d in multiset(sorted[q].declarations);
    }
    hide SortBy, Lands;
    assert forall q :: q in sorted <==> q in merged;
    forall q | q in sorted && d in sorted[q].declarations ensures ComesFrom(filed, sorted, d, q) {
      assert ComesFrom(filed, merged, d, q);
    }
  }

  lemma {:induction false} FiledRight(keys: seq<string>, declarations: Table, steps: string -> nat)
    requires forall name :: EndsWithin(declarations, name, steps(name))
    requires forall k | k in keys :: k in declarations
    requires forall k | k in declarations && declarations[k].segments.Some? :: "" !in declarations[k].segments.value
    ensures var filed := Filed(keys, declarations, steps);
            (forall k :: k in filed.order <==> k in filed.table) && LastsNamed(filed.table)
  {
    if keys != [] {
      hide Grouped, EndsWithin, Join, OnPath;
      var n := |keys| - 1;
      FiledRight(keys[..n], declarations, steps);
      var d := declarations[keys[n]];
      if Grouped(d, declarations, steps).Some? { GroupedGood(d, declarations, steps); }
    }
  }

  /** Of the groups that are written out, one that a declaration lands in holds it; and one that
      holds it is where it lands, or the group it lands in has been merged away. So a declaration
      with a child group does not stay with those above it. */
  lemma GroupsWhere(keys: seq<string>, declarations: Table, steps: string -> nat, d: Declaration)
    requires forall name :: EndsWithin(declarations, name, steps(name))
    requires forall k | k in keys :: k in declarations
    requires forall k | k in declarations && declarations[k].segments.Some? :: "" !in declarations[k].segments.value
    ensures HeldWhere(Filed(keys, declarations, steps), GroupsOf(keys, declarations, steps).table, d)
  {
    hide EndsWithin, Filed, PromotedAll, MergedAll, LastsNamed, OnlyMerged, HeldWhere, SortedAll, SortBy;
    var filed := Filed(keys, declarations, steps);
    FiledRight(keys, declarations, steps);
    var promoted := filed.(table := PromotedAll(filed.order, filed.table));
    MergedAllOnly(promoted);
    HeldMerged(filed, MergedAll(promoted).table, d);
    HeldSorted(filed, MergedAll(promoted).table, d);
  }
}
