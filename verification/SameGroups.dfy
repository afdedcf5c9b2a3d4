/** The groups of scripts/sort-imports.ts, lines 178-277, do not depend on where the declarations stand. */
module SameGroups {
  import opened ImportPaths
  import opened ImportGroups
  import opened StableSort
  import opened SortImports
  import opened ProcessFile

  predicate Same(d: Declaration, e: Declaration) { d.(index := 0) == e.(index := 0) }

  predicate SameAll(a: seq<Declaration>, b: seq<Declaration>) {
    |a| == |b| && forall i | 0 <= i < |a| :: Same(a[i], b[i])
  }

  ghost predicate SameTable(t: Table, u: Table) {
    (forall k :: k in t <==> k in u) && forall k | k in t :: Same(t[k], u[k])
  }

  ghost predicate SameGroups(t: Groups, u: Groups) {
    (forall k :: k in t <==> k in u)
    && forall k | k in t :: t[k].keySegments == u[k].keySegments && SameAll(t[k].declarations, u[k].declarations)
  }

  lemma {:induction false} SameTables(a: seq<Declaration>, b: seq<Declaration>)
    requires SameAll(a, b)
    ensures KeysOf(a) == KeysOf(b) && SameTable(TableOf(a), TableOf(b))
  {
    if a != [] { SameTables(a[..|a| - 1], b[..|b| - 1]); }
  }

  lemma {:induction false} SameEnds(t: Table, u: Table, name: string, n: nat)
    requires SameTable(t, u)
    ensures EndsWithin(t, name, n) == EndsWithin(u, name, n)
    decreases n
  {
    if n > 0 && IsAlias(t, name) { SameEnds(t, u, Target(t, name)[0], n - 1); }
  }

  lemma SameDepths(t: Table, u: Table)
    requires SameTable(t, u) && forall name :: Ends(t, name)
    ensures forall name :: Ends(u, name) && Depths(u)(name) == Depths(t)(name)
  {
    hide RankOf, SameTable;
    forall name ensures Ends(u, name) && Depths(u)(name) == Depths(t)(name) {
      RankIsLeast(t, name);
      SameEnds(t, u, name, RankOf(t, name));
      assert Ends(u, name);
      RankIsLeast(u, name);
      SameEnds(t, u, name, RankOf(u, name));
    }
  }

  lemma {:induction false} SameExpand(path: seq<string>, t: Table, u: Table, n: nat)
    requires SameTable(t, u) && path != [] && EndsWithin(t, path[0], n) && EndsWithin(u, path[0], n)
    ensures Expand(path, t, n) == Expand(path, u, n)
    decreases n
  {
    if !IsRoot(path[0]) && IsAlias(t, path[0]) {
      SameExpand(Target(t, path[0]) + path[1..], t, u, n - 1);
    }
  }

  lemma SameGrouped(d: Declaration, e: Declaration, t: Table, u: Table, steps: string -> nat)
    requires Same(d, e) && SameTable(t, u)
    requires forall name :: EndsWithin(t, name, steps(name)) && EndsWithin(u, name, steps(name))
    ensures var x, y := Grouped(d, t, steps), Grouped(e, u, steps);
            (x.Some? <==> y.Some?) && (x.Some? ==> Same(x.value, y.value))
  {
    hide EndsWithin, Expand, SameTable;
    if d.segments.Some? && d.segments.value != [] {
      SameExpand(d.segments.value, t, u, steps(d.segments.value[0]));
    }
  }

  lemma {:induction false} SameFiled(keys: seq<string>, t: Table, u: Table, steps: string -> nat)
    requires SameTable(t, u) && forall k | k in keys :: k in t && k in u
    requires forall name :: EndsWithin(t, name, steps(name)) && EndsWithin(u, name, steps(name))
    ensures Filed(keys, t, steps).order == Filed(keys, u, steps).order
    ensures SameGroups(Filed(keys, t, steps).table, Filed(keys, u, steps).table)
  {
    if keys != [] {
      hide Grouped, EndsWithin, FiledOne, SameGroups;
      var n := |keys| - 1;
      SameFiled(keys[..n], t, u, steps);
      SameGrouped(t[keys[n]], u[keys[n]], t, u, steps);
      var d, e := Grouped(t[keys[n]], t, steps), Grouped(u[keys[n]], u, steps);
      if d.Some? { SameFiledOne(Filed(keys[..n], t, steps), Filed(keys[..n], u, steps), d.value, e.value); }
    } else {
      FiledNone(t, steps);
      FiledNone(u, steps);
    }
  }

  lemma SameFiledOne(g: Grouping, h: Grouping, d: Declaration, e: Declaration)
    requires g.order == h.order && SameGroups(g.table, h.table) && Same(d, e) && d.wholepath != []
    ensures FiledOne(g, d).order == FiledOne(h, e).order && SameGroups(FiledOne(g, d).table, FiledOne(h, e).table)
  {
    hide Join;
  }

  lemma {:induction false} SameStaying(keys: set<string>, groupKey: string, a: seq<Declaration>, b: seq<Declaration>)
    requires SameAll(a, b)
    ensures SameAll(Staying(keys, groupKey, a), Staying(keys, groupKey, b))
  {
    if a != [] { SameStaying(keys, groupKey, a[..|a| - 1], b[..|b| - 1]); }
  }

  lemma {:induction false} SameGoing(c: string, groupKey: string, a: seq<Declaration>, b: seq<Declaration>)
    requires SameAll(a, b)
    ensures SameAll(GoingTo(c, groupKey, a), GoingTo(c, groupKey, b))
  {
    if a != [] { SameGoing(c, groupKey, a[..|a| - 1], b[..|b| - 1]); }
  }

  lemma SameAppend(a: seq<Declaration>, b: seq<Declaration>, c: seq<Declaration>, d: seq<Declaration>)
    requires SameAll(a, b) && SameAll(c, d)
    ensures SameAll(a + c, b + d)
  {
  }

  lemma SamePromoted(t: Groups, u: Groups, groupKey: string)
    requires SameGroups(t, u) && groupKey in t && groupKey in u
    ensures SameGroups(Promoted(t, groupKey), Promoted(u, groupKey))
  {
    hide Staying, GoingTo, SameAll, Promoted;
    assert t.Keys == u.Keys;
    var p, q := Promoted(t, groupKey), Promoted(u, groupKey);
    assert forall k :: (k in p <==> k in p.Keys) && (k in q <==> k in q.Keys);
    forall k | k in p
      ensures k in q && p[k].keySegments == q[k].keySegments && SameAll(p[k].declarations, q[k].declarations)
    {
      assert k in p.Keys && k in t.Keys && k in q.Keys;
      PromotedGroup(t, groupKey, k);
      PromotedGroup(u, groupKey, k);
      SameStaying(t.Keys, groupKey, t[groupKey].declarations, u[groupKey].declarations);
      SameGoing(k, groupKey, t[groupKey].declarations, u[groupKey].declarations);
      if k != groupKey {
        SameAppend(GoingTo(k, groupKey, t[groupKey].declarations), GoingTo(k, groupKey, u[groupKey].declarations),
                   t[k].declarations, u[k].declarations);
      }
    }
  }

  lemma {:induction false} SamePromotedAll(order: seq<string>, t: Groups, u: Groups)
    requires SameGroups(t, u)
    ensures SameGroups(PromotedAll(order, t), PromotedAll(order, u))
  {
    if order != [] {
      hide Promoted, SameAll;
      var n := |order| - 1;
      SamePromotedAll(order[..n], t, u);
      var p, q := PromotedAll(order[..n], t), PromotedAll(order[..n], u);
      if order[n] in p { SamePromoted(p, q, order[n]); }
    }
  }

  lemma SameMergeTurn(t: Groups, u: Groups, groupKey: string)
    requires SameGroups(t, u) && groupKey in t && groupKey in u
    ensures SameGroups(MergeTurn(t, groupKey), MergeTurn(u, groupKey))
  {
    hide NearestAncestorKey, Join;
    assert t.Keys == u.Keys;
    var ancestor := NearestAncestorKey(t.Keys, t[groupKey].keySegments);
    if |t[groupKey].declarations| == 1 && ancestor.Some? && ancestor.value in t {
      SameAppend(t[ancestor.value].declarations, u[ancestor.value].declarations, t[groupKey].declarations, u[groupKey].declarations);
      hide SameAll;
    }
  }

  lemma {:induction false} SameMergeTurns(keys: seq<string>, t: Groups, u: Groups)
    requires SameGroups(t, u)
    ensures SameGroups(MergeTurns(keys, t), MergeTurns(keys, u))
  {
    if keys != [] {
      hide MergeTurn, SameAll;
      var n := |keys| - 1;
      SameMergeTurns(keys[..n], t, u);
      var p, q := MergeTurns(keys[..n], t), MergeTurns(keys[..n], u);
      if keys[n] in p { SameMergeTurn(p, q, keys[n]); }
    }
  }

  lemma {:induction false} SameMergedAll(g: Grouping, h: Grouping)
    requires g.order == h.order && SameGroups(g.table, h.table)
    ensures MergedAll(g).order == MergedAll(h).order && SameGroups(MergedAll(g).table, MergedAll(h).table)
    decreases |g.order|
  {
    hide MergeTurns, Left, SameAll;
    var t, u := MergeTurns(g.order, g.table), MergeTurns(h.order, h.table);
    SameMergeTurns(g.order, g.table, h.table);
    assert t.Keys == u.Keys;
    if |Left(g.order, t.Keys)| < |g.order| { SameMergedAll(Grouping(Left(g.order, t.Keys), t), Grouping(Left(h.order, u.Keys), u)); }
  }

  lemma {:induction false} SameInsert(a: seq<Declaration>, b: seq<Declaration>, d: Declaration, e: Declaration)
    requires SameAll(a, b) && Same(d, e)
    ensures SameAll(InsertBy(a, d, DeclarationLe), InsertBy(b, e, DeclarationLe))
  {
    if a != [] {
      hide StringLe;
      SameInsert(a[..|a| - 1], b[..|b| - 1], d, e);
    }
  }

  lemma {:induction false} SameSorted(a: seq<Declaration>, b: seq<Declaration>)
    requires SameAll(a, b)
    ensures SameAll(SortBy(a, DeclarationLe), SortBy(b, DeclarationLe))
  {
    if a != [] {
      hide InsertBy, DeclarationLe;
      var n := |a| - 1;
      SameSorted(a[..n], b[..n]);
      SameInsert(SortBy(a[..n], DeclarationLe), SortBy(b[..n], DeclarationLe), a[n], b[n]);
    }
  }

  lemma SameSortedAll(t: Groups, u: Groups)
    requires SameGroups(t, u)
    ensures SameGroups(SortedAll(t), SortedAll(u))
  {
    hide SortBy, SameAll;
    forall k | k in t ensures SameAll(SortBy(t[k].declarations, DeclarationLe), SortBy(u[k].declarations, DeclarationLe)) {
      SameSorted(t[k].declarations, u[k].declarations);
    }
  }

  lemma SameGroupsOf(a: seq<Declaration>, b: seq<Declaration>)
    requires SameAll(a, b) && forall name :: Ends(TableOf(a), name)
    ensures forall name :: Ends(TableOf(b), name)
    ensures forall name :: EndsWithin(TableOf(a), name, Depths(TableOf(a))(name))
    ensures forall name :: EndsWithin(TableOf(b), name, Depths(TableOf(b))(name))
    ensures var g, h := GroupsOf(KeysOf(a), TableOf(a), Depths(TableOf(a))), GroupsOf(KeysOf(b), TableOf(b), Depths(TableOf(b)));
            g.order == h.order && SameGroups(g.table, h.table)
  {
    SameTables(a, b);
    hide SameAll, SameTable, SameGroups, Filed, PromotedAll, MergedAll, SortedAll, SortBy, EndsWithin, Ends, TableOf, RankOf, KeysOf;
    var keys, t, u := KeysOf(a), TableOf(a), TableOf(b);
    SameDepths(t, u);
    DepthsEnd(t);
    DepthsEnd(u);
    SameSteps(keys, t, u);
    var filed, filed' := Filed(keys, t, Depths(t)), Filed(keys, u, Depths(u));
    SamePromotedAll(filed.order, filed.table, filed'.table);
    var g, h := filed.(table := PromotedAll(filed.order, filed.table)), filed'.(table := PromotedAll(filed'.order, filed'.table));
    SameMergedAll(g, h);
    SameSortedAll(MergedAll(g).table, MergedAll(h).table);
  }

  lemma SameSteps(keys: seq<string>, t: Table, u: Table)
    requires SameTable(t, u) && forall k | k in keys :: k in t && k in u
    requires forall name :: EndsWithin(t, name, Depths(t)(name)) && EndsWithin(u, name, Depths(u)(name))
    requires forall name :: Depths(u)(name) == Depths(t)(name)
    ensures Filed(keys, t, Depths(t)).order == Filed(keys, u, Depths(u)).order
    ensures SameGroups(Filed(keys, t, Depths(t)).table, Filed(keys, u, Depths(u)).table)
  {
    hide EndsWithin, SameGroups, SameTable, Filed, RankOf;
    SameFiled(keys, t, u, Depths(t));
    SameFunctions(keys, u, Depths(t), Depths(u));
  }

  lemma {:induction false} SameFunctions(keys: seq<string>, u: Table, steps: string -> nat, others: string -> nat)
    requires forall name :: EndsWithin(u, name, steps(name)) && EndsWithin(u, name, others(name)) && steps(name) == others(name)
    requires forall k | k in keys :: k in u
    ensures Filed(keys, u, steps) == Filed(keys, u, others)
  {
    if keys != [] {
      hide EndsWithin, FiledOne, Expand;
      SameFunctions(keys[..|keys| - 1], u, steps, others);
    }
  }

  lemma {:induction false} SameFlatten(keys: seq<string>, t: Groups, u: Groups)
    requires SameGroups(t, u) && forall k | k in keys :: k in t && k in u
    ensures SameAll(Flatten(keys, t), Flatten(keys, u)) && Blocks(keys, t) == Blocks(keys, u)
  {
    if keys != [] {
      var n := |keys| - 1;
      SameFlatten(keys[..n], t, u);
      SameAppend(Flatten(keys[..n], t), Flatten(keys[..n], u), t[keys[n]].declarations, u[keys[n]].declarations);
      assert Wholes(t[keys[n]].declarations) == Wholes(u[keys[n]].declarations);
    }
  }
}
