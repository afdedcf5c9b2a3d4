/** The groups of scripts/sort-imports.ts, lines 178-277: grouping by import path, promotion of
    items that have a child group, and merging of one-item groups. */
module ImportGroups {
  import opened Wrappers
  import opened ImportPaths
  import opened StableSort

  datatype Group = Group(keySegments: seq<string>, declarations: seq<Declaration>)

  type Groups = map<string, Group>

  /** A Map with the order in which its keys were set. */
  datatype Grouping = Grouping(order: seq<string>, table: Groups)

  predicate Distinct(order: seq<string>) {
    forall i, j | 0 <= i < j < |order| :: order[i] != order[j]
  }

  /** All declarations of the groups named in order. */
  function AllOf(order: seq<string>, table: Groups): multiset<Declaration>
    requires forall k | k in order :: k in table
  {
    if order == [] then multiset{}
    else multiset(table[order[0]].declarations) + AllOf(order[1..], table)
  }

  lemma {:induction false} AllOfOther(order: seq<string>, table: Groups, k: string, g: Group)
    requires (forall x | x in order :: x in table) && k !in order
    ensures AllOf(order, table[k := g]) == AllOf(order, table)
  {
    if order != [] { AllOfOther(order[1..], table, k, g); }
  }

  /** Giving one group other contents changes the whole by just that. */
  lemma {:induction false} AllOfUpdate(order: seq<string>, table: Groups, k: string, g: Group)
    requires (forall x | x in order :: x in table) && Distinct(order) && k in order
    ensures AllOf(order, table[k := g]) + multiset(table[k].declarations) == AllOf(order, table) + multiset(g.declarations)
  {
    if order[0] == k {
      AllOfOther(order[1..], table, k, g);
    } else {
      AllOfUpdate(order[1..], table, k, g);
      var a := multiset(table[order[0]].declarations);
      var x, y := AllOf(order[1..], table[k := g]), AllOf(order[1..], table);
      assert AllOf(order, table[k := g]) == a + x && AllOf(order, table) == a + y;
      assert (a + x) + multiset(table[k].declarations) == a + (x + multiset(table[k].declarations));
      assert (a + y) + multiset(g.declarations) == a + (y + multiset(g.declarations));
    }
  }

  function Without(order: seq<string>, k: string): seq<string> {
    if order == [] then []
    else if order[0] == k then Without(order[1..], k)
    else [order[0]] + Without(order[1..], k)
  }

  lemma {:induction false} WithoutProperties(order: seq<string>, k: string)
    requires Distinct(order)
    ensures Distinct(Without(order, k))
    ensures forall x :: x in Without(order, k) <==> x in order && x != k
    ensures |Without(order, k)| == if k in order then |order| - 1 else |order|
  {
    if order != [] {
      var rest := Without(order[1..], k);
      WithoutProperties(order[1..], k);
      if order[0] != k {
        forall i | 0 <= i < |rest| ensures rest[i] != order[0] {
          assert rest[i] in rest;
        }
      }
    }
  }

  lemma {:induction false} AllOfWithout(order: seq<string>, table: Groups, k: string)
    requires (forall x | x in order :: x in table) && Distinct(order) && k in table
    requires forall x | x in Without(order, k) :: x in table - {k}
    ensures AllOf(order, table) == AllOf(Without(order, k), table - {k}) +
                                   if k in order then multiset(table[k].declarations) else multiset{}
  {
    if order != [] {
      AllOfWithout(order[1..], table, k);
    }
  }

  lemma {:induction false} AllOfAppend(order: seq<string>, table: Groups, k: string)
    requires (forall x | x in order :: x in table) && k in table
    ensures AllOf(order + [k], table) == AllOf(order, table) + multiset(table[k].declarations)
  {
    if order == [] {
      assert order + [k] == [k];
    } else {
      assert (order + [k])[1..] == order[1..] + [k];
      AllOfAppend(order[1..], table, k);
    }
  }

  /** A Map iterates its keys in the order in which they were set. */
  ghost predicate ValidGroups(order: seq<string>, table: Groups) {
    && Distinct(order) && (forall k :: k in order <==> k in table)
    && forall k | k in table :: ValidGroup(k, table[k])
  }

  predicate ValidGroup(k: string, g: Group) {
    && k == Join(g.keySegments) && "" !in g.keySegments
    && forall d | d in g.declarations :: d.last != ""
  }

  /** The effect of giving group k other declarations. */
  lemma PutGroup(order: seq<string>, table: Groups, k: string, g: Group)
    requires ValidGroups(order, table) && k in table && ValidGroup(k, g)
    ensures ValidGroups(order, table[k := g])
    ensures AllOf(order, table[k := g]) + multiset(table[k].declarations) == AllOf(order, table) + multiset(g.declarations)
  {
    AllOfUpdate(order, table, k, g);
  }

  /** The same, told by what the group gains and loses. */
  lemma PutGroupChange(order: seq<string>, table: Groups, k: string, g: Group,
                       gained: multiset<Declaration>, lost: multiset<Declaration>)
    requires ValidGroups(order, table) && k in table && ValidGroup(k, g)
    requires multiset(g.declarations) + lost == multiset(table[k].declarations) + gained
    ensures ValidGroups(order, table[k := g])
    ensures AllOf(order, table[k := g]) + lost == AllOf(order, table) + gained
  {
    PutGroup(order, table, k, g);
    Exchange(AllOf(order, table[k := g]), AllOf(order, table), multiset(g.declarations),
             multiset(table[k].declarations), gained, lost);
  }

  lemma Exchange<T>(x: multiset<T>, a: multiset<T>, g: multiset<T>, m: multiset<T>, gained: multiset<T>, lost: multiset<T>)
    requires x + m == a + g && g + lost == m + gained
    ensures x + lost == a + gained
  {
    forall z ensures (x + lost)[z] == (a + gained)[z] {
      assert (x + m)[z] == (a + g)[z] && (g + lost)[z] == (m + gained)[z];
    }
  }

  lemma NewGroup(order: seq<string>, table: Groups, keySegments: seq<string>)
    requires ValidGroups(order, table) && Join(keySegments) !in table && "" !in keySegments
    ensures var k := Join(keySegments);
            && ValidGroups(order + [k], table[k := Group(keySegments, [])])
            && AllOf(order + [k], table[k := Group(keySegments, [])]) == AllOf(order, table)
  {
    var k, g := Join(keySegments), Group(keySegments, []);
    var t := table[k := g];
    hide AllOf, Join;
    AllOfOther(order, table, k, g);
    AllOfAppend(order, t, k);
    assert multiset(g.declarations) == multiset{};
    assert forall x :: x in order + [k] <==> x in order || x == k;
    hide ValidGroup;
    assert Distinct(order + [k]);
  }

  lemma DropGroup(order: seq<string>, table: Groups, k: string)
    requires ValidGroups(order, table) && k in table
    ensures ValidGroups(Without(order, k), table - {k}) && |Without(order, k)| == |order| - 1
    ensures AllOf(order, table) == AllOf(Without(order, k), table - {k}) + multiset(table[k].declarations)
  {
    WithoutProperties(order, k);
    AllOfWithout(order, table, k);
  }

  function WithDeclarations(table: Groups, k: string, declarations: seq<Declaration>): Groups
    requires k in table
  {
    table[k := table[k].(declarations := declarations)]
  }

  /** Item i of one group goes to the front of another. */
  function Moved(table: Groups, key: string, i: nat, child: string): Groups
    requires key in table && child in table && i < |table[key].declarations|
  {
    var g := table[key].declarations;
    WithDeclarations(WithDeclarations(table, child, [g[i]] + table[child].declarations), key, g[..i] + g[i + 1..])
  }

  lemma MoveKeeps(order: seq<string>, table: Groups, key: string, i: nat, child: string)
    requires ValidGroups(order, table) && key in table && child in table && child != key && i < |table[key].declarations|
    ensures ValidGroups(order, Moved(table, key, i, child))
    ensures AllOf(order, Moved(table, key, i, child)) == AllOf(order, table)
  {
    hide AllOf, Distinct;
    var g, c := table[key], table[child];
    var item := g.declarations[i];
    assert item in g.declarations;
    var c' := c.(declarations := [item] + c.declarations);
    PutGroupChange(order, table, child, c', multiset{item}, multiset{});
    TakeOut(g.declarations, i);
    var g' := g.(declarations := g.declarations[..i] + g.declarations[i + 1..]);
    PutGroupChange(order, table[child := c'], key, g', multiset{}, multiset{item});
    ThereAndBack(AllOf(order, Moved(table, key, i, child)), AllOf(order, table[child := c']), AllOf(order, table), multiset{item});
  }

  lemma ThereAndBack<T>(x: multiset<T>, y: multiset<T>, a: multiset<T>, item: multiset<T>)
    requires x + item == y + multiset{} && y + multiset{} == a + item
    ensures x == a
  {
    forall z ensures x[z] == a[z] {
      assert (x + item)[z] == (a + item)[z];
    }
  }

  /** A one-item group is dropped and its item goes to the end of another. */
  function Merged(table: Groups, groupKey: string, parentKey: string): Groups
    requires groupKey in table && parentKey in table && |table[groupKey].declarations| == 1
  {
    WithDeclarations(table, parentKey, table[parentKey].declarations + table[groupKey].declarations) - {groupKey}
  }

  lemma MergeKeeps(order: seq<string>, table: Groups, groupKey: string, parentKey: string)
    requires ValidGroups(order, table) && groupKey in table && parentKey in table && groupKey != parentKey
    requires |table[groupKey].declarations| == 1
    ensures ValidGroups(Without(order, groupKey), Merged(table, groupKey, parentKey))
    ensures AllOf(Without(order, groupKey), Merged(table, groupKey, parentKey)) == AllOf(order, table)
    ensures |Without(order, groupKey)| == |order| - 1
  {
    hide AllOf, Distinct, Without;
    var parent := table[parentKey];
    var item := multiset(table[groupKey].declarations);
    var parent' := parent.(declarations := parent.declarations + table[groupKey].declarations);
    PutGroupChange(order, table, parentKey, parent', item, multiset{});
    DropGroup(order, table[parentKey := parent'], groupKey);
    ThereAndBack(AllOf(Without(order, groupKey), Merged(table, groupKey, parentKey)),
                 AllOf(order, table[parentKey := parent']), AllOf(order, table), item);
  }

  lemma PutSorted(order: seq<string>, table: Groups, k: string)
    requires ValidGroups(order, table) && k in table
    ensures var t := WithDeclarations(table, k, SortBy(table[k].declarations, DeclarationLe));
            ValidGroups(order, t) && AllOf(order, t) == AllOf(order, table)
  {
    hide AllOf, Distinct, SortBy;
    var g := table[k];
    SortByPermutes(g.declarations, DeclarationLe);
    var sorted := g.(declarations := SortBy(g.declarations, DeclarationLe));
    forall d | d in sorted.declarations ensures d.last != "" {
      assert d in multiset(sorted.declarations);
      assert d in g.declarations;
    }
    PutGroupChange(order, table, k, sorted, multiset{}, multiset{});
    ThereAndBack(AllOf(order, table[k := sorted]), AllOf(order, table[k := sorted]), AllOf(order, table), multiset{});
  }

  function ChildKey(groupKey: string, d: Declaration): string {
    (if groupKey != "" then groupKey + "." else "") + d.last
  }

  /** The declarations of a group that have no child group, in order. */
  function Staying(keys: set<string>, groupKey: string, ds: seq<Declaration>): seq<Declaration> {
    if ds == [] then []
    else
      var n := |ds| - 1;
      Staying(keys, groupKey, ds[..n]) + if ChildKey(groupKey, ds[n]) in keys then [] else [ds[n]]
  }

  /** Those with child group c, the last one first, as each goes to the front. */
  function GoingTo(c: string, groupKey: string, ds: seq<Declaration>): seq<Declaration> {
    if ds == [] then []
    else
      var n := |ds| - 1;
      (if ChildKey(groupKey, ds[n]) == c then [ds[n]] else []) + GoingTo(c, groupKey, ds[..n])
  }

  /** The groups after one group's items were promoted. */
  function Promoted(table: Groups, groupKey: string): (t: Groups)
    requires groupKey in table
    ensures t.Keys == table.Keys
  {
    map k | k in table ::
      table[k].(declarations :=
        if k == groupKey then Staying(table.Keys, groupKey, table[groupKey].declarations)
        else GoingTo(k, groupKey, table[groupKey].declarations) + table[k].declarations)
  }

  /** The groups after each group had its turn. */
  function PromotedAll(order: seq<string>, table: Groups): (t: Groups)
    ensures t.Keys == table.Keys
  {
    if order == [] then table
    else
      var n := |order| - 1;
      var t := PromotedAll(order[..n], table);
      if order[n] in t then Promoted(t, order[n]) else t
  }

  /** While a group's first p items have been dealt with. */
  ghost predicate PromotedTo(before: Groups, after: Groups, groupKey: string, p: nat, i: nat)
    requires groupKey in before && p <= |before[groupKey].declarations|
  {
    var ds := before[groupKey].declarations;
    && after.Keys == before.Keys
    && i == |Staying(before.Keys, groupKey, ds[..p])|
    && after[groupKey] == before[groupKey].(declarations := Staying(before.Keys, groupKey, ds[..p]) + ds[p..])
    && forall k | k in before && k != groupKey ::
         after[k] == before[k].(declarations := GoingTo(k, groupKey, ds[..p]) + before[k].declarations)
  }

  lemma PromoteSnoc(keys: set<string>, groupKey: string, ds: seq<Declaration>, p: nat)
    requires p < |ds|
    ensures Staying(keys, groupKey, ds[..p + 1]) ==
            Staying(keys, groupKey, ds[..p]) + if ChildKey(groupKey, ds[p]) in keys then [] else [ds[p]]
    ensures forall c :: GoingTo(c, groupKey, ds[..p + 1]) ==
              (if ChildKey(groupKey, ds[p]) == c then [ds[p]] else []) + GoingTo(c, groupKey, ds[..p])
  {
    assert ds[..p + 1][..p] == ds[..p];
  }

  lemma PromotedItem(before: Groups, after: Groups, groupKey: string, p: nat, i: nat)
    requires groupKey in before && p < |before[groupKey].declarations|
    requires PromotedTo(before, after, groupKey, p, i)
    ensures var ds := before[groupKey].declarations;
            var g := after[groupKey].declarations;
            && i < |g| && g[i] == ds[p] && after.Keys == before.Keys
            && g[..i] == Staying(before.Keys, groupKey, ds[..p]) && g[i + 1..] == ds[p + 1..]
  {
  }

  /** The next item stays. */
  lemma PromoteStays(before: Groups, after: Groups, groupKey: string, p: nat, i: nat)
    requires groupKey in before && p < |before[groupKey].declarations|
    requires PromotedTo(before, after, groupKey, p, i)
    requires ChildKey(groupKey, before[groupKey].declarations[p]) !in before
    ensures PromotedTo(before, after, groupKey, p + 1, i + 1)
  {
    hide Staying, GoingTo, ChildKey;
    var ds := before[groupKey].declarations;
    PromoteSnoc(before.Keys, groupKey, ds, p);
    assert ds[p..] == [ds[p]] + ds[p + 1..];
    forall k | k in before && k != groupKey
      ensures after[k] == before[k].(declarations := GoingTo(k, groupKey, ds[..p + 1]) + before[k].declarations)
    {
      assert [] + GoingTo(k, groupKey, ds[..p]) == GoingTo(k, groupKey, ds[..p]);
    }
  }

  /** The next item goes to its child group. */
  lemma PromoteGoes(before: Groups, after: Groups, groupKey: string, p: nat, i: nat)
    requires groupKey in before && p < |before[groupKey].declarations|
    requires PromotedTo(before, after, groupKey, p, i) && groupKey in after && i < |after[groupKey].declarations|
    requires var child := ChildKey(groupKey, before[groupKey].declarations[p]);
             child in before && child in after && child != groupKey
    ensures PromotedTo(before, Moved(after, groupKey, i, ChildKey(groupKey, before[groupKey].declarations[p])), groupKey, p + 1, i)
  {
    PromotedItem(before, after, groupKey, p, i);
    var ds := before[groupKey].declarations;
    var child := ChildKey(groupKey, ds[p]);
    PromoteSnoc(before.Keys, groupKey, ds, p);
    hide Staying, GoingTo, ChildKey;
    var staying := Staying(before.Keys, groupKey, ds[..p]);
    assert staying + [] == staying;
    MovedEntries(after, groupKey, i, child);
    forall k | k in before && k != groupKey
      ensures Moved(after, groupKey, i, child)[k] ==
              before[k].(declarations := GoingTo(k, groupKey, ds[..p + 1]) + before[k].declarations)
    {
      MoreGoing(GoingTo(k, groupKey, ds[..p]), before[k].declarations, ds[p]);
    }
  }

  lemma MovedEntries(table: Groups, key: string, i: nat, child: string)
    requires key in table && child in table && child != key && i < |table[key].declarations|
    ensures var t, g := Moved(table, key, i, child), table[key].declarations;
            && t.Keys == table.Keys && t[key] == table[key].(declarations := g[..i] + g[i + 1..])
            && t[child] == table[child].(declarations := [g[i]] + table[child].declarations)
            && forall k | k in t && k != key && k != child :: t[k] == table[k]
  {
  }

  lemma MoreGoing(going: seq<Declaration>, rest: seq<Declaration>, d: Declaration)
    ensures [d] + (going + rest) == ([d] + going) + rest && [] + going == going
  {
  }

  lemma PromotedDone(before: Groups, after: Groups, groupKey: string, i: nat)
    requires groupKey in before && PromotedTo(before, after, groupKey, |before[groupKey].declarations|, i)
    ensures after == Promoted(before, groupKey)
  {
    var ds := before[groupKey].declarations;
    assert ds[..|ds|] == ds;
    var t := Promoted(before, groupKey);
    forall k | k in t ensures after[k] == t[k] {
    }
  }

  lemma PromotedStart(before: Groups, groupKey: string)
    requires groupKey in before
    ensures PromotedTo(before, before, groupKey, 0, 0)
  {
    var ds := before[groupKey].declarations;
    assert ds[..0] == [] && ds[0..] == ds;
  }

  /** The nearest proper ancestor of a path that has a group. */
  function NearestAncestorKey(keys: set<string>, keySegments: seq<string>): Option<string> {
    if keySegments == [] then None
    else
      var n := |keySegments| - 1;
      var parentKey := Join(keySegments[..n]);
      if parentKey in keys then Some(parentKey) else NearestAncestorKey(keys, keySegments[..n])
  }

  /** One group's turn in a merging pass. */
  function MergeTurn(table: Groups, groupKey: string): Groups
    requires groupKey in table
  {
    var g := table[groupKey];
    if |g.declarations| != 1 then table
    else
      match NearestAncestorKey(table.Keys, g.keySegments)
      case None => table
      case Some(parentKey) => if parentKey in table then Merged(table, groupKey, parentKey) else table
  }

  /** A pass visits the keys in order; a key that is not reached yet is still there. */
  ghost function MergeTurns(keys: seq<string>, table: Groups): Groups {
    if keys == [] then table
    else
      var n := |keys| - 1;
      var t := MergeTurns(keys[..n], table);
      if keys[n] in t then MergeTurn(t, keys[n]) else t
  }

  /** The keys that are still there. */
  function Left(keys: seq<string>, present: set<string>): seq<string> {
    if keys == [] then []
    else
      var n := |keys| - 1;
      Left(keys[..n], present) + if keys[n] in present then [keys[n]] else []
  }

  /** Passes are made until one changes nothing. */
  ghost function MergedAll(g: Grouping): Grouping
    decreases |g.order|
  {
    var t := MergeTurns(g.order, g.table);
    var order := Left(g.order, t.Keys);
    if |order| >= |g.order| then g else MergedAll(Grouping(order, t))
  }

  lemma MergedAllStep(before: Groups, order: seq<string>, table: Groups, order': seq<string>, table': Groups, hasChanges: bool)
    requires OnlyAppended(before, table) && PassDone(order, table, order', table', hasChanges)
    ensures MergedAll(Grouping(order, table)) ==
            if hasChanges then MergedAll(Grouping(order', table')) else Grouping(order', table')
    ensures OnlyAppended(before, table')
    ensures if hasChanges then |order'| < |order| else forall k | k in table' :: !Mergeable(table', k)
  {
    hide MergeTurns, Left, Mergeable;
    OnlyAppendedTrans(before, table, table');
  }

  lemma {:induction false} LeftAll(keys: seq<string>, present: set<string>)
    requires forall k | k in keys :: k in present
    ensures Left(keys, present) == keys
  {
    if keys != [] {
      var n := |keys| - 1;
      assert keys == keys[..n] + [keys[n]];
      LeftAll(keys[..n], present);
    }
  }

  lemma {:induction false} WithoutAppend(a: seq<string>, b: seq<string>, k: string)
    ensures Without(a + b, k) == Without(a, k) + Without(b, k)
  {
    if a == [] {
      assert a + b == b;
    } else {
      assert (a + b)[1..] == a[1..] + b;
      WithoutAppend(a[1..], b, k);
    }
  }

  lemma {:induction false} LeftWithout(keys: seq<string>, present: set<string>, k: string)
    ensures Left(keys, present - {k}) == Without(Left(keys, present), k)
  {
    if keys != [] {
      var n := |keys| - 1;
      LeftWithout(keys[..n], present, k);
      WithoutAppend(Left(keys[..n], present), if keys[n] in present then [keys[n]] else [], k);
    }
  }

  /** Groups that are left have what they had, with items added behind. */
  ghost predicate OnlyAppended(before: Groups, after: Groups) {
    && after.Keys <= before.Keys
    && forall k | k in after :: after[k].keySegments == before[k].keySegments && before[k].declarations <= after[k].declarations
  }

  lemma OnlyAppendedTrans(a: Groups, b: Groups, c: Groups)
    requires OnlyAppended(a, b) && OnlyAppended(b, c)
    ensures OnlyAppended(a, c)
  {
  }

  /** A one-item group that could still be merged. */
  ghost predicate Mergeable(table: Groups, k: string)
    requires k in table
  {
    |table[k].declarations| == 1
    && exists n | 0 <= n < |table[k].keySegments| :: Join(table[k].keySegments[..n]) in table.Keys
  }

  /** The groups whose turn is still to come are there. */
  ghost predicate Remaining(keys: seq<string>, i: nat, table: Groups) {
    Distinct(keys) && forall q | i <= q < |keys| :: keys[q] in table
  }

  ghost predicate Unmerged(table: Groups, keys: seq<string>, i: nat) {
    i <= |keys| && forall q | 0 <= q < i :: keys[q] in table && !Mergeable(table, keys[q])
  }

  /** One group's turn: it is merged and gone, or nothing has changed and it cannot be merged. */
  ghost predicate TurnTaken(order: seq<string>, table: Groups, order': seq<string>, table': Groups, groupKey: string, changed: bool) {
    && groupKey in table && table' == MergeTurn(table, groupKey) && OnlyAppended(table, table')
    && if changed
       then |order'| == |order| - 1 && order' == Without(order, groupKey) && table'.Keys == table.Keys - {groupKey}
       else table' == table && order' == order && !Mergeable(table, groupKey)
  }

  /** While the first i groups of a pass have had their turn. */
  ghost predicate PassAt(keys: seq<string>, before: Groups, order: seq<string>, table: Groups, i: nat, hasChanges: bool) {
    && i <= |keys| && (forall k :: k in keys <==> k in before)
    && table == MergeTurns(keys[..i], before) && OnlyAppended(before, table)
    && |order| <= |keys| && (hasChanges ==> |order| < |keys|) && order == Left(keys, table.Keys)
    && Remaining(keys, i, table)
    && (!hasChanges ==> table == before && order == keys && Unmerged(before, keys, i))
  }

  lemma PassStarts(order: seq<string>, table: Groups)
    requires ValidGroups(order, table)
    ensures PassAt(order, table, order, table, 0, false)
  {
    AppendedNothing(table);
    LeftAll(order, table.Keys);
  }

  lemma RemainingFirst(keys: seq<string>, before: Groups, order: seq<string>, table: Groups, i: nat, hasChanges: bool)
    requires PassAt(keys, before, order, table, i, hasChanges) && i < |keys|
    ensures keys[i] in table
  {
  }

  lemma PassNext(keys: seq<string>, before: Groups, order: seq<string>, table: Groups, i: nat, hasChanges: bool,
                 order': seq<string>, table': Groups, changed: bool)
    requires PassAt(keys, before, order, table, i, hasChanges) && i < |keys|
    requires TurnTaken(order, table, order', table', keys[i], changed)
    ensures PassAt(keys, before, order', table', i + 1, hasChanges || changed)
  {
    hide MergeTurns, MergeTurn, OnlyAppended, Mergeable, Without, Left, Distinct;
    MergeTurnsNext(keys, i, before, table);
    OnlyAppendedTrans(before, table, table');
    LeftWithout(keys, table.Keys, keys[i]);
    DistinctAt(keys);
    forall q | i + 1 <= q < |keys| ensures keys[q] in table' {
      assert keys[q] in table && keys[q] != keys[i];
      assert keys[q] in table'.Keys;
    }
  }

  /** Every group has had its turn; either some are gone, or nothing has changed and none can be merged. */
  ghost predicate PassDone(keys: seq<string>, before: Groups, order: seq<string>, table: Groups, hasChanges: bool) {
    && table == MergeTurns(keys, before) && OnlyAppended(before, table) && order == Left(keys, table.Keys)
    && if hasChanges then |order| < |keys|
       else table == before && order == keys && forall k | k in table :: !Mergeable(table, k)
  }

  lemma PassEnds(keys: seq<string>, before: Groups, order: seq<string>, table: Groups, hasChanges: bool)
    requires PassAt(keys, before, order, table, |keys|, hasChanges)
    ensures PassDone(keys, before, order, table, hasChanges)
  {
    hide MergeTurns, OnlyAppended, Mergeable, Left;
    assert keys[..|keys|] == keys;
    if !hasChanges {
      forall k | k in table ensures !Mergeable(table, k) {
        var q :| 0 <= q < |keys| && keys[q] == k;
      }
    }
  }

  lemma MergeTurnsNext(keys: seq<string>, i: nat, before: Groups, t: Groups)
    requires i < |keys| && t == MergeTurns(keys[..i], before) && keys[i] in t
    ensures MergeTurns(keys[..i + 1], before) == MergeTurn(t, keys[i])
  {
    assert keys[..i + 1][..i] == keys[..i];
  }

  lemma PromotedAllNext(order: seq<string>, n: nat, before: Groups)
    requires n < |order| && order[n] in PromotedAll(order[..n], before)
    ensures PromotedAll(order[..n + 1], before) == Promoted(PromotedAll(order[..n], before), order[n])
  {
    assert order[..n + 1][..n] == order[..n];
  }

  lemma MergedAppends(table: Groups, groupKey: string, parentKey: string)
    requires groupKey in table && parentKey in table && |table[groupKey].declarations| == 1
    ensures OnlyAppended(table, Merged(table, groupKey, parentKey))
  {
  }

  lemma TakeOut<T>(s: seq<T>, i: nat)
    requires i < |s|
    ensures multiset(s[..i] + s[i + 1..]) + multiset{s[i]} == multiset(s)
    ensures forall x | x in s[..i] + s[i + 1..] :: x in s
  {
    assert s == s[..i] + [s[i]] + s[i + 1..];
  }

  // ---- Grouping -------------------------------------------------------------------------------

  /** The declaration with its expanded path, if its first segment resolves. */
  ghost function Grouped(d: Declaration, declarations: Table, steps: string -> nat): (r: Option<Declaration>)
    requires forall name :: EndsWithin(declarations, name, steps(name))
    ensures r.Some? ==> r.value.wholepath != [] && r.value == d.(last := r.value.last, wholepath := r.value.wholepath)
    ensures r.Some? ==> r.value.last == r.value.wholepath[|r.value.wholepath| - 1]
  {
    if d.segments.None? || d.segments.value == [] then None
    else
      match Expand(d.segments.value, declarations, steps(d.segments.value[0]))
      case None => None
      case Some(path) => if path == [] then None else Some(d.(last := path[|path| - 1], wholepath := path))
  }

  ghost function GroupedAll(keys: seq<string>, declarations: Table, steps: string -> nat): multiset<Declaration>
    requires forall name :: EndsWithin(declarations, name, steps(name))
    requires forall k | k in keys :: k in declarations
  {
    if keys == [] then multiset{}
    else
      var n := |keys| - 1;
      GroupedAll(keys[..n], declarations, steps)
      + match Grouped(declarations[keys[n]], declarations, steps)
        case None => multiset{}
        case Some(d) => multiset{d}
  }

  /** A declaration is filed behind those with the same path but for the last segment. */
  function FiledOne(g: Grouping, d: Declaration): Grouping
    requires d.wholepath != []
  {
    var n := |d.wholepath| - 1;
    var key := Join(d.wholepath[..n]);
    if key in g.table then g.(table := WithDeclarations(g.table, key, g.table[key].declarations + [d]))
    else Grouping(g.order + [key], g.table[key := Group(d.wholepath[..n], [d])])
  }

  lemma FiledIs(order: seq<string>, table: Groups, d: Declaration)
    requires d.wholepath != []
    ensures var n := |d.wholepath| - 1;
            var key := Join(d.wholepath[..n]);
            var g := if key in table then table[key] else Group(d.wholepath[..n], []);
            FiledOne(Grouping(order, table), d) ==
            Grouping(if key in table then order else order + [key],
                     (if key in table then table else table[key := g])[key := g.(declarations := g.declarations + [d])])
  {
    hide Join;
    assert [] + [d] == [d];
  }

  /** The groups of the declarations whose path resolves. */
  ghost function Filed(keys: seq<string>, declarations: Table, steps: string -> nat): Grouping
    requires forall name :: EndsWithin(declarations, name, steps(name))
    requires forall k | k in keys :: k in declarations
  {
    if keys == [] then Grouping([], map[])
    else
      var n := |keys| - 1;
      var g := Filed(keys[..n], declarations, steps);
      match Grouped(declarations[keys[n]], declarations, steps)
      case None => g
      case Some(d) => FiledOne(g, d)
  }

  lemma FiledNone(declarations: Table, steps: string -> nat)
    requires forall name :: EndsWithin(declarations, name, steps(name))
    ensures Filed([], declarations, steps) == Grouping([], map[])
  {
  }

  lemma FiledNext(keys: seq<string>, i: nat, declarations: Table, steps: string -> nat)
    requires forall name :: EndsWithin(declarations, name, steps(name))
    requires (forall k | k in keys :: k in declarations) && i < |keys|
    ensures Filed(keys[..i + 1], declarations, steps) ==
            match Grouped(declarations[keys[i]], declarations, steps)
            case None => Filed(keys[..i], declarations, steps)
            case Some(d) => FiledOne(Filed(keys[..i], declarations, steps), d)
  {
    hide Grouped, EndsWithin, FiledOne;
    assert keys[..i + 1][..i] == keys[..i];
  }

  /** A group's key and the last segment spell the declaration's path. */
  predicate PlacedAt(key: string, d: Declaration) {
    && d.wholepath != [] && d.last == d.wholepath[|d.wholepath| - 1]
    && key == Join(d.wholepath[..|d.wholepath| - 1])
  }

  ghost predicate AllPlaced(table: Groups) {
    forall k | k in table :: forall d | d in table[k].declarations :: PlacedAt(k, d)
  }

  lemma NoGroups(order: seq<string>, table: Groups)
    requires order == [] && table == map[]
    ensures AllOf(order, table) == multiset{} && AllPlaced(table)
  {
  }

  lemma AddedPlaced(before: Groups, after: Groups, d: Declaration, path: seq<string>)
    requires AllPlaced(before) && path != []
    requires var key := Join(path[..|path| - 1]);
             && after.Keys == before.Keys + {key}
             && (forall k | k in before && k != key :: after[k] == before[k])
             && after[key].declarations ==
                (if key in before then before[key].declarations else [])
                + [d.(last := path[|path| - 1], wholepath := path)]
    ensures AllPlaced(after)
  {
  }

  lemma GroupedNone(declarations: Table, steps: string -> nat)
    requires forall name :: EndsWithin(declarations, name, steps(name))
    ensures GroupedAll([], declarations, steps) == multiset{}
  {
  }

  lemma GroupedNext(keys: seq<string>, i: nat, declarations: Table, steps: string -> nat)
    requires forall name :: EndsWithin(declarations, name, steps(name))
    requires (forall k | k in keys :: k in declarations) && i < |keys|
    ensures GroupedAll(keys[..i + 1], declarations, steps) ==
            GroupedAll(keys[..i], declarations, steps)
            + match Grouped(declarations[keys[i]], declarations, steps)
              case None => multiset{}
              case Some(d) => multiset{d}
  {
    hide Grouped, EndsWithin;
    assert keys[..i + 1][..i] == keys[..i];
  }

  /** The expanded path under which a declaration is filed, if it has one. */
  method FullPath(d: Declaration, declarations: Table, ghost steps: string -> nat) returns (path: Option<seq<string>>)
    requires forall name :: EndsWithin(declarations, name, steps(name))
    requires forall k | k in declarations && declarations[k].segments.Some? :: "" !in declarations[k].segments.value
    requires d.segments.Some? ==> "" !in d.segments.value
    ensures path.Some? ==> path.value != [] && "" !in path.value
    ensures Grouped(d, declarations, steps) ==
            match path
            case None => None
            case Some(p) => Some(d.(last := p[|p| - 1], wholepath := p))
  {
    if d.segments.None? || |d.segments.value| < 1 { return None; }
    hide EndsWithin, Expand;
    var first := d.segments.value[0];
    assert first in d.segments.value;
    var resolvedFirst := ResolveFirstSegment(first, declarations, steps(first));
    ResolveExpands(d.segments.value, declarations, steps(first));
    if resolvedFirst.None? { return None; }
    NoEmptySegments(first, declarations, steps(first));
    path := Some(resolvedFirst.value + d.segments.value[1..]);
  }

  class GroupTable {
    var order: seq<string>
    var table: Groups

    ghost predicate Valid()
      reads this
    {
      ValidGroups(order, table)
    }

    ghost function Contents(): multiset<Declaration>
      requires Valid()
      reads this
    {
      AllOf(order, table)
    }

    constructor ()
      ensures Valid() && Contents() == multiset{} && order == [] && table == map[]
    {
      order, table := [], map[];
    }

    /** Files one declaration under the path without its last segment. */
    method Add(d: Declaration, path: seq<string>)
      requires Valid() && path != [] && "" !in path
      modifies this
      ensures Valid()
      ensures Contents() == old(Contents()) + multiset{d.(last := path[|path| - 1], wholepath := path)}
      ensures var key := Join(path[..|path| - 1]);
              && table.Keys == old(table.Keys) + {key}
              && (forall k | k in old(table) && k != key :: table[k] == old(table[k]))
              && table[key].declarations ==
                 (if key in old(table) then old(table[key].declarations) else [])
                 + [d.(last := path[|path| - 1], wholepath := path)]
      ensures Grouping(order, table) ==
              FiledOne(Grouping(old(order), old(table)), d.(last := path[|path| - 1], wholepath := path))
    {
      hide AllOf, Distinct, Join;
      ghost var before, order0 := table, order;
      var n := |path| - 1;
      var groupKey := Join(path[..n]);
      if groupKey !in table {
        NewGroup(order, table, path[..n]);
        order, table := order + [groupKey], table[groupKey := Group(path[..n], [])];
      }
      var g := table[groupKey];
      var filed := d.(last := path[n], wholepath := path);
      assert path[n] in path;
      PutGroupChange(order, table, groupKey, g.(declarations := g.declarations + [filed]), multiset{filed}, multiset{});
      table := table[groupKey := g.(declarations := g.declarations + [filed])];
      FiledIs(order0, before, filed);
    }

    method GroupDeclarationsByImportPath(keys: seq<string>, declarations: Table, ghost steps: string -> nat)
      requires Valid() && order == [] && table == map[]
      requires forall k | k in keys :: k in declarations
      requires forall name :: EndsWithin(declarations, name, steps(name))
      requires forall k | k in declarations && declarations[k].segments.Some? :: "" !in declarations[k].segments.value
      modifies this
      ensures Valid() && Contents() == GroupedAll(keys, declarations, steps)
      ensures AllPlaced(table) && Grouping(order, table) == Filed(keys, declarations, steps)
    {
      NoGroups(order, table);
      hide ValidGroups, AllPlaced, AllOf, GroupedAll, Grouped, EndsWithin, Join, Filed, FiledOne;
      GroupedNone(declarations, steps);
      FiledNone(declarations, steps);
      var i := 0;
      while i < |keys|
        invariant 0 <= i <= |keys| && Valid()
        invariant Contents() == GroupedAll(keys[..i], declarations, steps)
        invariant AllPlaced(table) && Grouping(order, table) == Filed(keys[..i], declarations, steps)
      {
        GroupedNext(keys, i, declarations, steps);
        FiledNext(keys, i, declarations, steps);
        var d := declarations[keys[i]];
        assert keys[i] in keys;
        i := i + 1;
        var path := FullPath(d, declarations, steps);
        if path.None? { continue; }
        ghost var before := table;
        Add(d, path.value);
        AddedPlaced(before, table, d, path.value);
      }
      assert keys[..i] == keys;
    }

    // ---- Promotion ----------------------------------------------------------------------------

    method MoveToChild(key: string, i: nat, child: string)
      requires Valid() && key in table && child in table && child != key && i < |table[key].declarations|
      modifies this
      ensures Valid() && Contents() == old(Contents()) && order == old(order)
      ensures table == Moved(old(table), key, i, child)
    {
      MoveKeeps(order, table, key, i, child);
      hide AllOf, ValidGroups;
      var g, c := table[key], table[child];
      table := table[child := c.(declarations := [g.declarations[i]] + c.declarations)];
      table := table[key := g.(declarations := g.declarations[..i] + g.declarations[i + 1..])];
    }

    method PromoteGroup(groupKey: string)
      requires Valid() && groupKey in table
      modifies this
      ensures Valid() && Contents() == old(Contents()) && order == old(order)
      ensures table == Promoted(old(table), groupKey)
    {
      hide AllOf, PromotedTo, Promoted, Moved, Join;
      ghost var before := table;
      ghost var p := 0;
      var i := 0;
      PromotedStart(before, groupKey);
      while i < |table[groupKey].declarations|
        invariant 0 <= p <= |before[groupKey].declarations| && Valid() && Contents() == old(Contents()) && order == old(order)
        invariant groupKey in table && table.Keys == before.Keys && PromotedTo(before, table, groupKey, p, i)
        invariant i + |before[groupKey].declarations| == |table[groupKey].declarations| + p
        decreases |table[groupKey].declarations| - i
      {
        var item := table[groupKey].declarations[i];
        assert before[groupKey].declarations[p] in before[groupKey].declarations;
        var childGroupKey := (if groupKey != "" then groupKey + "." else "") + item.last;
        LongerKey(groupKey, before[groupKey].declarations[p]);
        PromotedItem(before, table, groupKey, p, i);
        if childGroupKey in table {
          PromoteGoes(before, table, groupKey, p, i);
          MovedLength(table, groupKey, i, childGroupKey);
          MoveToChild(groupKey, i, childGroupKey);
        } else {
          PromoteStays(before, table, groupKey, p, i);
          i := i + 1;
        }
        p := p + 1;
      }
      PromotedDone(before, table, groupKey, i);
    }

    /** Items that have a child group go to its front, group after group; each declaration stays in
        exactly one group. */
    method PromoteItemsWithChildGroups()
      requires Valid()
      modifies this
      ensures Valid() && Contents() == old(Contents()) && order == old(order)
      ensures table == PromotedAll(old(order), old(table))
    {
      hide AllOf, ValidGroups, Promoted, PromotedAll, Distinct, Join;
      ghost var before, contents := table, Contents();
      var keys := order;
      PromotedNone(before);
      var n := 0;
      while n < |keys|
        invariant 0 <= n <= |keys| && order == keys
        invariant Valid() && Contents() == contents
        invariant table == PromotedAll(keys[..n], before)
      {
        OrderAt(order, table, n);
        PromotedAllNext(keys, n, before);
        PromoteGroup(keys[n]);
        n := n + 1;
      }
      assert keys[..n] == keys;
    }

    // ---- Merging ------------------------------------------------------------------------------

    method NearestAncestor(keySegments: seq<string>) returns (r: Option<string>)
      requires "" !in keySegments
      ensures r == NearestAncestorKey(table.Keys, keySegments)
    {
      hide Join;
      var n := |keySegments|;
      assert keySegments[..n] == keySegments;
      while n > 0
        invariant 0 <= n <= |keySegments|
        invariant NearestAncestorKey(table.Keys, keySegments) == NearestAncestorKey(table.Keys, keySegments[..n])
      {
        var popped := keySegments[n - 1];
        assert popped in keySegments;
        assert keySegments[..n][..n - 1] == keySegments[..n - 1];
        n := n - 1;
        if popped == "" { break; }
        var parentKey := Join(keySegments[..n]);
        if parentKey in table { return Some(parentKey); }
      }
      r := None;
    }

    method MergeInto(groupKey: string, parentKey: string)
      requires Valid() && groupKey in table && parentKey in table && groupKey != parentKey
      requires |table[groupKey].declarations| == 1
      modifies this
      ensures Valid() && Contents() == old(Contents())
      ensures |order| == |old(order)| - 1 && order == Without(old(order), groupKey)
      ensures table == Merged(old(table), groupKey, parentKey)
    {
      MergeKeeps(order, table, groupKey, parentKey);
      hide AllOf, ValidGroups, Without;
      var item := table[groupKey].declarations[0];
      var parent := table[parentKey];
      assert table[groupKey].declarations == [item];
      table := table[parentKey := parent.(declarations := parent.declarations + [item])];
      order, table := Without(order, groupKey), table - {groupKey};
    }

    /** One group's turn: it is merged into its nearest ancestor if it has one item. */
    method MergeGroup(groupKey: string) returns (changed: bool)
      requires Valid() && groupKey in table
      modifies this
      ensures Valid() && Contents() == old(Contents())
      ensures TurnTaken(old(order), old(table), order, table, groupKey, changed)
    {
      hide AllOf, Join, OnlyAppended;
      ghost var before := table;
      AppendedNothing(before);
      var group := table[groupKey];
      changed := false;
      if |group.declarations| == 1 {
        var ancestor := NearestAncestor(group.keySegments);
        AncestorIsNearest(table.Keys, group.keySegments);
        if ancestor.Some? {
          AncestorDiffers(table.Keys, groupKey, group.keySegments, ancestor.value);
          MergedAppends(before, groupKey, ancestor.value);
          MergedKeys(before, groupKey, ancestor.value);
          MergeInto(groupKey, ancestor.value);
          changed := true;
        }
      }
    }

    method MergeNext(keys: seq<string>, ghost before: Groups, i: nat, hasChanges: bool) returns (hasChanges': bool)
      requires Valid() && i < |keys| && PassAt(keys, before, order, table, i, hasChanges)
      modifies this
      ensures Valid() && Contents() == old(Contents())
      ensures PassAt(keys, before, order, table, i + 1, hasChanges')
    {
      hide *;
      ghost var order0, table0 := order, table;
      RemainingFirst(keys, before, order, table, i, hasChanges);
      var changed := MergeGroup(keys[i]);
      PassNext(keys, before, order0, table0, i, hasChanges, order, table, changed);
      hasChanges' := hasChanges || changed;
    }

    /** One turn of the outer loop. */
    method MergePass() returns (hasChanges: bool)
      requires Valid()
      modifies this
      ensures Valid() && Contents() == old(Contents())
      ensures PassDone(old(order), old(table), order, table, hasChanges)
    {
      PassStarts(order, table);
      hide *;
      hasChanges := false;
      var keys := order;
      ghost var before, contents := table, Contents();
      var i := 0;
      while i < |keys|
        invariant 0 <= i <= |keys| && Valid() && Contents() == contents
        invariant PassAt(keys, before, order, table, i, hasChanges)
      {
        hasChanges := MergeNext(keys, before, i, hasChanges);
        i := i + 1;
      }
      PassEnds(keys, before, order, table, hasChanges);
    }

    /** Ends because every pass but the last removes a group; then no one-item group has a surviving
        ancestor. No declaration is lost on the way, and groups that stay only gain items behind. */
    method MergeSingleItemGroups()
      requires Valid()
      modifies this
      ensures Valid() && Contents() == old(Contents()) && OnlyAppended(old(table), table)
      ensures forall k | k in table :: !Mergeable(table, k)
      ensures Grouping(order, table) == MergedAll(Grouping(old(order), old(table)))
    {
      AppendedNothing(table);
      hide *;
      ghost var before, contents, keys := table, Contents(), order;
      while true
        invariant Valid() && Contents() == contents && OnlyAppended(before, table)
        invariant MergedAll(Grouping(order, table)) == MergedAll(Grouping(keys, before))
        decreases |order|
      {
        ghost var order0, table0 := order, table;
        var hasChanges := MergePass();
        MergedAllStep(before, order0, table0, order, table, hasChanges);
        if !hasChanges { break; }
      }
    }

    // ---- Sorting ------------------------------------------------------------------------------

    method SortGroup(k: string)
      requires Valid() && k in table
      modifies this
      ensures Valid() && Contents() == old(Contents()) && order == old(order)
      ensures table == WithDeclarations(old(table), k, SortBy(old(table)[k].declarations, DeclarationLe))
    {
      PutSorted(order, table, k);
      hide AllOf, ValidGroups, SortBy;
      var g := table[k];
      table := table[k := g.(declarations := SortBy(g.declarations, DeclarationLe))];
    }

    /** The declarations of each group by path length and key; the keys of the groups by name. */
    method SortGroupsAndDeclarations() returns (sortedKeys: seq<string>)
      requires Valid()
      modifies this
      ensures Valid() && Contents() == old(Contents()) && order == old(order) && table.Keys == old(table.Keys)
      ensures forall k | k in table :: StablySorted(table[k].declarations, old(table[k].declarations), DeclarationLe)
      ensures forall k | k in table :: table[k].keySegments == old(table[k].keySegments)
      ensures StablySorted(sortedKeys, order, StringLe)
      ensures sortedKeys == SortBy(order, StringLe) && table == SortedAll(old(table))
    {
      OrderIsKeys(order, table);
      DistinctAt(order);
      hide *;
      ghost var before, contents := table, Contents();
      SortedToStart(order, table);
      var keys := order;
      var i := 0;
      while i < |keys|
        invariant 0 <= i <= |keys| && order == keys && table.Keys == before.Keys
        invariant Valid() && Contents() == contents
        invariant SortedTo(keys, before, table, i)
      {
        SortedToNext(keys, before, table, i);
        SortGroup(keys[i]);
        i := i + 1;
      }
      SortedToEnd(keys, before, table);
      sortedKeys := SortBy(order, StringLe);
      StringLePreorder();
      SortByStable(order, StringLe);
      SortedStably(before, table);
      SortedAllIs(before, table);
    }
  }

  function SortedAll(table: Groups): Groups {
    map k | k in table :: table[k].(declarations := SortBy(table[k].declarations, DeclarationLe))
  }

  lemma SortedAllIs(before: Groups, after: Groups)
    requires after.Keys == before.Keys
    requires forall k | k in after :: after[k] == before[k].(declarations := SortBy(before[k].declarations, DeclarationLe))
    ensures after == SortedAll(before)
  {
    hide SortBy;
    assert forall k :: k in after <==> k in after.Keys;
  }

  /** The groups of the declarations as they are written out: grouped, promoted, merged and sorted. */
  ghost function GroupsOf(keys: seq<string>, declarations: Table, steps: string -> nat): Grouping
    requires forall name :: EndsWithin(declarations, name, steps(name))
    requires forall k | k in keys :: k in declarations
  {
    var filed := Filed(keys, declarations, steps);
    var merged := MergedAll(filed.(table := PromotedAll(filed.order, filed.table)));
    Grouping(SortBy(merged.order, StringLe), SortedAll(merged.table))
  }

  lemma SortedStably(before: Groups, after: Groups)
    requires after.Keys == before.Keys
    requires forall k | k in after :: after[k] == before[k].(declarations := SortBy(before[k].declarations, DeclarationLe))
    ensures forall k | k in after :: StablySorted(after[k].declarations, before[k].declarations, DeclarationLe)
    ensures forall k | k in after :: after[k].keySegments == before[k].keySegments
  {
    DeclarationLePreorder();
    forall k | k in after ensures StablySorted(after[k].declarations, before[k].declarations, DeclarationLe) {
      SortByStable(before[k].declarations, DeclarationLe);
    }
  }

  predicate DeclarationLe(a: Declaration, b: Declaration) {
    |a.wholepath| < |b.wholepath| || (|a.wholepath| == |b.wholepath| && StringLe(a.key, b.key))
  }

  /** In a sorted group shorter paths come first, and among paths of one length smaller names. */
  lemma ItemsInOrder(ds: seq<Declaration>, i: nat, j: nat)
    requires SortedBy(ds, DeclarationLe) && i < j < |ds|
    ensures |ds[i].wholepath| <= |ds[j].wholepath|
    ensures |ds[i].wholepath| == |ds[j].wholepath| ==>
              var a, b := ds[i].key, ds[j].key;
              a <= b || DiffersSmaller(a, b)
  {
    assert DeclarationLe(ds[i], ds[j]);
    StringLeExactly(ds[i].key, ds[j].key);
    hide StringLe;
  }

  lemma DeclarationLePreorder()
    ensures TotalPreorder(DeclarationLe)
  {
    StringLePreorder();
  }

  /** The groups of the first i keys are sorted, the others as before. */
  ghost predicate SortedTo(keys: seq<string>, before: Groups, after: Groups, i: nat) {
    && Distinct(keys) && i <= |keys| && (forall k :: k in keys <==> k in before) && after.Keys == before.Keys
    && (forall q | 0 <= q < i :: after[keys[q]] == before[keys[q]].(declarations := SortBy(before[keys[q]].declarations, DeclarationLe)))
    && (forall q | i <= q < |keys| :: after[keys[q]] == before[keys[q]])
  }

  lemma SortedToStart(keys: seq<string>, table: Groups)
    requires Distinct(keys) && forall k :: k in keys <==> k in table
    ensures SortedTo(keys, table, table, 0)
  {
  }

  lemma SortedToNext(keys: seq<string>, before: Groups, after: Groups, i: nat)
    requires i < |keys| && SortedTo(keys, before, after, i)
    ensures keys[i] in after
    ensures SortedTo(keys, before, WithDeclarations(after, keys[i], SortBy(after[keys[i]].declarations, DeclarationLe)), i + 1)
    ensures WithDeclarations(after, keys[i], SortBy(after[keys[i]].declarations, DeclarationLe)).Keys == after.Keys
  {
    hide SortBy;
    assert keys[i] in keys;
  }

  lemma SortedToEnd(keys: seq<string>, before: Groups, after: Groups)
    requires SortedTo(keys, before, after, |keys|)
    ensures after.Keys == before.Keys
    ensures forall k | k in after :: after[k] == before[k].(declarations := SortBy(before[k].declarations, DeclarationLe))
  {
    hide SortBy;
    forall k | k in after ensures after[k] == before[k].(declarations := SortBy(before[k].declarations, DeclarationLe)) {
      var q :| 0 <= q < |keys| && keys[q] == k;
    }
  }

  lemma PromotedNone(table: Groups)
    ensures PromotedAll([], table) == table
  {
  }

  lemma OrderAt(order: seq<string>, table: Groups, n: nat)
    requires ValidGroups(order, table) && n < |order|
    ensures order[n] in table
  {
    assert order[n] in order;
  }

  lemma DistinctAt(order: seq<string>)
    requires Distinct(order)
    ensures forall i, j | 0 <= i < j < |order| :: order[i] != order[j]
  {
  }

  lemma OrderIsKeys(order: seq<string>, table: Groups)
    requires ValidGroups(order, table)
    ensures Distinct(order) && forall k :: k in order <==> k in table
  {
  }

  lemma AppendedNothing(table: Groups)
    ensures OnlyAppended(table, table)
  {
  }

  lemma MergedKeys(table: Groups, groupKey: string, parentKey: string)
    requires groupKey in table && parentKey in table && |table[groupKey].declarations| == 1
    ensures Merged(table, groupKey, parentKey).Keys == table.Keys - {groupKey}
  {
  }

  /** a is the key of the path's first n segments, and no longer proper prefix is a group. */
  ghost predicate NearestAt(keys: set<string>, keySegments: seq<string>, a: string, n: nat) {
    && n < |keySegments| && a == Join(keySegments[..n])
    && forall m | n < m < |keySegments| :: Join(keySegments[..m]) !in keys
  }

  /** The nearest ancestor is a group and a proper prefix of the path, and nothing between is a group. */
  lemma {:induction false} AncestorIsNearest(keys: set<string>, keySegments: seq<string>)
    ensures match NearestAncestorKey(keys, keySegments)
            case None => forall n | 0 <= n < |keySegments| :: Join(keySegments[..n]) !in keys
            case Some(a) => a in keys && exists n: nat :: NearestAt(keys, keySegments, a, n)
  {
    if keySegments != [] {
      hide Join, NearestAt;
      var last := |keySegments| - 1;
      var shorter := keySegments[..last];
      AncestorIsNearest(keys, shorter);
      if Join(shorter) in keys {
        NearestParent(keys, keySegments);
      } else {
        assert forall n | 0 <= n <= last :: keySegments[..n] == shorter[..n];
        var r := NearestAncestorKey(keys, shorter);
        if r.Some? {
          var n: nat :| NearestAt(keys, shorter, r.value, n);
          NearestLonger(keys, keySegments, r.value, n);
        }
      }
    }
  }

  lemma NearestParent(keys: set<string>, keySegments: seq<string>)
    requires keySegments != []
    ensures NearestAt(keys, keySegments, Join(keySegments[..|keySegments| - 1]), |keySegments| - 1)
  {
    hide Join;
  }

  lemma NearestLonger(keys: set<string>, keySegments: seq<string>, a: string, n: nat)
    requires keySegments != [] && NearestAt(keys, keySegments[..|keySegments| - 1], a, n)
    requires Join(keySegments[..|keySegments| - 1]) !in keys
    ensures NearestAt(keys, keySegments, a, n)
  {
    hide Join;
    var shorter := keySegments[..|keySegments| - 1];
    assert keySegments[..n] == shorter[..n];
    forall m | n < m < |keySegments| ensures Join(keySegments[..m]) !in keys {
      assert keySegments[..m] == shorter[..m];
    }
  }

  lemma LongerKey(groupKey: string, d: Declaration)
    requires d.last != ""
    ensures ChildKey(groupKey, d) != groupKey
  {
    assert |ChildKey(groupKey, d)| > |groupKey|;
  }

  lemma MovedLength(table: Groups, key: string, i: nat, child: string)
    requires key in table && child in table && child != key && i < |table[key].declarations|
    ensures |Moved(table, key, i, child)[key].declarations| == |table[key].declarations| - 1
    ensures Moved(table, key, i, child).Keys == table.Keys
  {
  }

  lemma AncestorDiffers(keys: set<string>, groupKey: string, keySegments: seq<string>, ancestor: string)
    requires groupKey == Join(keySegments) && "" !in keySegments
    requires exists n: nat :: NearestAt(keys, keySegments, ancestor, n)
    ensures groupKey != ancestor
  {
    var n: nat :| NearestAt(keys, keySegments, ancestor, n);
    JoinPrefixShorter(keySegments, n);
  }

  /** Resolution introduces no empty segment. */
  lemma {:induction false} NoEmptySegments(name: string, declarations: Table, n: nat)
    requires EndsWithin(declarations, name, n) && name != ""
    requires forall k | k in declarations && declarations[k].segments.Some? :: "" !in declarations[k].segments.value
    ensures var r := ResolveFirstSegment(name, declarations, n);
            r.Some? ==> r.value != [] && "" !in r.value
    decreases n
  {
    if !IsRoot(name) && IsAlias(declarations, name) {
      var target := Target(declarations, name);
      assert target[0] in target;
      NoEmptySegments(target[0], declarations, n - 1);
    }
  }

  // ---- Where a declaration ends ---------------------------------------------------------------

  /** The declaration's path as a key, with the last segment repeated j times. */
  function Stretched(d: Declaration, j: nat): string {
    if j == 0 then Join(d.wholepath) else Stretched(d, j - 1) + "." + d.last
  }

  /** Where grouping and promotion put it: promoted again, it goes from group a.b to group a.b.b. */
  ghost predicate OnPath(k: string, d: Declaration) {
    PlacedAt(k, d) || exists j: nat :: k == Stretched(d, j)
  }

  /** The key begins its path, with the last segment repeated as often as it takes. */
  ghost predicate Under(k: string, d: Declaration) {
    exists j: nat :: k <= Stretched(d, j)
  }

  lemma {:induction false} StayingMember(keys: set<string>, groupKey: string, ds: seq<Declaration>, d: Declaration)
    requires d in Staying(keys, groupKey, ds)
    ensures d in ds
  {
    hide ChildKey;
    var n := |ds| - 1;
    if d in Staying(keys, groupKey, ds[..n]) {
      StayingMember(keys, groupKey, ds[..n], d);
      assert d in ds[..n];
    }
  }

  lemma {:induction false} GoingMember(c: string, groupKey: string, ds: seq<Declaration>, d: Declaration)
    requires d in GoingTo(c, groupKey, ds)
    ensures d in ds && ChildKey(groupKey, d) == c
  {
    hide ChildKey;
    var n := |ds| - 1;
    if d in GoingTo(c, groupKey, ds[..n]) {
      GoingMember(c, groupKey, ds[..n], d);
      assert d in ds[..n];
    }
  }

  predicate GoodPath(d: Declaration) {
    d.wholepath != [] && "" !in d.wholepath && d.last == d.wholepath[|d.wholepath| - 1]
  }

  lemma {:induction false} StretchedLong(d: Declaration, j: nat)
    requires GoodPath(d)
    ensures Stretched(d, j) != ""
  {
    if j == 0 {
      JoinPrefixShorter(d.wholepath, 0);
    } else {
      StretchedLong(d, j - 1);
    }
  }

  lemma ChildOnPath(k: string, d: Declaration)
    requires OnPath(k, d) && GoodPath(d)
    ensures OnPath(ChildKey(k, d), d)
  {
    if PlacedAt(k, d) {
      var n := |d.wholepath| - 1;
      var front := d.wholepath[..n];
      assert d.wholepath == front + [d.last];
      JoinAppend(front, d.last);
      if n > 0 {
        assert forall x | x in front :: x in d.wholepath;
        JoinPrefixShorter(front, 0);
      }
      assert ChildKey(k, d) == Stretched(d, 0);
    } else {
      var j: nat :| k == Stretched(d, j);
      StretchedLong(d, j);
      assert ChildKey(k, d) == Stretched(d, j + 1);
    }
  }

  lemma JoinLonger(a: seq<string>, last: string)
    ensures Join(a) <= Join(a + [last])
  {
    JoinAppend(a, last);
    if a != [] { PrefixOf(Join(a), "." + last, Join(a + [last])); }
  }

  lemma PrefixOf(x: string, y: string, z: string)
    requires z == x + y
    ensures x <= z
  {
  }

  lemma {:induction false} JoinBegins(a: seq<string>, n: nat)
    requires n <= |a|
    ensures Join(a[..n]) <= Join(a)
    decreases |a| - n
  {
    hide *;
    if n == |a| {
      assert a[..n] == a;
    } else {
      assert a[..n + 1] == a[..n] + [a[n]];
      JoinLonger(a[..n], a[n]);
      JoinBegins(a, n + 1);
    }
  }

  lemma OnPathUnder(k: string, d: Declaration)
    requires OnPath(k, d)
    ensures Under(k, d)
  {
    if PlacedAt(k, d) {
      JoinBegins(d.wholepath, |d.wholepath| - 1);
      assert k <= Stretched(d, 0);
    } else {
      var j: nat :| k == Stretched(d, j);
      assert k <= Stretched(d, j);
    }
  }

  /** The keys spell the paths of the groups, and everything in them is on its path. */
  ghost predicate AllOnPath(table: Groups) {
    forall k | k in table ::
      && k == Join(table[k].keySegments)
      && forall d | d in table[k].declarations :: OnPath(k, d) && GoodPath(d)
  }

  ghost predicate AllUnder(table: Groups) {
    forall k | k in table ::
      && k == Join(table[k].keySegments)
      && forall d | d in table[k].declarations :: Under(k, d)
  }

  lemma {:induction false} FiledOnPath(keys: seq<string>, declarations: Table, steps: string -> nat)
    requires forall name :: EndsWithin(declarations, name, steps(name))
    requires forall k | k in keys :: k in declarations
    requires forall k | k in declarations && declarations[k].segments.Some? :: "" !in declarations[k].segments.value
    ensures AllOnPath(Filed(keys, declarations, steps).table)
  {
    if keys != [] {
      hide Grouped, EndsWithin, OnPath, GoodPath, Join;
      var n := |keys| - 1;
      FiledOnPath(keys[..n], declarations, steps);
      var d := declarations[keys[n]];
      if Grouped(d, declarations, steps).Some? {
        GroupedGood(d, declarations, steps);
      }
    }
  }

  lemma GroupedGood(d: Declaration, declarations: Table, steps: string -> nat)
    requires forall name :: EndsWithin(declarations, name, steps(name))
    requires forall k | k in declarations && declarations[k].segments.Some? :: "" !in declarations[k].segments.value
    requires d.segments.Some? ==> "" !in d.segments.value
    requires Grouped(d, declarations, steps).Some?
    ensures var x := Grouped(d, declarations, steps).value;
            GoodPath(x) && OnPath(Join(x.wholepath[..|x.wholepath| - 1]), x)
  {
    hide EndsWithin, Expand, Join;
    var first := d.segments.value[0];
    assert first in d.segments.value;
    ResolveExpands(d.segments.value, declarations, steps(first));
    NoEmptySegments(first, declarations, steps(first));
  }

  lemma PromotedOnPath(table: Groups, groupKey: string)
    requires AllOnPath(table) && groupKey in table
    ensures AllOnPath(Promoted(table, groupKey))
  {
    hide OnPath, GoodPath, Join, Promoted;
    var t := Promoted(table, groupKey);
    forall k | k in t
      ensures k in table && t[k].keySegments == table[k].keySegments
      ensures forall d | d in t[k].declarations :: OnPath(k, d) && GoodPath(d)
    {
      PromotedGroup(table, groupKey, k);
      forall d | d in t[k].declarations ensures OnPath(k, d) && GoodPath(d) {
        PromotedMember(table, groupKey, k, d);
      }
    }
  }

  lemma PromotedGroup(table: Groups, groupKey: string, k: string)
    requires groupKey in table && k in Promoted(table, groupKey)
    ensures k in table && Promoted(table, groupKey)[k].keySegments == table[k].keySegments
    ensures var ds := table[groupKey].declarations;
            Promoted(table, groupKey)[k].declarations ==
            if k == groupKey then Staying(table.Keys, groupKey, ds) else GoingTo(k, groupKey, ds) + table[k].declarations
  {
    hide Staying, GoingTo;
  }

  lemma PromotedMember(table: Groups, groupKey: string, k: string, d: Declaration)
    requires AllOnPath(table) && groupKey in table && k in Promoted(table, groupKey)
    requires d in Promoted(table, groupKey)[k].declarations
    ensures OnPath(k, d) && GoodPath(d)
  {
    PromotedGroup(table, groupKey, k);
    hide Staying, GoingTo, OnPath, GoodPath, Join, ChildKey, Promoted;
    var ds := table[groupKey].declarations;
    if k == groupKey {
      StayingMember(table.Keys, groupKey, ds, d);
    } else if d in GoingTo(k, groupKey, ds) {
      GoingMember(k, groupKey, ds, d);
      ChildOnPath(groupKey, d);
    } else {
      assert d in table[k].declarations;
    }
  }

  lemma {:induction false} PromotedAllOnPath(order: seq<string>, table: Groups)
    requires AllOnPath(table)
    ensures AllOnPath(PromotedAll(order, table))
  {
    if order != [] {
      hide Promoted, AllOnPath;
      var n := |order| - 1;
      PromotedAllOnPath(order[..n], table);
      var t := PromotedAll(order[..n], table);
      if order[n] in t { PromotedOnPath(t, order[n]); }
    }
  }

  lemma MergeTurnUnder(table: Groups, groupKey: string)
    requires AllUnder(table) && groupKey in table
    ensures AllUnder(MergeTurn(table, groupKey))
  {
    hide Under, Join, NearestAncestorKey;
    var g := table[groupKey];
    var ancestor := NearestAncestorKey(table.Keys, g.keySegments);
    if |g.declarations| == 1 && ancestor.Some? && ancestor.value in table {
      AncestorIsNearest(table.Keys, g.keySegments);
      var n: nat :| NearestAt(table.Keys, g.keySegments, ancestor.value, n);
      JoinBegins(g.keySegments, n);
      UnderShorter(ancestor.value, groupKey, g.declarations[0]);
    }
  }

  lemma UnderShorter(k: string, longer: string, d: Declaration)
    requires Under(longer, d) && k <= longer
    ensures Under(k, d)
  {
    var j: nat :| longer <= Stretched(d, j);
    assert k <= Stretched(d, j);
  }

  lemma {:induction false} MergeTurnsUnder(keys: seq<string>, table: Groups)
    requires AllUnder(table)
    ensures AllUnder(MergeTurns(keys, table))
  {
    if keys != [] {
      hide MergeTurn, AllUnder;
      var n := |keys| - 1;
      MergeTurnsUnder(keys[..n], table);
      var t := MergeTurns(keys[..n], table);
      if keys[n] in t { MergeTurnUnder(t, keys[n]); }
    }
  }

  lemma {:induction false} MergedAllUnder(g: Grouping)
    requires AllUnder(g.table)
    ensures AllUnder(MergedAll(g).table)
    decreases |g.order|
  {
    hide MergeTurns, AllUnder, Left;
    var t := MergeTurns(g.order, g.table);
    MergeTurnsUnder(g.order, g.table);
    if |Left(g.order, t.Keys)| < |g.order| { MergedAllUnder(Grouping(Left(g.order, t.Keys), t)); }
  }

  /** Every declaration ends in a group whose key begins its path, with the last segment repeated as
      often as it was promoted again. */
  lemma GroupsUnder(keys: seq<string>, declarations: Table, steps: string -> nat)
    requires forall name :: EndsWithin(declarations, name, steps(name))
    requires forall k | k in keys :: k in declarations
    requires forall k | k in declarations && declarations[k].segments.Some? :: "" !in declarations[k].segments.value
    ensures AllUnder(GroupsOf(keys, declarations, steps).table)
  {
    hide EndsWithin, Filed, PromotedAll, MergedAll, OnPath, Under, GoodPath, SortBy, Join;
    var filed := Filed(keys, declarations, steps);
    FiledOnPath(keys, declarations, steps);
    var promoted := PromotedAll(filed.order, filed.table);
    PromotedAllOnPath(filed.order, filed.table);
    forall k, d | k in promoted && d in promoted[k].declarations ensures Under(k, d) {
      OnPathUnder(k, d);
    }
    MergedAllUnder(filed.(table := promoted));
    var merged := MergedAll(filed.(table := promoted)).table;
    forall k, d | k in merged && d in SortBy(merged[k].declarations, DeclarationLe) ensures Under(k, d) {
      SortByPermutes(merged[k].declarations, DeclarationLe);
      assert d in multiset(merged[k].declarations);
    }
  }

  /** An item is promoted twice, say from group a to a.b and from there to a.b.b, if the groups with
      both keys have their turns in this order. */
  lemma PromotedAgain(table: Groups, k: string, d: Declaration)
    requires k in table && d in table[k].declarations && d.last != ""
    requires var child := ChildKey(k, d); child in table && ChildKey(child, d) in table
    ensures var child := ChildKey(k, d); d in Promoted(Promoted(table, k), child)[ChildKey(child, d)].declarations
  {
    var child := ChildKey(k, d);
    var t := Promoted(table, k);
    LongerKey(k, d);
    LongerKey(child, d);
    hide ChildKey, GoingTo, Staying;
    AllGoing(child, k, table[k].declarations, d);
    AllGoing(ChildKey(child, d), child, t[child].declarations, d);
  }

  lemma {:induction false} AllGoing(c: string, groupKey: string, ds: seq<Declaration>, d: Declaration)
    requires d in ds && ChildKey(groupKey, d) == c
    ensures d in GoingTo(c, groupKey, ds)
  {
    var n := |ds| - 1;
    if d != ds[n] {
      assert d in ds[..n];
      AllGoing(c, groupKey, ds[..n], d);
    }
  }
}
