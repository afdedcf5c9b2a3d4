/** Sorting by a comparison, as Array.prototype.sort does: stable. */
module StableSort {
  function InsertBy<T>(s: seq<T>, x: T, le: (T, T) -> bool): (t: seq<T>)
  {
    if s == [] then [x]
    else
      var n := |s| - 1;
      if le(s[n], x) then s + [x] else InsertBy(s[..n], x, le) + [s[n]]
  }

  function SortBy<T>(s: seq<T>, le: (T, T) -> bool): (t: seq<T>) {
    if s == [] then [] else InsertBy(SortBy(s[..|s| - 1], le), s[|s| - 1], le)
  }

  lemma {:induction false} InsertByPermutes<T>(s: seq<T>, x: T, le: (T, T) -> bool)
    ensures multiset(InsertBy(s, x, le)) == multiset(s) + multiset{x}
  {
    if s != [] {
      var n := |s| - 1;
      assert s == s[..n] + [s[n]];
      InsertByPermutes(s[..n], x, le);
    }
  }

  lemma {:induction false} SortByPermutes<T>(s: seq<T>, le: (T, T) -> bool)
    ensures multiset(SortBy(s, le)) == multiset(s)
  {
    if s != [] {
      var n := |s| - 1;
      assert s == s[..n] + [s[n]];
      SortByPermutes(s[..n], le);
      InsertByPermutes(SortBy(s[..n], le), s[n], le);
    }
  }

  ghost predicate TotalPreorder<T(!new)>(le: (T, T) -> bool) {
    && (forall x, y :: le(x, y) || le(y, x))
    && (forall x, y, z :: le(x, y) && le(y, z) ==> le(x, z))
  }

  ghost predicate SortedBy<T>(s: seq<T>, le: (T, T) -> bool) {
    forall i, j | 0 <= i < j < |s| :: le(s[i], s[j])
  }

  lemma StablyOrdered<T(!new)>(t: seq<T>, s: seq<T>, le: (T, T) -> bool)
    requires StablySorted(t, s, le)
    ensures SortedBy(t, le)
  {
  }

  lemma LeTotal<T(!new)>(le: (T, T) -> bool, x: T, y: T)
    requires TotalPreorder(le)
    ensures le(x, y) || le(y, x)
  {
  }

  lemma LeTransitive<T(!new)>(le: (T, T) -> bool, x: T, y: T, z: T)
    requires TotalPreorder(le) && le(x, y) && le(y, z)
    ensures le(x, z)
  {
  }

  lemma {:induction false} InsertByMember<T(!new)>(s: seq<T>, x: T, le: (T, T) -> bool)
    ensures forall y :: y in InsertBy(s, x, le) <==> y in s || y == x
  {
    if s != [] {
      var n := |s| - 1;
      InsertByMember(s[..n], x, le);
      assert forall y :: y in s <==> y in s[..n] || y == s[n];
    }
  }

  lemma AppendSorted<T>(s: seq<T>, x: T, le: (T, T) -> bool)
    requires SortedBy(s, le) && forall y | y in s :: le(y, x)
    ensures SortedBy(s + [x], le)
  {
    var t := s + [x];
    forall i, j | 0 <= i < j < |t| ensures le(t[i], t[j]) {
      assert t[i] == s[i] && s[i] in s;
    }
  }

  lemma {:induction false} InsertBySorted<T(!new)>(s: seq<T>, x: T, le: (T, T) -> bool)
    requires TotalPreorder(le) && SortedBy(s, le)
    ensures SortedBy(InsertBy(s, x, le), le)
  {
    hide TotalPreorder;
    if s == [] {
      AppendSorted(s, x, le);
    } else {
      var n := |s| - 1;
      if le(s[n], x) {
        forall y | y in s ensures le(y, x) {
          var i :| 0 <= i < |s| && s[i] == y;
          if i < n { LeTransitive(le, y, s[n], x); }
        }
        AppendSorted(s, x, le);
      } else {
        var t := InsertBy(s[..n], x, le);
        InsertBySorted(s[..n], x, le);
        InsertByMember(s[..n], x, le);
        LeTotal(le, s[n], x);
        forall y | y in t ensures le(y, s[n]) {
          if y != x {
            var i :| 0 <= i < n && s[..n][i] == y;
            assert s[i] == y;
          }
        }
        AppendSorted(t, s[n], le);
      }
    }
  }

  lemma {:induction false} SortBySorted<T(!new)>(s: seq<T>, le: (T, T) -> bool)
    requires TotalPreorder(le)
    ensures SortedBy(SortBy(s, le), le)
  {
    hide TotalPreorder;
    if s != [] {
      hide SortedBy;
      SortBySorted(s[..|s| - 1], le);
      InsertBySorted(SortBy(s[..|s| - 1], le), s[|s| - 1], le);
    }
  }

  /** The elements that compare equal to x, in order. */
  function Alike<T>(s: seq<T>, x: T, le: (T, T) -> bool): seq<T> {
    if s == [] then []
    else
      var n := |s| - 1;
      Alike(s[..n], x, le) + if le(x, s[n]) && le(s[n], x) then [s[n]] else []
  }

  /** t is s in order, with elements that compare equal in the order they had. */
  ghost predicate StablySorted<T(!new)>(t: seq<T>, s: seq<T>, le: (T, T) -> bool) {
    SortedBy(t, le) && multiset(t) == multiset(s) && forall x :: Alike(t, x, le) == Alike(s, x, le)
  }

  lemma StablyPermuted<T(!new)>(t: seq<T>, s: seq<T>, le: (T, T) -> bool)
    requires StablySorted(t, s, le)
    ensures multiset(t) == multiset(s)
  {
  }

  lemma AlikeSnoc<T(!new)>(s: seq<T>, x: T, z: T, le: (T, T) -> bool)
    ensures Alike(s + [x], z, le) == Alike(s, z, le) + if le(z, x) && le(x, z) then [x] else []
  {
    assert (s + [x])[..|s|] == s;
  }

  lemma {:induction false} InsertByStable<T(!new)>(s: seq<T>, x: T, z: T, le: (T, T) -> bool)
    requires TotalPreorder(le)
    ensures Alike(InsertBy(s, x, le), z, le) == Alike(s + [x], z, le)
  {
    hide TotalPreorder, Alike;
    if s == [] {
      assert s + [x] == [x];
    } else {
      var n := |s| - 1;
      if !le(s[n], x) {
        InsertByStable(s[..n], x, z, le);
        AlikeSnoc(InsertBy(s[..n], x, le), s[n], z, le);
        AlikeSnoc(s[..n], x, z, le);
        AlikeSnoc(s, x, z, le);
        AlikeSnoc(s[..n], s[n], z, le);
        assert s[..n] + [s[n]] == s;
        if le(s[n], z) && le(z, x) { LeTransitive(le, s[n], z, x); }
      }
    }
  }

  lemma {:induction false} SortByAlike<T(!new)>(s: seq<T>, z: T, le: (T, T) -> bool)
    requires TotalPreorder(le)
    ensures Alike(SortBy(s, le), z, le) == Alike(s, z, le)
  {
    hide TotalPreorder, Alike;
    if s != [] {
      var n := |s| - 1;
      SortByAlike(s[..n], z, le);
      InsertByStable(SortBy(s[..n], le), s[n], z, le);
      AlikeSnoc(SortBy(s[..n], le), s[n], z, le);
      AlikeSnoc(s[..n], s[n], z, le);
      assert s[..n] + [s[n]] == s;
    }
  }

  /** The sort is stable. */
  lemma SortByStable<T(!new)>(s: seq<T>, le: (T, T) -> bool)
    requires TotalPreorder(le)
    ensures StablySorted(SortBy(s, le), s, le)
  {
    hide TotalPreorder, Alike, SortBy, SortedBy;
    SortBySorted(s, le);
    SortByPermutes(s, le);
    forall z ensures Alike(SortBy(s, le), z, le) == Alike(s, z, le) {
      SortByAlike(s, z, le);
    }
  }

  /** a stands before b. */
  ghost predicate Before<T>(s: seq<T>, a: T, b: T) {
    exists i, j | 0 <= i < j < |s| :: s[i] == a && s[j] == b
  }

  lemma BeforeSnoc<T(!new)>(s: seq<T>, x: T)
    ensures forall a, b | Before(s, a, b) :: Before(s + [x], a, b)
    ensures forall a | a in s :: Before(s + [x], a, x)
  {
    var t := s + [x];
    forall a, b | Before(s, a, b) ensures Before(t, a, b) {
      var i, j :| 0 <= i < j < |s| && s[i] == a && s[j] == b;
      assert t[i] == a && t[j] == b;
    }
    forall a | a in s ensures Before(t, a, x) {
      var i :| 0 <= i < |s| && s[i] == a;
      assert t[i] == a && t[|s|] == x;
    }
  }

  lemma {:induction false} AlikeMember<T>(s: seq<T>, x: T, le: (T, T) -> bool)
    ensures forall y :: y in Alike(s, x, le) <==> y in s && le(x, y) && le(y, x)
  {
    if s != [] {
      var n := |s| - 1;
      AlikeMember(s[..n], x, le);
      assert forall y :: y in s <==> y in s[..n] || y == s[n];
    }
  }

  lemma {:induction false} AlikeBefore<T>(s: seq<T>, i: nat, j: nat, le: (T, T) -> bool)
    requires i < j < |s| && le(s[i], s[j]) && le(s[j], s[i]) && le(s[i], s[i])
    ensures Before(Alike(s, s[i], le), s[i], s[j])
  {
    var n := |s| - 1;
    var a, front := Alike(s, s[i], le), Alike(s[..n], s[i], le);
    if j < n {
      AlikeBefore(s[..n], i, j, le);
      var k, l :| 0 <= k < l < |front| && front[k] == s[i] && front[l] == s[j];
      assert a[k] == s[i] && a[l] == s[j];
    } else {
      AlikeMember(s[..n], s[i], le);
      assert s[..n][i] == s[i];
      var k :| 0 <= k < |front| && front[k] == s[i];
      assert a[k] == s[i] && a[|a| - 1] == s[j];
    }
  }

  lemma {:induction false} AlikeIncreases(s: seq<nat>, x: nat, le: (nat, nat) -> bool)
    requires forall i, j | 0 <= i < j < |s| :: s[i] < s[j]
    ensures forall i, j | 0 <= i < j < |Alike(s, x, le)| :: Alike(s, x, le)[i] < Alike(s, x, le)[j]
  {
    if s != [] {
      var n := |s| - 1;
      AlikeIncreases(s[..n], x, le);
      var a, front := Alike(s, x, le), Alike(s[..n], x, le);
      AlikeMember(s[..n], x, le);
      forall i, j | 0 <= i < j < |a| ensures a[i] < a[j] {
        assert a[i] == front[i];
        if j == |front| {
          assert front[i] in s[..n] && a[j] == s[n];
        } else {
          assert a[j] == front[j];
        }
      }
    }
  }

  /** A stable sort of increasing numbers keeps the smaller of two that compare equal in front. */
  lemma StableKeepsSmaller(t: seq<nat>, s: seq<nat>, le: (nat, nat) -> bool, a: nat, b: nat)
    requires TotalPreorder(le) && StablySorted(t, s, le)
    requires forall i, j | 0 <= i < j < |s| :: s[i] < s[j]
    requires Before(t, a, b) && le(b, a)
    ensures a < b
  {
    var i, j :| 0 <= i < j < |t| && t[i] == a && t[j] == b;
    AlikeBefore(t, i, j, le);
    AlikeIncreases(s, a, le);
  }

  /** The order of strings by their characters. */
  predicate StringLe(a: string, b: string) {
    a == "" || (b != "" && (a[0] < b[0] || (a[0] == b[0] && StringLe(a[1..], b[1..]))))
  }

  lemma {:induction false} StringLeTotal(a: string, b: string)
    ensures StringLe(a, b) || StringLe(b, a)
  {
    if a != "" && b != "" && a[0] == b[0] { StringLeTotal(a[1..], b[1..]); }
  }

  lemma {:induction false} StringLeTransitive(a: string, b: string, c: string)
    requires StringLe(a, b) && StringLe(b, c)
    ensures StringLe(a, c)
  {
    if a != "" && b != "" && c != "" && a[0] == b[0] == c[0] { StringLeTransitive(a[1..], b[1..], c[1..]); }
  }

  lemma {:induction false} StringLeAntisymmetric(a: string, b: string)
    requires StringLe(a, b) && StringLe(b, a)
    ensures a == b
  {
    if a != "" {
      StringLeAntisymmetric(a[1..], b[1..]);
      assert a == [a[0]] + a[1..] && b == [b[0]] + b[1..];
    }
  }

  lemma StringLePreorder()
    ensures TotalPreorder(StringLe)
  {
    forall a, b ensures StringLe(a, b) || StringLe(b, a) { StringLeTotal(a, b); }
    forall a, b, c | StringLe(a, b) && StringLe(b, c) ensures StringLe(a, c) { StringLeTransitive(a, b, c); }
  }

  /** The texts first differ at a smaller character of a. */
  ghost predicate DiffersSmaller(a: string, b: string) {
    exists i | 0 <= i < |a| && i < |b| :: a[..i] == b[..i] && a[i] < b[i]
  }

  lemma SameHead(c: char, a: string, b: string)
    ensures [c] + a <= [c] + b <==> a <= b
    ensures DiffersSmaller([c] + a, [c] + b) <==> DiffersSmaller(a, b)
  {
    var x, y := [c] + a, [c] + b;
    assert x[1..] == a && y[1..] == b;
    if DiffersSmaller(a, b) {
      var i :| 0 <= i < |a| && i < |b| && a[..i] == b[..i] && a[i] < b[i];
      assert x[..i + 1] == [c] + a[..i] && y[..i + 1] == [c] + b[..i];
      assert x[i + 1] < y[i + 1];
    }
    if DiffersSmaller(x, y) {
      var i :| 0 <= i < |x| && i < |y| && x[..i] == y[..i] && x[i] < y[i];
      assert i > 0;
      assert a[..i - 1] == x[..i][1..] && b[..i - 1] == y[..i][1..];
      assert a[i - 1] < b[i - 1];
    }
  }

  lemma OtherHead(a: string, b: string)
    requires a != "" && b != "" && a[0] != b[0]
    ensures !(a <= b) && (DiffersSmaller(a, b) <==> a[0] < b[0])
  {
    assert a[..0] == b[..0];
    forall i | 0 < i < |a| && i < |b| ensures a[..i] != b[..i] {
      assert a[..i][0] != b[..i][0];
    }
  }

  /** Where they first differ the smaller character decides; a text comes before its continuations. */
  lemma {:induction false} StringLeExactly(a: string, b: string)
    ensures StringLe(a, b) <==> a <= b || DiffersSmaller(a, b)
  {
    if a != "" && b != "" {
      if a[0] == b[0] {
        StringLeExactly(a[1..], b[1..]);
        SameHead(a[0], a[1..], b[1..]);
        assert a == [a[0]] + a[1..] && b == [b[0]] + b[1..];
      } else {
        OtherHead(a, b);
      }
      hide DiffersSmaller;
    }
  }
}
