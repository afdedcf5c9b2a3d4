/** The ES decorator engine of src/runtime.js, lines 231-314: one growing array holds the metadata
    and every list of initializers, and callers select lists in it by flag bits. */
module Decorators {
  import opened Wrappers

  /** A function value. */
  type Fn = int

  datatype Kind = Class | Method | Getter | Setter | Accessor | Field

  /** `flags & 7` for the kind, `flags & 8` for static. Codes above 5 are not generated. */
  function KindOf(flags: nat): Kind
    requires flags % 8 <= 5
  {
    match flags % 8
    case 0 => Class case 1 => Method case 2 => Getter case 3 => Setter case 4 => Accessor case _ => Field
  }

  predicate IsStatic(flags: nat) { flags / 8 % 2 == 1 }

  /** An accessor or a field: `k > 3`. */
  predicate HasOwnLists(k: Kind) { k.Accessor? || k.Field? }

  /** What is being decorated, as the decorator receives it. */
  datatype Subject = Function(f: Fn) | GetSet(getter: Fn, setter: Fn) | Nothing

  datatype Part = Undefined | Callable(f: Fn) | NotCallable

  datatype Returned = Value(part: Part) | Descriptor(getter: Part, setter: Part, init: Part)

  datatype Error = TypeError | Thrown(id: int)

  /** A call of `addInitializer`: of the decorator's own context, or of an older one it got hold of. */
  datatype Add = OwnAdd(fn: Part) | OldAdd(context: nat, fn: Part)

  datatype Behaviour = Behaviour(adds: seq<Add>, outcome: Result<Returned, Error>)

  type Decorator = Subject -> Behaviour

  // ---- What decorating one element means ------------------------------------------------------

  /** inits: the initializers in the order in which they will run. extras: what addInitializer was
      given. Decorators before the first error, counting from the last, have taken effect. */
  datatype Decorated = Decorated(subject: Subject, inits: seq<Fn>, extras: seq<Fn>, error: Option<Error>)

  function OwnAdds(adds: seq<Add>): seq<Fn> {
    if adds == [] then []
    else
      var n := |adds| - 1;
      OwnAdds(adds[..n]) + if adds[n].OwnAdd? && adds[n].fn.Callable? then [adds[n].fn.f] else []
  }

  function Replace(part: Part, f: Fn): Fn { if part.Callable? then part.f else f }

  /** What the element becomes when its decorator returns. */
  function Take(k: Kind, subject: Subject, inits: seq<Fn>, returned: Returned): Result<(Subject, seq<Fn>), Error>
    requires k.Accessor? <==> subject.GetSet?
  {
    if returned == Value(Undefined) then Success((subject, inits))
    else if k.Accessor? then
      if returned.Value? || returned.getter.NotCallable? || returned.setter.NotCallable? || returned.init.NotCallable? then
        Failure(TypeError)
      else
        Success((GetSet(Replace(returned.getter, subject.getter), Replace(returned.setter, subject.setter)),
                 (if returned.init.Callable? then [returned.init.f] else []) + inits))
    else if returned.Descriptor? || returned.part.NotCallable? then Failure(TypeError)
    else if k.Field? then Success((subject, [returned.part.f] + inits))
    else Success((Function(returned.part.f), inits))
  }

  /** Decorators apply from the last to the first, each to the result of the one behind it. */
  function Decorate(k: Kind, decorators: seq<Decorator>, subject: Subject): (r: Decorated)
    requires k.Accessor? <==> subject.GetSet?
    ensures k.Accessor? <==> r.subject.GetSet?
  {
    if decorators == [] then Decorated(subject, [], [], None)
    else DecorateFirst(k, decorators[0], Decorate(k, decorators[1..], subject))
  }

  function DecorateFirst(k: Kind, decorator: Decorator, behind: Decorated): (r: Decorated)
    requires k.Accessor? <==> behind.subject.GetSet?
    ensures k.Accessor? <==> r.subject.GetSet?
  {
    if behind.error.Some? then behind
    else
      var b := decorator(behind.subject);
      var extras := behind.extras + OwnAdds(b.adds);
      match b.outcome
      case Failure(e) => Decorated(behind.subject, behind.inits, extras, Some(e))
      case Success(returned) =>
        match Take(k, behind.subject, behind.inits, returned)
        case Failure(e) => Decorated(behind.subject, behind.inits, extras, Some(e))
        case Success((subject, inits)) => Decorated(subject, inits, extras, None)
  }

  // ---- The array ------------------------------------------------------------------------------

  datatype Slot = Hole | Metadata | Fns(fns: seq<Fn>)

  const START := [Hole, Hole, Hole, Metadata]

  function FnsOf(slot: Slot): seq<Fn> { if slot.Fns? then slot.fns else [] }

  /** Where the element's extra initializers go: class 0, static 1, instance 2, own lists at the end. */
  function ExtraSlot(slots: seq<Slot>, flags: nat): nat
    requires flags % 8 <= 5
  {
    if HasOwnLists(KindOf(flags)) then |slots| + 1
    else if KindOf(flags).Class? then 0
    else if IsStatic(flags) then 1
    else 2
  }

  /** The array after the element was decorated with the given result. */
  function Put(slots: seq<Slot>, flags: nat, d: Decorated): (r: seq<Slot>)
    requires flags % 8 <= 5 && |slots| >= 4
    ensures |r| == |slots| + if HasOwnLists(KindOf(flags)) then 2 else 0
  {
    if HasOwnLists(KindOf(flags)) then slots + [Fns(d.inits), Fns(d.extras)]
    else
      var j := ExtraSlot(slots, flags);
      slots[j := Fns(FnsOf(slots[j]) + d.extras)]
  }

  datatype Context = Context(slot: nat, done: bool)

  predicate AllDone(contexts: seq<Context>) { forall c | c in contexts :: c.done }

  predicate SlotsExist(contexts: seq<Context>, n: nat) { forall c | c in contexts :: c.slot < n }

  predicate WellFormedArray(slots: seq<Slot>) { |slots| >= 4 && slots[0] != Metadata && slots[1] != Metadata && slots[2] != Metadata }

  class Decorating {
    var slots: seq<Slot>
    var contexts: seq<Context>

    constructor DecoratorStart()
      ensures slots == START && contexts == []
    {
      slots := START;
      contexts := [];
    }

    /** `addInitializer` of a context. */
    method AddInitializer(context: nat, fn: Part) returns (r: Result<(), Error>)
      requires context < |contexts| && contexts[context].slot < |slots|
      modifies this`slots
      ensures r.Success? <==> !contexts[context].done && fn.Callable?
      ensures slots == if r.Success?
                       then var j := contexts[context].slot; old(slots)[j := Fns(FnsOf(old(slots[j])) + [fn.f])]
                       else old(slots)
    {
      var ctx := contexts[context];
      if ctx.done || !fn.Callable? { return Failure(TypeError); }
      slots := slots[ctx.slot := Fns(FnsOf(slots[ctx.slot]) + [fn.f])];
      r := Success(());
    }

    /** The calls of addInitializer that a decorator makes; own is its context, the newest one. */
    method MakeAdds(adds: seq<Add>, own: nat, j: nat)
      requires own + 1 == |contexts| && contexts[own] == Context(j, false)
      requires AllDone(contexts[..own]) && SlotsExist(contexts, |slots|)
      requires j < |slots| && slots[j].Fns?
      modifies this`slots
      ensures slots == old(slots)[j := Fns(old(slots[j]).fns + OwnAdds(adds))]
    {
      var n := 0;
      ghost var fns := slots[j].fns;
      assert fns + OwnAdds(adds[..0]) == fns;
      while n < |adds|
        invariant 0 <= n <= |adds|
        invariant slots == old(slots)[j := Fns(fns + OwnAdds(adds[..n]))]
      {
        assert adds[..n + 1][..n] == adds[..n];
        ghost var before := OwnAdds(adds[..n]);
        match adds[n] {
          case OwnAdd(fn) =>
            var r := AddInitializer(own, fn);
            if fn.Callable? { assert (fns + before) + [fn.f] == fns + (before + [fn.f]); }
          case OldAdd(c, fn) =>
            // Only contexts of decorators that have returned are older than its own
            if c < own {
              assert contexts[..own][c] in contexts[..own] && contexts[c] in contexts;
              var r := AddInitializer(c, fn);
            }
        }
        assert before + [] == before;
        n := n + 1;
      }
      assert adds[..n] == adds;
    }

    /** One turn of the loop in `__decorateElement`: the context is open during the call only, unless
        the decorator throws. */
    method ApplyDecorator(flags: nat, j: nat, decorator: Decorator, current: Subject, initializers: seq<Fn>,
                          ghost a: seq<Slot>, ghost d: Decorated)
      returns (r: Result<(Subject, seq<Fn>), Error>)
      requires flags % 8 <= 5 && WellFormedArray(a) && (KindOf(flags).Accessor? <==> current.GetSet?)
      requires j == ExtraSlot(a, flags)
      requires d.error.None? && d.subject == current && d.inits == initializers && slots == Put(a, flags, d)
      requires AllDone(contexts) && SlotsExist(contexts, |slots|)
      modifies this
      ensures var next := DecorateFirst(KindOf(flags), decorator, d);
              && slots == Put(a, flags, next)
              && r == match next.error
                      case None => Success((next.subject, next.inits))
                      case Some(e) => Failure(e)
      ensures contexts == old(contexts) + [Context(j, decorator(current).outcome.Success?)]
      ensures r.Success? ==> AllDone(contexts)
      ensures SlotsExist(contexts, |slots|)
    {
      hide Put, OwnAdds, Take;
      var k := KindOf(flags);
      PutSlots(a, flags, d);
      ghost var before := contexts;
      var own := |contexts|;
      contexts := contexts + [Context(j, false)];
      assert contexts[..own] == before;
      var b := decorator(current);
      MakeAdds(b.adds, own, j);
      PutExtras(a, flags, d, OwnAdds(b.adds));
      ghost var put := d.(extras := d.extras + OwnAdds(b.adds));
      if b.outcome.Failure? {
        PutSubject(a, flags, put, DecorateFirst(k, decorator, d));
        return Failure(b.outcome.error);
      }
      contexts := contexts[own := Context(j, true)];
      assert contexts == before + [Context(j, true)];
      r := Take(k, current, initializers, b.outcome.value);
      if r.Success? {
        PutInits(a, flags, put, r.value.1);
        PutSubject(a, flags, put.(inits := r.value.1), DecorateFirst(k, decorator, d));
        if HasOwnLists(k) { slots := slots[j - 1 := Fns(r.value.1)]; }
      } else {
        PutSubject(a, flags, put, DecorateFirst(k, decorator, d));
      }
    }

    /** The start of `__decorateElement`: empty lists, where there are none yet. */
    method OpenLists(flags: nat, ghost d: Decorated) returns (j: nat)
      requires flags % 8 <= 5 && WellFormedArray(slots) && SlotsExist(contexts, |slots|)
      requires d.inits == d.extras == []
      modifies this`slots
      ensures j == ExtraSlot(old(slots), flags) && slots == Put(old(slots), flags, d) && SlotsExist(contexts, |slots|)
    {
      var k := KindOf(flags);
      j := if HasOwnLists(k) then |slots| + 1 else if k.Class? then 0 else if IsStatic(flags) then 1 else 2;
      if HasOwnLists(k) { slots := slots + [Fns([])]; }
      if j == |slots| {
        slots := slots + [Fns([])];
      } else if slots[j] == Hole {
        slots := slots[j := Fns([])];
      }
      PutNothing(old(slots), flags, d, slots);
    }

    /** `__decorateElement`, for a class whose evaluation has not failed so far. */
    method DecorateElement(flags: nat, decorators: seq<Decorator>, subject: Subject) returns (r: Result<Subject, Error>)
      requires flags % 8 <= 5 && (KindOf(flags).Accessor? <==> subject.GetSet?)
      requires WellFormedArray(slots) && AllDone(contexts) && SlotsExist(contexts, |slots|)
      modifies this
      ensures var d := Decorate(KindOf(flags), decorators, subject);
              && slots == Put(old(slots), flags, d)
              && r == match d.error case None => Success(d.subject) case Some(e) => Failure(e)
      ensures r.Success? ==> AllDone(contexts)
      ensures SlotsExist(contexts, |slots|)
    {
      assert |slots| >= 4;
      hide *;
      var k := KindOf(flags);
      ghost var d := Decorated(subject, [], [], None);
      var j := OpenLists(flags, d);
      var current, initializers := subject, [];
      ghost var a := old(slots);
      var i := |decorators| - 1;
      assert decorators[i + 1..] == [];
      NothingDecorated(k, subject);
      while i >= 0
        invariant -1 <= i < |decorators|
        invariant d == Decorate(k, decorators[i + 1..], subject) && d.error.None?
        invariant current == d.subject && initializers == d.inits
        invariant slots == Put(a, flags, d) && AllDone(contexts) && SlotsExist(contexts, |slots|)
        decreases i
      {
        ghost var more := decorators[i..];
        assert more[0] == decorators[i] && more[1..] == decorators[i + 1..];
        DecorateOneMore(k, decorators, i, subject);
        var one := ApplyDecorator(flags, j, decorators[i], current, initializers, a, d);
        if one.Failure? { return Failure(one.error); }
        current, initializers := one.value.0, one.value.1;
        d := DecorateFirst(k, decorators[i], d);
        i := i - 1;
      }
      assert decorators[0..] == decorators;
      r := Success(current);
    }

    /** `__runInitializers`: an odd flag calls every function of the list on self; an even flag
        threads the value through them. */
    method RunInitializers<V>(flags: nat, value: V, call: (Fn, V) -> V) returns (r: V, called: seq<Fn>)
      ensures var fns := if flags / 2 < |slots| then FnsOf(slots[flags / 2]) else [];
              called == fns && r == if flags % 2 == 1 then value else Thread(fns, value, call)
    {
      r := value;
      called := [];
      var fns := if flags / 2 < |slots| then FnsOf(slots[flags / 2]) else [];
      var i := 0;
      while i < |fns|
        invariant 0 <= i <= |fns| && called == fns[..i]
        invariant r == if flags % 2 == 1 then value else Thread(fns[..i], value, call)
      {
        assert fns[..i + 1][..i] == fns[..i];
        called := called + [fns[i]];
        if flags % 2 == 0 { r := call(fns[i], r); }
        i := i + 1;
      }
      assert fns[..i] == fns;
    }
  }

  /** A value passed through f1, then f2, and so on. */
  function Thread<V>(fns: seq<Fn>, value: V, call: (Fn, V) -> V): V {
    if fns == [] then value
    else
      var n := |fns| - 1;
      call(fns[n], Thread(fns[..n], value, call))
  }

  // ---- How Put moves as a decorator takes effect ----------------------------------------------

  lemma PutNothing(a: seq<Slot>, flags: nat, d: Decorated, slots: seq<Slot>)
    requires flags % 8 <= 5 && WellFormedArray(a) && d.inits == d.extras == []
    requires var j := ExtraSlot(a, flags);
             slots == if HasOwnLists(KindOf(flags)) then a + [Fns([])] + [Fns([])]
                      else if a[j] == Hole then a[j := Fns([])] else a
    ensures slots == Put(a, flags, d)
  {
    var j := ExtraSlot(a, flags);
    if HasOwnLists(KindOf(flags)) {
      assert a + [Fns([])] + [Fns([])] == a + [Fns([]), Fns([])];
    } else if a[j] == Hole {
      assert FnsOf(a[j]) + d.extras == [];
    } else {
      assert a[j].fns + [] == a[j].fns;
      assert a[j := a[j]] == a;
    }
  }

  lemma PutSlots(a: seq<Slot>, flags: nat, d: Decorated)
    requires flags % 8 <= 5 && WellFormedArray(a)
    ensures var j := ExtraSlot(a, flags);
            j < |Put(a, flags, d)| && Put(a, flags, d)[j].Fns?
  {
  }

  lemma PutExtras(a: seq<Slot>, flags: nat, d: Decorated, adds: seq<Fn>)
    requires flags % 8 <= 5 && WellFormedArray(a)
    ensures var j := ExtraSlot(a, flags);
            && j < |Put(a, flags, d)|
            && Put(a, flags, d)[j := Fns(FnsOf(Put(a, flags, d)[j]) + adds)] ==
               Put(a, flags, d.(extras := d.extras + adds))
  {
    var j := ExtraSlot(a, flags);
    if !HasOwnLists(KindOf(flags)) {
      assert (FnsOf(a[j]) + d.extras) + adds == FnsOf(a[j]) + (d.extras + adds);
    }
  }

  lemma PutInits(a: seq<Slot>, flags: nat, d: Decorated, inits: seq<Fn>)
    requires flags % 8 <= 5 && WellFormedArray(a)
    ensures Put(a, flags, d.(inits := inits)) ==
            if HasOwnLists(KindOf(flags)) then Put(a, flags, d)[|a| := Fns(inits)] else Put(a, flags, d)
  {
  }

  /** Own lists go to the end, and no slot from 4 on is written again. */
  lemma PutOwn(a: seq<Slot>, flags: nat, d: Decorated)
    requires flags % 8 <= 5 && |a| >= 4
    ensures a[4..] <= Put(a, flags, d)[4..]
    ensures HasOwnLists(KindOf(flags)) ==>
              Put(a, flags, d)[|a|] == Fns(d.inits) && Put(a, flags, d)[|a| + 1] == Fns(d.extras)
  {
  }

  lemma PutSubject(a: seq<Slot>, flags: nat, d: Decorated, e: Decorated)
    requires flags % 8 <= 5 && WellFormedArray(a) && d.inits == e.inits && d.extras == e.extras
    ensures Put(a, flags, d) == Put(a, flags, e)
  {
  }

  lemma NothingDecorated(k: Kind, subject: Subject)
    requires k.Accessor? <==> subject.GetSet?
    ensures Decorate(k, [], subject) == Decorated(subject, [], [], None)
  {
  }

  lemma {:induction false} DecorateOneMore(k: Kind, decorators: seq<Decorator>, i: nat, subject: Subject)
    requires i < |decorators| && (k.Accessor? <==> subject.GetSet?)
    requires Decorate(k, decorators[i + 1..], subject).error.None?
    ensures Decorate(k, decorators[i..], subject) ==
            DecorateFirst(k, decorators[i], Decorate(k, decorators[i + 1..], subject))
    ensures Decorate(k, decorators[i..], subject).error.Some? ==>
              Decorate(k, decorators, subject) == Decorate(k, decorators[i..], subject)
  {
    assert decorators[i..][1..] == decorators[i + 1..];
    if Decorate(k, decorators[i..], subject).error.Some? {
      ErrorStays(k, decorators, i, subject);
    }
  }

  /** An error ends the application: the decorators in front do not take part. */
  lemma {:induction false} ErrorStays(k: Kind, decorators: seq<Decorator>, i: nat, subject: Subject)
    requires i <= |decorators| && (k.Accessor? <==> subject.GetSet?)
    requires Decorate(k, decorators[i..], subject).error.Some?
    ensures Decorate(k, decorators, subject) == Decorate(k, decorators[i..], subject)
    decreases i
  {
    if i > 0 {
      assert decorators[1..][i - 1..] == decorators[i..];
      ErrorStays(k, decorators[1..], i - 1, subject);
    } else {
      assert decorators[0..] == decorators;
    }
  }

  // ---- When an error arises -------------------------------------------------------------------

  predicate MayBe(part: Part) { part.Undefined? || part.Callable? }

  /** What a decorator may return: nothing; for an accessor, an object whose parts are functions or
      undefined; for anything else, a function. */
  predicate Allowed(k: Kind, r: Returned) {
    if k.Accessor? then r == Value(Undefined) || (r.Descriptor? && MayBe(r.getter) && MayBe(r.setter) && MayBe(r.init))
    else r.Value? && MayBe(r.part)
  }

  lemma TakeFails(k: Kind, subject: Subject, inits: seq<Fn>, r: Returned)
    requires k.Accessor? <==> subject.GetSet?
    ensures Take(k, subject, inits, r).Success? <==> Allowed(k, r)
    ensures Take(k, subject, inits, r).Failure? ==> Take(k, subject, inits, r).error == TypeError
  {
  }

  /** What decorator i does, given what those behind it have made. */
  function OutcomeAt(k: Kind, decorators: seq<Decorator>, subject: Subject, i: nat): Result<Returned, Error>
    requires i < |decorators| && (k.Accessor? <==> subject.GetSet?)
  {
    decorators[i](Decorate(k, decorators[i + 1..], subject).subject).outcome
  }

  predicate Takes(k: Kind, decorators: seq<Decorator>, subject: Subject, i: nat)
    requires i < |decorators| && (k.Accessor? <==> subject.GetSet?)
  {
    var outcome := OutcomeAt(k, decorators, subject, i);
    outcome.Success? && Allowed(k, outcome.value)
  }

  function ErrorOf(outcome: Result<Returned, Error>): Error {
    match outcome case Failure(e) => e case Success(_) => TypeError
  }

  /** The first decorator comes last. */
  lemma FirstTakes(k: Kind, decorators: seq<Decorator>, subject: Subject)
    requires decorators != [] && (k.Accessor? <==> subject.GetSet?)
    ensures var behind := Decorate(k, decorators[1..], subject).error;
            Decorate(k, decorators, subject).error ==
            if behind.Some? then behind
            else if Takes(k, decorators, subject, 0) then None
            else Some(ErrorOf(OutcomeAt(k, decorators, subject, 0)))
  {
    var behind := Decorate(k, decorators[1..], subject);
    var outcome := decorators[0](behind.subject).outcome;
    if outcome.Success? { TakeFails(k, behind.subject, behind.inits, outcome.value); }
    hide Take, Allowed, OwnAdds;
  }

  /** The error is that of the last decorator that does not return something allowed: what it threw,
      or a TypeError. */
  lemma {:induction false} ErrorExactly(k: Kind, decorators: seq<Decorator>, subject: Subject, i: nat)
    requires i < |decorators| && (k.Accessor? <==> subject.GetSet?)
    requires forall j | i < j < |decorators| :: Takes(k, decorators, subject, j)
    ensures if Takes(k, decorators, subject, i) then Decorate(k, decorators[i..], subject).error.None?
            else Decorate(k, decorators, subject).error == Some(ErrorOf(OutcomeAt(k, decorators, subject, i)))
    decreases |decorators| - i
  {
    var behind := decorators[i..];
    assert behind[1..] == decorators[i + 1..] && behind[0] == decorators[i];
    FirstTakes(k, behind, subject);
    assert Takes(k, behind, subject, 0) == Takes(k, decorators, subject, i);
    if i + 1 < |decorators| {
      ErrorExactly(k, decorators, subject, i + 1);
    } else {
      NothingDecorated(k, subject);
    }
    hide Takes, OutcomeAt;
    if !Takes(k, decorators, subject, i) {
      ErrorStays(k, decorators, i, subject);
    }
  }

  /** There is no error exactly if every decorator returns something allowed. */
  lemma NoErrorExactly(k: Kind, decorators: seq<Decorator>, subject: Subject)
    requires k.Accessor? <==> subject.GetSet?
    ensures Decorate(k, decorators, subject).error.None? <==> forall i | 0 <= i < |decorators| :: Takes(k, decorators, subject, i)
  {
    hide Decorate, Takes, OutcomeAt;
    var i := |decorators|;
    NothingDecorated(k, subject);
    i := LastRefused(k, decorators, subject, i);
    assert decorators[0..] == decorators;
    if i > 0 {
      ErrorExactly(k, decorators, subject, i - 1);
    } else if decorators != [] {
      ErrorExactly(k, decorators, subject, 0);
    }
  }

  /** One past the last decorator below n that does not return something allowed, or 0. */
  lemma LastRefused(k: Kind, decorators: seq<Decorator>, subject: Subject, n: nat) returns (i: nat)
    requires n <= |decorators| && (k.Accessor? <==> subject.GetSet?)
    ensures i <= n && (i > 0 ==> !Takes(k, decorators, subject, i - 1))
    ensures forall j | i <= j < n :: Takes(k, decorators, subject, j)
  {
    i := n;
    if n > 0 && Takes(k, decorators, subject, n - 1) { i := LastRefused(k, decorators, subject, n - 1); }
  }

  // ---- Order of application -------------------------------------------------------------------

  /** What the decorators of a field return, in their order, leaving out the undefined results. */
  function FieldInits(decorators: seq<Decorator>): seq<Fn> {
    if decorators == [] then []
    else
      var outcome := decorators[0](Nothing).outcome;
      (match outcome
       case Success(Value(Callable(f))) => [f]
       case _ => [])
      + FieldInits(decorators[1..])
  }

  /** A field's initializers run in the order of its decorators, though those applied in reverse;
      so the first decorator's function sees the value first. */
  lemma {:induction false} FieldInitsInOrder(decorators: seq<Decorator>)
    ensures var d := Decorate(Field, decorators, Nothing);
            d.error.None? ==> d.subject == Nothing && d.inits == FieldInits(decorators)
  {
    if decorators != [] {
      FieldInitsInOrder(decorators[1..]);
    }
  }

  /** The functions that a method's decorators turn it into: d1(d2(...dm(f))), where an undefined
      result passes on what the decorator was given. */
  function Compose(decorators: seq<Decorator>, f: Fn): Fn {
    if decorators == [] then f
    else
      var g := Compose(decorators[1..], f);
      match decorators[0](Function(g)).outcome
      case Success(Value(Callable(h))) => h
      case _ => g
  }

  lemma {:induction false} MethodComposed(k: Kind, decorators: seq<Decorator>, f: Fn)
    requires k.Class? || k.Method? || k.Getter? || k.Setter?
    ensures var d := Decorate(k, decorators, Function(f));
            d.error.None? ==> d.subject == Function(Compose(decorators, f)) && d.inits == []
  {
    if decorators != [] {
      MethodComposed(k, decorators[1..], f);
    }
  }

  /** An accessor's final part is that of the first decorator that returned one; each decorator was
      given what those behind it had made. */
  function FirstPart(decorators: seq<Decorator>, subject: Subject, select: Returned -> Part, otherwise: Fn): Fn
    requires subject.GetSet?
  {
    if decorators == [] then otherwise
    else
      var outcome := decorators[0](Decorate(Accessor, decorators[1..], subject).subject).outcome;
      if outcome.Success? && outcome.value.Descriptor? && select(outcome.value).Callable? then select(outcome.value).f
      else FirstPart(decorators[1..], subject, select, otherwise)
  }

  /** The init functions that an accessor's decorators return, in the order of the decorators. */
  function AccessorInits(decorators: seq<Decorator>, subject: Subject): seq<Fn>
    requires subject.GetSet?
  {
    if decorators == [] then []
    else
      var outcome := decorators[0](Decorate(Accessor, decorators[1..], subject).subject).outcome;
      (if outcome.Success? && outcome.value.Descriptor? && outcome.value.init.Callable? then [outcome.value.init.f] else [])
      + AccessorInits(decorators[1..], subject)
  }

  function GetterOf(r: Returned): Part { if r.Descriptor? then r.getter else Undefined }
  function SetterOf(r: Returned): Part { if r.Descriptor? then r.setter else Undefined }

  lemma {:induction false} AccessorComposed(decorators: seq<Decorator>, g: Fn, s: Fn)
    ensures var d := Decorate(Accessor, decorators, GetSet(g, s));
            d.error.None? ==>
              && d.subject == GetSet(FirstPart(decorators, GetSet(g, s), GetterOf, g), FirstPart(decorators, GetSet(g, s), SetterOf, s))
              && d.inits == AccessorInits(decorators, GetSet(g, s))
  {
    if decorators != [] {
      AccessorComposed(decorators[1..], g, s);
    }
  }

  /** What the decorators of an element pass to addInitializer: the last decorator's come first. */
  function AllAdds(k: Kind, decorators: seq<Decorator>, subject: Subject): seq<Fn>
    requires k.Accessor? <==> subject.GetSet?
  {
    if decorators == [] then []
    else AllAdds(k, decorators[1..], subject)
         + OwnAdds(decorators[0](Decorate(k, decorators[1..], subject).subject).adds)
  }

  lemma {:induction false} ExtrasAreAllAdds(k: Kind, decorators: seq<Decorator>, subject: Subject)
    requires k.Accessor? <==> subject.GetSet?
    ensures var d := Decorate(k, decorators, subject);
            d.error.None? ==> d.extras == AllAdds(k, decorators, subject)
  {
    if decorators != [] {
      ExtrasAreAllAdds(k, decorators[1..], subject);
    }
  }

  // ---- Slots over a whole class ---------------------------------------------------------------

  datatype Element = Element(flags: nat, decorators: seq<Decorator>, subject: Subject)

  predicate ValidElement(e: Element) {
    e.flags % 8 <= 5 && (KindOf(e.flags).Accessor? <==> e.subject.GetSet?)
  }

  predicate OwnsLists(e: Element)
    requires ValidElement(e)
  {
    HasOwnLists(KindOf(e.flags))
  }

  function DecoratedElement(e: Element): Decorated
    requires ValidElement(e)
  {
    Decorate(KindOf(e.flags), e.decorators, e.subject)
  }

  /** The array after any sequence of elements. */
  function Arrays(elements: seq<Element>): (r: seq<Slot>)
    requires forall e | e in elements :: ValidElement(e)
    ensures |r| >= 4
  {
    if elements == [] then START
    else
      var n := |elements| - 1;
      Put(Arrays(elements[..n]), elements[n].flags, DecoratedElement(elements[n]))
  }

  function ListOwners(elements: seq<Element>): nat
    requires forall e | e in elements :: ValidElement(e)
  {
    if elements == [] then 0
    else
      var n := |elements| - 1;
      ListOwners(elements[..n]) + if OwnsLists(elements[n]) then 1 else 0
  }

  /** All that elements sharing the extra slot q gave to addInitializer, in order. */
  function Shared(elements: seq<Element>, q: nat): seq<Fn>
    requires forall e | e in elements :: ValidElement(e)
  {
    if elements == [] then []
    else
      var n := |elements| - 1;
      Shared(elements[..n], q)
      + if !OwnsLists(elements[n]) && ExtraSlot(START, elements[n].flags) == q then DecoratedElement(elements[n]).extras
        else []
  }

  lemma {:induction false} ArrayShape(elements: seq<Element>)
    requires forall e | e in elements :: ValidElement(e)
    ensures WellFormedArray(Arrays(elements)) && Arrays(elements)[3] == Metadata
    ensures |Arrays(elements)| == 4 + 2 * ListOwners(elements)
    ensures forall q | 0 <= q < 3 :: FnsOf(Arrays(elements)[q]) == Shared(elements, q)
  {
    hide Decorate;
    if elements != [] {
      ArrayShape(elements[..|elements| - 1]);
    }
  }

  /** What the elements whose flags satisfy of gave to addInitializer, in order. */
  function ExtrasOf(elements: seq<Element>, of: nat -> bool): seq<Fn>
    requires forall e | e in elements :: ValidElement(e)
  {
    if elements == [] then []
    else
      var n := |elements| - 1;
      ExtrasOf(elements[..n], of) + if of(elements[n].flags) then DecoratedElement(elements[n]).extras else []
  }

  function ClassFlags(): nat -> bool { (flags: nat) => flags % 8 == 0 }
  function StaticFlags(): nat -> bool { (flags: nat) => 1 <= flags % 8 <= 3 && flags / 8 % 2 == 1 }
  function InstanceFlags(): nat -> bool { (flags: nat) => 1 <= flags % 8 <= 3 && flags / 8 % 2 == 0 }

  lemma {:induction false} SharedByFlags(elements: seq<Element>)
    requires forall e | e in elements :: ValidElement(e)
    ensures Shared(elements, 0) == ExtrasOf(elements, ClassFlags())
    ensures Shared(elements, 1) == ExtrasOf(elements, StaticFlags())
    ensures Shared(elements, 2) == ExtrasOf(elements, InstanceFlags())
  {
    hide Decorate;
    if elements != [] {
      var n := |elements| - 1;
      assert elements[n] in elements;
      SharedByFlags(elements[..n]);
    }
  }

  /** Slot 0 holds what the decorators of the class gave to addInitializer; slot 1, those of its static
      methods, getters and setters; slot 2, those of its other ones. */
  lemma SharedSlots(elements: seq<Element>)
    requires forall e | e in elements :: ValidElement(e)
    ensures |Arrays(elements)| >= 4
    ensures FnsOf(Arrays(elements)[0]) == ExtrasOf(elements, ClassFlags())
    ensures FnsOf(Arrays(elements)[1]) == ExtrasOf(elements, StaticFlags())
    ensures FnsOf(Arrays(elements)[2]) == ExtrasOf(elements, InstanceFlags())
  {
    ArrayShape(elements);
    SharedByFlags(elements);
  }

  lemma KeepSlots(a: seq<Slot>, b: seq<Slot>, n: nat)
    requires |a| >= 4 && |b| >= 4 && a[4..] <= b[4..] && 5 + 2 * n < |a|
    ensures 5 + 2 * n < |b| && b[4 + 2 * n] == a[4 + 2 * n] && b[5 + 2 * n] == a[5 + 2 * n]
  {
    assert a[4..][2 * n] == b[4..][2 * n] && a[4..][2 * n + 1] == b[4..][2 * n + 1];
  }

  /** The n-th accessor or field owns the slots 4 + 2n and 5 + 2n for good: however many elements
      follow, they hold its initializers and its extra initializers. */
  lemma {:induction false} OwnedSlots(elements: seq<Element>, c: nat)
    requires forall e | e in elements :: ValidElement(e)
    requires c < |elements| && OwnsLists(elements[c])
    ensures var n := ListOwners(elements[..c]);
            && 5 + 2 * n < |Arrays(elements)|
            && Arrays(elements)[4 + 2 * n] == Fns(DecoratedElement(elements[c]).inits)
            && Arrays(elements)[5 + 2 * n] == Fns(DecoratedElement(elements[c]).extras)
  {
    hide Decorate, ListOwners, Shared, Put;
    var last := |elements| - 1;
    ArrayShape(elements[..last]);
    PutOwn(Arrays(elements[..last]), elements[last].flags, DecoratedElement(elements[last]));
    if c < last {
      OwnedSlots(elements[..last], c);
      assert elements[..last][..c] == elements[..c];
      KeepSlots(Arrays(elements[..last]), Arrays(elements), ListOwners(elements[..c]));
    }
  }

  /** How many elements have the kind accessor (4) or field (5). */
  function OwnersByFlags(elements: seq<Element>): nat {
    if elements == [] then 0
    else
      var n := |elements| - 1;
      OwnersByFlags(elements[..n]) + if elements[n].flags % 8 >= 4 then 1 else 0
  }

  lemma {:induction false} OwnersCounted(elements: seq<Element>)
    requires forall e | e in elements :: ValidElement(e)
    ensures ListOwners(elements) == OwnersByFlags(elements)
  {
    if elements != [] {
      assert elements[|elements| - 1] in elements;
      OwnersCounted(elements[..|elements| - 1]);
    }
  }

  /** The initializers of a field or an accessor, by its flags: what its decorators returned, in order. */
  lemma OwnInitsByFlags(elements: seq<Element>, c: nat)
    requires forall e | e in elements :: ValidElement(e)
    requires c < |elements| && elements[c].flags % 8 >= 4 && DecoratedElement(elements[c]).error.None?
    requires elements[c].flags % 8 == 5 ==> elements[c].subject == Nothing
    ensures var n, e := OwnersByFlags(elements[..c]), elements[c];
            && 4 + 2 * n < |Arrays(elements)| && (e.flags % 8 == 4 ==> e.subject.GetSet?)
            && Arrays(elements)[4 + 2 * n] ==
               Fns(if e.flags % 8 == 5 then FieldInits(e.decorators) else AccessorInits(e.decorators, e.subject))
  {
    hide *;
    var e := elements[c];
    assert e in elements && ValidElement(e);
    OwnInits(e);
    OwnersCounted(elements[..c]);
    OwnedSlots(elements, c);
  }

  lemma OwnInits(e: Element)
    requires ValidElement(e) && e.flags % 8 >= 4 && DecoratedElement(e).error.None?
    requires e.flags % 8 == 5 ==> e.subject == Nothing
    ensures OwnsLists(e) && (e.flags % 8 == 4 ==> e.subject.GetSet?)
    ensures DecoratedElement(e).inits ==
            if e.flags % 8 == 5 then FieldInits(e.decorators) else AccessorInits(e.decorators, e.subject)
  {
    if e.flags % 8 == 5 {
      FieldInitsInOrder(e.decorators);
    } else {
      AccessorComposed(e.decorators, e.subject.getter, e.subject.setter);
    }
    hide Decorate, FieldInits, AccessorInits, FirstPart;
  }

  /** The flags 8 + 4n and 11 + 4n select exactly these two lists; 1, 3 and 5 the shared ones. */
  lemma FlagsSelect(n: nat)
    ensures (8 + 4 * n) / 2 == 4 + 2 * n && (8 + 4 * n) % 2 == 0
    ensures (11 + 4 * n) / 2 == 5 + 2 * n && (11 + 4 * n) % 2 == 1
  {
  }

  /** All elements of a class, up to the first error. */
  method DecorateAll(elements: seq<Element>) returns (decorating: Decorating, ok: bool)
    requires forall e | e in elements :: ValidElement(e)
    ensures fresh(decorating)
    ensures ok <==> forall e | e in elements :: DecoratedElement(e).error.None?
    ensures ok ==> decorating.slots == Arrays(elements)
  {
    hide Decorate, Put, Shared, OwnsLists;
    decorating := new Decorating.DecoratorStart();
    var i := 0;
    while i < |elements|
      invariant 0 <= i <= |elements| && fresh(decorating)
      invariant AllDone(decorating.contexts) && SlotsExist(decorating.contexts, |decorating.slots|)
      invariant decorating.slots == Arrays(elements[..i])
      invariant forall q | 0 <= q < i :: DecoratedElement(elements[q]).error.None?
    {
      ArrayShape(elements[..i]);
      assert elements[..i + 1][..i] == elements[..i];
      var e := elements[i];
      assert e in elements;
      var one := decorating.DecorateElement(e.flags, e.decorators, e.subject);
      if one.Failure? {
        assert DecoratedElement(e).error.Some?;
        return decorating, false;
      }
      i := i + 1;
    }
    assert elements[..i] == elements;
    ok := true;
  }

  /** Creating an instance: the n-th accessor or field, given its initial value, runs its own
      initializers over the value and calls its own extra initializers, whatever else is decorated. */
  method InitializeField<V>(elements: seq<Element>, c: nat, value: V, call: (Fn, V) -> V)
    returns (decorating: Decorating, ok: bool, r: V, extras: seq<Fn>)
    requires forall e | e in elements :: ValidElement(e)
    requires c < |elements| && OwnsLists(elements[c])
    ensures fresh(decorating)
    ensures ok <==> forall e | e in elements :: DecoratedElement(e).error.None?
    ensures ok ==> decorating.slots == Arrays(elements)
    ensures ok ==> r == Thread(DecoratedElement(elements[c]).inits, value, call)
    ensures ok ==> extras == DecoratedElement(elements[c]).extras
  {
    hide Decorate, Put, Shared, OwnsLists, Arrays, Thread;
    r, extras := value, [];
    decorating, ok := DecorateAll(elements);
    if ok {
      var n := ListOwners(elements[..c]);
      OwnedSlots(elements, c);
      FlagsSelect(n);
      var called, same;
      r, called := decorating.RunInitializers(8 + 4 * n, value, call);
      same, extras := decorating.RunInitializers(11 + 4 * n, value, call);
    }
  }

  /** The flags 1, 3 and 5 call the shared lists: for the class itself, for its static methods, getters
      and setters, and, with each new instance, for the other ones. */
  method RunShared<V>(elements: seq<Element>, value: V, call: (Fn, V) -> V)
    returns (decorating: Decorating, ok: bool, class': seq<Fn>, static': seq<Fn>, instance: seq<Fn>)
    requires forall e | e in elements :: ValidElement(e)
    ensures fresh(decorating)
    ensures ok <==> forall e | e in elements :: DecoratedElement(e).error.None?
    ensures ok ==> class' == ExtrasOf(elements, ClassFlags())
    ensures ok ==> static' == ExtrasOf(elements, StaticFlags())
    ensures ok ==> instance == ExtrasOf(elements, InstanceFlags())
  {
    hide Decorate, Put, Shared, OwnsLists, Arrays, Thread, ExtrasOf;
    class', static', instance := [], [], [];
    decorating, ok := DecorateAll(elements);
    if ok {
      SharedSlots(elements);
      var same;
      same, class' := decorating.RunInitializers(1, value, call);
      same, static' := decorating.RunInitializers(3, value, call);
      same, instance := decorating.RunInitializers(5, value, call);
    }
  }

  /** The addInitializer of a decorator that threw, called afterwards: its context was never closed,
      so the function goes to the element's extra initializers all the same. */
  method AddAfterThrow(flags: nat, decorator: Decorator, subject: Subject, fn: Fn)
    returns (decorating: Decorating, r: Result<(), Error>)
    requires flags % 8 <= 5 && (KindOf(flags).Accessor? <==> subject.GetSet?)
    requires decorator(subject).outcome.Failure?
    ensures fresh(decorating) && r.Success?
    ensures var d := Decorate(KindOf(flags), [decorator], subject);
            d.error.Some? && decorating.slots == Put(START, flags, d.(extras := d.extras + [fn]))
  {
    hide Put, ExtraSlot;
    decorating := new Decorating.DecoratorStart();
    ghost var none := Decorated(subject, [], [], None);
    var j := decorating.OpenLists(flags, none);
    var one := decorating.ApplyDecorator(flags, j, decorator, subject, [], START, none);
    assert [decorator][1..] == [];
    ghost var d := DecorateFirst(KindOf(flags), decorator, none);
    assert decorating.contexts[0] in decorating.contexts;
    r := decorating.AddInitializer(0, Callable(fn));
    PutExtras(START, flags, d, [fn]);
  }
}
