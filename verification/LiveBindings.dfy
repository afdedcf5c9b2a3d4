/** Module namespaces of src/runtime.js, lines 18-100: `__reExport`, `__toESM` and `__toCommonJS`
    define getters into the source module and cache their results. */
module LiveBindings {
  import opened Wrappers

  type ObjectId = nat
  type Key = string

  const DEFAULT := "default"
  const ES_MODULE := "__esModule"

  datatype Value = Undefined | Primitive(truthy: bool, n: int) | Ref(o: ObjectId)

  predicate Truthy(v: Value) { v.Ref? || (v.Primitive? && v.truthy) }

  /** `get: __accessProp.bind(source, key)` has no setter. */
  datatype Definition = Data(value: Value, writable: bool) | Getter(source: ObjectId, key: Key)

  /** stamp: when the property was defined. */
  datatype Property = Property(stamp: nat, definition: Definition)

  /** keys: the own property names in order. Prototypes are left out. */
  datatype Obj = Obj(isFunction: bool, keys: seq<Key>, properties: map<Key, Property>)

  datatype Heap = Heap(objects: seq<Obj>, clock: nat,
                       nodeCache: map<ObjectId, ObjectId>, esmCache: map<ObjectId, ObjectId>,
                       commonJsCache: map<ObjectId, ObjectId>)

  predicate Has(h: Heap, o: ObjectId, k: Key)
    requires o < |h.objects|
  {
    k in h.objects[o].properties
  }

  function Def(h: Heap, o: ObjectId, k: Key): Definition
    requires o < |h.objects| && Has(h, o, k)
  {
    h.objects[o].properties[k].definition
  }

  function Stamp(h: Heap, o: ObjectId, k: Key): nat
    requires o < |h.objects| && Has(h, o, k)
  {
    h.objects[o].properties[k].stamp
  }

  /** A getter points to a property that was defined before it, so reading ends even where modules
      re-export each other. */
  ghost predicate PropertyRight(h: Heap, o: ObjectId, k: Key) {
    o < |h.objects| && Has(h, o, k) ==>
      && Stamp(h, o, k) < h.clock
      && (Def(h, o, k).Getter? ==>
            var d := Def(h, o, k);
            d.source < |h.objects| && Has(h, d.source, d.key) && Stamp(h, d.source, d.key) < Stamp(h, o, k))
  }

  ghost predicate KeysRight(obj: Obj) { forall k :: k in obj.keys <==> k in obj.properties }

  ghost predicate WellFormed(h: Heap) {
    && (forall o | 0 <= o < |h.objects| :: KeysRight(h.objects[o]))
    && (forall o: ObjectId, k: Key :: PropertyRight(h, o, k))
  }

  ghost function Read(h: Heap, o: ObjectId, k: Key): Value
    requires WellFormed(h) && o < |h.objects|
    decreases if Has(h, o, k) then Stamp(h, o, k) + 1 else 0
  {
    if !Has(h, o, k) then Undefined
    else
      assert PropertyRight(h, o, k);
      match Def(h, o, k)
      case Data(v, _) => v
      case Getter(source, key) => Read(h, source, key)
  }

  /** k of the view reads the source's k. */
  predicate Bound(h: Heap, view: ObjectId, source: ObjectId, k: Key) {
    view < |h.objects| && Has(h, view, k) && Def(h, view, k) == Getter(source, k)
  }

  /** The property is still there, and unless it is a writable value it is the same. */
  ghost predicate PropertyKept(h: Heap, t: Heap, o: ObjectId, k: Key) {
    o < |h.objects| && Has(h, o, k) ==>
      && o < |t.objects| && Has(t, o, k) && Stamp(t, o, k) == Stamp(h, o, k)
      && (Def(h, o, k).Getter? || !Def(h, o, k).writable ==> Def(t, o, k) == Def(h, o, k))
      && (Def(h, o, k).Data? ==> Def(t, o, k).Data?)
  }

  ghost predicate CacheKept(c: map<ObjectId, ObjectId>, d: map<ObjectId, ObjectId>) {
    forall m | m in c :: m in d && d[m] == c[m]
  }

  /** What any later state has kept: objects, getters, constants and cache entries. */
  ghost predicate Later(h: Heap, t: Heap) {
    && |h.objects| <= |t.objects| && h.clock <= t.clock
    && (forall o | 0 <= o < |h.objects| :: t.objects[o].isFunction == h.objects[o].isFunction)
    && (forall o: ObjectId, k: Key :: PropertyKept(h, t, o, k))
    && CacheKept(h.nodeCache, t.nodeCache) && CacheKept(h.esmCache, t.esmCache) && CacheKept(h.commonJsCache, t.commonJsCache)
  }

  /** A node-mode view has the module itself as its constant default; the two modes never share a
      view; a CommonJS view is marked as an ES module. */
  ghost predicate CachesRight(h: Heap) {
    && (forall m | m in h.nodeCache :: IsConstant(h, h.nodeCache[m], DEFAULT, Ref(m)))
    && (forall m | m in h.esmCache :: h.esmCache[m] < |h.objects|)
    && (forall m, n | m in h.nodeCache && n in h.esmCache :: h.nodeCache[m] != h.esmCache[n])
    && (forall m | m in h.commonJsCache :: IsConstant(h, h.commonJsCache[m], ES_MODULE, TRUE))
  }

  const TRUE := Primitive(true, 1)

  predicate IsConstant(h: Heap, o: ObjectId, k: Key, v: Value) {
    o < |h.objects| && Has(h, o, k) && Def(h, o, k) == Data(v, false)
  }

  // ---- Single definitions ---------------------------------------------------------------------

  /** Defining a property that the object does not have. */
  function Define(h: Heap, o: ObjectId, k: Key, d: Definition): Heap
    requires o < |h.objects|
  {
    var obj := h.objects[o];
    h.(objects := h.objects[o := obj.(keys := obj.keys + [k], properties := obj.properties[k := Property(h.clock, d)])],
       clock := h.clock + 1)
  }

  /** A new definition, or a new value of a variable, leaves all else as it was. */
  lemma ChangeKeeps(h: Heap, t: Heap, o: ObjectId, k: Key)
    requires WellFormed(h) && CachesRight(h) && o < |h.objects| == |t.objects| && Has(t, o, k)
    requires t == h.(objects := t.objects, clock := t.clock) && h.clock <= t.clock
    requires KeysRight(t.objects[o]) && t.objects[o].isFunction == h.objects[o].isFunction
    requires forall p | 0 <= p < |h.objects| && p != o :: t.objects[p] == h.objects[p]
    requires forall l | l != k :: (l in t.objects[o].properties <==> l in h.objects[o].properties)
               && (l in h.objects[o].properties ==> t.objects[o].properties[l] == h.objects[o].properties[l])
    requires PropertyKept(h, t, o, k) && PropertyRight(t, o, k)
    ensures WellFormed(t) && CachesRight(t) && Later(h, t)
  {
    forall p: ObjectId, l: Key ensures PropertyKept(h, t, p, l) {
    }
    forall p: ObjectId, l: Key ensures PropertyRight(t, p, l) {
      assert PropertyRight(h, p, l);
      if p < |h.objects| && Has(h, p, l) && Def(h, p, l).Getter? && (p != o || l != k) {
        var d := Def(h, p, l);
        assert PropertyKept(h, t, d.source, d.key);
      }
    }
    forall p | 0 <= p < |t.objects| ensures KeysRight(t.objects[p]) {
      assert KeysRight(h.objects[p]);
    }
    CachesStay(h, t);
  }

  lemma CachesStay(h: Heap, t: Heap)
    requires CachesRight(h) && |h.objects| <= |t.objects|
    requires forall p: ObjectId, l: Key :: PropertyKept(h, t, p, l)
    requires t.nodeCache == h.nodeCache && t.esmCache == h.esmCache && t.commonJsCache == h.commonJsCache
    ensures CachesRight(t)
  {
    forall m | m in t.nodeCache ensures IsConstant(t, t.nodeCache[m], DEFAULT, Ref(m)) {
      assert PropertyKept(h, t, h.nodeCache[m], DEFAULT);
    }
    forall m | m in t.commonJsCache ensures IsConstant(t, t.commonJsCache[m], ES_MODULE, TRUE) {
      assert PropertyKept(h, t, h.commonJsCache[m], ES_MODULE);
    }
  }

  lemma DefineKeeps(h: Heap, o: ObjectId, k: Key, d: Definition)
    requires WellFormed(h) && CachesRight(h) && o < |h.objects| && !Has(h, o, k)
    requires d.Getter? ==> d.source < |h.objects| && Has(h, d.source, d.key)
    ensures WellFormed(Define(h, o, k, d)) && CachesRight(Define(h, o, k, d)) && Later(h, Define(h, o, k, d))
  {
    hide CachesRight;
    var t := Define(h, o, k, d);
    assert KeysRight(h.objects[o]);
    if d.Getter? { assert PropertyRight(h, d.source, d.key); }
    assert PropertyRight(t, o, k);
    ChangeKeeps(h, t, o, k);
  }

  function Allocate(h: Heap, isFunction: bool): Heap {
    h.(objects := h.objects + [Obj(isFunction, [], map[])])
  }

  lemma AllocateKeeps(h: Heap, isFunction: bool)
    requires WellFormed(h) && CachesRight(h)
    ensures WellFormed(Allocate(h, isFunction)) && CachesRight(Allocate(h, isFunction)) && Later(h, Allocate(h, isFunction))
  {
    var t := Allocate(h, isFunction);
    forall p: ObjectId, l: Key ensures PropertyKept(h, t, p, l) && PropertyRight(t, p, l) {
      assert PropertyRight(h, p, l);
    }
    CachesStay(h, t);
  }

  /** An assignment from program code: to a getter or a constant it changes nothing. */
  function Assign(h: Heap, o: ObjectId, k: Key, v: Value): Heap
    requires o < |h.objects|
  {
    if !Has(h, o, k) then Define(h, o, k, Data(v, true))
    else
      var p := h.objects[o].properties[k];
      if p.definition.Getter? || !p.definition.writable then h
      else
        var obj := h.objects[o];
        h.(objects := h.objects[o := obj.(properties := obj.properties[k := p.(definition := Data(v, true))])])
  }

  lemma AssignKeeps(h: Heap, o: ObjectId, k: Key, v: Value)
    requires WellFormed(h) && CachesRight(h) && o < |h.objects|
    ensures WellFormed(Assign(h, o, k, v)) && CachesRight(Assign(h, o, k, v)) && Later(h, Assign(h, o, k, v))
  {
    hide CachesRight;
    var t := Assign(h, o, k, v);
    if !Has(h, o, k) {
      DefineKeeps(h, o, k, Data(v, true));
    } else if t == h {
      LaterSelf(h);
    } else {
      assert KeysRight(h.objects[o]) && PropertyRight(h, o, k);
      ChangeKeeps(h, t, o, k);
    }
  }

  lemma LaterTrans(h: Heap, t: Heap, u: Heap)
    requires Later(h, t) && Later(t, u)
    ensures Later(h, u)
  {
    forall o: ObjectId, k: Key ensures PropertyKept(h, u, o, k) {
      assert PropertyKept(h, t, o, k) && PropertyKept(t, u, o, k);
    }
  }

  lemma LaterSelf(h: Heap)
    ensures Later(h, h)
  {
  }

  lemma KeysAreProperties(h: Heap, o: ObjectId)
    requires WellFormed(h) && o < |h.objects|
    ensures forall k :: k in h.objects[o].keys <==> Has(h, o, k)
  {
    assert KeysRight(h.objects[o]);
  }

  lemma GetterStep(h: Heap, o: ObjectId, k: Key)
    requires WellFormed(h) && o < |h.objects| && Has(h, o, k) && Def(h, o, k).Getter?
    ensures var d := Def(h, o, k);
            && d.source < |h.objects| && Has(h, d.source, d.key)
            && Stamp(h, d.source, d.key) < Stamp(h, o, k)
            && Read(h, o, k) == Read(h, d.source, d.key)
  {
    assert PropertyRight(h, o, k);
  }

  lemma AllocatedFresh(h: Heap, isFunction: bool)
    requires CachesRight(h)
    ensures var t := Allocate(h, isFunction);
            && (forall k :: !Has(t, |h.objects|, k))
            && (forall o, k | 0 <= o < |h.objects| :: Has(t, o, k) == Has(h, o, k))
    ensures Uncached(h, |h.objects|)
  {
  }

  /** No cache holds the object. */
  ghost predicate Uncached(h: Heap, o: ObjectId) {
    && (forall m | m in h.nodeCache :: h.nodeCache[m] != o)
    && (forall m | m in h.esmCache :: h.esmCache[m] != o)
  }

  function CacheEsm(h: Heap, mod: ObjectId, to: ObjectId, isNodeMode: bool): Heap {
    if isNodeMode then h.(nodeCache := h.nodeCache[mod := to]) else h.(esmCache := h.esmCache[mod := to])
  }

  lemma CacheKeeps(h: Heap, mod: ObjectId, to: ObjectId, isNodeMode: bool)
    requires WellFormed(h) && CachesRight(h) && Uncached(h, to) && to < |h.objects|
    requires mod !in if isNodeMode then h.nodeCache else h.esmCache
    requires isNodeMode ==> IsConstant(h, to, DEFAULT, Ref(mod))
    ensures var t := CacheEsm(h, mod, to, isNodeMode); WellFormed(t) && CachesRight(t) && Later(h, t)
  {
    var t := CacheEsm(h, mod, to, isNodeMode);
    SameObjectsWellFormed(h, t);
    hide WellFormed, PropertyKept, IsConstant;
    assert Later(h, t) by {
      hide CachesRight, Uncached;
    }
    assert CachesRight(t) by {
      hide Later;
      if isNodeMode {
        assert t.esmCache == h.esmCache && t.commonJsCache == h.commonJsCache;
      } else {
        assert t.nodeCache == h.nodeCache && t.commonJsCache == h.commonJsCache;
      }
    }
  }

  lemma SameObjectsWellFormed(h: Heap, t: Heap)
    requires WellFormed(h) && t.objects == h.objects && t.clock == h.clock
    ensures WellFormed(t) && forall o: ObjectId, k: Key :: PropertyKept(h, t, o, k)
    ensures forall o: ObjectId, k: Key, v: Value :: IsConstant(t, o, k, v) == IsConstant(h, o, k, v)
  {
    forall o: ObjectId, k: Key ensures PropertyRight(t, o, k) {
      assert PropertyRight(h, o, k);
    }
  }

  lemma CommonJsKeeps(h: Heap, from: ObjectId, entry: ObjectId)
    requires WellFormed(h) && CachesRight(h) && entry < |h.objects| && from !in h.commonJsCache
    requires IsConstant(h, entry, ES_MODULE, TRUE)
    ensures var t := h.(commonJsCache := h.commonJsCache[from := entry]); WellFormed(t) && CachesRight(t) && Later(h, t)
  {
    SameObjectsWellFormed(h, h.(commonJsCache := h.commonJsCache[from := entry]));
  }

  lemma CachedExists(h: Heap, m: ObjectId)
    requires CachesRight(h)
    ensures m in h.nodeCache ==> h.nodeCache[m] < |h.objects|
    ensures m in h.esmCache ==> h.esmCache[m] < |h.objects|
    ensures m in h.commonJsCache ==> h.commonJsCache[m] < |h.objects|
  {
  }

  /** What the shared loop has done after the given names of the module: the names that the target
      had are as they were, those it lacked are bound, and nothing else has changed. */
  ghost predicate KeysBound(h: Heap, t: Heap, target: ObjectId, mod: ObjectId, skipDefault: bool, names: seq<Key>) {
    && |t.objects| == |h.objects| && target < |h.objects| && mod < |h.objects|
    && t == h.(objects := t.objects, clock := t.clock)
    && (forall o | 0 <= o < |h.objects| && o != target :: t.objects[o] == h.objects[o])
    && (forall k :: KeyBound(h, t, target, mod, skipDefault, names, k))
  }

  ghost predicate KeyBound(h: Heap, t: Heap, target: ObjectId, mod: ObjectId, skipDefault: bool, names: seq<Key>, k: Key)
    requires |t.objects| == |h.objects| && target < |h.objects|
  {
    if Has(h, target, k) then Has(t, target, k) && t.objects[target].properties[k] == h.objects[target].properties[k]
    else if k in names && !(skipDefault && k == DEFAULT) then Bound(t, target, mod, k)
    else !Has(t, target, k)
  }

  /** The shared loop: a getter for each name that the target lacks. */
  function Filled(h: Heap, target: ObjectId, mod: ObjectId, skipDefault: bool, names: seq<Key>): (t: Heap)
    requires target < |h.objects|
    ensures |t.objects| == |h.objects|
  {
    if names == [] then h
    else
      var n := |names| - 1;
      var t := Filled(h, target, mod, skipDefault, names[..n]);
      if !Has(t, target, names[n]) && !(skipDefault && names[n] == DEFAULT)
      then Define(t, target, names[n], Getter(mod, names[n]))
      else t
  }

  lemma {:induction false} FilledKeeps(h: Heap, target: ObjectId, mod: ObjectId, skipDefault: bool, names: seq<Key>)
    requires WellFormed(h) && CachesRight(h) && target < |h.objects| && mod < |h.objects|
    requires forall k | k in names :: Has(h, mod, k)
    ensures var t := Filled(h, target, mod, skipDefault, names);
            WellFormed(t) && CachesRight(t) && Later(h, t) && KeysBound(h, t, target, mod, skipDefault, names)
    decreases |names|
  {
    hide WellFormed, CachesRight, Later, KeysBound;
    if names == [] {
      LaterSelf(h);
      NothingBound(h, target, mod, skipDefault);
    } else {
      var n := |names| - 1;
      var key := names[n];
      FilledKeeps(h, target, mod, skipDefault, names[..n]);
      var t := Filled(h, target, mod, skipDefault, names[..n]);
      assert names[..n] + [key] == names;
      StillHas(h, t, mod, key);
      OneMoreBound(h, t, target, mod, skipDefault, names[..n], key);
      if !Has(t, target, key) && !(skipDefault && key == DEFAULT) {
        DefineKeeps(t, target, key, Getter(mod, key));
        LaterTrans(h, t, Define(t, target, key, Getter(mod, key)));
      }
    }
  }

  lemma NothingBound(h: Heap, target: ObjectId, mod: ObjectId, skipDefault: bool)
    requires target < |h.objects| && mod < |h.objects|
    ensures KeysBound(h, h, target, mod, skipDefault, [])
  {
  }

  lemma OneMoreBound(h: Heap, t: Heap, target: ObjectId, mod: ObjectId, skipDefault: bool, names: seq<Key>, key: Key)
    requires KeysBound(h, t, target, mod, skipDefault, names)
    ensures var u := if !Has(t, target, key) && !(skipDefault && key == DEFAULT) then Define(t, target, key, Getter(mod, key)) else t;
            KeysBound(h, u, target, mod, skipDefault, names + [key])
  {
    var u := if !Has(t, target, key) && !(skipDefault && key == DEFAULT) then Define(t, target, key, Getter(mod, key)) else t;
    forall k ensures KeyBound(h, u, target, mod, skipDefault, names + [key], k) {
      assert KeyBound(h, t, target, mod, skipDefault, names, k);
    }
  }

  lemma StillHas(h: Heap, t: Heap, o: ObjectId, k: Key)
    requires Later(h, t) && o < |h.objects| && Has(h, o, k)
    ensures o < |t.objects| && Has(t, o, k)
  {
    assert PropertyKept(h, t, o, k);
  }

  /** Every name of the module but the default reads through to it, unless the target had the name
      before; those are as they were, and a default is never added. */
  ghost predicate ReExported(h: Heap, t: Heap, target: ObjectId, mod: ObjectId) {
    && target < |h.objects| <= |t.objects| && mod < |h.objects|
    && forall k :: KeyReExported(h, t, target, mod, k)
  }

  ghost predicate KeyReExported(h: Heap, t: Heap, target: ObjectId, mod: ObjectId, k: Key)
    requires target < |h.objects| <= |t.objects| && mod < |h.objects|
  {
    if Has(h, target, k) then Has(t, target, k) && t.objects[target].properties[k] == h.objects[target].properties[k]
    else if k == DEFAULT then !Has(t, target, k)
    else Has(h, mod, k) ==> Bound(t, target, mod, k)
  }

  lemma KeysReExported(h: Heap, t: Heap, target: ObjectId, mod: ObjectId)
    requires WellFormed(h) && mod < |h.objects| && KeysBound(h, t, target, mod, true, h.objects[mod].keys)
    ensures ReExported(h, t, target, mod)
  {
    KeysAreProperties(h, mod);
    forall k ensures KeyReExported(h, t, target, mod, k) {
      assert KeyBound(h, t, target, mod, true, h.objects[mod].keys, k);
    }
  }

  lemma SecondReExported(h: Heap, t: Heap, u: Heap, target: ObjectId, mod: ObjectId, second: ObjectId)
    requires WellFormed(h) && WellFormed(t) && ReExported(h, t, target, mod)
    requires KeysBound(h, t, target, mod, true, h.objects[mod].keys)
    requires mod < |t.objects| && KeysBound(t, u, second, mod, true, t.objects[mod].keys)
    ensures ReExported(h, u, target, mod) && ReExported(h, u, second, mod)
  {
    KeysAreProperties(h, mod);
    KeysAreProperties(t, mod);
    forall k ensures KeyReExported(h, u, target, mod, k) && KeyReExported(h, u, second, mod, k) {
      assert KeyBound(h, t, target, mod, true, h.objects[mod].keys, k);
      assert KeyBound(t, u, second, mod, true, t.objects[mod].keys, k);
    }
  }

  /** A new ES view: the module's names, live, and unless the module says that it is an ES module
      (and the mode heeds it) a constant default that is the module itself. */
  ghost predicate IsView(before: Heap, after: Heap, mod: ObjectId, to: ObjectId, isNodeMode: bool)
    requires WellFormed(before) && mod < |before.objects| && to < |after.objects|
  {
    var ownDefault := isNodeMode || !Truthy(Read(before, mod, ES_MODULE));
    && (ownDefault ==> IsConstant(after, to, DEFAULT, Ref(mod)))
    && (forall k :: KeyViewed(before, after, mod, to, ownDefault, k))
  }

  ghost predicate KeyViewed(before: Heap, after: Heap, mod: ObjectId, to: ObjectId, ownDefault: bool, k: Key)
    requires mod < |before.objects| && to < |after.objects|
  {
    if ownDefault && k == DEFAULT then true
    else if Has(before, mod, k) then Bound(after, to, mod, k)
    else !Has(after, to, k)
  }

  lemma BoundIsCommonJs(before: Heap, started: Heap, after: Heap, from: ObjectId, entry: ObjectId)
    requires WellFormed(before) && from < entry == |before.objects|
    requires started == Define(Allocate(before, false), entry, ES_MODULE, Data(TRUE, false))
    requires KeysBound(started, after, entry, from, false, started.objects[from].keys)
    ensures entry < |after.objects| && after == before.(objects := after.objects, clock := after.clock)
    ensures IsConstant(after, entry, ES_MODULE, TRUE)
    ensures forall k | k != ES_MODULE :: if Has(before, from, k) then Bound(after, entry, from, k) else !Has(after, entry, k)
  {
    KeysAreProperties(before, from);
    assert KeyBound(started, after, entry, from, false, started.objects[from].keys, ES_MODULE);
    forall k | k != ES_MODULE
      ensures if Has(before, from, k) then Bound(after, entry, from, k) else !Has(after, entry, k)
    {
      assert KeyBound(started, after, entry, from, false, started.objects[from].keys, k);
    }
  }

  lemma BoundIsView(before: Heap, started: Heap, after: Heap, mod: ObjectId, to: ObjectId, isNodeMode: bool)
    requires WellFormed(before) && mod < to == |before.objects|
    requires var ownDefault := isNodeMode || !Truthy(Read(before, mod, ES_MODULE));
             var empty := Allocate(before, false);
             started == if ownDefault then Define(empty, to, DEFAULT, Data(Ref(mod), false)) else empty
    requires KeysBound(started, after, to, mod, false, started.objects[mod].keys)
    ensures to < |after.objects| && IsView(before, after, mod, to, isNodeMode)
    ensures after == before.(objects := after.objects, clock := after.clock)
    ensures isNodeMode ==> IsConstant(after, to, DEFAULT, Ref(mod))
  {
    hide Read;
    KeysAreProperties(before, mod);
    assert KeyBound(started, after, to, mod, false, started.objects[mod].keys, DEFAULT);
    var ownDefault := isNodeMode || !Truthy(Read(before, mod, ES_MODULE));
    forall k ensures KeyViewed(before, after, mod, to, ownDefault, k) {
      assert KeyBound(started, after, to, mod, false, started.objects[mod].keys, k);
    }
  }

  lemma SameObjects(before: Heap, filled: Heap, after: Heap, mod: ObjectId, to: ObjectId, isNodeMode: bool)
    requires WellFormed(before) && mod < |before.objects| && to < |filled.objects| && filled.objects == after.objects
    requires IsView(before, filled, mod, to, isNodeMode)
    ensures IsView(before, after, mod, to, isNodeMode)
  {
    var ownDefault := isNodeMode || !Truthy(Read(before, mod, ES_MODULE));
    forall k ensures KeyViewed(before, after, mod, to, ownDefault, k) {
      assert KeyViewed(before, filled, mod, to, ownDefault, k);
    }
  }

  // ---- What the conversions do to the heap ----------------------------------------------------

  /** Twice the loop with the same names: the first pass adds none to the module itself. */
  function ReExportOf(h: Heap, target: ObjectId, mod: ObjectId, second: Option<ObjectId>): Heap
    requires target < |h.objects| && mod < |h.objects| && (second.Some? ==> second.value < |h.objects|)
  {
    var t := Filled(h, target, mod, true, h.objects[mod].keys);
    if second.None? then t else Filled(t, second.value, mod, true, t.objects[mod].keys)
  }

  lemma ReExportKeeps(h: Heap, target: ObjectId, mod: ObjectId, second: Option<ObjectId>)
    requires WellFormed(h) && CachesRight(h)
    requires target < |h.objects| && mod < |h.objects| && (second.Some? ==> second.value < |h.objects|)
    ensures var t := ReExportOf(h, target, mod, second);
            && WellFormed(t) && CachesRight(t) && Later(h, t)
            && ReExported(h, t, target, mod) && (second.Some? ==> ReExported(h, t, second.value, mod))
  {
    hide WellFormed, CachesRight, Later, KeysBound, ReExported, Filled;
    KeysAreProperties(h, mod);
    FilledKeeps(h, target, mod, true, h.objects[mod].keys);
    var t := Filled(h, target, mod, true, h.objects[mod].keys);
    KeysReExported(h, t, target, mod);
    if second.Some? {
      KeysAreProperties(t, mod);
      FilledKeeps(t, second.value, mod, true, t.objects[mod].keys);
      var u := Filled(t, second.value, mod, true, t.objects[mod].keys);
      LaterTrans(h, t, u);
      SecondReExported(h, t, u, target, mod, second.value);
    }
  }

  /** The part of `__toESM` behind the cache. */
  ghost function ViewOf(h: Heap, mod: ObjectId, isNodeMode: bool): Heap
    requires WellFormed(h) && mod < |h.objects|
  {
    var to := |h.objects|;
    var empty := Allocate(h, false);
    var started := if isNodeMode || !Truthy(Read(h, mod, ES_MODULE)) then Define(empty, to, DEFAULT, Data(Ref(mod), false))
                   else empty;
    Filled(started, to, mod, false, started.objects[mod].keys)
  }

  lemma ViewKeeps(h: Heap, mod: ObjectId, isNodeMode: bool)
    requires WellFormed(h) && CachesRight(h) && mod < |h.objects|
    ensures var t, to := ViewOf(h, mod, isNodeMode), |h.objects|;
            && WellFormed(t) && CachesRight(t) && Later(h, t) && to < |t.objects|
            && IsView(h, t, mod, to, isNodeMode)
            && t == h.(objects := t.objects, clock := t.clock) && Uncached(t, to)
            && (isNodeMode ==> IsConstant(t, to, DEFAULT, Ref(mod)))
  {
    hide WellFormed, CachesRight, Later, Read, KeysBound, IsView, Filled;
    var to := |h.objects|;
    var empty := Allocate(h, false);
    AllocateKeeps(h, false);
    AllocatedFresh(h, false);
    var started := empty;
    if isNodeMode || !Truthy(Read(h, mod, ES_MODULE)) {
      DefineKeeps(empty, to, DEFAULT, Data(Ref(mod), false));
      started := Define(empty, to, DEFAULT, Data(Ref(mod), false));
      LaterTrans(h, empty, started);
    }
    KeysAreProperties(started, mod);
    FilledKeeps(started, to, mod, false, started.objects[mod].keys);
    var t := Filled(started, to, mod, false, started.objects[mod].keys);
    LaterTrans(h, started, t);
    BoundIsView(h, started, t, mod, to, isNodeMode);
  }

  /** `__toESM`: the new heap and the view. */
  ghost function EsmOf(h: Heap, mod: ObjectId, isNodeMode: bool): (Heap, ObjectId)
    requires WellFormed(h) && mod < |h.objects|
  {
    var cache := if isNodeMode then h.nodeCache else h.esmCache;
    var view := ViewOf(h, mod, isNodeMode);
    if h.objects[mod].isFunction then (view, |h.objects|)
    else if mod in cache then (h, cache[mod])
    else (CacheEsm(view, mod, |h.objects|, isNodeMode), |h.objects|)
  }

  lemma EsmKeeps(h: Heap, mod: ObjectId, isNodeMode: bool)
    requires WellFormed(h) && CachesRight(h) && mod < |h.objects|
    ensures var (t, to) := EsmOf(h, mod, isNodeMode);
            && WellFormed(t) && CachesRight(t) && Later(h, t) && to < |t.objects|
            && (if !h.objects[mod].isFunction && mod in if isNodeMode then h.nodeCache else h.esmCache then t == h
                else to == |h.objects| && IsView(h, t, mod, to, isNodeMode))
            && (!h.objects[mod].isFunction ==>
                  var cache := if isNodeMode then t.nodeCache else t.esmCache; mod in cache && cache[mod] == to)
  {
    hide WellFormed, CachesRight, Later, Read, IsView, ViewOf;
    LaterSelf(h);
    CachedExists(h, mod);
    ViewKeeps(h, mod, isNodeMode);
    var cache := if isNodeMode then h.nodeCache else h.esmCache;
    if !h.objects[mod].isFunction && mod !in cache {
      var view, to := ViewOf(h, mod, isNodeMode), |h.objects|;
      var t := CacheEsm(view, mod, to, isNodeMode);
      CacheKeeps(view, mod, to, isNodeMode);
      LaterTrans(h, view, t);
      SameObjects(h, view, t, mod, to, isNodeMode);
    }
  }

  /** `__toCommonJS`: the new heap and the entry. */
  function CommonJsOf(h: Heap, from: ObjectId): (Heap, ObjectId)
    requires from < |h.objects|
  {
    if from in h.commonJsCache then (h, h.commonJsCache[from])
    else
      var entry := |h.objects|;
      var started := Define(Allocate(h, false), entry, ES_MODULE, Data(TRUE, false));
      var t := Filled(started, entry, from, false, started.objects[from].keys);
      (t.(commonJsCache := t.commonJsCache[from := entry]), entry)
  }

  lemma CommonJsOfKeeps(h: Heap, from: ObjectId)
    requires WellFormed(h) && CachesRight(h) && from < |h.objects|
    ensures var (t, entry) := CommonJsOf(h, from);
            && WellFormed(t) && CachesRight(t) && Later(h, t) && entry < |t.objects|
            && from in t.commonJsCache && t.commonJsCache[from] == entry
            && (from in h.commonJsCache ==> t == h)
            && (from !in h.commonJsCache ==> entry == |h.objects| && IsConstant(t, entry, ES_MODULE, TRUE))
            && (from !in h.commonJsCache ==>
                  forall k | k != ES_MODULE :: if Has(h, from, k) then Bound(t, entry, from, k) else !Has(t, entry, k))
  {
    hide WellFormed, CachesRight, Later, KeysBound, Filled;
    LaterSelf(h);
    CachedExists(h, from);
    if from !in h.commonJsCache {
      var entry := |h.objects|;
      var empty := Allocate(h, false);
      AllocateKeeps(h, false);
      AllocatedFresh(h, false);
      DefineKeeps(empty, entry, ES_MODULE, Data(TRUE, false));
      var started := Define(empty, entry, ES_MODULE, Data(TRUE, false));
      LaterTrans(h, empty, started);
      KeysAreProperties(started, from);
      FilledKeeps(started, entry, from, false, started.objects[from].keys);
      var t := Filled(started, entry, from, false, started.objects[from].keys);
      LaterTrans(h, started, t);
      BoundIsCommonJs(h, started, t, from, entry);
      CommonJsKeeps(t, from, entry);
      LaterTrans(h, t, t.(commonJsCache := t.commonJsCache[from := entry]));
    }
  }

  // ---- The runtime ----------------------------------------------------------------------------

  class ModuleRuntime {
    var heap: Heap

    ghost predicate Valid()
      reads this
    {
      WellFormed(heap) && CachesRight(heap)
    }

    constructor ()
      ensures Valid() && heap == Heap([], 0, map[], map[], map[])
    {
      heap := Heap([], 0, map[], map[], map[]);
    }

    /** The loop that all conversions share: a getter for each name the target lacks. */
    method BindKeys(target: ObjectId, mod: ObjectId, skipDefault: bool)
      requires Valid() && target < |heap.objects| && mod < |heap.objects|
      modifies this
      ensures heap == Filled(old(heap), target, mod, skipDefault, old(heap).objects[mod].keys)
      ensures Valid() && Later(old(heap), heap)
      ensures KeysBound(old(heap), heap, target, mod, skipDefault, old(heap).objects[mod].keys)
    {
      hide WellFormed, CachesRight, Later, KeysBound;
      var keys := heap.objects[mod].keys;
      ghost var before := heap;
      var i := 0;
      while i < |keys|
        invariant 0 <= i <= |keys|
        invariant heap == Filled(before, target, mod, skipDefault, keys[..i])
      {
        var key := keys[i];
        assert keys[..i + 1][..i] == keys[..i];
        if !Has(heap, target, key) && !(skipDefault && key == DEFAULT) {
          heap := Define(heap, target, key, Getter(mod, key));
        }
        i := i + 1;
      }
      assert keys[..i] == keys;
      KeysAreProperties(before, mod);
      FilledKeeps(before, target, mod, skipDefault, keys);
    }

    /** `export * from`: earlier definitions win, and the default is never copied. */
    method ReExport(target: ObjectId, mod: ObjectId, secondTarget: Option<ObjectId>) returns (r: Option<ObjectId>)
      requires Valid() && target < |heap.objects| && mod < |heap.objects|
      requires secondTarget.Some? ==> secondTarget.value < |heap.objects|
      modifies this
      ensures heap == ReExportOf(old(heap), target, mod, secondTarget) && r == secondTarget
      ensures Valid() && Later(old(heap), heap)
      ensures ReExported(old(heap), heap, target, mod)
      ensures secondTarget.Some? ==> ReExported(old(heap), heap, secondTarget.value, mod)
    {
      hide WellFormed, CachesRight, Later, KeysBound, ReExported, Filled;
      ReExportKeeps(heap, target, mod, secondTarget);
      BindKeys(target, mod, true);
      if secondTarget.Some? { BindKeys(secondTarget.value, mod, true); }
      r := secondTarget;
    }

    /** `obj[k]`, through the getters. */
    method Get(obj: ObjectId, k: Key) returns (v: Value)
      requires Valid() && obj < |heap.objects|
      ensures v == Read(heap, obj, k)
    {
      var o: ObjectId, key := obj, k;
      while Has(heap, o, key) && Def(heap, o, key).Getter?
        invariant o < |heap.objects| && Read(heap, o, key) == Read(heap, obj, k)
        decreases if Has(heap, o, key) then Stamp(heap, o, key) + 1 else 0
      {
        hide WellFormed, Read;
        GetterStep(heap, o, key);
        o, key := Def(heap, o, key).source, Def(heap, o, key).key;
      }
      v := if Has(heap, o, key) then Def(heap, o, key).value else Undefined;
    }

    /** The ES view of a module object in one of two modes; made once for each mode. */
    method ToESM(mod: ObjectId, isNodeMode: bool) returns (to: ObjectId)
      requires Valid() && mod < |heap.objects|
      modifies this
      ensures (heap, to) == EsmOf(old(heap), mod, isNodeMode)
      ensures Valid() && Later(old(heap), heap) && to < |heap.objects|
      ensures !old(heap).objects[mod].isFunction ==>
                var cache := if isNodeMode then heap.nodeCache else heap.esmCache;
                mod in cache && cache[mod] == to
      ensures var cache := if isNodeMode then old(heap).nodeCache else old(heap).esmCache;
              if !old(heap).objects[mod].isFunction && mod in cache
              then heap == old(heap)
              else to == |old(heap).objects| && IsView(old(heap), heap, mod, to, isNodeMode)
    {
      hide WellFormed, CachesRight, Later, Read, IsView, ViewOf, KeysBound;
      EsmKeeps(heap, mod, isNodeMode);
      var canCache := !heap.objects[mod].isFunction;
      if canCache && mod in (if isNodeMode then heap.nodeCache else heap.esmCache) {
        return if isNodeMode then heap.nodeCache[mod] else heap.esmCache[mod];
      }
      to := CreateView(mod, isNodeMode);
      if canCache { heap := CacheEsm(heap, mod, to, isNodeMode); }
    }

    /** The part of `__toESM` behind the cache. */
    method CreateView(mod: ObjectId, isNodeMode: bool) returns (to: ObjectId)
      requires Valid() && mod < |heap.objects|
      modifies this
      ensures heap == ViewOf(old(heap), mod, isNodeMode) && to == |old(heap).objects|
    {
      hide WellFormed, CachesRight, Later, Read, KeysBound, Filled;
      var esModule := Get(mod, ES_MODULE);
      to := |heap.objects|;
      AllocateKeeps(heap, false);
      AllocatedFresh(heap, false);
      heap := Allocate(heap, false);
      if isNodeMode || !Truthy(esModule) {
        DefineKeeps(heap, to, DEFAULT, Data(Ref(mod), false));
        heap := Define(heap, to, DEFAULT, Data(Ref(mod), false));
      }
      BindKeys(to, mod, false);
    }

    /** The CommonJS view of an ES module. */
    method ToCommonJS(from: ObjectId) returns (entry: ObjectId)
      requires Valid() && from < |heap.objects|
      modifies this
      ensures (heap, entry) == CommonJsOf(old(heap), from)
      ensures Valid() && Later(old(heap), heap) && entry < |heap.objects|
      ensures from in heap.commonJsCache && heap.commonJsCache[from] == entry
      ensures from in old(heap).commonJsCache ==> heap == old(heap)
      ensures from !in old(heap).commonJsCache ==>
                && entry == |old(heap).objects|
                && IsConstant(heap, entry, ES_MODULE, TRUE)
                && forall k | k != ES_MODULE ::
                     if Has(old(heap), from, k) then Bound(heap, entry, from, k) else !Has(heap, entry, k)
    {
      hide WellFormed, CachesRight, Later, KeysBound, Filled;
      CommonJsOfKeeps(heap, from);
      if from in heap.commonJsCache { return heap.commonJsCache[from]; }
      entry := |heap.objects|;
      AllocateKeeps(heap, false);
      AllocatedFresh(heap, false);
      heap := Allocate(heap, false);
      DefineKeeps(heap, entry, ES_MODULE, Data(TRUE, false));
      heap := Define(heap, entry, ES_MODULE, Data(TRUE, false));
      BindKeys(entry, from, false);
      heap := heap.(commonJsCache := heap.commonJsCache[from := entry]);
    }
  }

  // ---- Live bindings --------------------------------------------------------------------------

  /** Once bound, a name reads as the source's current value in every later state, whatever was
      assigned, defined or converted in between. */
  lemma BindingStaysLive(h: Heap, later: Heap, view: ObjectId, source: ObjectId, k: Key)
    requires WellFormed(h) && WellFormed(later) && Later(h, later) && Bound(h, view, source, k)
    ensures view < |later.objects| && source < |later.objects|
    ensures Read(later, view, k) == Read(later, source, k)
  {
    GetterStep(h, view, k);
    assert PropertyKept(h, later, view, k);
    GetterStep(later, view, k);
  }

  /** An assignment to the source is seen through the view. */
  lemma AssignmentSeen(h: Heap, view: ObjectId, source: ObjectId, k: Key, v: Value)
    requires WellFormed(h) && CachesRight(h) && Bound(h, view, source, k)
    requires source < |h.objects| && Has(h, source, k) && Def(h, source, k).Data? && Def(h, source, k).writable
    ensures var t := Assign(h, source, k, v); WellFormed(t) && view < |t.objects| && Read(t, view, k) == v
  {
    AssignKeeps(h, source, k, v);
    BindingStaysLive(h, Assign(h, source, k, v), view, source, k);
  }

  // ---- Whole runs -----------------------------------------------------------------------------

  datatype Operation =
    | Create(isFunction: bool)
    | Write(o: ObjectId, k: Key, v: Value)
    | ReExporting(target: ObjectId, mod: ObjectId, second: Option<ObjectId>)
    | ToEsm(mod: ObjectId, isNodeMode: bool)
    | ToCommonJs(mod: ObjectId)

  /** A program can name only objects that exist. */
  predicate Applies(h: Heap, op: Operation) {
    match op
    case Create(_) => true
    case Write(o, _, _) => o < |h.objects|
    case ReExporting(target, mod, second) =>
      target < |h.objects| && mod < |h.objects| && (second.Some? ==> second.value < |h.objects|)
    case ToEsm(mod, _) => mod < |h.objects|
    case ToCommonJs(mod) => mod < |h.objects|
  }

  ghost function Perform(h: Heap, op: Operation): Heap
    requires WellFormed(h) && Applies(h, op)
  {
    match op
    case Create(isFunction) => Allocate(h, isFunction)
    case Write(o, k, v) => Assign(h, o, k, v)
    case ReExporting(target, mod, second) => ReExportOf(h, target, mod, second)
    case ToEsm(mod, isNodeMode) => EsmOf(h, mod, isNodeMode).0
    case ToCommonJs(mod) => CommonJsOf(h, mod).0
  }

  lemma PerformKeeps(h: Heap, op: Operation)
    requires WellFormed(h) && CachesRight(h) && Applies(h, op)
    ensures WellFormed(Perform(h, op)) && CachesRight(Perform(h, op)) && Later(h, Perform(h, op))
  {
    hide WellFormed, CachesRight, Later, ReExported, IsView, ReExportOf, EsmOf, CommonJsOf, Assign;
    match op
    case Create(isFunction) => AllocateKeeps(h, isFunction);
    case Write(o, k, v) => AssignKeeps(h, o, k, v);
    case ReExporting(target, mod, second) => ReExportKeeps(h, target, mod, second);
    case ToEsm(mod, isNodeMode) => EsmKeeps(h, mod, isNodeMode);
    case ToCommonJs(mod) => CommonJsOfKeeps(h, mod);
  }

  /** t is reached from h by the operations. */
  ghost predicate Reached(h: Heap, ops: seq<Operation>, t: Heap)
    decreases |ops|
  {
    && WellFormed(h)
    && if ops == [] then t == h else Applies(h, ops[0]) && Reached(Perform(h, ops[0]), ops[1..], t)
  }

  lemma {:induction false} RunKeeps(h: Heap, ops: seq<Operation>, t: Heap)
    requires WellFormed(h) && CachesRight(h) && Reached(h, ops, t)
    ensures WellFormed(t) && CachesRight(t) && Later(h, t)
    decreases |ops|
  {
    hide WellFormed, CachesRight, Later;
    if ops == [] {
      LaterSelf(h);
    } else {
      PerformKeeps(h, ops[0]);
      RunKeeps(Perform(h, ops[0]), ops[1..], t);
      LaterTrans(h, Perform(h, ops[0]), t);
    }
  }

  /** Whatever a program does between two conversions of a module object in one mode, the second
      changes nothing and returns the view of the first; and the other mode's view is another. */
  lemma ConvertedOnce(h: Heap, mod: ObjectId, isNodeMode: bool, between: seq<Operation>, t: Heap)
    requires WellFormed(h) && CachesRight(h) && mod < |h.objects| && !h.objects[mod].isFunction
    requires Reached(EsmOf(h, mod, isNodeMode).0, between, t)
    ensures WellFormed(t) && mod < |t.objects|
    ensures EsmOf(t, mod, isNodeMode) == (t, EsmOf(h, mod, isNodeMode).1)
    ensures EsmOf(t, mod, !isNodeMode).1 != EsmOf(h, mod, isNodeMode).1
  {
    var (first, view) := EsmOf(h, mod, isNodeMode);
    EsmKeeps(h, mod, isNodeMode);
    RunKeeps(first, between, t);
    EsmKeeps(t, mod, !isNodeMode);
    assert first.objects[mod].isFunction == h.objects[mod].isFunction == t.objects[mod].isFunction;
  }

  /** Through a whole run, every name of the module that a new view has bound reads as the module's
      own value of that moment. */
  lemma ConvertedLive(h: Heap, mod: ObjectId, isNodeMode: bool, between: seq<Operation>, t: Heap, k: Key)
    requires WellFormed(h) && CachesRight(h) && mod < |h.objects| && Has(h, mod, k)
    requires h.objects[mod].isFunction || mod !in if isNodeMode then h.nodeCache else h.esmCache
    requires k == DEFAULT ==> !isNodeMode && Truthy(Read(h, mod, ES_MODULE))
    requires Reached(EsmOf(h, mod, isNodeMode).0, between, t)
    ensures WellFormed(t) && mod < |t.objects| && EsmOf(h, mod, isNodeMode).1 < |t.objects|
    ensures Read(t, EsmOf(h, mod, isNodeMode).1, k) == Read(t, mod, k)
  {
    hide CachesRight, Read, EsmOf;
    var (first, view) := EsmOf(h, mod, isNodeMode);
    EsmKeeps(h, mod, isNodeMode);
    RunKeeps(first, between, t);
    var ownDefault := isNodeMode || !Truthy(Read(h, mod, ES_MODULE));
    assert KeyViewed(h, first, mod, view, ownDefault, k);
    BindingStaysLive(first, t, view, mod, k);
  }

  /** The same for every binding there is, also those that re-exports and `__toCommonJS` made. */
  lemma BoundForGood(h: Heap, ops: seq<Operation>, t: Heap)
    requires WellFormed(h) && CachesRight(h) && Reached(h, ops, t)
    ensures WellFormed(t)
    ensures forall view: ObjectId, source: ObjectId, k | Bound(h, view, source, k) ::
              view < |t.objects| && source < |t.objects| && Read(t, view, k) == Read(t, source, k)
  {
    RunKeeps(h, ops, t);
    forall view: ObjectId, source: ObjectId, k | Bound(h, view, source, k)
      ensures view < |t.objects| && source < |t.objects| && Read(t, view, k) == Read(t, source, k)
    {
      BindingStaysLive(h, t, view, source, k);
    }
  }

  // ---- The two names that are special ---------------------------------------------------------

  /** What reads under `default` on a new view: the module itself in node mode or if it does not say
      that it is an ES module, else the module's own default. */
  lemma DefaultOfView(h: Heap, mod: ObjectId, isNodeMode: bool)
    requires WellFormed(h) && CachesRight(h) && mod < |h.objects|
    requires h.objects[mod].isFunction || mod !in if isNodeMode then h.nodeCache else h.esmCache
    ensures var (t, to) := EsmOf(h, mod, isNodeMode);
            && WellFormed(t) && to < |t.objects| && mod < |t.objects|
            && var says := Read(h, mod, "__esModule");
               if isNodeMode || says == Undefined || (says.Primitive? && !says.truthy) then Read(t, to, "default") == Ref(mod)
               else if Has(h, mod, "default") then Read(t, to, "default") == Read(t, mod, "default")
               else Read(t, to, "default") == Undefined
  {
    var (t, to) := EsmOf(h, mod, isNodeMode);
    EsmKeeps(h, mod, isNodeMode);
    NamesAre();
    hide CachesRight, EsmOf;
    var ownDefault := isNodeMode || !Truthy(Read(h, mod, "__esModule"));
    if !ownDefault {
      assert KeyViewed(h, t, mod, to, ownDefault, "default");
      if Has(h, mod, "default") { BindingStaysLive(t, t, to, mod, "default") by { LaterSelf(t); } }
    }
  }

  /** A new CommonJS view says that it is an ES module, whatever the module has under that name; a
      re-export adds every other name, but never `default`. */
  lemma NamesOfViews(h: Heap, mod: ObjectId, target: ObjectId, k: Key)
    requires WellFormed(h) && CachesRight(h) && mod < |h.objects| && target < |h.objects| && mod !in h.commonJsCache
    ensures var (t, entry) := CommonJsOf(h, mod);
            && WellFormed(t) && entry < |t.objects| && Read(t, entry, "__esModule") == TRUE
            && (k != "__esModule" ==> (Has(t, entry, k) <==> Has(h, mod, k)))
    ensures var t := ReExportOf(h, target, mod, None);
            target < |t.objects| && (Has(t, target, "default") <==> Has(h, target, "default"))
            && (k != "default" ==> (Has(t, target, k) <==> Has(h, target, k) || Has(h, mod, k)))
  {
    CommonJsOfKeeps(h, mod);
    ReExportHas(h, target, mod, k);
    ReExportHas(h, target, mod, "default");
    NamesAre();
    hide CachesRight, CommonJsOf, ReExportOf;
  }

  lemma ReExportHas(h: Heap, target: ObjectId, mod: ObjectId, k: Key)
    requires WellFormed(h) && CachesRight(h) && mod < |h.objects| && target < |h.objects|
    ensures var t := ReExportOf(h, target, mod, None);
            target < |t.objects| && (Has(t, target, k) <==> Has(h, target, k) || (k != "default" && Has(h, mod, k)))
  {
    NamesAre();
    var names := h.objects[mod].keys;
    KeysAreProperties(h, mod);
    FilledKeeps(h, target, mod, true, names);
    assert KeyBound(h, Filled(h, target, mod, true, names), target, mod, true, names, k);
    hide Filled, CachesRight;
  }

  lemma NamesAre()
    ensures DEFAULT == "default" && ES_MODULE == "__esModule"
  {
  }
}
