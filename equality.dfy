/**
 * `getPropertyNames` and `deepEquals` of objects.ts.
 *
 * `Equals` is the specification: the result of one call together with the
 * "already visited" set after it. `DeepEquals` is the imperative procedure that
 * shares one mutable `VisitedSet` (the `WeakSet` of the source) between the whole
 * traversal, callers and siblings alike, and is proved to compute `Equals`.
 */
module Equality {
  import opened Heap

  // ---------------------------------------------------------------------------
  // getPropertyNames (objects.ts:4-10)
  // ---------------------------------------------------------------------------

  /**
   * Which of the three `getPropertyNames` calls of one `deepEquals` frame
   * (objects.ts:72, 73 and 75) created a name array.
   */
  datatype Call = First | Second | Third

  /**
   * The array returned by `Object.getOwnPropertyNames` for one level of a
   * prototype chain. Every such call creates a new array, so its identity is the
   * call that made it and the level; arrays of different calls are never `===`.
   */
  datatype NameArray = NameArray(call: Call, level: nat, names: seq<string>)

  /** The name arrays created by `call` for levels `depth..` of a chain that have at least one own name. */
  function NameArrays(levels: seq<seq<string>>, depth: nat, call: Call): (r: set<NameArray>)
    ensures r == {} <==> forall l :: depth <= l < |levels| ==> levels[l] == []
  {
    var r := set l | depth <= l < |levels| && levels[l] != [] :: NameArray(call, l, levels[l]);
    assert forall l :: depth <= l < |levels| && levels[l] != [] ==> NameArray(call, l, levels[l]) in r;
    r
  }

  /** The number of levels with at least one own property name. */
  function CountNonEmpty(levels: seq<seq<string>>): nat
  {
    if levels == [] then 0
    else (if levels[0] != [] then 1 else 0) + CountNonEmpty(levels[1..])
  }

  lemma NameArraysStep(levels: seq<seq<string>>, depth: nat, call: Call)
    requires depth < |levels|
    ensures NameArrays(levels, depth, call)
         == (if levels[depth] != [] then {NameArray(call, depth, levels[depth])} else {})
            + NameArrays(levels, depth + 1, call)
  {
  }

  /**
   * Walks the prototype chain `levels[depth..]`: for each own name of the level it
   * adds to `keys` the level's name array itself, not the name (objects.ts:6), then
   * recurses while there is a prototype (objects.ts:7-8).
   */
  method GetPropertyNames(levels: seq<seq<string>>, depth: nat, call: Call, keys: set<NameArray>)
    returns (result: set<NameArray>)
    requires depth < |levels|
    ensures result == keys + NameArrays(levels, depth, call)
    decreases |levels| - depth
  {
    var own := NameArray(call, depth, levels[depth]);
    result := keys;
    for i := 0 to |own.names|
      invariant result == if i == 0 then keys else keys + {own}
    {
      result := result + {own};
    }
    NameArraysStep(levels, depth, call);
    if depth + 1 < |levels| {
      result := GetPropertyNames(levels, depth + 1, call, result);
    }
  }

  /** One name array per level with own names: the size of the set is that number of levels. */
  lemma {:induction false} NameArraysCount(levels: seq<seq<string>>, depth: nat, call: Call)
    requires depth <= |levels|
    ensures |NameArrays(levels, depth, call)| == CountNonEmpty(levels[depth..])
    decreases |levels| - depth
  {
    if depth == |levels| {
      assert NameArrays(levels, depth, call) == {};
    } else {
      NameArraysStep(levels, depth, call);
      NameArraysCount(levels, depth + 1, call);
      assert levels[depth..][1..] == levels[depth + 1..];
      assert NameArray(call, depth, levels[depth]) !in NameArrays(levels, depth + 1, call);
    }
  }

  /** Arrays made by different calls are different objects, so a lookup of one in the other's set fails. */
  lemma NameArraysOfDifferentCallsDisjoint(la: seq<seq<string>>, lb: seq<seq<string>>, c1: Call, c2: Call)
    requires c1 != c2
    ensures NameArrays(la, 0, c1) !! NameArrays(lb, 0, c2)
  {
  }

  /**
   * The fallback for two plain objects (objects.ts:72-78): the sets of the
   * first two traversals must have the same size, and every array of the third
   * traversal must be found in the second one's set (`bKeys.has(property)`).
   * When a lookup succeeded the source would go on to compare the property
   * values. Because of the defect at objects.ts:6 no lookup can succeed, so two
   * plain objects pass exactly when neither has any own property name on any
   * level of its chain, whatever their property values.
   */
  function PlainFallback(la: seq<seq<string>>, lb: seq<seq<string>>): (r: bool)
    ensures r <==> CountNonEmpty(la) == 0 && CountNonEmpty(lb) == 0
  {
    FallbackSets(la, lb);
    |NameArrays(la, 0, First)| == |NameArrays(lb, 0, Second)|
    && NameArrays(la, 0, Third) <= NameArrays(lb, 0, Second)
  }

  /** The sizes of the three sets, and the only case in which the third fits in the second. */
  lemma FallbackSets(la: seq<seq<string>>, lb: seq<seq<string>>)
    ensures |NameArrays(la, 0, First)| == |NameArrays(la, 0, Third)| == CountNonEmpty(la)
    ensures |NameArrays(lb, 0, Second)| == CountNonEmpty(lb)
    ensures NameArrays(la, 0, Third) <= NameArrays(lb, 0, Second) <==> CountNonEmpty(la) == 0
  {
    NameArraysCount(la, 0, First);
    NameArraysCount(la, 0, Third);
    NameArraysCount(lb, 0, Second);
    assert la[0..] == la;
    assert lb[0..] == lb;
    NameArraysOfDifferentCallsDisjoint(la, lb, Third, Second);
    if NameArrays(la, 0, Third) != {} {
      var p :| p in NameArrays(la, 0, Third);
      assert p !in NameArrays(lb, 0, Second);
    }
  }

  // ---------------------------------------------------------------------------
  // deepEquals (objects.ts:49-79): the specification
  // ---------------------------------------------------------------------------

  /** The result of a comparison and the visited set after it. */
  datatype Outcome = Outcome(equal: bool, stack: set<Id>)

  lemma SubsetCard<T>(a: set<T>, b: set<T>)
    requires a <= b
    ensures |a| <= |b|
  {
    if a != {} {
      var x :| x in a;
      SubsetCard(a - {x}, b - {x});
    }
  }

  /** Adding an unvisited heap object strictly shrinks the unvisited part of the heap. */
  lemma UnvisitedShrinks(k: set<Id>, s: set<Id>, t: set<Id>, x: Id)
    requires s <= t && x in k && x !in s && x in t
    ensures |k - t| < |k - s|
  {
    SubsetCard(k - t, (k - s) - {x});
  }

  lemma UnvisitedNoGrowth(k: set<Id>, s: set<Id>, t: set<Id>)
    requires s <= t
    ensures |k - t| <= |k - s|
  {
    SubsetCard(k - t, k - s);
  }

  /**
   * `deepEquals(a, b, stack)` with `s` the contents of `stack` on entry.
   * The visited set only grows, and only by objects of the heap.
   */
  function Equals(h: Store, a: Value, b: Value, s: set<Id>): (r: Outcome)
    requires ValidHeap(h) && ValidValue(h, a) && ValidValue(h, b)
    ensures s <= r.stack <= s + h.Keys
    decreases |h.Keys - s|, 0
  {
    if a == b then Outcome(true, s)
    else if TypeOf(a) != TypeOf(b) || TypeOf(a) != TObject || TypeOf(b) != TObject || a.Null? || b.Null? then
      Outcome(false, s)
    else if a.id in s || b.id in s then Outcome(true, s)
    else
      var s1 := s + {a.id, b.id};
      UnvisitedShrinks(h.Keys, s, s1, a.id);
      var oa, ob := h[a.id], h[b.id];
      if oa.Array? then
        if !ob.Array? || |oa.elems| != |ob.elems| then Outcome(false, s1)
        else EqualsFrom(h, oa.elems, ob.elems, 0, s1)
      else if ob.Array? then Outcome(false, s1)
      else if oa.Date? then Outcome(ob.Date? && oa.time == ob.time, s1)
      else if ob.Date? then Outcome(false, s1)
      else if oa.Iterable? then
        // the two spread arrays go through the array branch
        if !ob.Iterable? || |oa.items| != |ob.items| then Outcome(false, s1)
        else EqualsFrom(h, oa.items, ob.items, 0, s1)
      else if ob.Iterable? then Outcome(false, s1)
      else Outcome(PlainFallback(oa.levels, ob.levels), s1)
  }

  /** The index loop of objects.ts:60 from index `i` on, left to right, stopping at the first mismatch. */
  function EqualsFrom(h: Store, xs: seq<Value>, ys: seq<Value>, i: nat, s: set<Id>): (r: Outcome)
    requires ValidHeap(h) && ValidValues(h, xs) && ValidValues(h, ys)
    requires |xs| == |ys| && i <= |xs|
    ensures s <= r.stack <= s + h.Keys
    decreases |h.Keys - s|, 1, |xs| - i
  {
    if i == |xs| then Outcome(true, s)
    else
      var o := Equals(h, xs[i], ys[i], s);
      if !o.equal then o
      else
        UnvisitedNoGrowth(h.Keys, s, o.stack);
        EqualsFrom(h, xs, ys, i + 1, o.stack)
  }

  // ---------------------------------------------------------------------------
  // deepEquals: the procedure
  // ---------------------------------------------------------------------------

  /** The `WeakSet` of visited objects, passed by reference through the whole traversal. */
  class VisitedSet {
    var members: set<Id>

    constructor ()
      ensures members == {}
    {
      members := {};
    }
  }

  /** `deepEquals(a, b, stack)` (objects.ts:49-79). */
  method DeepEquals(h: Store, a: Value, b: Value, stack: VisitedSet) returns (r: bool)
    requires ValidHeap(h) && ValidValue(h, a) && ValidValue(h, b)
    modifies stack
    ensures r == Equals(h, a, b, old(stack.members)).equal
    ensures stack.members == Equals(h, a, b, old(stack.members)).stack
    decreases |h.Keys - stack.members|, 0
  {
    if a == b {
      return true;
    }
    if TypeOf(a) != TypeOf(b) || TypeOf(a) != TObject || TypeOf(b) != TObject || a.Null? || b.Null? {
      return false;
    }
    if a.id in stack.members || b.id in stack.members {
      return true;
    }
    ghost var s0 := stack.members;
    stack.members := stack.members + {a.id};
    stack.members := stack.members + {b.id};
    assert stack.members == s0 + {a.id, b.id};
    UnvisitedShrinks(h.Keys, s0, stack.members, a.id);
    var oa, ob := h[a.id], h[b.id];
    if oa.Array? {
      if !ob.Array? || |oa.elems| != |ob.elems| {
        return false;
      }
      assert Equals(h, a, b, s0) == EqualsFrom(h, oa.elems, ob.elems, 0, stack.members);
      r := ElementsEqual(h, oa.elems, ob.elems, stack);
      return;
    }
    if ob.Array? {
      return false;
    }
    if oa.Date? {
      return ob.Date? && oa.time == ob.time;
    }
    if ob.Date? {
      return false;
    }
    if oa.Iterable? {
      if !ob.Iterable? {
        return false;
      }
      // deepEquals([...a], [...b], stack): the two fresh arrays pass every check
      // before the array branch, which compares their lengths and elements
      if |oa.items| != |ob.items| {
        return false;
      }
      assert Equals(h, a, b, s0) == EqualsFrom(h, oa.items, ob.items, 0, stack.members);
      r := ElementsEqual(h, oa.items, ob.items, stack);
      return;
    }
    if ob.Iterable? {
      return false;
    }
    assert Equals(h, a, b, s0) == Outcome(PlainFallback(oa.levels, ob.levels), stack.members);
    r := PlainObjectsEqual(oa.levels, ob.levels);
  }

  /**
   * The plain-object branch (objects.ts:72-78) for two prototype chains: three
   * traversals, the size test and the loop over the third set.
   */
  method PlainObjectsEqual(la: seq<seq<string>>, lb: seq<seq<string>>) returns (r: bool)
    requires la != [] && lb != []
    ensures r == PlainFallback(la, lb)
  {
    var aKeys := GetPropertyNames(la, 0, First, {});
    var bKeys := GetPropertyNames(lb, 0, Second, {});
    if |aKeys| != |bKeys| {
      return false;
    }
    var aProperties := GetPropertyNames(la, 0, Third, {});
    if aProperties == {} {
      return true;
    }
    // The loop over aProperties returns at its first element: every element is a
    // fresh array of the third traversal, which bKeys (of the second one) lacks.
    var property :| property in aProperties;
    NameArraysOfDifferentCallsDisjoint(la, lb, Third, Second);
    assert property !in bKeys;
    return false;
  }

  /** The element loop of the array branch (objects.ts:60-61), over the shared visited set. */
  method ElementsEqual(h: Store, xs: seq<Value>, ys: seq<Value>, stack: VisitedSet) returns (r: bool)
    requires ValidHeap(h) && ValidValues(h, xs) && ValidValues(h, ys) && |xs| == |ys|
    modifies stack
    ensures r == EqualsFrom(h, xs, ys, 0, old(stack.members)).equal
    ensures stack.members == EqualsFrom(h, xs, ys, 0, old(stack.members)).stack
    decreases |h.Keys - stack.members|, 1
  {
    for i := 0 to |xs|
      invariant old(stack.members) <= stack.members
      invariant EqualsFrom(h, xs, ys, 0, old(stack.members)) == EqualsFrom(h, xs, ys, i, stack.members)
    {
      ghost var before := stack.members;
      UnvisitedNoGrowth(h.Keys, old(stack.members), before);
      var eq := DeepEquals(h, xs[i], ys[i], stack);
      ghost var o := Equals(h, xs[i], ys[i], before);
      assert EqualsFrom(h, xs, ys, i, before) == if !o.equal then o else EqualsFrom(h, xs, ys, i + 1, o.stack);
      if !eq {
        return false;
      }
    }
    return true;
  }

  /** A top-level call, `deepEquals(a, b)`, which starts from a fresh `WeakSet`. */
  method DeepEqualsFresh(h: Store, a: Value, b: Value) returns (r: bool)
    requires ValidHeap(h) && ValidValue(h, a) && ValidValue(h, b)
    ensures r == Equals(h, a, b, {}).equal
  {
    var stack := new VisitedSet();
    r := DeepEquals(h, a, b, stack);
  }

  // ---------------------------------------------------------------------------
  // Properties of deepEquals
  // ---------------------------------------------------------------------------

  /** Identical values are equal before anything else is looked at (objects.ts:51); the visited set is untouched. */
  lemma IdenticalValuesEqual(h: Store, x: Value, s: set<Id>)
    requires ValidHeap(h) && ValidValue(h, x)
    ensures Equals(h, x, x, s) == Outcome(true, s)
  {
  }

  /**
   * Unless both sides are non-null objects, a pair is equal exactly when it is
   * identical (objects.ts:51-52): primitives compare by `===`, functions by
   * reference, `null` equals only `null`.
   */
  lemma NonObjectsComparedByIdentity(h: Store, a: Value, b: Value, s: set<Id>)
    requires ValidHeap(h) && ValidValue(h, a) && ValidValue(h, b)
    requires !(a.Ref? && b.Ref?)
    ensures Equals(h, a, b, s) == Outcome(a == b, s)
  {
  }

  /**
   * Two different objects of which one was visited before, anywhere in the
   * traversal, are assumed equal (objects.ts:54).
   */
  lemma VisitedAssumedEqual(h: Store, a: Value, b: Value, s: set<Id>)
    requires ValidHeap(h) && ValidValue(h, a) && ValidValue(h, b)
    requires a.Ref? && b.Ref? && (a.id in s || b.id in s)
    ensures Equals(h, a, b, s) == Outcome(true, s)
  {
  }

  /** Both objects are of the same one of the four categories deepEquals distinguishes. */
  predicate SameCategory(oa: Object, ob: Object)
  {
    (oa.Array? && ob.Array?) || (oa.Date? && ob.Date?)
    || (oa.Iterable? && ob.Iterable?) || (oa.Plain? && ob.Plain?)
  }

  /**
   * Objects of different categories are unequal, in either order
   * (objects.ts:59, 63, 65-66, 69-70); both are marked visited first (objects.ts:55-56).
   */
  lemma CategoriesDiffer(h: Store, a: Value, b: Value, s: set<Id>)
    requires ValidHeap(h) && ValidValue(h, a) && ValidValue(h, b)
    requires a.Ref? && b.Ref? && a.id !in s && b.id !in s
    requires !SameCategory(h[a.id], h[b.id])
    ensures Equals(h, a, b, s) == Outcome(false, s + {a.id, b.id})
  {
  }

  /** A Date equals only a Date with the same timestamp (objects.ts:65-66). */
  lemma DatesByTimestamp(h: Store, a: Value, b: Value, s: set<Id>)
    requires ValidHeap(h) && ValidValue(h, a) && ValidValue(h, b)
    requires a.Ref? && b.Ref? && a != b && a.id !in s && b.id !in s
    requires h[a.id].Date? || h[b.id].Date?
    ensures Equals(h, a, b, s).equal <==> h[a.id].Date? && h[b.id].Date? && h[a.id].time == h[b.id].time
  {
  }

  /** Arrays, and iterables, of different lengths are unequal (objects.ts:59, 69). */
  lemma LengthsDiffer(h: Store, a: Value, b: Value, s: set<Id>)
    requires ValidHeap(h) && ValidValue(h, a) && ValidValue(h, b)
    requires a.Ref? && b.Ref? && a.id !in s && b.id !in s
    requires (h[a.id].Array? && h[b.id].Array? && |h[a.id].elems| != |h[b.id].elems|)
          || (h[a.id].Iterable? && h[b.id].Iterable? && |h[a.id].items| != |h[b.id].items|)
    ensures Equals(h, a, b, s) == Outcome(false, s + {a.id, b.id})
  {
  }

  /**
   * Plain objects are equal only when neither has an own property name on any
   * level of its prototype chain (objects.ts:6, 72-78), whatever their values.
   */
  lemma PlainObjectsEqualOnlyWithoutNames(h: Store, a: Value, b: Value, s: set<Id>)
    requires ValidHeap(h) && ValidValue(h, a) && ValidValue(h, b)
    requires a.Ref? && b.Ref? && a != b && a.id !in s && b.id !in s
    requires h[a.id].Plain? && h[b.id].Plain?
    ensures Equals(h, a, b, s).equal
        <==> CountNonEmpty(h[a.id].levels) == 0 && CountNonEmpty(h[b.id].levels) == 0
  {
  }

  /** Two unvisited arrays, or two iterables, of one length are compared element by element (objects.ts:60, 69). */
  lemma SameLengthsCompareElements(h: Store, a: Value, b: Value, s: set<Id>)
    requires ValidHeap(h) && ValidValue(h, a) && ValidValue(h, b)
    requires a.Ref? && b.Ref? && a != b && a.id !in s && b.id !in s
    ensures h[a.id].Array? && h[b.id].Array? && |h[a.id].elems| == |h[b.id].elems| ==>
      Equals(h, a, b, s) == EqualsFrom(h, h[a.id].elems, h[b.id].elems, 0, s + {a.id, b.id})
    ensures h[a.id].Iterable? && h[b.id].Iterable? && |h[a.id].items| == |h[b.id].items| ==>
      Equals(h, a, b, s) == EqualsFrom(h, h[a.id].items, h[b.id].items, 0, s + {a.id, b.id})
  {
  }

  /** Comparing a sequence with itself succeeds and visits nothing: each pair is identical. */
  lemma {:induction false} EqualsFromSelf(h: Store, xs: seq<Value>, i: nat, s: set<Id>)
    requires ValidHeap(h) && ValidValues(h, xs) && i <= |xs|
    ensures EqualsFrom(h, xs, xs, i, s) == Outcome(true, s)
    decreases |xs| - i
  {
    if i < |xs| {
      IdenticalValuesEqual(h, xs[i], s);
      EqualsFromSelf(h, xs, i + 1, s);
    }
  }

  /**
   * A shallow copy of an array, an iterable or a Date is deeply equal to the
   * original. (For plain objects this fails: see PlainObjectsEqualOnlyWithoutNames.)
   */
  lemma ShallowCopyEqual(h: Store, a: Value, b: Value, s: set<Id>)
    requires ValidHeap(h) && ValidValue(h, a) && ValidValue(h, b)
    requires a.Ref? && b.Ref? && h[a.id] == h[b.id] && !h[a.id].Plain?
    ensures Equals(h, a, b, s).equal
  {
    if a != b && a.id !in s && b.id !in s {
      var s1 := s + {a.id, b.id};
      match h[a.id]
      case Array(xs) => EqualsFromSelf(h, xs, 0, s1);
      case Iterable(xs) => EqualsFromSelf(h, xs, 0, s1);
      case Date(_) =>
    }
  }

  /** For sequences without object references, the element loop is plain sequence equality. */
  lemma {:induction false} EqualsFromPrimitives(h: Store, xs: seq<Value>, ys: seq<Value>, i: nat, s: set<Id>)
    requires ValidHeap(h) && ValidValues(h, xs) && ValidValues(h, ys)
    requires |xs| == |ys| && i <= |xs|
    requires forall j :: 0 <= j < |xs| ==> !xs[j].Ref?
    ensures EqualsFrom(h, xs, ys, i, s) == Outcome(xs[i..] == ys[i..], s)
    decreases |xs| - i
  {
    if i < |xs| {
      NonObjectsComparedByIdentity(h, xs[i], ys[i], s);
      EqualsFromPrimitives(h, xs, ys, i + 1, s);
      assert xs[i..] == [xs[i]] + xs[i + 1..];
      assert ys[i..] == [ys[i]] + ys[i + 1..];
    }
  }

  /**
   * Two arrays whose elements are not objects are equal exactly when they hold
   * the same elements in the same order (objects.ts:58-61): order and length matter.
   */
  lemma PrimitiveArraysEqualIffSame(h: Store, a: Value, b: Value, s: set<Id>)
    requires ValidHeap(h) && ValidValue(h, a) && ValidValue(h, b)
    requires a.Ref? && b.Ref? && a != b && a.id !in s && b.id !in s
    requires h[a.id].Array? && h[b.id].Array?
    requires forall j :: 0 <= j < |h[a.id].elems| ==> !h[a.id].elems[j].Ref?
    ensures Equals(h, a, b, s) == Outcome(h[a.id].elems == h[b.id].elems, s + {a.id, b.id})
  {
    var xs, ys := h[a.id].elems, h[b.id].elems;
    if |xs| == |ys| {
      EqualsFromPrimitives(h, xs, ys, 0, s + {a.id, b.id});
      assert xs[0..] == xs && ys[0..] == ys;
    }
  }

  /**
   * deepEquals is symmetric for every pair of values and every visited set,
   * cyclic heaps included: the visited set is updated with both sides at once,
   * every rule is checked in both orders, and the plain-object rule depends
   * only on both sides being free of names.
   */
  lemma {:induction false} EqualsSymmetric(h: Store, a: Value, b: Value, s: set<Id>)
    requires ValidHeap(h) && ValidValue(h, a) && ValidValue(h, b)
    ensures Equals(h, a, b, s) == Equals(h, b, a, s)
    decreases |h.Keys - s|, 0
  {
    if a == b || TypeOf(a) != TypeOf(b) || TypeOf(a) != TObject || a.Null? || b.Null? || a.id in s || b.id in s {
    } else {
      var s1 := s + {a.id, b.id};
      assert s1 == s + {b.id, a.id};
      UnvisitedShrinks(h.Keys, s, s1, a.id);
      var oa, ob := h[a.id], h[b.id];
      if oa.Array? && ob.Array? && |oa.elems| == |ob.elems| {
        EqualsFromSymmetric(h, oa.elems, ob.elems, 0, s1);
      } else if oa.Iterable? && ob.Iterable? && |oa.items| == |ob.items| {
        EqualsFromSymmetric(h, oa.items, ob.items, 0, s1);
      } else if oa.Plain? && ob.Plain? {
        assert PlainFallback(oa.levels, ob.levels) == PlainFallback(ob.levels, oa.levels);
      }
    }
  }

  lemma {:induction false} EqualsFromSymmetric(h: Store, xs: seq<Value>, ys: seq<Value>, i: nat, s: set<Id>)
    requires ValidHeap(h) && ValidValues(h, xs) && ValidValues(h, ys)
    requires |xs| == |ys| && i <= |xs|
    ensures EqualsFrom(h, xs, ys, i, s) == EqualsFrom(h, ys, xs, i, s)
    decreases |h.Keys - s|, 1, |xs| - i
  {
    if i < |xs| {
      EqualsSymmetric(h, xs[i], ys[i], s);
      var o := Equals(h, xs[i], ys[i], s);
      if o.equal {
        UnvisitedNoGrowth(h.Keys, s, o.stack);
        EqualsFromSymmetric(h, xs, ys, i + 1, o.stack);
      }
    }
  }
}
