/**
 * Concrete comparisons on small heaps: the documented cases of `deepEquals`
 * (objects.ts:31-47) and what the code as written does with them.
 */
module EqualityExamples {
  import opened Heap
  import opened Equality

  /** Own names of `Object.prototype`, abridged: any non-empty list behaves the same. */
  const ObjectPrototypeNames: seq<string> := ["constructor", "hasOwnProperty", "toString", "valueOf"]

  /** Primitives are equal only by `===`; `null` and `undefined` differ. */
  lemma PrimitiveExamples()
    ensures Equals(map[], Num(1), Num(1), {}).equal
    ensures !Equals(map[], Num(1), Str("1"), {}).equal
    ensures !Equals(map[], Num(1), BigInt(1), {}).equal
    ensures !Equals(map[], Null, Undefined, {}).equal
    ensures Equals(map[], Null, Null, {}).equal
    ensures !Equals(map[], Func(1), Func(2), {}).equal
  {
  }

  /** A heap of two objects, compared as Ref(0) against Ref(1). */
  function Pair(x: Object, y: Object): Store
  {
    map[0 := x, 1 := y]
  }

  lemma PairValid(x: Object, y: Object)
    requires ValidObject(Pair(x, y), x) && ValidObject(Pair(x, y), y)
    ensures ValidHeap(Pair(x, y))
  {
  }

  /** [1,2,3] = [1,2,3]; [1,2,3] != [1,2]; [2,1] != [1,2]. */
  lemma FlatArrayExamples()
    ensures Equals(Pair(Array([Num(1), Num(2), Num(3)]), Array([Num(1), Num(2), Num(3)])), Ref(0), Ref(1), {}).equal
    ensures !Equals(Pair(Array([Num(1), Num(2), Num(3)]), Array([Num(1), Num(2)])), Ref(0), Ref(1), {}).equal
    ensures !Equals(Pair(Array([Num(2), Num(1)]), Array([Num(1), Num(2)])), Ref(0), Ref(1), {}).equal
  {
    var x, y, z := Array([Num(1), Num(2), Num(3)]), Array([Num(1), Num(2)]), Array([Num(2), Num(1)]);
    PairValid(x, x);
    PrimitiveArraysEqualIffSame(Pair(x, x), Ref(0), Ref(1), {});
    PairValid(x, y);
    LengthsDiffer(Pair(x, y), Ref(0), Ref(1), {});
    PairValid(z, y);
    PrimitiveArraysEqualIffSame(Pair(z, y), Ref(0), Ref(1), {});
    assert z.elems[0] != y.elems[0];
  }

  function NestedHeap(): Store
  {
    map[
      0 := Array([Num(1), Ref(2)]),
      1 := Array([Num(1), Ref(3)]),
      2 := Array([Num(2), Num(3)]),
      3 := Array([Num(2), Num(3)])
    ]
  }

  /** [1,[2,3]] = [1,[2,3]]: the comparison recurses into the inner arrays. */
  lemma NestedArrayExample()
    ensures ValidHeap(NestedHeap())
    ensures Equals(NestedHeap(), Ref(0), Ref(1), {}).equal
  {
    var h := NestedHeap();
    forall id | id in h ensures ValidObject(h, h[id]) {
    }
    var xs, ys := h[0].elems, h[1].elems;
    PrimitiveArraysEqualIffSame(h, Ref(2), Ref(3), {0, 1});
    NonObjectsComparedByIdentity(h, Num(1), Num(1), {0, 1});
    SameLengthsCompareElements(h, Ref(0), Ref(1), {});
    assert {} + {0, 1} == {0, 1};
    assert EqualsFrom(h, xs, ys, 0, {0, 1}) == EqualsFrom(h, xs, ys, 1, {0, 1});
    assert EqualsFrom(h, xs, ys, 1, {0, 1}) == EqualsFrom(h, xs, ys, 2, {0, 1, 2, 3});
  }

  function CycleHeap(): Store
  {
    map[0 := Array([Ref(0)]), 1 := Array([Ref(1)])]
  }

  /** a = [a] and b = [b] are equal, and the comparison terminates. */
  lemma CyclicArraysEqual()
    ensures ValidHeap(CycleHeap())
    ensures Equals(CycleHeap(), Ref(0), Ref(1), {}) == Outcome(true, {0, 1})
  {
    var h := CycleHeap();
    assert ValidHeap(h);
    SameLengthsCompareElements(h, Ref(0), Ref(1), {});
    assert {} + {0, 1} == {0, 1};
  }

  function SiblingHeap(): Store
  {
    map[
      0 := Array([Ref(2), Ref(2)]),
      1 := Array([Ref(3), Ref(4)]),
      2 := Array([]),
      3 := Array([]),
      4 := Array([Num(7)])
    ]
  }

  /**
   * On an acyclic heap: [p, p] with p = [] is reported equal to [[], [7]]. Once p
   * was visited as the first element, the pair (p, [7]) is assumed equal, although
   * on its own it is not.
   */
  lemma VisitedSiblingAssumedEqual()
    ensures ValidHeap(SiblingHeap())
    ensures !Equals(SiblingHeap(), Ref(2), Ref(4), {}).equal
    ensures Equals(SiblingHeap(), Ref(0), Ref(1), {}).equal
  {
    var h := SiblingHeap();
    forall id | id in h ensures ValidObject(h, h[id]) {
    }
    LengthsDiffer(h, Ref(2), Ref(4), {});
    var xs, ys := h[0].elems, h[1].elems;
    var s0, s1 := {0, 1}, {0, 1, 2, 3};
    ShallowCopyEqual(h, Ref(2), Ref(3), s0);
    EqualsFromSelf(h, [], 0, s1);
    assert Equals(h, Ref(2), Ref(3), s0) == EqualsFrom(h, [], [], 0, s1);
    VisitedAssumedEqual(h, Ref(2), Ref(4), s1);
    SameLengthsCompareElements(h, Ref(0), Ref(1), {});
    assert {} + {0, 1} == s0;
    assert EqualsFrom(h, xs, ys, 0, s0) == EqualsFrom(h, xs, ys, 1, s1);
    assert EqualsFrom(h, xs, ys, 1, s1) == EqualsFrom(h, xs, ys, 2, s1);
  }

  /** {x: a} for a at address `self`: own name "x", then Object.prototype. */
  function SelfLoop(self: Id): Object
  {
    Plain([["x"], ObjectPrototypeNames], map["x" := Ref(self)])
  }

  /** a = {x: a} and b = {x: b} are unequal as written: both have own names. */
  lemma CyclicPlainObjectsUnequal()
    ensures ValidHeap(Pair(SelfLoop(0), SelfLoop(1)))
    ensures !Equals(Pair(SelfLoop(0), SelfLoop(1)), Ref(0), Ref(1), {}).equal
  {
    var h := Pair(SelfLoop(0), SelfLoop(1));
    PairValid(SelfLoop(0), SelfLoop(1));
    PlainObjectsEqualOnlyWithoutNames(h, Ref(0), Ref(1), {});
  }

  /** {a: 1, b: 2} and {b: 2, a: 1} are unequal, and so are {} and {}: Object.prototype has own names. */
  lemma PlainObjectsWithPrototypeUnequal()
    ensures !Equals(Pair(Plain([["a", "b"], ObjectPrototypeNames], map["a" := Num(1), "b" := Num(2)]),
                         Plain([["b", "a"], ObjectPrototypeNames], map["a" := Num(1), "b" := Num(2)])),
                    Ref(0), Ref(1), {}).equal
    ensures !Equals(Pair(Plain([[], ObjectPrototypeNames], map[]), Plain([[], ObjectPrototypeNames], map[])),
                    Ref(0), Ref(1), {}).equal
  {
    var x := Plain([["a", "b"], ObjectPrototypeNames], map["a" := Num(1), "b" := Num(2)]);
    var y := Plain([["b", "a"], ObjectPrototypeNames], map["a" := Num(1), "b" := Num(2)]);
    PairValid(x, y);
    PlainObjectsEqualOnlyWithoutNames(Pair(x, y), Ref(0), Ref(1), {});
    var e := Plain([[], ObjectPrototypeNames], map[]);
    PairValid(e, e);
    PlainObjectsEqualOnlyWithoutNames(Pair(e, e), Ref(0), Ref(1), {});
  }

  /** Two objects made by Object.create(null), without properties, are equal. */
  lemma NullPrototypeObjectsEqual()
    ensures Equals(Pair(Plain([[]], map[]), Plain([[]], map[])), Ref(0), Ref(1), {}).equal
  {
    PairValid(Plain([[]], map[]), Plain([[]], map[]));
    PlainObjectsEqualOnlyWithoutNames(Pair(Plain([[]], map[]), Plain([[]], map[])), Ref(0), Ref(1), {});
  }

  /** [1, 2] is not equal to {0: 1, 1: 2}. */
  lemma ArrayAndObjectUnequal()
    ensures !Equals(Pair(Array([Num(1), Num(2)]),
                         Plain([["0", "1"], ObjectPrototypeNames], map["0" := Num(1), "1" := Num(2)])),
                    Ref(0), Ref(1), {}).equal
  {
    var x, y := Array([Num(1), Num(2)]), Plain([["0", "1"], ObjectPrototypeNames], map["0" := Num(1), "1" := Num(2)]);
    PairValid(x, y);
    CategoriesDiffer(Pair(x, y), Ref(0), Ref(1), {});
  }

  /** Dates compare by timestamp, and a Date is not equal to a set. */
  lemma DateExamples()
    ensures Equals(Pair(Date(1000), Date(1000)), Ref(0), Ref(1), {}).equal
    ensures !Equals(Pair(Date(1000), Date(2000)), Ref(0), Ref(1), {}).equal
    ensures !Equals(Pair(Date(1000), Iterable([])), Ref(0), Ref(1), {}).equal
  {
    PairValid(Date(1000), Date(1000));
    PairValid(Date(1000), Date(2000));
    PairValid(Date(1000), Iterable([]));
    DatesByTimestamp(Pair(Date(1000), Date(2000)), Ref(0), Ref(1), {});
  }

  /** Sets compare in iteration order: new Set([1, 2]) differs from new Set([2, 1]). */
  lemma IterableExamples()
    ensures !Equals(Pair(Iterable([Num(1), Num(2)]), Iterable([Num(2), Num(1)])), Ref(0), Ref(1), {}).equal
    ensures Equals(Pair(Iterable([Num(1), Num(2)]), Iterable([Num(1), Num(2)])), Ref(0), Ref(1), {}).equal
  {
    var x, y := Iterable([Num(1), Num(2)]), Iterable([Num(2), Num(1)]);
    var h := Pair(x, y);
    PairValid(x, y);
    SameLengthsCompareElements(h, Ref(0), Ref(1), {});
    assert {} + {0, 1} == {0, 1};
    EqualsFromPrimitives(h, x.items, y.items, 0, {0, 1});
    assert x.items[0..] != y.items[0..] by { assert x.items[0] != y.items[0]; }
    PairValid(x, x);
    ShallowCopyEqual(Pair(x, x), Ref(0), Ref(1), {});
  }
}
