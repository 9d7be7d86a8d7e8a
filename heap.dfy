/**
 * The JavaScript values that `deepEquals` (objects.ts) compares, over an explicit heap.
 *
 * Primitives are values; every object that is not a function lives in the heap under an
 * identity `Id`, so that `===` on objects is equality of identities. Functions are objects
 * too, but `deepEquals` never looks inside them (only `===` and `typeof` apply), so they
 * are represented by their identity alone.
 */
module Heap {

  type Id = nat

  /** A JavaScript value. Numbers and timestamps are integers (no NaN, no -0). */
  datatype Value =
    | Undefined
    | Null
    | Bool(b: bool)
    | Num(n: int)
    | BigInt(i: int)
    | Str(s: string)
    | Symbol(sym: nat)     // a symbol, identified by its creation
    | Func(fid: Id)        // a function object, compared by reference only
    | Ref(id: Id)          // any other object, stored in the heap

  /** The eight results of the `typeof` operator. */
  datatype TypeTag =
    | TUndefined | TObject | TBoolean | TNumber | TBigInt | TString | TSymbol | TFunction

  function TypeOf(v: Value): (t: TypeTag)
    ensures t == TObject <==> v.Null? || v.Ref?
    ensures t == TFunction <==> v.Func?
  {
    match v
    case Undefined => TUndefined
    case Null => TObject
    case Bool(_) => TBoolean
    case Num(_) => TNumber
    case BigInt(_) => TBigInt
    case Str(_) => TString
    case Symbol(_) => TSymbol
    case Func(_) => TFunction
    case Ref(_) => TObject
  }

  /**
   * A heap object, by the category `deepEquals` tests for it:
   * `Array.isArray`, `instanceof Date`, `Symbol.iterator in`, or none of these.
   * An iterable carries the finite sequence its iterator produces (for a Map, the
   * entry arrays [key, value], which are themselves heap arrays).
   * A plain object carries the own property names of each level of its prototype
   * chain (level 0 is the object itself, the last level the one whose prototype is
   * null) and its property values.
   */
  datatype Object =
    | Array(elems: seq<Value>)
    | Date(time: int)
    | Iterable(items: seq<Value>)
    | Plain(levels: seq<seq<string>>, props: map<string, Value>)

  type Store = map<Id, Object>

  /** Every reference held by `v` points into the heap. */
  predicate ValidValue(h: Store, v: Value)
  {
    v.Ref? ==> v.id in h
  }

  predicate ValidValues(h: Store, vs: seq<Value>)
  {
    forall i :: 0 <= i < |vs| ==> ValidValue(h, vs[i])
  }

  /** A plain object always has at least its own level in its prototype chain. */
  predicate ValidObject(h: Store, o: Object)
  {
    match o
    case Array(xs) => ValidValues(h, xs)
    case Date(_) => true
    case Iterable(xs) => ValidValues(h, xs)
    case Plain(levels, props) => levels != [] && forall k :: k in props ==> ValidValue(h, props[k])
  }

  /** The heap is closed: no object refers outside it. */
  predicate ValidHeap(h: Store)
  {
    forall id :: id in h ==> ValidObject(h, h[id])
  }
}
