/**
 * `objectMap`, `objectFilter` and `addPrefixToObject` of objects.ts.
 *
 * A plain object is the ordered list of its own enumerable string-keyed
 * properties, as `Object.entries` and `for...in` list them. Assigning a key that
 * is present replaces its value in place; assigning a new key appends it. So
 * `Object.fromEntries` keeps the position of a key's first occurrence and the
 * value of its last.
 */
module ObjectUtils {

  datatype Option<T> = None | Some(value: T)

  type Entries<V> = seq<(string, V)>

  function Keys<V>(o: Entries<V>): (ks: seq<string>)
    ensures |ks| == |o| && forall i :: 0 <= i < |o| ==> ks[i] == o[i].0
  {
    if o == [] then [] else [o[0].0] + Keys(o[1..])
  }

  /** An object has each key at most once. */
  predicate DistinctKeys<V>(o: Entries<V>)
  {
    forall i, j :: 0 <= i < j < |o| ==> o[i].0 != o[j].0
  }

  /** `o[k]`: the value of the first entry with key `k`. */
  function Lookup<V>(o: Entries<V>, k: string): (r: Option<V>)
    ensures r.Some? <==> k in Keys(o)
  {
    if o == [] then None
    else if o[0].0 == k then Some(o[0].1)
    else Lookup(o[1..], k)
  }

  lemma {:induction false} LookupAt<V>(o: Entries<V>, i: nat)
    requires DistinctKeys(o) && i < |o|
    ensures Lookup(o, o[i].0) == Some(o[i].1)
  {
    if i > 0 {
      LookupAt(o[1..], i - 1);
    }
  }

  lemma {:induction false} LookupMissing<V>(o: Entries<V>, k: string)
    requires k !in Keys(o)
    ensures Lookup(o, k) == None
  {
    if o != [] {
      assert o[0].0 == Keys(o)[0];
      assert Keys(o[1..]) == Keys(o)[1..];
      LookupMissing(o[1..], k);
    }
  }

  /** The assignment `o[k] = v`. */
  function Put<V>(o: Entries<V>, k: string, v: V): (r: Entries<V>)
    ensures |o| <= |r| <= |o| + 1
    ensures Lookup(r, k) == Some(v)
  {
    if o == [] then [(k, v)]
    else if o[0].0 == k then [(k, v)] + o[1..]
    else [o[0]] + Put(o[1..], k, v)
  }

  lemma {:induction false} PutNew<V>(o: Entries<V>, k: string, v: V)
    requires k !in Keys(o)
    ensures Put(o, k, v) == o + [(k, v)]
  {
    if o != [] {
      assert o[0].0 == Keys(o)[0];
      assert Keys(o[1..]) == Keys(o)[1..];
      PutNew(o[1..], k, v);
    }
  }

  /** A present key keeps its position; a new key goes last. */
  lemma {:induction false} PutKeys<V>(o: Entries<V>, k: string, v: V)
    ensures Keys(Put(o, k, v)) == if k in Keys(o) then Keys(o) else Keys(o) + [k]
  {
    if o != [] {
      assert Keys(o) == [o[0].0] + Keys(o[1..]);
      if o[0].0 != k {
        PutKeys(o[1..], k, v);
        assert Keys(Put(o, k, v)) == [o[0].0] + Keys(Put(o[1..], k, v));
      }
    }
  }

  /** Reading a key after assigning it gives the assigned value; other keys are untouched. */
  lemma {:induction false} PutLookup<V>(o: Entries<V>, k: string, v: V, k': string)
    ensures Lookup(Put(o, k, v), k) == Some(v)
    ensures k' != k ==> Lookup(Put(o, k, v), k') == Lookup(o, k')
  {
    if o != [] && o[0].0 != k {
      PutLookup(o[1..], k, v, k');
    }
  }

  lemma DistinctCons<V>(e: (string, V), o: Entries<V>)
    requires DistinctKeys(o) && e.0 !in Keys(o)
    ensures DistinctKeys([e] + o)
  {
    var r := [e] + o;
    forall i, j | 0 <= i < j < |r| ensures r[i].0 != r[j].0 {
      if i == 0 {
        assert r[j].0 == Keys(o)[j - 1];
      } else {
        assert r[i] == o[i - 1] && r[j] == o[j - 1];
      }
    }
  }

  lemma {:induction false} PutDistinct<V>(o: Entries<V>, k: string, v: V)
    requires DistinctKeys(o)
    ensures DistinctKeys(Put(o, k, v))
  {
    if o == [] {
    } else if o[0].0 == k {
      var r := Put(o, k, v);
      assert r == [(k, v)] + o[1..];
      forall i, j | 0 <= i < j < |r| ensures r[i].0 != r[j].0 {
        assert r[j] == o[j];
        if i > 0 {
          assert r[i] == o[i];
        }
      }
    } else {
      var o1 := o[1..];
      assert DistinctKeys(o1) by {
        forall i, j | 0 <= i < j < |o1| ensures o1[i].0 != o1[j].0 {
          assert o1[i] == o[i + 1] && o1[j] == o[j + 1];
        }
      }
      PutDistinct(o1, k, v);
      PutKeys(o1, k, v);
      assert o[0].0 !in Keys(o1) by {
        forall i | 0 <= i < |o1| ensures Keys(o1)[i] != o[0].0 {
          assert o1[i] == o[i + 1];
        }
      }
      DistinctCons(o[0], Put(o1, k, v));
    }
  }

  /** Assignment replaces the value of a present key in place, or appends a new key. */
  lemma PutSpec<V>(o: Entries<V>, k: string, v: V)
    requires DistinctKeys(o)
    ensures DistinctKeys(Put(o, k, v))
    ensures Keys(Put(o, k, v)) == if k in Keys(o) then Keys(o) else Keys(o) + [k]
    ensures Lookup(Put(o, k, v), k) == Some(v)
    ensures forall k' :: k' != k ==> Lookup(Put(o, k, v), k') == Lookup(o, k')
  {
    PutDistinct(o, k, v);
    PutKeys(o, k, v);
    forall k' ensures Lookup(Put(o, k, v), k) == Some(v) && (k' != k ==> Lookup(Put(o, k, v), k') == Lookup(o, k')) {
      PutLookup(o, k, v, k');
    }
  }

  /** `Object.fromEntries`: assign the entries in order. */
  function FromEntries<V>(es: Entries<V>): (r: Entries<V>)
    ensures |r| <= |es|
    ensures es != [] ==> Lookup(r, es[|es| - 1].0) == Some(es[|es| - 1].1)
  {
    if es == [] then [] else Put(FromEntries(es[..|es| - 1]), es[|es| - 1].0, es[|es| - 1].1)
  }

  /** Entry `i` is the last one with its key. */
  predicate LastWithKey<V>(es: Entries<V>, i: nat)
    requires i < |es|
  {
    forall j :: i < j < |es| ==> es[j].0 != es[i].0
  }

  lemma {:induction false} FromEntriesDistinct<V>(es: Entries<V>)
    ensures DistinctKeys(FromEntries(es))
  {
    if es != [] {
      var init, last := es[..|es| - 1], es[|es| - 1];
      FromEntriesDistinct(init);
      PutDistinct(FromEntries(init), last.0, last.1);
    }
  }

  lemma InConcat(xs: seq<string>, x: string, k: string)
    ensures k in xs + [x] <==> k in xs || k == x
  {
    assert (xs + [x])[|xs|] == x;
    if k in xs + [x] {
      var i :| 0 <= i < |xs + [x]| && (xs + [x])[i] == k;
      if i < |xs| {
        assert xs[i] == k;
      }
    }
    if k in xs {
      var i :| 0 <= i < |xs| && xs[i] == k;
      assert (xs + [x])[i] == k;
    }
  }

  lemma KeysInit<V>(es: Entries<V>)
    requires es != []
    ensures Keys(es) == Keys(es[..|es| - 1]) + [es[|es| - 1].0]
  {
  }

  lemma {:induction false} FromEntriesKeys<V>(es: Entries<V>, k: string)
    ensures k in Keys(FromEntries(es)) <==> k in Keys(es)
  {
    if es != [] {
      var init, last := es[..|es| - 1], es[|es| - 1];
      var o := FromEntries(init);
      FromEntriesKeys(init, k);
      PutKeys(o, last.0, last.1);
      KeysInit(es);
      InConcat(Keys(init), last.0, k);
      InConcat(Keys(o), last.0, k);
    }
  }

  lemma {:induction false} FromEntriesLast<V>(es: Entries<V>, i: nat)
    requires i < |es| && LastWithKey(es, i)
    ensures Lookup(FromEntries(es), es[i].0) == Some(es[i].1)
  {
    var init, last := es[..|es| - 1], es[|es| - 1];
    PutLookup(FromEntries(init), last.0, last.1, es[i].0);
    if i < |es| - 1 {
      assert es[i] == init[i];
      assert LastWithKey(init, i) by {
        forall j | i < j < |init| ensures init[j].0 != init[i].0 {
          assert init[j] == es[j];
        }
      }
      FromEntriesLast(init, i);
    }
  }

  /**
   * `Object.fromEntries` builds an object with distinct keys, exactly the keys
   * of the entries, each with the value of its last entry.
   */
  lemma FromEntriesSpec<V>(es: Entries<V>)
    ensures DistinctKeys(FromEntries(es))
    ensures forall k :: k in Keys(FromEntries(es)) <==> k in Keys(es)
    ensures forall i :: 0 <= i < |es| && LastWithKey(es, i) ==> Lookup(FromEntries(es), es[i].0) == Some(es[i].1)
  {
    FromEntriesDistinct(es);
    forall k ensures k in Keys(FromEntries(es)) <==> k in Keys(es) {
      FromEntriesKeys(es, k);
    }
    forall i | 0 <= i < |es| && LastWithKey(es, i)
      ensures Lookup(FromEntries(es), es[i].0) == Some(es[i].1)
    {
      FromEntriesLast(es, i);
    }
  }

  /** Every key of an object is found by `Lookup` with its own value. */
  lemma DistinctLookup<V>(o: Entries<V>, k: string, v: V)
    requires DistinctKeys(o)
    ensures Lookup(o, k) == Some(v) <==> (k, v) in o
  {
    if (k, v) in o {
      var i :| 0 <= i < |o| && o[i] == (k, v);
      LookupAt(o, i);
    }
    if Lookup(o, k) == Some(v) {
      LookupFound(o, k);
    }
  }

  lemma {:induction false} LookupFound<V>(o: Entries<V>, k: string)
    requires Lookup(o, k).Some?
    ensures (k, Lookup(o, k).value) in o
  {
    if o[0].0 != k {
      LookupFound(o[1..], k);
    }
  }

  /** Assigning the entries of an object in order rebuilds the same object. */
  lemma {:induction false} FromEntriesOfObject<V>(o: Entries<V>)
    requires DistinctKeys(o)
    ensures FromEntries(o) == o
  {
    if o != [] {
      var init, last := o[..|o| - 1], o[|o| - 1];
      DistinctInit(o);
      FromEntriesOfObject(init);
      PutNew(init, last.0, last.1);
      assert init + [last] == o;
    }
  }

  /** Without its last entry an object is still one, and lacks the last key. */
  lemma DistinctInit<V>(o: Entries<V>)
    requires DistinctKeys(o) && o != []
    ensures DistinctKeys(o[..|o| - 1]) && o[|o| - 1].0 !in Keys(o[..|o| - 1])
  {
    var init := o[..|o| - 1];
    forall i | 0 <= i < |init| ensures Keys(init)[i] != o[|o| - 1].0 {
      assert init[i] == o[i];
    }
  }

  // ---------------------------------------------------------------------------
  // objectFilter (objects.ts:18-19)
  // ---------------------------------------------------------------------------

  /** `Array.prototype.filter` over the entries. */
  function FilterEntries<V>(es: Entries<V>, fn: (string, V) -> bool): (r: Entries<V>)
    ensures |r| <= |es|
    ensures forall e :: e in r ==> e in es && fn(e.0, e.1)
  {
    if es == [] then []
    else (if fn(es[0].0, es[0].1) then [es[0]] else []) + FilterEntries(es[1..], fn)
  }

  lemma {:induction false} FilterEntriesMember<V>(es: Entries<V>, fn: (string, V) -> bool, e: (string, V))
    ensures e in FilterEntries(es, fn) <==> e in es && fn(e.0, e.1)
  {
    if es != [] {
      FilterEntriesMember(es[1..], fn, e);
      assert es == [es[0]] + es[1..];
    }
  }

  lemma {:induction false} FilterEntriesSpec<V>(es: Entries<V>, fn: (string, V) -> bool)
    ensures |FilterEntries(es, fn)| <= |es|
    ensures forall e :: e in FilterEntries(es, fn) <==> e in es && fn(e.0, e.1)
    ensures DistinctKeys(es) ==> DistinctKeys(FilterEntries(es, fn))
  {
    forall e ensures e in FilterEntries(es, fn) <==> e in es && fn(e.0, e.1) {
      FilterEntriesMember(es, fn, e);
    }
    if es != [] {
      FilterEntriesSpec(es[1..], fn);
      var rest := FilterEntries(es[1..], fn);
      var r := FilterEntries(es, fn);
      if DistinctKeys(es) {
        assert DistinctKeys(es[1..]);
        forall i, j | 0 <= i < j < |r| ensures r[i].0 != r[j].0 {
          if fn(es[0].0, es[0].1) && i == 0 {
            assert r == [es[0]] + rest;
            assert r[j] == rest[j - 1];
            FilterEntriesMember(es[1..], fn, r[j]);
            var m :| 0 <= m < |es[1..]| && es[1..][m] == r[j];
            assert es[m + 1] == r[j];
          }
        }
      }
    }
  }

  function ObjectFilter<V>(obj: Entries<V>, fn: (string, V) -> bool): (r: Entries<V>)
    ensures DistinctKeys(r) && |r| <= |obj|
  {
    FromEntriesDistinct(FilterEntries(obj, fn));
    FromEntries(FilterEntries(obj, fn))
  }

  /**
   * `objectFilter` keeps exactly the entries for which the callback holds, in
   * their order, and the result is an object.
   */
  lemma ObjectFilterKeeps<V>(obj: Entries<V>, fn: (string, V) -> bool)
    requires DistinctKeys(obj)
    ensures ObjectFilter(obj, fn) == FilterEntries(obj, fn)
    ensures DistinctKeys(ObjectFilter(obj, fn)) && |ObjectFilter(obj, fn)| <= |obj|
    ensures forall e :: e in ObjectFilter(obj, fn) <==> e in obj && fn(e.0, e.1)
  {
    FilterEntriesSpec(obj, fn);
    FromEntriesOfObject(FilterEntries(obj, fn));
  }

  /** Filtering twice with one callback is filtering once. */
  lemma ObjectFilterIdempotent<V>(obj: Entries<V>, fn: (string, V) -> bool)
    requires DistinctKeys(obj)
    ensures ObjectFilter(ObjectFilter(obj, fn), fn) == ObjectFilter(obj, fn)
  {
    ObjectFilterKeeps(obj, fn);
    var once := ObjectFilter(obj, fn);
    forall e | e in once ensures fn(e.0, e.1) {
      FilterEntriesMember(obj, fn, e);
    }
    FilterAllKept(once, fn);
    FromEntriesOfObject(once);
  }

  lemma {:induction false} FilterAllKept<V>(es: Entries<V>, fn: (string, V) -> bool)
    requires forall e :: e in es ==> fn(e.0, e.1)
    ensures FilterEntries(es, fn) == es
  {
    if es != [] {
      assert es[0] in es;
      forall e | e in es[1..] ensures fn(e.0, e.1) {
        assert e in es;
      }
      FilterAllKept(es[1..], fn);
    }
  }

  // ---------------------------------------------------------------------------
  // objectMap (objects.ts:14-15)
  // ---------------------------------------------------------------------------

  /** `Array.prototype.map` over the entries. */
  function MapEntries<V, W>(es: Entries<V>, fn: (string, V) -> (string, W)): (r: Entries<W>)
    ensures |r| == |es|
    ensures forall i :: 0 <= i < |es| ==> r[i] == fn(es[i].0, es[i].1)
  {
    if es == [] then [] else [fn(es[0].0, es[0].1)] + MapEntries(es[1..], fn)
  }

  function ObjectMap<V, W>(obj: Entries<V>, fn: (string, V) -> (string, W)): (r: Entries<W>)
    ensures DistinctKeys(r) && |r| <= |obj|
  {
    FromEntriesDistinct(MapEntries(obj, fn));
    FromEntries(MapEntries(obj, fn))
  }

  /**
   * `objectMap` has exactly the keys the callback produced, each with the value
   * of the last entry mapped to it, and no more entries than the input.
   */
  lemma ObjectMapLastWins<V, W>(obj: Entries<V>, fn: (string, V) -> (string, W))
    ensures DistinctKeys(ObjectMap(obj, fn))
    ensures forall k :: k in Keys(ObjectMap(obj, fn)) <==> exists i :: 0 <= i < |obj| && fn(obj[i].0, obj[i].1).0 == k
    ensures forall i :: 0 <= i < |obj| && LastWithKey(MapEntries(obj, fn), i) ==>
      Lookup(ObjectMap(obj, fn), fn(obj[i].0, obj[i].1).0) == Some(fn(obj[i].0, obj[i].1).1)
  {
    var es := MapEntries(obj, fn);
    FromEntriesSpec(es);
    forall k ensures k in Keys(es) <==> exists i :: 0 <= i < |obj| && fn(obj[i].0, obj[i].1).0 == k {
      MapEntriesKeys(obj, fn, k);
    }
  }

  lemma MapEntriesKeys<V, W>(obj: Entries<V>, fn: (string, V) -> (string, W), k: string)
    ensures k in Keys(MapEntries(obj, fn)) <==> exists i :: 0 <= i < |obj| && fn(obj[i].0, obj[i].1).0 == k
  {
    var es := MapEntries(obj, fn);
    if k in Keys(es) {
      var i :| 0 <= i < |es| && Keys(es)[i] == k;
      assert fn(obj[i].0, obj[i].1).0 == k;
    }
    if exists i :: 0 <= i < |obj| && fn(obj[i].0, obj[i].1).0 == k {
      var i :| 0 <= i < |obj| && fn(obj[i].0, obj[i].1).0 == k;
      assert Keys(es)[i] == k;
    }
  }

  /** The values of an object under a callback that keeps every key. */
  function MapValues<V, W>(obj: Entries<V>, fn: (string, V) -> (string, W)): (r: Entries<W>)
    ensures |r| == |obj| && forall i :: 0 <= i < |obj| ==> r[i] == (obj[i].0, fn(obj[i].0, obj[i].1).1)
  {
    if obj == [] then [] else [(obj[0].0, fn(obj[0].0, obj[0].1).1)] + MapValues(obj[1..], fn)
  }

  /** A callback that keeps every key transforms the values in place: same keys, same order. */
  lemma ObjectMapKeepingKeys<V, W>(obj: Entries<V>, fn: (string, V) -> (string, W))
    requires DistinctKeys(obj)
    requires forall i :: 0 <= i < |obj| ==> fn(obj[i].0, obj[i].1).0 == obj[i].0
    ensures ObjectMap(obj, fn) == MapValues(obj, fn)
    ensures Keys(ObjectMap(obj, fn)) == Keys(obj)
  {
    var es, mv := MapEntries(obj, fn), MapValues(obj, fn);
    assert es == mv by {
      forall i | 0 <= i < |es| ensures es[i] == mv[i] {
        assert es[i] == fn(obj[i].0, obj[i].1);
      }
    }
    assert DistinctKeys(mv) by {
      forall i, j | 0 <= i < j < |mv| ensures mv[i].0 != mv[j].0 {
        assert mv[i].0 == obj[i].0 && mv[j].0 == obj[j].0;
      }
    }
    FromEntriesOfObject(mv);
  }

  // ---------------------------------------------------------------------------
  // addPrefixToObject (objects.ts:22-29)
  // ---------------------------------------------------------------------------

  /** The object with key `prefix + k` for each key `k`, in the same order, with the same values. */
  function Prefixed<V>(obj: Entries<V>, prefix: string): (r: Entries<V>)
    ensures |r| == |obj| && forall i :: 0 <= i < |obj| ==> r[i] == (prefix + obj[i].0, obj[i].1)
  {
    if obj == [] then [] else [(prefix + obj[0].0, obj[0].1)] + Prefixed(obj[1..], prefix)
  }

  lemma PrefixInjective(prefix: string, k1: string, k2: string)
    requires prefix + k1 == prefix + k2
    ensures k1 == k2
  {
    assert k1 == (prefix + k1)[|prefix|..];
    assert k2 == (prefix + k2)[|prefix|..];
  }

  /** `for (const key in obj) n[prefix + key] = obj[key]`, starting from `n = {}`. */
  method AddPrefixToObject<V>(obj: Entries<V>, prefix: string) returns (n: Entries<V>)
    requires DistinctKeys(obj)
    ensures n == Prefixed(obj, prefix)
  {
    n := [];
    for i := 0 to |obj|
      invariant n == Prefixed(obj[..i], prefix)
    {
      var key := obj[i].0;
      LookupAt(obj, i);
      assert prefix + key !in Keys(n) by {
        forall j | 0 <= j < i ensures Keys(n)[j] != prefix + key {
          if Keys(n)[j] == prefix + key {
            PrefixInjective(prefix, obj[j].0, key);
          }
        }
      }
      PutNew(n, prefix + key, Lookup(obj, key).value);
      n := Put(n, prefix + key, Lookup(obj, key).value);
      assert obj[..i + 1] == obj[..i] + [obj[i]];
    }
    assert obj[..|obj|] == obj;
  }

  /**
   * The prefixed object is an object with as many keys as the input; a key
   * `prefix + k` has the value of `k`, and a key not starting with `prefix` is absent.
   */
  lemma PrefixedLookup<V>(obj: Entries<V>, prefix: string, key: string)
    requires DistinctKeys(obj)
    ensures DistinctKeys(Prefixed(obj, prefix)) && |Prefixed(obj, prefix)| == |obj|
    ensures Lookup(Prefixed(obj, prefix), key)
         == if |prefix| <= |key| && key[..|prefix|] == prefix then Lookup(obj, key[|prefix|..]) else None
  {
    var r := Prefixed(obj, prefix);
    forall i, j | 0 <= i < j < |r| ensures r[i].0 != r[j].0 {
      if r[i].0 == r[j].0 {
        PrefixInjective(prefix, obj[i].0, obj[j].0);
      }
    }
    if |prefix| <= |key| && key[..|prefix|] == prefix {
      var k := key[|prefix|..];
      assert key == prefix + k;
      if k in Keys(obj) {
        var i :| 0 <= i < |obj| && Keys(obj)[i] == k;
        LookupAt(obj, i);
        LookupAt(r, i);
      } else {
        LookupMissing(obj, k);
        assert key !in Keys(r) by {
          forall i | 0 <= i < |r| ensures Keys(r)[i] != key {
            assert Keys(r)[i] == prefix + Keys(obj)[i];
          }
        }
        LookupMissing(r, key);
      }
    } else {
      assert key !in Keys(r) by {
        forall i | 0 <= i < |r| ensures Keys(r)[i] != key {
          assert r[i].0[..|prefix|] == prefix;
        }
      }
      LookupMissing(r, key);
    }
  }
}
