# sky-utils: deep equality, object helpers and case-conversion types

This project models two parts of sky-utils in Dafny and proves properties of both.

The first is the object toolkit of `objects.ts`:

- `deepEquals` compares two JavaScript values structurally. It shares one `WeakSet` of visited objects across the whole traversal.
- `getPropertyNames` walks an object's prototype chain.
- `objectMap` and `objectFilter` are the entry pipelines built on `Object.entries` / `Object.fromEntries`.
- `addPrefixToObject` renames every key of an object.

The second is the pair of template-literal types of `src/types.ts`:

- `CamelToSnakeCase` turns `thisCase` into `this_case`.
- `SnakeToCamel` turns `this_case` into `thisCase`.

These types exist only at compile time. They are recursive string rewritings, so the model writes them as Dafny functions on ASCII strings. The Dafny functions are total; the compiler's recursion limits are listed under Left out.

## Modules

- `Heap` (`heap.dfy`) holds the values `deepEquals` sees.
  - Primitives are values.
  - Functions are identities.
  - Every other object lives in a heap under an `Id`. It is an array, a Date, an iterable with the finite sequence its iterator yields, or a plain object.
  - A plain object carries the own property names of each level of its prototype chain, and its property values.
- `Equality` (`equality.dfy`) models `getPropertyNames` as written and `deepEquals`.
  - `Equals` is a specification function. It returns the result together with the visited set after the call.
  - `DeepEquals` is the procedure over a mutable `VisitedSet` object, shared by reference as the `WeakSet` is. It is proved to compute `Equals`.
  - Termination is measured by the number of heap objects not yet visited.
- `EqualityExamples` (`equality_examples.dfy`) proves concrete comparisons on small heaps. They cover the documented cases, cycles, and the defects below.
- `ObjectUtils` (`object_utils.dfy`) covers `objectMap`, `objectFilter` and `addPrefixToObject`.
  - An object is the ordered list of its own enumerable entries.
  - Assigning a present key replaces its value in place; assigning a new key appends it.
  - So `Object.fromEntries` keeps the first position and the last value of a repeated key.
- `CaseTypes` (`case_types.dfy`) covers `CamelToSnakeCase` and `SnakeToCamel`.
  - Each is defined following the shape of its type.
  - Each is proved equal to an independent character-by-character definition (`SnakeOf`, `CamelOf`).
  - The two are proved inverse on their intended domains.

## Behaviour of the code as written

The model follows the code, including where it departs from what its documentation claims.

- **`getPropertyNames` collects arrays, not names.** `objects.ts:6` executes `keys.add(own)` once per own name. So the set receives the whole array returned by `Object.getOwnPropertyNames`, one entry per prototype level that has any own name.
  - `deepEquals` builds the set of `a` twice: at line 72 and again at line 75. Each call creates new arrays, so the membership test `bKeys.has(property)` at line 76 can never succeed.
  - Hence two distinct plain objects, neither of them visited yet, are equal exactly when no level of either prototype chain has an own property name. This is `Equality.PlainObjectsEqualOnlyWithoutNames`.
  - The comparison of property values on line 76 is never reached, so the model does not represent it.
  - Every object inheriting from `Object.prototype` has names at that level. So `{}` and `{}` are unequal, and so are `{a: 1}` and `{a: 1}`. Only objects such as `Object.create(null)` without properties compare equal, unless the pair is the same object or one of them was visited earlier.
- **The visited set is shared with siblings.** The `WeakSet` is passed by reference. So an object met anywhere earlier in the traversal, not only on the current path, makes a later pair containing it count as equal (`EqualityExamples.VisitedSiblingAssumedEqual`).
- **`NaN` is not equal to itself.** Line 51 uses `===`, so `deepEquals(NaN, NaN)` is `false`. Numbers are integers here (see Left out).
- **`SnakeToCamel` splits at `_`.** Its doc comment (src/types.ts:48) speaks of `this-case`, but the type splits at `_`. The model follows the type.

## Model

| member | source | states |
|---|---|---|
| Heap.TypeOf | objects.ts:52 | `typeof` gives "object" exactly for `null` and heap objects, and "function" exactly for functions |
| Equality.NameArrays | objects.ts:4-9 | the name arrays collected from level `depth` on form the empty set if and only if no level from there on has an own name |
| Equality.GetPropertyNames | objects.ts:4-10 | the returned set is the accumulator plus one name array per prototype level, from `depth` up to the end of the chain, that has at least one own name |
| Equality.NameArraysCount | objects.ts:5-8 | the collected set has as many elements as there are levels with at least one own name |
| Equality.NameArraysOfDifferentCallsDisjoint | objects.ts:72-75 | the sets built by two different `getPropertyNames` calls share no element, since each call creates fresh arrays |
| Equality.FallbackSets | objects.ts:72-76 | the first and third traversals of `a` each give as many arrays as `a`'s chain has levels with own names, the second as many as `b`'s; the third set fits in the second only when it is empty |
| Equality.PlainFallback | objects.ts:72-78 | the object fallback succeeds if and only if neither prototype chain has a level with an own name, whatever the values |
| Equality.PlainObjectsEqual | objects.ts:72-78 | the three traversals, the size test and the loop over the third set compute exactly `PlainFallback` |
| Equality.Equals | objects.ts:49-79 | the visited set after a call contains the one before it and only adds heap objects |
| Equality.EqualsFrom | objects.ts:60 | the element loop only adds heap objects to the visited set, and never removes any |
| Equality.VisitedSet.constructor | objects.ts:49 | a top-level call's `WeakSet` starts empty |
| Equality.DeepEquals | objects.ts:49-79 | the procedure over the shared mutable visited set returns `Equals` of the entry set; the set afterwards is the one `Equals` reports |
| Equality.ElementsEqual | objects.ts:60-61 | the index loop compares pairs left to right under the shared set, stopping at the first mismatch; result and final set are those of `EqualsFrom` |
| Equality.DeepEqualsFresh | objects.ts:49 | `deepEquals(a, b)` without a stack computes `Equals` from the empty visited set |
| Equality.IdenticalValuesEqual | objects.ts:51 | identical values are equal, and the visited set is untouched |
| Equality.NonObjectsComparedByIdentity | objects.ts:51-52 | when either side is not a heap object (primitive, `null`, `undefined`, function), the result is `a === b` and nothing is visited |
| Equality.VisitedAssumedEqual | objects.ts:54 | two objects either of which is already visited are reported equal, with the set unchanged |
| Equality.CategoriesDiffer | objects.ts:55-70 | objects of different categories (array, Date, iterable, plain) are unequal in either order, after both are marked visited |
| Equality.DatesByTimestamp | objects.ts:65-66 | when either side is a Date, the pair is equal if and only if both are Dates with the same timestamp |
| Equality.LengthsDiffer | objects.ts:58-69 | arrays, or iterables, of different lengths are unequal, after both are marked visited |
| Equality.PlainObjectsEqualOnlyWithoutNames | objects.ts:72-78 | two unvisited plain objects are equal if and only if neither prototype chain has an own name at any level |
| Equality.SameLengthsCompareElements | objects.ts:58-69 | arrays of one length, and iterables of one length, are compared element by element from the set with both added |
| Equality.EqualsFromSelf | objects.ts:51-60 | a sequence compared with itself is equal, and nothing gets visited |
| Equality.ShallowCopyEqual | objects.ts:58-69 | two distinct arrays, Dates or iterables with the same contents are equal |
| Equality.EqualsFromPrimitives | objects.ts:60 | without object references the element loop is exactly sequence equality, so order matters |
| Equality.PrimitiveArraysEqualIffSame | objects.ts:58-62 | arrays of primitives are equal if and only if they have the same elements in the same order |
| Equality.EqualsSymmetric | objects.ts:49-79 | swapping the arguments changes neither the result nor the visited set |
| Equality.EqualsFromSymmetric | objects.ts:60 | swapping the sequences changes neither the loop's result nor the visited set |
| EqualityExamples.PrimitiveExamples | objects.ts:51-52 | `1` equals `1`; `1` differs from `"1"` and from `1n`; `null` differs from `undefined`; distinct functions differ |
| EqualityExamples.FlatArrayExamples | objects.ts:58-62 | `[1,2,3]` equals `[1,2,3]` but not `[1,2]`; `[2,1]` differs from `[1,2]` |
| EqualityExamples.NestedArrayExample | objects.ts:60 | nested arrays are compared recursively |
| EqualityExamples.CyclicArraysEqual | objects.ts:54-56 | `a = [a]` and `b = [b]` are equal, and the comparison ends with exactly both visited |
| EqualityExamples.VisitedSiblingAssumedEqual | objects.ts:54-60 | `[p, p]` with `p = []` equals `[[], [7]]`, though `p` alone differs from `[7]` |
| EqualityExamples.CyclicPlainObjectsUnequal | objects.ts:72-78 | `a = {x: a}` and `b = {x: b}` are unequal |
| EqualityExamples.PlainObjectsWithPrototypeUnequal | objects.ts:72-78 | `{a:1, b:2}` differs from `{b:2, a:1}`, and `{}` differs from `{}`, because `Object.prototype` has own names |
| EqualityExamples.NullPrototypeObjectsEqual | objects.ts:72-78 | two property-less objects without a prototype are equal |
| EqualityExamples.ArrayAndObjectUnequal | objects.ts:58-59 | `[1, 2]` differs from `{0: 1, 1: 2}` |
| EqualityExamples.DateExamples | objects.ts:65-66 | Dates with equal timestamps are equal; with different ones they are not; a Date differs from a set |
| EqualityExamples.IterableExamples | objects.ts:68-69 | a set of 1 and 2 differs from a set of 2 and 1, and equals another of 1 and 2 |
| ObjectUtils.Keys | objects.ts:14-19 | the key list of an object has its keys position by position |
| ObjectUtils.Lookup | objects.ts:27 | reading a key finds a value if and only if the key is present |
| ObjectUtils.LookupAt | objects.ts:27 | in an object, each key reads back its own value |
| ObjectUtils.LookupMissing | objects.ts:27 | a key the object lacks reads as absent |
| ObjectUtils.Put | objects.ts:27 | assignment adds at most one entry and removes none, and the assigned key then reads back the assigned value, whatever the object held |
| ObjectUtils.PutNew | objects.ts:27 | assigning a new key appends it |
| ObjectUtils.PutKeys | objects.ts:27 | assignment keeps a present key in place and puts a new key last |
| ObjectUtils.PutLookup | objects.ts:27 | a key assigned reads back the assigned value; every other key reads as before |
| ObjectUtils.PutDistinct | objects.ts:27 | assignment keeps the keys distinct |
| ObjectUtils.PutSpec | objects.ts:27 | assignment yields an object with the key present, holding the new value, with all other keys and their order unchanged |
| ObjectUtils.FromEntries | objects.ts:15 | `Object.fromEntries` yields no more entries than it is given, and the key of the last entry holds that entry's value |
| ObjectUtils.FromEntriesSpec | objects.ts:14-19 | `Object.fromEntries` yields distinct keys, exactly the keys of the entries, each holding the value of its last entry |
| ObjectUtils.DistinctLookup | objects.ts:14-19 | reading key `k` gives `v` if and only if `(k, v)` is an entry of the object |
| ObjectUtils.FromEntriesOfObject | objects.ts:14-19 | rebuilding an object from its own entries gives back the same object |
| ObjectUtils.FilterEntries | objects.ts:19 | `filter` yields no more entries than it is given, and each one it yields is an input entry the callback accepts |
| ObjectUtils.FilterEntriesSpec | objects.ts:19 | the filtered entries are exactly those the callback accepts; none are added; distinct keys stay distinct |
| ObjectUtils.ObjectFilter | objects.ts:18-19 | `objectFilter` returns an object (distinct keys) with no more entries than its input, whatever the input |
| ObjectUtils.ObjectFilterKeeps | objects.ts:18-19 | `objectFilter` keeps exactly the accepted entries, in their order, as an object |
| ObjectUtils.ObjectFilterIdempotent | objects.ts:18-19 | filtering twice with the same callback equals filtering once |
| ObjectUtils.FilterAllKept | objects.ts:19 | a callback accepting every entry filters nothing out |
| ObjectUtils.MapEntries | objects.ts:15 | mapping entries keeps their number and applies the callback position by position |
| ObjectUtils.ObjectMap | objects.ts:14-15 | `objectMap` returns an object (distinct keys) with no more entries than its input, whatever keys the callback produces |
| ObjectUtils.ObjectMapLastWins | objects.ts:14-15 | `objectMap` has distinct keys, exactly the keys the callback produced, and when two entries map to one key the later value wins |
| ObjectUtils.ObjectMapKeepingKeys | objects.ts:14-15 | a callback that keeps each key transforms the values in place, with the same keys in the same order |
| ObjectUtils.Prefixed | objects.ts:26-28 | the prefixed object has key `prefix + k` with value `obj[k]` at the position of each key `k` |
| ObjectUtils.PrefixInjective | objects.ts:27 | different keys get different prefixed keys |
| ObjectUtils.AddPrefixToObject | objects.ts:22-29 | the loop that fills a fresh object builds exactly `Prefixed(obj, prefix)` |
| ObjectUtils.PrefixedLookup | objects.ts:26-28 | the result has as many keys as the input, all distinct; key `prefix + k` holds `obj[k]`, and no other key is present |
| CaseTypes.Lower | src/types.ts:39-40 | the lower case of a character is never upper case; upper-case letters become lower-case letters, all else is kept |
| CaseTypes.Upper | src/types.ts:50 | the upper case of a character is never lower case; lower-case letters become upper-case letters, all else is kept |
| CaseTypes.CaseInverse | src/types.ts:38-50 | `Upper` undoes `Lower` on upper-case letters and `Lower` undoes `Upper` on lower-case letters |
| CaseTypes.Uncapitalize | src/types.ts:38-40 | `Uncapitalize` keeps the length and every character after the first, its first character is never upper case, and it changes the string if and only if the string starts with an upper-case letter |
| CaseTypes.Capitalize | src/types.ts:50 | `Capitalize` keeps the length and every character after the first, its first character is never lower case, and it changes the string if and only if the string starts with a lower-case letter |
| CaseTypes.CamelToSnakeCase | src/types.ts:36-41 | the output is at least as long as the input and, for a non-empty input, shorter than twice its length: at most one `_` is inserted per character after the first |
| CaseTypes.CamelToSnakeCaseIsSnakeOf | src/types.ts:36-41 | the type's recursion equals the reference: the first character lowered, then each later upper-case letter replaced by `_` and its lower case |
| CaseTypes.InsertUnderscoresCounts | src/types.ts:38-40 | after the first character, one `_` is inserted per upper-case letter, so length and `_` count both grow by that number |
| CaseTypes.InsertUnderscoresChars | src/types.ts:38-40 | after the first character, every output character is an inserted `_` or the lower case of an input character |
| CaseTypes.CamelToSnakeCaseShape | src/types.ts:36-41 | the output has no upper-case letter; each character is `_` or the lower case of an input character; length and `_` count grow by the number of upper-case letters after the first |
| CaseTypes.CamelToSnakeCaseFixedPoint | src/types.ts:38-39 | a string without upper-case letters is unchanged |
| CaseTypes.CamelToSnakeCaseIdempotent | src/types.ts:36-41 | applying `CamelToSnakeCase` twice is applying it once |
| CaseTypes.CamelToSnakeCaseExamples | src/types.ts:35-41 | `""` stays `""`; `aB` becomes `a_b`; `Ab` becomes `ab` |
| CaseTypes.IndexOf | src/types.ts:49 | the index found is of the first `_`, or the length when there is none |
| CaseTypes.SnakeToCamel | src/types.ts:49-51 | the output is no longer than the input and begins with the input's text before its first `_`, unchanged |
| CaseTypes.SnakeToCamelIsCamelOf | src/types.ts:49-51 | splitting at the first `_` equals the reference that drops each `_` and capitalizes the converted rest after it |
| CaseTypes.SnakeToCamelWithoutUnderscore | src/types.ts:49-51 | a string without `_` is unchanged |
| CaseTypes.SnakeToCamelSplit | src/types.ts:49-50 | `T + "_" + U`, with no `_` in `T`, becomes `T + Capitalize(SnakeToCamel(U))`: the first segment is verbatim |
| CaseTypes.SnakeToCamelShape | src/types.ts:49-51 | the result has no `_`, and is shorter than the input by the number of `_` in it |
| CaseTypes.SnakeToCamelJoinsWords | src/types.ts:48-51 | `a_b` becomes `aB` |
| CaseTypes.SnakeToCamelDropsDoubledUnderscore | src/types.ts:49-50 | `a__b` becomes `aB`: an empty segment between two `_` vanishes |
| CaseTypes.SnakeToCamelUnderscoreB | src/types.ts:49-50 | `_b` becomes `B`: an empty first segment is dropped and the rest capitalized |
| CaseTypes.CamelRoundTrip | src/types.ts:36-51 | camelCase text with no `_` that does not start upper case is restored by `SnakeToCamel(CamelToSnakeCase(s))` |
| CaseTypes.SnakeRoundTrip | src/types.ts:36-51 | snake_case text (no upper case, no leading `_`, a lower-case letter after each `_`) is restored by `CamelToSnakeCase(SnakeToCamel(s))` |

## Left out

- Floating point: numbers and Date timestamps are integers. `NaN` (unequal to itself under `===`), `-0` and invalid Dates are not modelled.
- JavaScript reflection: the own-name list of each prototype level is given data. What `Object.getOwnPropertyNames` returns for real built-in prototypes is not modelled, nor are symbol keys and non-enumerable properties.
- The identity of name arrays is their creating call (objects.ts:72, 73, 75) and their level. That is enough because name arrays created in different `deepEquals` frames are never compared, and within one frame the arrays of different calls are always distinct objects; line 76 tests arrays of the line-75 call against the set of the line-73 call, which the model decides by that call tag.
- Property values of plain objects are stored, but the value comparison on objects.ts:76 is never reached, so it is not represented.
- `WeakSet` garbage collection: the visited set is an ordinary set of identities.
- Iterators: an iterable yields a fixed finite sequence. Custom, side-effecting and infinite iterators are not modelled. A Map yields its entry arrays. The spread on objects.ts:69 allocates fresh `[key, value]` arrays each time it runs; the model gives them as heap arrays allocated once. That changes nothing, because a Map joins the visited set (objects.ts:55-56) before it is spread, so each Map is spread at most once per comparison.
- Equality.Equals: the two arrays the spread builds on objects.ts:69 are not allocated. The source adds their fresh identities to the `WeakSet`. Nothing else can reach them, so leaving them out changes no result, but the visited set in the model lacks them.
- Functions are compared by reference only: `typeof` gives "function" and the comparison stops at objects.ts:52. Promises and async iterables have `typeof` "object" and no `Symbol.iterator`, so `deepEquals` treats them as ordinary objects: they go through the visited-set rule (objects.ts:54) and the plain-object fallback (objects.ts:72-78). The model represents them as plain heap objects whose chains carry their prototypes' own names. Their internal state and asynchronous behaviour are not modelled; the source's doc comment lists them as unsupported.
- `for ... in` on objects.ts:27 is taken to list the object's own keys in entry order. Inherited enumerable keys, and the ordering of integer-like keys, are not modelled. An assigned key named `__proto__` is treated as an ordinary key.
- The callbacks of `objectMap` and `objectFilter` are total functions without side effects. The filter callback returns a boolean, where the source tests any value for truthiness.
- `Lowercase`, `Uncapitalize` and `Capitalize` handle ASCII letters only; full Unicode case mapping is not modelled.
- Equality.Equals, Equality.DeepEquals, CaseTypes.CamelToSnakeCase, CaseTypes.SnakeToCamel: recursion depth is unbounded. `deepEquals` and `getPropertyNames` recurse on the JavaScript call stack and throw a `RangeError` on deep enough nesting. The two types are not tail-recursive, and past TypeScript's instantiation-depth limit the compiler reports error TS2589 instead of a type. The Dafny members are total and give a result for every input.
- The other type aliases of src/types.ts (`Optional`, `AwaitedObject`, `JSONSerializable`, `ObjectAddPrefix`, `ObjectCamelToSnakeCase`, `ObjectSnakeToCamel`, `Concat`) describe types only. None of them rewrites a string, so none is modelled.
