/**
 * The type-level string rewriters of src/types.ts, `CamelToSnakeCase` and
 * `SnakeToCamel`, as functions on strings. The intrinsic case mappings
 * `Lowercase`, `Uncapitalize` and `Capitalize` are restricted to ASCII letters.
 */
module CaseTypes {

  predicate IsUpper(c: char) { 'A' <= c <= 'Z' }

  predicate IsLower(c: char) { 'a' <= c <= 'z' }

  function Lower(c: char): (d: char)
    ensures !IsUpper(d)
    ensures IsUpper(c) ==> IsLower(d)
    ensures !IsUpper(c) ==> d == c
  {
    if IsUpper(c) then (c as int + 32) as char else c
  }

  function Upper(c: char): (d: char)
    ensures !IsLower(d)
    ensures IsLower(c) ==> IsUpper(d)
    ensures !IsLower(c) ==> d == c
  {
    if IsLower(c) then (c as int - 32) as char else c
  }

  lemma CaseInverse(c: char)
    ensures IsUpper(c) ==> Upper(Lower(c)) == c
    ensures IsLower(c) ==> Lower(Upper(c)) == c
  {
  }

  /** `Uncapitalize<U>`: the first character in lower case. */
  function Uncapitalize(s: string): (r: string)
    ensures |r| == |s|
    ensures s != [] ==> !IsUpper(r[0]) && r[1..] == s[1..]
    ensures r == s <==> s == [] || !IsUpper(s[0])
  {
    if s == [] then s else [Lower(s[0])] + s[1..]
  }

  /** `Capitalize<U>`: the first character in upper case. */
  function Capitalize(s: string): (r: string)
    ensures |r| == |s|
    ensures s != [] ==> !IsLower(r[0]) && r[1..] == s[1..]
    ensures r == s <==> s == [] || !IsLower(s[0])
  {
    if s == [] then s else [Upper(s[0])] + s[1..]
  }

  /**
   * `CamelToSnakeCase<S>` (src/types.ts:36-41): split off the first character T;
   * if the rest U starts with an upper-case letter, emit `_` and go on with U
   * uncapitalized.
   */
  function CamelToSnakeCase(s: string): (r: string)
    ensures |s| <= |r| && (s != [] ==> |r| < 2 * |s|)
    decreases |s|
  {
    if s == [] then s
    else
      var t, u := s[0], s[1..];
      if u == Uncapitalize(u) then [Lower(t)] + CamelToSnakeCase(u)
      else [Lower(t)] + "_" + CamelToSnakeCase(Uncapitalize(u))
  }

  /** Each character after the first: an upper-case letter becomes `_` and its lower case, anything else stays. */
  function InsertUnderscores(u: string): string
  {
    if u == [] then []
    else (if IsUpper(u[0]) then ['_', Lower(u[0])] else [u[0]]) + InsertUnderscores(u[1..])
  }

  /**
   * The intended rewriting stated character by character: the first character
   * lowered, then one `_` inserted before each upper-case letter of the rest,
   * which is lowered.
   */
  function SnakeOf(s: string): string
  {
    if s == [] then [] else [Lower(s[0])] + InsertUnderscores(s[1..])
  }

  function CountUpper(s: string): nat
  {
    if s == [] then 0 else (if IsUpper(s[0]) then 1 else 0) + CountUpper(s[1..])
  }

  function Count(s: string, c: char): nat
  {
    if s == [] then 0 else (if s[0] == c then 1 else 0) + Count(s[1..], c)
  }

  lemma {:induction false} CountConcat(a: string, b: string, c: char)
    ensures Count(a + b, c) == Count(a, c) + Count(b, c)
  {
    if a != [] {
      var ab := a + b;
      assert ab[0] == a[0];
      assert ab[1..] == a[1..] + b;
      CountConcat(a[1..], b, c);
      assert Count(ab, c) == (if a[0] == c then 1 else 0) + Count(a[1..] + b, c);
    } else {
      assert a + b == b;
    }
  }

  /** `CamelToSnakeCase` is exactly the character-by-character rewriting `SnakeOf`. */
  lemma {:induction false} CamelToSnakeCaseIsSnakeOf(s: string)
    ensures CamelToSnakeCase(s) == SnakeOf(s)
    decreases |s|
  {
    if s != [] {
      var u := s[1..];
      if u == Uncapitalize(u) {
        CamelToSnakeCaseIsSnakeOf(u);
        SnakeStepKeep(s);
      } else {
        CamelToSnakeCaseIsSnakeOf(Uncapitalize(u));
        SnakeStepSplit(s);
      }
    }
  }

  /** The step of `CamelToSnakeCase` that emits no `_`. */
  lemma SnakeStepKeep(s: string)
    requires s != [] && s[1..] == Uncapitalize(s[1..])
    requires CamelToSnakeCase(s[1..]) == SnakeOf(s[1..])
    ensures CamelToSnakeCase(s) == SnakeOf(s)
  {
    var u := s[1..];
    assert CamelToSnakeCase(s) == [Lower(s[0])] + CamelToSnakeCase(u);
    if u != [] {
      assert !IsUpper(u[0]) by { assert Lower(u[0]) == u[0]; }
      assert SnakeOf(u) == InsertUnderscores(u);
    }
  }

  /** The step of `CamelToSnakeCase` that emits a `_`. */
  lemma SnakeStepSplit(s: string)
    requires s != [] && s[1..] != Uncapitalize(s[1..])
    requires CamelToSnakeCase(Uncapitalize(s[1..])) == SnakeOf(Uncapitalize(s[1..]))
    ensures CamelToSnakeCase(s) == SnakeOf(s)
  {
    assert CamelToSnakeCase(s) == [Lower(s[0])] + "_" + CamelToSnakeCase(Uncapitalize(s[1..]));
    SnakeOfSplit(s);
  }

  lemma SnakeOfSplit(s: string)
    requires s != [] && s[1..] != Uncapitalize(s[1..])
    ensures SnakeOf(s) == [Lower(s[0])] + "_" + SnakeOf(Uncapitalize(s[1..]))
  {
    var u := s[1..];
    var v := Uncapitalize(u);
    assert IsUpper(u[0]);
    assert v[0] == Lower(u[0]) && v[1..] == u[1..];
    var c, w := Lower(u[0]), InsertUnderscores(u[1..]);
    assert SnakeOf(v) == [c] + w;
    assert InsertUnderscores(u) == ['_', c] + w;
    assert [Lower(s[0])] + "_" + ([c] + w) == [Lower(s[0])] + (['_', c] + w);
  }

  lemma {:induction false} InsertUnderscoresCounts(u: string)
    ensures |InsertUnderscores(u)| == |u| + CountUpper(u)
    ensures Count(InsertUnderscores(u), '_') == Count(u, '_') + CountUpper(u)
  {
    if u != [] {
      InsertUnderscoresCounts(u[1..]);
      var head := if IsUpper(u[0]) then ['_', Lower(u[0])] else [u[0]];
      CountConcat(head, InsertUnderscores(u[1..]), '_');
    }
  }

  lemma {:induction false} InsertUnderscoresChars(u: string)
    ensures forall i :: 0 <= i < |InsertUnderscores(u)| ==> !IsUpper(InsertUnderscores(u)[i])
    ensures forall i :: 0 <= i < |InsertUnderscores(u)| ==>
      InsertUnderscores(u)[i] == '_' || exists j :: 0 <= j < |u| && InsertUnderscores(u)[i] == Lower(u[j])
  {
    if u != [] {
      InsertUnderscoresChars(u[1..]);
      var head := if IsUpper(u[0]) then ['_', Lower(u[0])] else [u[0]];
      var tail := InsertUnderscores(u[1..]);
      forall i | 0 <= i < |head + tail|
        ensures (head + tail)[i] == '_' || exists j :: 0 <= j < |u| && (head + tail)[i] == Lower(u[j])
      {
        if i < |head| {
          assert (head + tail)[i] == '_' || (head + tail)[i] == Lower(u[0]);
        } else {
          var c := tail[i - |head|];
          assert (head + tail)[i] == c;
          if c != '_' {
            var j :| 0 <= j < |u[1..]| && c == Lower(u[1..][j]);
            assert c == Lower(u[j + 1]);
          }
        }
      }
    }
  }

  /**
   * The output has no upper-case letter; each of its characters is `_` or the
   * lower case of an input character; one `_` is added per upper-case letter
   * after the first character, so the length grows by their number.
   */
  lemma CamelToSnakeCaseShape(s: string)
    ensures forall i :: 0 <= i < |CamelToSnakeCase(s)| ==> !IsUpper(CamelToSnakeCase(s)[i])
    ensures forall i :: 0 <= i < |CamelToSnakeCase(s)| ==>
      CamelToSnakeCase(s)[i] == '_' || exists j :: 0 <= j < |s| && CamelToSnakeCase(s)[i] == Lower(s[j])
    ensures s != [] ==> |CamelToSnakeCase(s)| == |s| + CountUpper(s[1..])
    ensures s != [] ==> Count(CamelToSnakeCase(s), '_') == Count(s, '_') + CountUpper(s[1..])
  {
    CamelToSnakeCaseIsSnakeOf(s);
    if s != [] {
      var u := s[1..];
      InsertUnderscoresCounts(u);
      InsertUnderscoresChars(u);
      var r := SnakeOf(s);
      assert r == [Lower(s[0])] + InsertUnderscores(u);
      CountConcat([Lower(s[0])], InsertUnderscores(u), '_');
      assert Count(s, '_') == (if s[0] == '_' then 1 else 0) + Count(u, '_');
      forall i | 0 <= i < |r| ensures r[i] == '_' || exists j :: 0 <= j < |s| && r[i] == Lower(s[j]) {
        if i > 0 {
          var c := r[i];
          assert c == InsertUnderscores(u)[i - 1];
          if c != '_' {
            var j :| 0 <= j < |u| && c == Lower(u[j]);
            assert c == Lower(s[j + 1]);
          }
        }
      }
    }
  }

  predicate NoUpper(s: string)
  {
    forall i :: 0 <= i < |s| ==> !IsUpper(s[i])
  }

  lemma {:induction false} InsertUnderscoresNoUpper(u: string)
    requires NoUpper(u)
    ensures InsertUnderscores(u) == u
  {
    if u != [] {
      assert !IsUpper(u[0]);
      InsertUnderscoresNoUpper(u[1..]);
      assert u == [u[0]] + u[1..];
    }
  }

  /** A string without upper-case letters is a fixed point of `CamelToSnakeCase`. */
  lemma CamelToSnakeCaseFixedPoint(s: string)
    requires NoUpper(s)
    ensures CamelToSnakeCase(s) == s
  {
    CamelToSnakeCaseIsSnakeOf(s);
    if s != [] {
      InsertUnderscoresNoUpper(s[1..]);
      assert s == [s[0]] + s[1..];
    }
  }

  /** `CamelToSnakeCase` is idempotent. */
  lemma CamelToSnakeCaseIdempotent(s: string)
    ensures CamelToSnakeCase(CamelToSnakeCase(s)) == CamelToSnakeCase(s)
  {
    CamelToSnakeCaseShape(s);
    CamelToSnakeCaseFixedPoint(CamelToSnakeCase(s));
  }

  /** The empty string stays empty; aB becomes a_b; a leading capital is only lowered: Ab becomes ab. */
  lemma CamelToSnakeCaseExamples()
    ensures CamelToSnakeCase("") == ""
    ensures CamelToSnakeCase("aB") == "a_b"
    ensures CamelToSnakeCase("Ab") == "ab"
  {
    assert "aB"[1..] == "B" && "B"[1..] == [];
    assert Uncapitalize("B") == "b" && "b"[1..] == [];
    assert "Ab"[1..] == "b";
  }

  // ---------------------------------------------------------------------------
  // SnakeToCamel (src/types.ts:49-51)
  // ---------------------------------------------------------------------------

  /** The index of the first `c` in `s`, or `|s|` when there is none. */
  function IndexOf(s: string, c: char): (i: nat)
    ensures i <= |s| && (i < |s| ==> s[i] == c)
    ensures forall j :: 0 <= j < i ==> s[j] != c
  {
    if s == [] then 0
    else if s[0] == c then 0
    else IndexOf(s[1..], c) + 1
  }

  /**
   * `SnakeToCamel<S>`: with T the text before the first `_` and U the text after
   * it, T followed by the converted U capitalized; a string without `_` stays.
   */
  function SnakeToCamel(s: string): (r: string)
    ensures |r| <= |s|
    ensures s[..IndexOf(s, '_')] <= r
    decreases |s|
  {
    var i := IndexOf(s, '_');
    if i == |s| then s
    else s[..i] + Capitalize(SnakeToCamel(s[i + 1..]))
  }

  /**
   * The same rewriting read one character at a time: each `_` is dropped and the
   * rest of the text after it is capitalized.
   */
  function CamelOf(s: string): string
  {
    if s == [] then []
    else if s[0] == '_' then Capitalize(CamelOf(s[1..]))
    else [s[0]] + CamelOf(s[1..])
  }

  lemma {:induction false} CamelOfWithoutUnderscore(s: string)
    requires '_' !in s
    ensures CamelOf(s) == s
  {
    if s != [] {
      CamelOfWithoutUnderscore(s[1..]);
      assert s == [s[0]] + s[1..];
    }
  }

  /** A prefix without `_` passes through `CamelOf` verbatim. */
  lemma {:induction false} CamelOfPrefix(t: string, u: string)
    requires '_' !in t
    ensures CamelOf(t + u) == t + CamelOf(u)
  {
    if t == [] {
      assert t + u == u;
    } else {
      assert (t + u)[0] == t[0] && (t + u)[1..] == t[1..] + u;
      CamelOfPrefix(t[1..], u);
      assert t == [t[0]] + t[1..];
    }
  }

  lemma CamelOfUnderscore(u: string)
    ensures CamelOf("_" + u) == Capitalize(CamelOf(u))
  {
    assert ("_" + u)[0] == '_' && ("_" + u)[1..] == u;
  }

  lemma SplitAtUnderscore(s: string, i: nat)
    requires i < |s| && s[i] == '_'
    requires forall j :: 0 <= j < i ==> s[j] != '_'
    ensures '_' !in s[..i]
    ensures s == s[..i] + "_" + s[i + 1..]
  {
  }

  lemma SplitEquivalence(t: string, u: string)
    requires '_' !in t
    requires SnakeToCamel(u) == CamelOf(u)
    ensures SnakeToCamel(t + "_" + u) == CamelOf(t + "_" + u)
  {
    var x := t + "_" + u;
    var y := "_" + u;
    assert x == t + y;
    CamelOfUnderscore(u);
    CamelOfPrefix(t, y);
    assert CamelOf(x) == t + Capitalize(CamelOf(u));
    SnakeToCamelSplit(t, u);
  }

  /** `SnakeToCamel`, split at the first `_` as the template literal type does, agrees with `CamelOf`. */
  lemma {:induction false} SnakeToCamelIsCamelOf(s: string)
    ensures SnakeToCamel(s) == CamelOf(s)
    decreases |s|
  {
    var i := IndexOf(s, '_');
    if i == |s| {
      SnakeToCamelWithoutUnderscore(s);
      CamelOfWithoutUnderscore(s);
    } else {
      SplitAtUnderscore(s, i);
      SnakeToCamelIsCamelOf(s[i + 1..]);
      SplitEquivalence(s[..i], s[i + 1..]);
    }
  }

  /** A string without `_` is returned unchanged. */
  lemma SnakeToCamelWithoutUnderscore(s: string)
    requires '_' !in s
    ensures SnakeToCamel(s) == s
  {
    assert s[..|s|] == s;
  }

  /** T + "_" + U with no `_` in T becomes T + Capitalize(SnakeToCamel(U)): T is kept verbatim. */
  lemma SnakeToCamelSplit(t: string, u: string)
    requires '_' !in t
    ensures SnakeToCamel(t + "_" + u) == t + Capitalize(SnakeToCamel(u))
  {
    var s := t + "_" + u;
    var i := IndexOf(s, '_');
    assert s[|t|] == '_';
    assert s[..|t|] == t;
    assert i == |t|;
    assert s[i + 1..] == u;
  }

  lemma CapitalizeKeepsAbsent(w: string)
    requires '_' !in w
    ensures '_' !in Capitalize(w)
  {
    if w != [] {
      assert Capitalize(w) == [Upper(w[0])] + w[1..];
      assert w[0] != '_';
      assert '_' !in w[1..];
    }
  }

  lemma {:induction false} CamelOfShape(s: string)
    ensures '_' !in CamelOf(s)
    ensures |CamelOf(s)| == |s| - Count(s, '_')
  {
    if s != [] {
      CamelOfShape(s[1..]);
      if s[0] == '_' {
        CapitalizeKeepsAbsent(CamelOf(s[1..]));
      }
    }
  }

  /** The result has no `_`, and is shorter than the input by the number of `_` in it. */
  lemma SnakeToCamelShape(s: string)
    ensures '_' !in SnakeToCamel(s)
    ensures |SnakeToCamel(s)| == |s| - Count(s, '_')
  {
    SnakeToCamelIsCamelOf(s);
    CamelOfShape(s);
  }

  /** a_b becomes aB. */
  lemma SnakeToCamelJoinsWords()
    ensures SnakeToCamel("a_b") == "aB"
  {
    SnakeToCamelSplit("a", "b");
    SnakeToCamelWithoutUnderscore("b");
    assert "a" + "_" + "b" == "a_b";
  }

  /** A doubled `_` is dropped: a__b becomes aB. */
  lemma SnakeToCamelDropsDoubledUnderscore()
    ensures SnakeToCamel("a__b") == "aB"
  {
    var t, u := "a", "_b";
    assert t + "_" + u == "a__b";
    SnakeToCamelSplit(t, u);
    SnakeToCamelUnderscoreB();
    assert Capitalize("B") == "B";
    assert t + "B" == "aB";
  }

  lemma SnakeToCamelUnderscoreB()
    ensures SnakeToCamel("_b") == "B"
  {
    SnakeToCamelSplit("", "b");
    SnakeToCamelWithoutUnderscore("b");
    assert "" + "_" + "b" == "_b";
  }

  // ---------------------------------------------------------------------------
  // The two rewriters are inverse on their intended domains
  // ---------------------------------------------------------------------------

  lemma CapitalizeLowered(c: char, w: string)
    requires IsUpper(c)
    ensures Capitalize([Lower(c)] + w) == [c] + w
  {
    CaseInverse(c);
  }

  lemma {:induction false} CamelOfInsertUnderscores(u: string)
    requires '_' !in u
    ensures CamelOf(InsertUnderscores(u)) == u
  {
    if u != [] {
      var rest := InsertUnderscores(u[1..]);
      CamelOfInsertUnderscores(u[1..]);
      if IsUpper(u[0]) {
        var x := ['_', Lower(u[0])] + rest;
        assert x[0] == '_' && x[1..] == [Lower(u[0])] + rest;
        assert ([Lower(u[0])] + rest)[0] == Lower(u[0]) && ([Lower(u[0])] + rest)[1..] == rest;
        CapitalizeLowered(u[0], u[1..]);
      } else {
        var x := [u[0]] + rest;
        assert x[0] == u[0] && x[1..] == rest;
      }
      assert u == [u[0]] + u[1..];
    }
  }

  /**
   * camelCase text without `_` whose first character is not upper case survives
   * the round trip through snake_case.
   */
  lemma CamelRoundTrip(s: string)
    requires '_' !in s
    requires s == [] || !IsUpper(s[0])
    ensures SnakeToCamel(CamelToSnakeCase(s)) == s
  {
    CamelToSnakeCaseIsSnakeOf(s);
    SnakeToCamelIsCamelOf(SnakeOf(s));
    if s != [] {
      CamelOfPrefix([s[0]], InsertUnderscores(s[1..]));
      CamelOfInsertUnderscores(s[1..]);
      assert [s[0]] + s[1..] == s;
    }
  }

  /** Every `_` is followed by a lower-case letter. */
  predicate WordsStartLower(s: string)
  {
    forall i :: 0 <= i < |s| && s[i] == '_' ==> i + 1 < |s| && IsLower(s[i + 1])
  }

  /** snake_case text: no upper case, no leading `_`, and a lower-case letter after every `_`. */
  predicate IsSnake(s: string)
  {
    NoUpper(s) && (s != [] ==> s[0] != '_') && WordsStartLower(s)
  }

  lemma DropFirst(s: string)
    requires s != [] && NoUpper(s) && WordsStartLower(s)
    ensures NoUpper(s[1..]) && WordsStartLower(s[1..])
  {
    var s1 := s[1..];
    forall j | 0 <= j < |s1| && s1[j] == '_' ensures j + 1 < |s1| && IsLower(s1[j + 1]) {
      assert s[j + 1] == '_';
    }
  }

  lemma {:induction false} InsertUnderscoresCamelOf(s: string)
    requires NoUpper(s) && WordsStartLower(s)
    ensures InsertUnderscores(CamelOf(s)) == s
    decreases |s|
  {
    if s != [] {
      var s1 := s[1..];
      DropFirst(s);
      if s[0] == '_' {
        assert IsLower(s[1]);
        var s2 := s[2..];
        assert s1[1..] == s2;
        DropFirst(s1);
        InsertUnderscoresCamelOf(s2);
        var w := [s[1]] + CamelOf(s2);
        assert CamelOf(s1) == w;
        var cw := Capitalize(w);
        assert cw == [Upper(s[1])] + CamelOf(s2);
        CaseInverse(s[1]);
        assert cw[0] == Upper(s[1]) && cw[1..] == CamelOf(s2);
        assert InsertUnderscores(cw) == ['_', s[1]] + InsertUnderscores(CamelOf(s2));
        assert s == ['_', s[1]] + s2;
      } else {
        InsertUnderscoresCamelOf(s1);
        var w := [s[0]] + CamelOf(s1);
        assert w[0] == s[0] && w[1..] == CamelOf(s1);
        assert !IsUpper(s[0]);
        assert s == [s[0]] + s1;
      }
    }
  }

  lemma SnakeOfCamelOf(s: string)
    requires IsSnake(s)
    ensures SnakeOf(CamelOf(s)) == s
  {
    if s != [] {
      var s1 := s[1..];
      DropFirst(s);
      InsertUnderscoresCamelOf(s1);
      var w := [s[0]] + CamelOf(s1);
      assert w[0] == s[0] && w[1..] == CamelOf(s1);
      assert s == [s[0]] + s1;
    }
  }

  /** snake_case text survives the round trip through camelCase. */
  lemma SnakeRoundTrip(s: string)
    requires IsSnake(s)
    ensures CamelToSnakeCase(SnakeToCamel(s)) == s
  {
    SnakeToCamelIsCamelOf(s);
    CamelToSnakeCaseIsSnakeOf(CamelOf(s));
    SnakeOfCamelOf(s);
  }
}
