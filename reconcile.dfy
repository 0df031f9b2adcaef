/** The two reconcilers of guessit/guess.py: rules that combine two
    (value, confidence) observations of one property into one. */
module Reconcile {
  import opened Values

  // ---------- confidence arithmetic ----------

  /** Probabilistic OR of two independent confidences. */
  function Combined(c1: real, c2: real): real {
    1.0 - (1.0 - c1) * (1.0 - c2)
  }

  function Max(a: real, b: real): real {
    if a >= b then a else b
  }

  function Abs(x: real): real {
    if x >= 0.0 then x else -x
  }

  predicate Unit(c: real) {
    0.0 <= c <= 1.0
  }

  /** Agreeing evidence never lowers confidence and stays a probability. */
  lemma CombinedBounds(c1: real, c2: real)
    requires Unit(c1) && Unit(c2)
    ensures Max(c1, c2) <= Combined(c1, c2) <= 1.0
  {
    assert Combined(c1, c2) == c1 + c2 * (1.0 - c1) == c2 + c1 * (1.0 - c2);
    MulNonneg(c2, 1.0 - c1);
    MulNonneg(c1, 1.0 - c2);
    MulNonneg(1.0 - c1, 1.0 - c2);
  }

  lemma MulNonneg(x: real, y: real)
    requires 0.0 <= x && 0.0 <= y
    ensures 0.0 <= x * y
  {
  }

  /** The conflict rule shared by both reconcilers: the strictly more confident
      value wins, discounted by the other's confidence; a tie goes to the second. */
  function Conflict<T>(v1: T, c1: real, v2: T, c2: real): (r: (T, real))
    ensures r.1 == Abs(c1 - c2)
    ensures r.0 == (if c1 > c2 then v1 else v2)
  {
    if c1 > c2 then (v1, c1 - c2) else (v2, c2 - c1)
  }

  lemma ConflictBounds<T>(v1: T, c1: real, v2: T, c2: real)
    requires Unit(c1) && Unit(c2)
    ensures var r := Conflict(v1, c1, v2, c2);
      Unit(r.1) && r.1 <= Max(c1, c2)
  {
  }

  // ---------- choose_int ----------

  /** choose_int: equal values reinforce each other; different values conflict.
      Python compares with ==, so any two values can be given. */
  function ChooseInt(v1: Value, c1: real, v2: Value, c2: real): (r: (Value, real))
    ensures r.0 == v1 || r.0 == v2
  {
    if v1 == v2 then (v1, Combined(c1, c2)) else Conflict(v1, c1, v2, c2)
  }

  /** Equal values: the value is kept and the confidence lies in [max(c1, c2), 1]. */
  lemma ChooseIntAgreement(v: Value, c1: real, c2: real)
    requires Unit(c1) && Unit(c2)
    ensures ChooseInt(v, c1, v, c2).0 == v
    ensures Max(c1, c2) <= ChooseInt(v, c1, v, c2).1 <= 1.0
  {
    CombinedBounds(c1, c2);
  }

  /** Different values: the strictly more confident one wins with |c1 - c2|,
      and an exact tie goes to the second value. */
  lemma ChooseIntDisagreement(v1: Value, c1: real, v2: Value, c2: real)
    requires v1 != v2
    ensures ChooseInt(v1, c1, v2, c2).1 == Abs(c1 - c2)
    ensures c1 > c2 ==> ChooseInt(v1, c1, v2, c2).0 == v1
    ensures c1 <= c2 ==> ChooseInt(v1, c1, v2, c2).0 == v2
    ensures Unit(c1) && Unit(c2) ==> Unit(ChooseInt(v1, c1, v2, c2).1)
  {
  }

  // ---------- ASCII strip and lower ----------

  /** The ASCII characters Python's unicode.strip() removes: space, tab, line feed,
      vertical tab, form feed, carriage return, and the separators U+001C to U+001F. */
  predicate IsSpace(c: char) {
    c == ' ' || '\t' <= c <= '\r' || '\U{1C}' <= c <= '\U{1F}'
  }

  function TrimLeft(s: string): (r: string)
    ensures |r| <= |s| && r == s[|s| - |r|..]
    ensures r != [] ==> !IsSpace(r[0])
    ensures forall i :: 0 <= i < |s| - |r| ==> IsSpace(s[i])
  {
    if s != [] && IsSpace(s[0]) then TrimLeft(s[1..]) else s
  }

  function TrimRight(s: string): (r: string)
    ensures |r| <= |s| && r == s[..|r|]
    ensures r != [] ==> !IsSpace(r[|r| - 1])
    ensures forall i :: |r| <= i < |s| ==> IsSpace(s[i])
  {
    if s != [] && IsSpace(s[|s| - 1]) then TrimRight(s[..|s| - 1]) else s
  }

  /** str.strip(): the longest slice of s with no surrounding white space. */
  function Strip(s: string): (r: string)
    ensures r != [] ==> !IsSpace(r[0]) && !IsSpace(r[|r| - 1])
    ensures |r| <= |s|
  {
    var t := TrimLeft(s);
    var r := TrimRight(t);
    r
  }

  /** Stripping keeps the inner characters: the result is one contiguous slice of s. */
  lemma StripIsSlice(s: string)
    ensures exists i, j :: 0 <= i <= j <= |s| && Strip(s) == s[i..j]
  {
    var t := TrimLeft(s);
    assert Strip(s) == s[|s| - |t|..|s| - |t| + |Strip(s)|];
  }

  lemma {:induction false} TrimLeftNoop(s: string)
    requires s != [] ==> !IsSpace(s[0])
    ensures TrimLeft(s) == s
  {
  }

  lemma StripNoop(s: string)
    requires s != [] ==> !IsSpace(s[0]) && !IsSpace(s[|s| - 1])
    ensures Strip(s) == s
  {
    TrimLeftNoop(s);
    assert TrimRight(s) == s;
  }

  function LowerChar(c: char): char {
    if 'A' <= c <= 'Z' then (c as int + 32) as char else c
  }

  /** str.lower() over ASCII: each upper-case letter becomes its lower-case letter. */
  function Lower(s: string): (r: string)
  {
    seq(|s|, i requires 0 <= i < |s| => LowerChar(s[i]))
  }

  predicate StartsWith(s: string, prefix: string) {
    |prefix| <= |s| && s[..|prefix|] == prefix
  }

  /** Python's `needle in hay` for strings: needle occurs as a contiguous slice. */
  predicate Contains(hay: string, needle: string) {
    StartsWith(hay, needle) || (hay != [] && Contains(hay[1..], needle))
  }

  lemma {:induction false} ContainedIsNoLonger(hay: string, needle: string)
    requires Contains(hay, needle)
    ensures |needle| <= |hay|
    ensures |needle| == |hay| ==> needle == hay
  {
    if !StartsWith(hay, needle) {
      ContainedIsNoLonger(hay[1..], needle);
    }
  }

  /** Two strings that contain each other are equal; hence choose_string's order of
      the two containment tests (v2 in v1 first) never decides a result. */
  lemma MutualContainment(a: string, b: string)
    requires Contains(a, b) && Contains(b, a)
    ensures a == b
  {
    ContainedIsNoLonger(a, b);
    ContainedIsNoLonger(b, a);
  }

  // ---------- choose_string ----------

  const ThePrefix: string := "the "

  /** choose_string: both values are stripped and compared lower-case; the result
      keeps the stripped original casing. The rules are tried in this order:
      equal, a leading "the ", containment (the contained one wins), conflict. */
  function ChooseString(v1: string, c1: real, v2: string, c2: real): (r: (string, real))
    ensures r.0 == Strip(v1) || r.0 == Strip(v2)
  {
    var s1, s2 := Strip(v1), Strip(v2);
    var l1, l2 := Lower(s1), Lower(s2);
    var combined := Combined(c1, c2);
    if l1 == l2 then (s1, combined)
    else if l1 == ThePrefix + l2 then (s1, combined)
    else if l2 == ThePrefix + l1 then (s2, combined)
    else if Contains(l1, l2) then (s2, combined)
    else if Contains(l2, l1) then (s1, combined)
    else Conflict(s1, c1, s2, c2)
  }

  /** Whether choose_string's first three rules treat the two values as one. */
  predicate Similar(v1: string, v2: string) {
    var l1, l2 := Lower(Strip(v1)), Lower(Strip(v2));
    l1 == l2 || l1 == ThePrefix + l2 || l2 == ThePrefix + l1 || Contains(l1, l2) || Contains(l2, l1)
  }

  /** Similar strings combine their confidences: the result is at least as confident
      as either input; dissimilar ones conflict as in choose_int. */
  lemma ChooseStringConfidence(v1: string, c1: real, v2: string, c2: real)
    requires Unit(c1) && Unit(c2)
    ensures var r := ChooseString(v1, c1, v2, c2);
      Unit(r.1) &&
      (Similar(v1, v2) ==> r.1 == Combined(c1, c2) && Max(c1, c2) <= r.1) &&
      (!Similar(v1, v2) ==> r.1 == Abs(c1 - c2) && r.0 == (if c1 > c2 then Strip(v1) else Strip(v2)))
  {
    var s1, s2 := Strip(v1), Strip(v2);
    if Similar(v1, v2) {
      assert ChooseString(v1, c1, v2, c2).1 == Combined(c1, c2);
      CombinedBounds(c1, c2);
    } else {
      assert ChooseString(v1, c1, v2, c2) == Conflict(s1, c1, s2, c2);
      ConflictBounds(s1, c1, s2, c2);
    }
  }

  /** Case-insensitively equal strings give the first (stripped) value. */
  lemma ChooseStringEqual(v1: string, c1: real, v2: string, c2: real)
    requires Lower(Strip(v1)) == Lower(Strip(v2))
    ensures ChooseString(v1, c1, v2, c2) == (Strip(v1), Combined(c1, c2))
  {
  }

  /** When one value is the other with a leading "the ", the prefixed one is kept,
      even though the other is contained in it. */
  lemma ChooseStringPrefersThe(v1: string, c1: real, v2: string, c2: real)
    requires Lower(Strip(v1)) == ThePrefix + Lower(Strip(v2))
    ensures ChooseString(v1, c1, v2, c2) == (Strip(v1), Combined(c1, c2))
    ensures ChooseString(v2, c2, v1, c1) == (Strip(v1), Combined(c2, c1))
  {
    var l1, l2 := Lower(Strip(v1)), Lower(Strip(v2));
    assert |l1| == |l2| + 4;
  }

  /** Otherwise, when one value contains the other, the contained (no longer) one wins
      with the combined confidence: v2 when v2 is in v1 (tested first), else v1. */
  lemma ChooseStringPrefersContained(v1: string, c1: real, v2: string, c2: real)
    requires var l1, l2 := Lower(Strip(v1)), Lower(Strip(v2));
      l1 != ThePrefix + l2 && l2 != ThePrefix + l1 && (Contains(l1, l2) || Contains(l2, l1))
    ensures var r := ChooseString(v1, c1, v2, c2);
      r.1 == Combined(c1, c2) && |r.0| <= |Strip(v1)| && |r.0| <= |Strip(v2)|
    ensures Contains(Lower(Strip(v1)), Lower(Strip(v2))) ==>
      ChooseString(v1, c1, v2, c2).0 == (if Lower(Strip(v1)) == Lower(Strip(v2)) then Strip(v1) else Strip(v2))
    ensures !Contains(Lower(Strip(v1)), Lower(Strip(v2))) ==>
      ChooseString(v1, c1, v2, c2) == (Strip(v1), Combined(c1, c2))
  {
    var l1, l2 := Lower(Strip(v1)), Lower(Strip(v2));
    if Contains(l1, l2) {
      ContainedIsNoLonger(l1, l2);
    } else {
      ContainedIsNoLonger(l2, l1);
    }
  }

  // The two examples below take their strings as parameters pinned by the requires
  // clause: stated on literals directly, the recursive trimming functions unfold
  // without bound.

  /** The "the " rule fires before the containment rule. */
  lemma ChooseStringTheMatrix(a: string, b: string)
    requires a == "The Matrix" && b == "Matrix"
    ensures ChooseString(a, 0.5, b, 0.5) == ("The Matrix", 0.75)
  {
    StripNoop(a);
    StripNoop(b);
    assert Lower(a) == "the matrix" && Lower(b) == "matrix";
    assert Lower(a) != Lower(b);
    assert Combined(0.5, 0.5) == 0.75;
  }

  /** The containment rule returns the shorter string. */
  lemma ChooseStringAlien(a: string, b: string)
    requires a == "Alien" && b == "Aliens"
    ensures ChooseString(a, 0.6, b, 0.4) == ("Alien", 0.76)
  {
    StripNoop(a);
    StripNoop(b);
    var l1, l2 := Lower(a), Lower(b);
    assert l1 == "alien" && l2 == "aliens";
    assert l1 != l2 && l1 != ThePrefix + l2 && l2 != ThePrefix + l1;
    assert !Contains(l1, l2) by {
      if Contains(l1, l2) { ContainedIsNoLonger(l1, l2); }
    }
    assert StartsWith(l2, l1);
    assert Combined(0.6, 0.4) == 0.76;
  }

  // ---------- the reconciler passed to merge_similar_guesses ----------

  /** The `choose` argument of merge_similar_guesses: one of the two reconcilers. */
  datatype Rule = IntRule | StringRule

  /** choose_string calls .strip() on both values, which only strings have. */
  predicate Applicable(rule: Rule, v: Value) {
    rule.IntRule? || v.Str?
  }

  function Choose(rule: Rule, v1: Value, c1: real, v2: Value, c2: real): (r: (Value, real))
    requires Applicable(rule, v1) && Applicable(rule, v2)
    ensures Applicable(rule, r.0)
    ensures rule.IntRule? ==> r.0 == v1 || r.0 == v2
  {
    match rule
    case IntRule => ChooseInt(v1, c1, v2, c2)
    case StringRule =>
      var (s, c) := ChooseString(v1.s, c1, v2.s, c2);
      (Str(s), c)
  }
}
