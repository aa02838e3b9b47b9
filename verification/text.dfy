/**
 * The Java string operations the controller relies on: ASCII case folding
 * (as used by `String.equalsIgnoreCase` against ASCII literals, and by the
 * MongoDB server when it matches a quoted case-insensitive pattern against
 * ASCII text), literal substring search, and
 * `Integer.parseInt`.
 */
module Text {
  import opened Options

  /** Lower-cases an ASCII capital letter and leaves every other character alone. */
  function LowerChar(c: char): (l: char)
    ensures 'A' <= c <= 'Z' ==> 'a' <= l <= 'z' && l as int - 'a' as int == c as int - 'A' as int
    ensures !('A' <= c <= 'Z') ==> l == c
  {
    if 'A' <= c <= 'Z' then (c as int + 32) as char else c
  }

  function Lower(s: string): (r: string)
    ensures |r| == |s|
    ensures forall i :: 0 <= i < |s| ==> r[i] == LowerChar(s[i])
  {
    seq(|s|, i requires 0 <= i < |s| => LowerChar(s[i]))
  }

  /**
   * Lower-casing leaves no ASCII capital, changes nothing in a string
   * without one, and so is idempotent.
   */
  lemma LowerIsLowercase(s: string)
    ensures forall i :: 0 <= i < |Lower(s)| ==> !('A' <= Lower(s)[i] <= 'Z')
    ensures (forall i :: 0 <= i < |s| ==> !('A' <= s[i] <= 'Z')) ==> Lower(s) == s
    ensures Lower(Lower(s)) == Lower(s)
  {
    var r := Lower(s);
    assert forall i :: 0 <= i < |r| ==> !('A' <= r[i] <= 'Z');
  }

  /** `a.equalsIgnoreCase(b)`: same length, and equal character by character up to case. */
  predicate EqualsIgnoreCase(a: string, b: string) {
    |a| == |b| && forall i :: 0 <= i < |a| ==> LowerChar(a[i]) == LowerChar(b[i])
  }

  lemma EqualsIgnoreCaseIsLowerEquality(a: string, b: string)
    ensures EqualsIgnoreCase(a, b) <==> Lower(a) == Lower(b)
  {
    if Lower(a) == Lower(b) {
      forall i | 0 <= i < |a|
        ensures LowerChar(a[i]) == LowerChar(b[i])
      {
        assert Lower(a)[i] == Lower(b)[i];
      }
    }
  }

  /** `pattern` occurs in `text` at position `i`, exactly. */
  predicate OccursAt(text: string, pattern: string, i: int) {
    0 <= i && i + |pattern| <= |text| && text[i..i + |pattern|] == pattern
  }

  /** Literal substring containment. */
  predicate Contains(text: string, pattern: string) {
    exists i :: 0 <= i <= |text| - |pattern| && OccursAt(text, pattern, i)
  }

  /** `pattern` occurs in `text` at position `i`, ignoring ASCII case. */
  predicate OccursAtIgnoreCase(text: string, pattern: string, i: int) {
    0 <= i && i + |pattern| <= |text| && EqualsIgnoreCase(text[i..i + |pattern|], pattern)
  }

  /**
   * What the MongoDB server finds when it matches the quoted, case-insensitive
   * pattern built from `pattern` against a stored string: the literal text of
   * `pattern` somewhere in `text`, ignoring case. The server's caseless
   * matching also folds non-ASCII letters; this predicate folds ASCII only.
   */
  predicate ContainsIgnoreCase(text: string, pattern: string) {
    exists i :: 0 <= i <= |text| - |pattern| && OccursAtIgnoreCase(text, pattern, i)
  }

  /** Case-insensitive search is plain search on the lower-cased strings. */
  lemma ContainsIgnoreCaseIsContainsLowered(text: string, pattern: string)
    ensures ContainsIgnoreCase(text, pattern) <==> Contains(Lower(text), Lower(pattern))
  {
    var n := |pattern|;
    forall i | 0 <= i <= |text| - n
      ensures OccursAtIgnoreCase(text, pattern, i) <==> OccursAt(Lower(text), Lower(pattern), i)
    {
      assert Lower(text)[i..i + n] == Lower(text[i..i + n]);
      EqualsIgnoreCaseIsLowerEquality(text[i..i + n], pattern);
    }
    if ContainsIgnoreCase(text, pattern) {
      var i :| 0 <= i <= |text| - n && OccursAtIgnoreCase(text, pattern, i);
      assert OccursAt(Lower(text), Lower(pattern), i);
    }
    if Contains(Lower(text), Lower(pattern)) {
      var i :| 0 <= i <= |Lower(text)| - |Lower(pattern)| && OccursAt(Lower(text), Lower(pattern), i);
      assert OccursAtIgnoreCase(text, pattern, i);
    }
  }

  // ---------------------------------------------------------------------
  // Integer.parseInt

  const MinInt: int := -0x8000_0000
  const MaxInt: int := 0x7fff_ffff

  predicate IsDigit(c: char) {
    '0' <= c <= '9'
  }

  predicate AllDigits(s: string) {
    forall i :: 0 <= i < |s| ==> IsDigit(s[i])
  }

  function DigitChar(d: int): (c: char)
    requires 0 <= d < 10
    ensures IsDigit(c)
  {
    ('0' as int + d) as char
  }

  /** The value of a string of decimal digits, most significant first. */
  function DigitsValue(s: string): nat
    requires AllDigits(s)
  {
    if s == [] then 0 else DigitsValue(s[..|s| - 1]) * 10 + (s[|s| - 1] as int - '0' as int)
  }

  /**
   * `Integer.parseInt(s)`: an optional sign followed by at least one decimal
   * digit, whose value fits in 32 bits; anything else (including the empty
   * string) is a NumberFormatException, here None.
   */
  function ParseInt(s: string): (r: Option<int>)
    ensures r.Some? ==> MinInt <= r.value <= MaxInt
    ensures (exists i :: 0 < i < |s| && !IsDigit(s[i])) ==> r.None?
    ensures |s| > 0 && !IsDigit(s[0]) && s[0] != '-' && s[0] != '+' ==> r.None?
    ensures s == "" || s == "-" || s == "+" ==> r.None?
  {
    if |s| == 0 then None
    else
      var signed := s[0] == '-' || s[0] == '+';
      var digits := if signed then s[1..] else s;
      if |digits| == 0 || !AllDigits(digits) then None
      else
        var v: int := if s[0] == '-' then -(DigitsValue(digits) as int) else DigitsValue(digits);
        if MinInt <= v <= MaxInt then Some(v) else None
  }

  /**
   * A digit string, alone or after a `+`, parses to its value exactly when
   * that value fits in 32 bits; leading zeros are allowed.
   */
  lemma ParseIntOfDigits(d: string)
    requires |d| > 0 && AllDigits(d)
    ensures DigitsValue(d) <= MaxInt ==> ParseInt(d) == Some(DigitsValue(d) as int)
    ensures DigitsValue(d) <= MaxInt ==> ParseInt("+" + d) == Some(DigitsValue(d) as int)
    ensures DigitsValue(d) > MaxInt ==> ParseInt(d).None? && ParseInt("+" + d).None?
  {
    assert IsDigit(d[0]);
    var p := "+" + d;
    assert p[0] == '+' && p[1..] == d;
  }

  /** A digit string after a `-` parses to its negated value exactly when that fits in 32 bits. */
  lemma ParseIntOfNegativeDigits(d: string)
    requires |d| > 0 && AllDigits(d)
    ensures MinInt <= -(DigitsValue(d) as int) ==> ParseInt("-" + d) == Some(-(DigitsValue(d) as int))
    ensures -(DigitsValue(d) as int) < MinInt ==> ParseInt("-" + d).None?
  {
    var m := "-" + d;
    assert m[0] == '-' && m[1..] == d;
  }

  /** Decimal digits of a natural number, without leading zeros. */
  function NatString(n: nat): (s: string)
    ensures |s| > 0 && AllDigits(s)
  {
    if n < 10 then [DigitChar(n)] else NatString(n / 10) + [DigitChar(n % 10)]
  }

  /** `Integer.toString(n)`. */
  function IntString(n: int): string {
    if n < 0 then "-" + NatString(-n) else NatString(n)
  }

  lemma {:induction false} DigitsValueOfNatString(n: nat)
    ensures DigitsValue(NatString(n)) == n
  {
    if n >= 10 {
      var s := NatString(n);
      assert s[..|s| - 1] == NatString(n / 10);
      DigitsValueOfNatString(n / 10);
    }
  }

  /** Every 32-bit integer written in decimal parses back to itself. */
  lemma ParseIntOfIntString(n: int)
    requires MinInt <= n <= MaxInt
    ensures ParseInt(IntString(n)) == Some(n)
  {
    if n < 0 {
      var s := IntString(n);
      assert s[0] == '-' && s[1..] == NatString(-n);
      DigitsValueOfNatString(-n);
    } else {
      var s := IntString(n);
      assert IsDigit(s[0]);
      DigitsValueOfNatString(n);
    }
  }
}
