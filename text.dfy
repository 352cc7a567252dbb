/** JavaScript's null and undefined results. */
module Wrappers {
  datatype Option<+T> = None | Some(value: T)
}

/**
 * Characters and decimal digit strings: what the formatter and the parser of
 * bytes.js share. Strings are sequences of code points; the only characters
 * that matter to the library are ASCII digits, letters, '.', '+', '-' and the
 * ECMAScript white space.
 */
module Text {

  function Pow10(k: nat): (p: nat)
    ensures p >= 1
  {
    if k == 0 then 1 else 10 * Pow10(k - 1)
  }

  predicate IsDigit(c: char) {
    '0' <= c <= '9'
  }

  predicate AllDigits(s: string) {
    forall i :: 0 <= i < |s| ==> IsDigit(s[i])
  }

  predicate AllZeros(s: string) {
    forall i :: 0 <= i < |s| ==> s[i] == '0'
  }

  function Zeros(k: nat): (z: string)
    ensures |z| == k && AllZeros(z) && AllDigits(z)
  {
    seq(k, _ => '0')
  }

  function DigitValue(c: char): nat
    requires IsDigit(c)
  {
    c as int - '0' as int
  }

  function DigitChar(d: nat): (c: char)
    requires d < 10
    ensures IsDigit(c) && DigitValue(c) == d
  {
    ('0' as int + d) as char
  }

  /** The number a string of decimal digits denotes, most significant digit first. */
  function DigitsValue(s: string): nat
    requires AllDigits(s)
  {
    if s == [] then 0 else DigitsValue(s[..|s| - 1]) * 10 + DigitValue(s[|s| - 1])
  }

  /**
   * The decimal representation of n with no leading zeros, "0" for zero: the
   * digit string of ECMA-262's Number::toString and of toFixed's "digits of the
   * decimal representation of n".
   */
  function NatToDigits(n: nat): (s: string)
    ensures |s| >= 1 && AllDigits(s)
    ensures DigitsValue(s) == n
    ensures s[0] == '0' <==> n == 0
    ensures n == 0 ==> s == "0"
  {
    var init := if n < 10 then "" else NatToDigits(n / 10);
    var s := init + [DigitChar(n % 10)];
    assert s[..|s| - 1] == init;
    s
  }

  /** s preceded by as many zeros as it takes to have at least k characters. */
  function PadLeft(s: string, k: nat): (r: string)
    ensures |r| == if |s| < k then k else |s|
    ensures AllDigits(s) ==> AllDigits(r)
  {
    if |s| < k then Zeros(k - |s|) + s else s
  }

  /** v · 10^k, by repeated multiplication by ten. */
  function Shift(v: nat, k: nat): (r: nat)
    ensures v > 0 ==> r >= v
  {
    if k == 0 then v else 10 * Shift(v, k - 1)
  }

  lemma {:induction false} ShiftIsProduct(v: nat, k: nat)
    ensures Shift(v, k) == v * Pow10(k)
  {
    if k > 0 {
      ShiftIsProduct(v, k - 1);
      assert v * Pow10(k) == v * (10 * Pow10(k - 1)) == 10 * (v * Pow10(k - 1));
    }
  }

  lemma {:induction false} DigitsValueAppend(a: string, b: string)
    requires AllDigits(a) && AllDigits(b)
    ensures AllDigits(a + b)
    ensures DigitsValue(a + b) == Shift(DigitsValue(a), |b|) + DigitsValue(b)
  {
    if b == [] {
      assert a + b == a;
    } else {
      var b' := b[..|b| - 1];
      var ab := a + b;
      assert ab[..|ab| - 1] == a + b';
      DigitsValueAppend(a, b');
    }
  }

  /** Cutting a digit string at j: the head counts |s| - j places higher. */
  lemma SplitValue(s: string, j: nat)
    requires AllDigits(s) && j <= |s|
    ensures AllDigits(s[..j]) && AllDigits(s[j..])
    ensures DigitsValue(s) == Shift(DigitsValue(s[..j]), |s| - j) + DigitsValue(s[j..])
  {
    assert s == s[..j] + s[j..];
    DigitsValueAppend(s[..j], s[j..]);
  }

  lemma {:induction false} ZerosValue(k: nat)
    ensures DigitsValue(Zeros(k)) == 0
  {
    if k > 0 {
      assert Zeros(k)[..k - 1] == Zeros(k - 1);
      ZerosValue(k - 1);
    }
  }

  lemma {:induction false} ShiftZero(k: nat)
    ensures Shift(0, k) == 0
  {
    if k > 0 {
      ShiftZero(k - 1);
    }
  }

  /** Leading zeros do not change the value of a digit string. */
  lemma PadLeftValue(s: string, k: nat)
    requires AllDigits(s)
    ensures DigitsValue(PadLeft(s, k)) == DigitsValue(s)
  {
    if |s| < k {
      DigitsValueAppend(Zeros(k - |s|), s);
      ZerosValue(k - |s|);
      ShiftZero(|s|);
    }
  }

  /** Trailing zeros scale the value of a digit string by a power of ten. */
  lemma TrailingZerosValue(s: string, k: nat)
    requires AllDigits(s)
    ensures AllDigits(s + Zeros(k))
    ensures DigitsValue(s + Zeros(k)) == Shift(DigitsValue(s), k)
  {
    DigitsValueAppend(s, Zeros(k));
    ZerosValue(k);
  }

  lemma AllZerosValue(s: string)
    requires AllZeros(s)
    ensures AllDigits(s) && DigitsValue(s) == 0
  {
    assert s == Zeros(|s|);
    ZerosValue(|s|);
  }

  lemma {:induction false} Pow10Add(a: nat, b: nat)
    ensures Pow10(a + b) == Pow10(a) * Pow10(b)
  {
    if b > 0 {
      Pow10Add(a, b - 1);
      assert Pow10(a + b) == 10 * Pow10(a + b - 1);
      assert Pow10(a) * Pow10(b) == Pow10(a) * (10 * Pow10(b - 1)) == 10 * (Pow10(a) * Pow10(b - 1));
    }
  }

  /** Only the all-zero digit strings denote zero. */
  lemma {:induction false} ZeroValueAllZeros(s: string)
    requires AllDigits(s) && DigitsValue(s) == 0
    ensures AllZeros(s)
  {
    if s != [] {
      ZeroValueAllZeros(s[..|s| - 1]);
      assert forall i :: 0 <= i < |s| - 1 ==> s[i] == s[..|s| - 1][i];
    }
  }

  /**
   * Splitting off the last k digits is unique: a number written as a·10^k + b
   * with b below 10^k determines a and b.
   */
  lemma {:induction false} ShiftSplitUnique(a: nat, b: nat, a': nat, b': nat, k: nat)
    requires b < Pow10(k) && b' < Pow10(k)
    requires Shift(a, k) + b == Shift(a', k) + b'
    ensures a == a' && b == b'
  {
    if k > 0 {
      var x, x' := Shift(a, k - 1), Shift(a', k - 1);
      DivMod10(x, b);
      DivMod10(x', b');
      ShiftSplitUnique(a, b / 10, a', b' / 10, k - 1);
    }
  }

  lemma DivMod10(x: nat, b: nat)
    ensures (10 * x + b) / 10 == x + b / 10 && (10 * x + b) % 10 == b % 10
  {
  }

  /** A digit string of length k denotes a number below 10^k. */
  lemma {:induction false} DigitsValueBound(s: string)
    requires AllDigits(s)
    ensures DigitsValue(s) < Pow10(|s|)
  {
    if s != [] {
      DigitsValueBound(s[..|s| - 1]);
    }
  }

  /**
   * A digit string without leading zeros is the representation of its value:
   * the representation is the only such string.
   */
  lemma {:induction false} CanonicalDigits(s: string)
    requires |s| >= 1 && AllDigits(s) && (s == "0" || s[0] != '0')
    ensures s == NatToDigits(DigitsValue(s))
  {
    var n := DigitsValue(s);
    var c := s[|s| - 1];
    if |s| == 1 {
      assert s[..0] == [];
      assert DigitChar(DigitValue(c)) == c;
    } else {
      var p := s[..|s| - 1];
      assert p[0] == s[0];
      CanonicalDigits(p);
      if DigitsValue(p) == 0 {
        ZeroValueAllZeros(p);
        assert false;
      }
      assert n / 10 == DigitsValue(p) && n % 10 == DigitValue(c);
      assert DigitChar(DigitValue(c)) == c;
      assert s == p + [c];
    }
  }

  /** The representation of a number below 10^k has at most k digits. */
  lemma {:induction false} NatToDigitsLength(n: nat, k: nat)
    requires 1 <= k && n < Pow10(k)
    ensures |NatToDigits(n)| <= k
  {
    if n >= 10 {
      assert k >= 2;
      NatToDigitsLength(n / 10, k - 1);
    }
  }

  // Facts about concatenation, kept apart so that they are proved in an empty context

  lemma Concat3(a: string, b: string, c: string)
    ensures a + b + c == a + (b + c)
  {
  }

  lemma Concat4(a: string, b: string, c: string, d: string)
    ensures a + b + c + d == a + (b + c + d)
    ensures a + b + c + d == (a + b) + (c + d)
  {
  }

  lemma EmptyPrefix(a: string)
    ensures "" + a == a
  {
  }

  lemma EmptyPieces(a: string, b: string)
    ensures a + "" + b == a + b && "" + a + b + "" == a + b
  {
  }

  lemma SplitAt(s: string, k: nat)
    requires k <= |s|
    ensures s == s[..k] + s[k..]
  {
  }

  lemma SplitConcat(a: string, b: string)
    ensures (a + b)[..|a|] == a && (a + b)[|a|..] == b
  {
  }

  // ASCII case mapping (the library lower-cases unit names and cache keys).

  function LowerChar(c: char): char {
    if 'A' <= c <= 'Z' then (c as int + 32) as char else c
  }

  /** No ASCII upper-case letter occurs in s. */
  predicate NoUpper(s: string) {
    forall i :: 0 <= i < |s| ==> !('A' <= s[i] <= 'Z')
  }

  function ToLower(s: string): (r: string)
    ensures |r| == |s|
    ensures forall i :: 0 <= i < |s| ==> r[i] == LowerChar(s[i])
  {
    seq(|s|, i requires 0 <= i < |s| => LowerChar(s[i]))
  }

  /** Lower-casing leaves no ASCII upper-case letter behind. */
  lemma LowerNoUpper(s: string)
    ensures NoUpper(ToLower(s))
  {
  }

  /**
   * ECMAScript WhiteSpace and LineTerminator code points: the class `\s` of a
   * regular expression and the characters String.prototype.trimStart removes.
   */
  predicate IsJsSpace(c: char) {
    || c == '\t' || c == '\n' || c == '\U{000B}' || c == '\U{000C}' || c == '\r'
    || c == ' ' || c == '\U{00A0}' || c == '\U{1680}'
    || ('\U{2000}' <= c <= '\U{200A}')
    || c == '\U{2028}' || c == '\U{2029}' || c == '\U{202F}' || c == '\U{205F}'
    || c == '\U{3000}' || c == '\U{FEFF}'
  }

  /** s with every white-space character removed: `s.replace(/\s+/g, '')`. */
  function RemoveSpaces(s: string): (r: string)
    ensures |r| <= |s|
    ensures forall i :: 0 <= i < |r| ==> !IsJsSpace(r[i])
    ensures NoUpper(s) ==> NoUpper(r)
  {
    if s == [] then []
    else if IsJsSpace(s[0]) then RemoveSpaces(s[1..])
    else [s[0]] + RemoveSpaces(s[1..])
  }

  /** Removing white space works piece by piece: what is kept keeps its order. */
  lemma {:induction false} RemoveSpacesConcat(a: string, b: string)
    ensures RemoveSpaces(a + b) == RemoveSpaces(a) + RemoveSpaces(b)
    decreases |a|
  {
    if a == [] {
      assert a + b == b;
    } else {
      assert (a + b)[0] == a[0];
      assert (a + b)[1..] == a[1..] + b;
      RemoveSpacesConcat(a[1..], b);
    }
  }

  /** Lower-casing works character by character. */
  lemma ToLowerConcat(a: string, b: string)
    ensures ToLower(a + b) == ToLower(a) + ToLower(b)
  {
  }
}
