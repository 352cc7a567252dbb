/**
 * The numeral the formatter renders (index.js:230-243): Number.prototype.toFixed,
 * the trailing-zero trim `formatDecimalsRegExp` (index.js:26) and the thousands
 * grouping `formatThousandsRegExp` (index.js:24).
 */
module Numerals {
  import opened Wrappers
  import opened Text

  /** A decimal numeral: optional minus sign, integer digits, optional fraction digits. */
  datatype Decimal = Decimal(negative: bool, intDigits: string, fracDigits: string)

  predicate WellFormed(x: Decimal) {
    |x.intDigits| >= 1 && AllDigits(x.intDigits) && AllDigits(x.fracDigits)
  }

  /** The text of a numeral; the point is written only when there are fraction digits. */
  function Show(x: Decimal): string {
    (if x.negative then "-" else "") + x.intDigits + (if x.fracDigits == [] then "" else "." + x.fracDigits)
  }

  /** The number a numeral denotes. */
  function DecimalValue(x: Decimal): real
    requires WellFormed(x)
  {
    var m := DigitsValue(x.intDigits) as real + Unscale(DigitsValue(x.fracDigits) as real, |x.fracDigits|);
    if x.negative then -m else m
  }

  // ---------------------------------------------------------------------------
  // Scaling by powers of ten, one factor of ten at a time

  /** a·10^d. */
  function Scale(a: real, d: nat): (r: real)
    ensures a >= 0.0 ==> r >= 0.0
  {
    if d == 0 then a else 10.0 * Scale(a, d - 1)
  }

  /** v·10^-d. */
  function Unscale(v: real, d: nat): real {
    if d == 0 then v else Unscale(v, d - 1) / 10.0
  }

  lemma {:induction false} ScaleIsProduct(a: real, d: nat)
    ensures Scale(a, d) == a * Pow10(d) as real
  {
    if d > 0 {
      ScaleIsProduct(a, d - 1);
      assert Pow10(d) as real == 10.0 * Pow10(d - 1) as real;
    }
  }

  lemma {:induction false} UnscaleIsQuotient(v: real, d: nat)
    ensures Unscale(v, d) == v / Pow10(d) as real
  {
    if d > 0 {
      UnscaleIsQuotient(v, d - 1);
      assert Pow10(d) as real == 10.0 * Pow10(d - 1) as real;
    }
  }

  lemma {:induction false} UnscaleAdd(u: real, v: real, d: nat)
    ensures Unscale(u + v, d) == Unscale(u, d) + Unscale(v, d)
  {
    if d > 0 {
      UnscaleAdd(u, v, d - 1);
    }
  }

  lemma {:induction false} UnscaleNegate(u: real, d: nat)
    ensures Unscale(-u, d) == -Unscale(u, d)
  {
    if d > 0 {
      UnscaleNegate(u, d - 1);
    }
  }

  lemma {:induction false} UnscaleMonotonic(u: real, v: real, d: nat)
    ensures u < v ==> Unscale(u, d) < Unscale(v, d)
    ensures u <= v ==> Unscale(u, d) <= Unscale(v, d)
  {
    if d > 0 {
      UnscaleMonotonic(u, v, d - 1);
    }
  }

  lemma {:induction false} UnscaleTimesTen(v: real, d: nat)
    ensures Unscale(10.0 * v, d + 1) == Unscale(v, d)
  {
    if d > 0 {
      UnscaleTimesTen(v, d - 1);
    }
  }

  lemma {:induction false} UnscaleScale(a: real, d: nat)
    ensures Unscale(Scale(a, d), d) == a
  {
    if d > 0 {
      UnscaleTimesTen(Scale(a, d - 1), d - 1);
      UnscaleScale(a, d - 1);
    }
  }

  /** Whole numbers scale like their digits: m·10^d is m followed by d zeros. */
  lemma {:induction false} ScaleWhole(m: nat, d: nat)
    ensures Scale(m as real, d) == Shift(m, d) as real
  {
    if d > 0 {
      ScaleWhole(m, d - 1);
    }
  }

  /** Dropping trailing zeros: v·10^j written with k + j places is v written with k places. */
  lemma {:induction false} UnscaleShift(v: nat, j: nat, k: nat)
    ensures Unscale(Shift(v, j) as real, k + j) == Unscale(v as real, k)
  {
    if j > 0 {
      UnscaleTimesTen(Shift(v, j - 1) as real, k + j - 1);
      UnscaleShift(v, j - 1, k);
    }
  }

  // ---------------------------------------------------------------------------
  // Number.prototype.toFixed

  function Abs(x: real): (a: real)
    ensures a >= 0.0 && (a == x || a == -x)
  {
    if x < 0.0 then -x else x
  }

  /** The integer nearest to a, the larger one on a tie. */
  function RoundHalfUp(a: real): (n: int)
    ensures a - 0.5 < n as real <= a + 0.5
  {
    (a + 0.5).Floor
  }

  /**
   * The parts of `x.toFixed(d)` (ECMA-262 section 21.1.3.3) for |x| < 10^21:
   * the sign comes from x < 0; n is |x|·10^d rounded to the nearest integer,
   * the larger one on a tie; m is the digits of n, padded with zeros to at
   * least d + 1 digits; the point goes d digits from the right.
   */
  function FixedParts(x: real, d: nat): (r: Decimal)
    ensures WellFormed(r)
    ensures r.negative <==> x < 0.0
    ensures |r.fracDigits| == d
    ensures r.intDigits == "0" || r.intDigits[0] != '0'
    ensures Shift(DigitsValue(r.intDigits), d) + DigitsValue(r.fracDigits) == RoundHalfUp(Scale(Abs(x), d))
  {
    var (i, f) := PointDigits(RoundHalfUp(Scale(Abs(x), d)), d);
    Decimal(x < 0.0, i, f)
  }

  /**
   * The digits of n, padded with zeros to at least d + 1 digits and cut d
   * digits from the right: the integer and fraction digits of n·10^-d.
   */
  function PointDigits(n: nat, d: nat): (r: (string, string))
    ensures |r.0| >= 1 && AllDigits(r.0) && AllDigits(r.1) && |r.1| == d
    ensures r.0 == "0" || r.0[0] != '0'
    ensures Shift(DigitsValue(r.0), d) + DigitsValue(r.1) == n
  {
    var m := PadLeft(NatToDigits(n), d + 1);
    PointSplit(n, d);
    PointSplitLeadingDigit(n, d);
    (m[..|m| - d], m[|m| - d..])
  }

  /** Putting the point d digits from the right of the padded digits of n keeps the value n. */
  lemma PointSplit(n: nat, d: nat)
    ensures var m := PadLeft(NatToDigits(n), d + 1);
            var k := |m|;
            k >= d + 1 && AllDigits(m)
            && Shift(DigitsValue(m[..k - d]), d) + DigitsValue(m[k - d..]) == n
  {
    var s := NatToDigits(n);
    var m := PadLeft(s, d + 1);
    PadLeftValue(s, d + 1);
    SplitValue(m, |m| - d);
  }

  /** The integer part toFixed writes has no leading zero, unless it is "0". */
  lemma PointSplitLeadingDigit(n: nat, d: nat)
    ensures var m := PadLeft(NatToDigits(n), d + 1);
            var k := |m|;
            k >= d + 1 && (m[..k - d] == "0" || m[..k - d][0] != '0')
  {
    var s := NatToDigits(n);
    var m := PadLeft(s, d + 1);
    var k := |m|;
    if |s| < d + 1 {
      assert m[0] == (Zeros(d + 1 - |s|) + s)[0] == '0';
      assert m[..k - d] == [m[0]];
    } else if n == 0 {
      assert m[..k - d] == "0";
    }
  }

  /**
   * `x.toFixed(d)`: a minus sign exactly for negative x, then digits, and
   * when d > 0 a single point with exactly d digits after it.
   */
  function ToFixed(x: real, d: nat): (s: string)
    ensures |s| >= 1 && (s[0] == '-' <==> x < 0.0)
    ensures d == 0 ==> NoPoint(s)
    ensures d > 0 ==> |s| >= d + 2 && s[|s| - d - 1] == '.' && NoPoint(s[..|s| - d - 1])
                      && AllDigits(s[|s| - d..])
  {
    ShowShape(FixedParts(x, d));
    Show(FixedParts(x, d))
  }

  /** Where the sign and the point of a numeral's text are. */
  lemma ShowShape(x: Decimal)
    requires WellFormed(x)
    ensures var s, n := Show(x), |x.fracDigits|;
            |s| >= 1 && (s[0] == '-' <==> x.negative)
            && (n == 0 ==> NoPoint(s))
            && (n > 0 ==> |s| >= n + 2 && s[|s| - n - 1] == '.' && NoPoint(s[..|s| - n - 1])
                          && s[|s| - n..] == x.fracDigits)
  {
    var sign := if x.negative then "-" else "";
    var head := sign + x.intDigits;
    assert NoPoint(head) by {
      forall j | 0 <= j < |head| ensures head[j] != '.' {
        if j >= |sign| { assert head[j] == x.intDigits[j - |sign|]; }
      }
    }
    assert head[0] == (if x.negative then '-' else x.intDigits[0]);
    if x.fracDigits != [] {
      var s := Show(x);
      assert s == head + ("." + x.fracDigits);
      assert s[..|head|] == head;
    }
  }

  /** toFixed is within half a unit of the last place of x: |value - x| <= 0.5·10^-d. */
  lemma FixedPartsNearest(x: real, d: nat)
    ensures var v := DecimalValue(FixedParts(x, d));
            x - Unscale(0.5, d) <= v <= x + Unscale(0.5, d)
  {
    NearestOfParts(x, d, FixedParts(x, d));
  }

  lemma NearestOfParts(x: real, d: nat, r: Decimal)
    requires WellFormed(r) && (r.negative <==> x < 0.0) && |r.fracDigits| == d
    requires Shift(DigitsValue(r.intDigits), d) + DigitsValue(r.fracDigits) == RoundHalfUp(Scale(Abs(x), d))
    ensures x - Unscale(0.5, d) <= DecimalValue(r) <= x + Unscale(0.5, d)
  {
    var i, f := DigitsValue(r.intDigits), DigitsValue(r.fracDigits);
    var n := RoundHalfUp(Scale(Abs(x), d));
    SplitCloseness(Abs(x), d, i, f, n);
    var m := i as real + Unscale(f as real, d);
    assert DecimalValue(r) == if r.negative then -m else m;
  }

  /** n, split as i·10^d + f, lies within 1/2 of a·10^d: then i + f·10^-d lies within 0.5·10^-d of a. */
  lemma SplitCloseness(a: real, d: nat, i: nat, f: nat, n: int)
    requires n == Shift(i, d) + f
    requires Scale(a, d) - 0.5 < n as real <= Scale(a, d) + 0.5
    ensures a - Unscale(0.5, d) < i as real + Unscale(f as real, d) <= a + Unscale(0.5, d)
  {
    var s := Scale(a, d);
    UnscaleMonotonic(s - 0.5, n as real, d);
    UnscaleMonotonic(n as real, s + 0.5, d);
    UnscaleAdd(s, -0.5, d);
    UnscaleAdd(s, 0.5, d);
    UnscaleNegate(0.5, d);
    UnscaleScale(a, d);
    UnscaleAdd(Shift(i, d) as real, f as real, d);
    ScaleWhole(i, d);
    UnscaleScale(i as real, d);
  }

  /** toFixed of a whole number: its own digits, and a fraction of d zeros. */
  lemma FixedPartsOfInteger(z: int, d: nat)
    ensures var r := FixedParts(z as real, d);
            r.negative == (z < 0) && DigitsValue(r.intDigits) == (if z < 0 then -z else z)
            && AllZeros(r.fracDigits)
  {
    IntegerParts(z, d, FixedParts(z as real, d));
  }

  lemma IntegerParts(z: int, d: nat, r: Decimal)
    requires WellFormed(r) && (r.negative <==> z < 0) && |r.fracDigits| == d
    requires Shift(DigitsValue(r.intDigits), d) + DigitsValue(r.fracDigits) == RoundHalfUp(Scale(Abs(z as real), d))
    ensures DigitsValue(r.intDigits) == (if z < 0 then -z else z) && AllZeros(r.fracDigits)
  {
    var m: nat := if z < 0 then -z else z;
    assert Abs(z as real) == m as real;
    ScaleWhole(m, d);
    assert RoundHalfUp(Shift(m, d) as real) == Shift(m, d);
    DigitsValueBound(r.fracDigits);
    ShiftSplitUnique(DigitsValue(r.intDigits), DigitsValue(r.fracDigits), m, 0, d);
    ZeroValueAllZeros(r.fracDigits);
  }

  // ---------------------------------------------------------------------------
  // The trim `str.replace(/(?:\.0*|(\.[^0]+)0+)$/, '$1')` (index.js:26, 234)

  /** Length of the longest prefix of f with no '0' (what `[^0]+` can consume). */
  function NonZeroRun(f: string): (k: nat)
    ensures k <= |f|
    ensures forall i :: 0 <= i < k ==> f[i] != '0'
    ensures k < |f| ==> f[k] == '0'
  {
    if f == [] || f[0] == '0' then 0 else 1 + NonZeroRun(f[1..])
  }

  /**
   * What the pattern replaces s[p..] with when it matches at p: the first
   * alternative `\.0*$` matches a point followed only by zeros and drops it
   * all; the second `(\.[^0]+)0+$` matches a point, a run of characters other
   * than '0' and then at least one '0' up to the end, and keeps the group.
   */
  function TrimMatchAt(s: string, p: nat): (r: Option<string>)
    requires p < |s|
    ensures r.Some? ==> p + |r.value| < |s| && r.value == s[p..p + |r.value|]
  {
    if s[p] != '.' then None else TrimFraction(s[p + 1..])
  }

  /**
   * The fraction digits the pattern keeps of the fraction f after a point:
   * none when f is all zeros, the run of non-zero digits when only zeros
   * follow it; None when the pattern does not match.
   */
  function KeptFraction(f: string): (r: Option<string>)
    ensures r.Some? ==> |r.value| <= |f| && r.value == f[..|r.value|]
  {
    var k := NonZeroRun(f);
    if AllZeros(f) then Some("")
    else if 0 < k < |f| && AllZeros(f[k..]) then Some(f[..k])
    else None
  }

  /** What the pattern does at the point of `I.F`, in terms of F alone. */
  function TrimFraction(f: string): (r: Option<string>)
    ensures r.Some? ==> |r.value| <= |f| && r.value == ("." + f)[..|r.value|]
  {
    match KeptFraction(f)
    case Some(g) => Some(if g == [] then "" else "." + g)
    case None => None
  }

  /** The leftmost match at or after p is replaced; without a match s is unchanged. */
  function TrimFrom(s: string, p: nat): (r: string)
    requires p <= |s|
    ensures |r| <= |s| && r == s[..|r|]
    decreases |s| - p
  {
    if p == |s| then s
    else match TrimMatchAt(s, p)
      case Some(rep) => s[..p] + rep
      case None => TrimFrom(s, p + 1)
  }

  /**
   * `s.replace(formatDecimalsRegExp, '$1')`: the replacement is a prefix of
   * the text it replaces, so the trim only ever cuts off a suffix.
   */
  function TrimDecimals(s: string): (r: string)
    ensures |r| <= |s| && r == s[..|r|]
  {
    TrimFrom(s, 0)
  }

  predicate NoPoint(s: string) {
    forall j :: 0 <= j < |s| ==> s[j] != '.'
  }

  /** Positions without a point cannot start a match. */
  lemma {:induction false} TrimSkipsToPoint(s: string, p: nat, q: nat)
    requires p <= q <= |s|
    requires forall i :: p <= i < q ==> s[i] != '.'
    ensures TrimFrom(s, p) == TrimFrom(s, q)
    decreases q - p
  {
    if p < q {
      TrimSkipsToPoint(s, p + 1, q);
    }
  }

  /** The search reaches the first point of s and either replaces there or moves on past it. */
  lemma TrimAtFirstPoint(s: string, p: nat)
    requires p < |s| && s[p] == '.'
    requires forall j :: 0 <= j < p ==> s[j] != '.'
    ensures TrimDecimals(s) == match TrimMatchAt(s, p)
                               case Some(rep) => s[..p] + rep
                               case None => TrimFrom(s, p + 1)
  {
    TrimSkipsToPoint(s, 0, p);
  }

  lemma TrimMatchAtPoint(i: string, f: string)
    ensures TrimMatchAt(i + "." + f, |i|) == TrimFraction(f)
  {
    var s := i + "." + f;
    assert s[|i|] == '.';
    assert s[|i| + 1..] == f;
  }

  /**
   * The trim on a numeral `I.F` with no other point: an all-zero fraction goes
   * together with its point; a fraction made of a run of non-zero digits
   * followed by zeros loses the zeros; any other fraction (one ending in a
   * non-zero digit, or with a '0' before a later non-zero digit) is kept.
   */
  lemma TrimCases(i: string, f: string)
    requires NoPoint(i) && NoPoint(f)
    ensures TrimDecimals(i + "." + f) ==
              match TrimFraction(f)
              case Some(rep) => i + rep
              case None => i + "." + f
  {
    var s := i + "." + f;
    var p := |i|;
    forall j | 0 <= j < p ensures s[j] != '.' {
      assert s[j] == i[j];
    }
    TrimAtFirstPoint(s, p);
    TrimMatchAtPoint(i, f);
    assert s[..p] == i;
    if TrimFraction(f) == None {
      forall j | p + 1 <= j < |s| ensures s[j] != '.' {
        assert s[j] == f[j - p - 1];
      }
      TrimSkipsToPoint(s, p + 1, |s|);
    }
  }

  /** A string without a point, such as toFixed's output for 0 places, is left alone. */
  lemma TrimWithoutPoint(s: string)
    requires NoPoint(s)
    ensures TrimDecimals(s) == s
  {
    TrimSkipsToPoint(s, 0, |s|);
  }

  /** The three cases, each stated on its own, for digit strings. */
  lemma TrimExamplesByShape(i: string, nz: string, z: string, f: string)
    requires NoPoint(i) && AllDigits(nz) && AllDigits(z) && AllDigits(f)
    ensures AllZeros(f) ==> TrimDecimals(i + "." + f) == i
    ensures |nz| > 0 && (forall j :: 0 <= j < |nz| ==> nz[j] != '0') && |z| > 0 && AllZeros(z)
            ==> TrimDecimals(i + "." + nz + z) == i + "." + nz
    ensures (exists a, b :: 0 <= a < b < |f| && f[a] == '0' && f[b] != '0')
            ==> TrimDecimals(i + "." + f) == i + "." + f
  {
    TrimCases(i, f);
    if |nz| > 0 && (forall j :: 0 <= j < |nz| ==> nz[j] != '0') && |z| > 0 && AllZeros(z) {
      var g := nz + z;
      assert AllDigits(g);
      TrimCases(i, g);
      NonZeroRunPrefix(nz, z);
      assert g[..|nz|] == nz && g[|nz|..] == z;
      assert !AllZeros(g) by { assert g[0] != '0'; }
      assert i + "." + nz + z == i + "." + g;
    }
    if exists a, b :: 0 <= a < b < |f| && f[a] == '0' && f[b] != '0' {
      var a, b :| 0 <= a < b < |f| && f[a] == '0' && f[b] != '0';
      var k := NonZeroRun(f);
      assert !AllZeros(f);
      assert k <= a;
      assert !AllZeros(f[k..]) by { assert f[k..][b - k] == f[b]; }
    }
  }

  /**
   * The numeral the trim leaves of a numeral: the fraction is dropped with its
   * point when it is all zeros, loses its trailing zeros when it is a run of
   * non-zero digits followed by zeros, and stays as it is otherwise.
   */
  function Trimmed(x: Decimal): Decimal {
    match KeptFraction(x.fracDigits)
    case Some(g) => x.(fracDigits := g)
    case None => x
  }

  /** The trim pattern applied to the text of a numeral yields the text of Trimmed. */
  lemma TrimShow(x: Decimal)
    requires WellFormed(x)
    ensures TrimDecimals(Show(x)) == Show(Trimmed(x))
  {
    var head := (if x.negative then "-" else "") + x.intDigits;
    assert NoPoint(head) by {
      forall j | 0 <= j < |head| ensures head[j] != '.' {
        if x.negative && j > 0 { assert head[j] == x.intDigits[j - 1]; }
        if !x.negative { assert head[j] == x.intDigits[j]; }
      }
    }
    if x.fracDigits == [] {
      assert Show(x) == head;
      TrimWithoutPoint(head);
    } else {
      var f := x.fracDigits;
      assert Show(x) == head + "." + f;
      assert NoPoint(f);
      TrimCases(head, f);
      if !AllZeros(f) && 0 < NonZeroRun(f) < |f| && AllZeros(f[NonZeroRun(f)..]) {
        assert f[..NonZeroRun(f)] != [];
      }
    }
  }

  /** Trimming never changes the number a numeral denotes. */
  lemma TrimValue(x: Decimal)
    requires WellFormed(x)
    ensures WellFormed(Trimmed(x))
    ensures Trimmed(x).negative == x.negative && Trimmed(x).intDigits == x.intDigits
    ensures x.fracDigits[..|Trimmed(x).fracDigits|] == Trimmed(x).fracDigits
    ensures DecimalValue(Trimmed(x)) == DecimalValue(x)
  {
    var f := x.fracDigits;
    var k := NonZeroRun(f);
    if AllZeros(f) {
      AllZerosValue(f);
      UnscaleZero(|f|);
    } else if 0 < k < |f| && AllZeros(f[k..]) {
      SplitValue(f, k);
      AllZerosValue(f[k..]);
      UnscaleShift(DigitsValue(f[..k]), |f| - k, k);
    }
  }

  lemma {:induction false} UnscaleZero(d: nat)
    ensures Unscale(0.0, d) == 0.0
  {
    if d > 0 {
      UnscaleZero(d - 1);
    }
  }

  lemma {:induction false} NonZeroRunPrefix(nz: string, z: string)
    requires forall j :: 0 <= j < |nz| ==> nz[j] != '0'
    requires |z| > 0 && z[0] == '0'
    ensures NonZeroRun(nz + z) == |nz|
  {
    if nz != [] {
      assert (nz + z)[1..] == nz[1..] + z;
      NonZeroRunPrefix(nz[1..], z);
    }
  }

  // ---------------------------------------------------------------------------
  // The grouping `s.replace(/\B(?=(\d{3})+(?!\d))/g, sep)` (index.js:24, 240)

  predicate IsWordChar(c: char) {
    ('a' <= c <= 'z') || ('A' <= c <= 'Z') || IsDigit(c) || c == '_'
  }

  /** `\B`: the characters on both sides of position p are both word characters or both not. */
  predicate NotWordBoundary(s: string, p: nat)
    requires p <= |s|
  {
    (p > 0 && IsWordChar(s[p - 1])) == (p < |s| && IsWordChar(s[p]))
  }

  /** Number of consecutive digits starting at p. */
  function DigitRun(s: string, p: nat): (n: nat)
    requires p <= |s|
    ensures p + n <= |s|
    decreases |s| - p
  {
    if p < |s| && IsDigit(s[p]) then 1 + DigitRun(s, p + 1) else 0
  }

  /** `(?=(\d{3})+(?!\d))`: the digits from p to the end of their run come in whole groups of three. */
  predicate GroupLookahead(s: string, p: nat)
    requires p <= |s|
  {
    DigitRun(s, p) > 0 && DigitRun(s, p) % 3 == 0
  }

  predicate SeparatorAt(s: string, p: nat)
    requires p <= |s|
  {
    NotWordBoundary(s, p) && GroupLookahead(s, p)
  }

  /** The global replace: sep goes in at every position from p on where the pattern matches. */
  function InsertSeparators(s: string, sep: string, p: nat): (r: string)
    requires p <= |s|
    ensures sep == "" ==> r == s[p..]
    decreases |s| - p
  {
    (if SeparatorAt(s, p) then sep else "")
    + (if p == |s| then "" else [s[p]] + InsertSeparators(s, sep, p + 1))
  }

  /**
   * `s.replace(formatThousandsRegExp, sep)` on an optionally negative digit
   * string inserts the separator exactly as grouping the digits in threes
   * from the right does: never after the sign, never before the first digit.
   */
  function ReplaceThousands(s: string, sep: string): (r: string)
    ensures |s| >= 1 && AllDigits(s) ==> r == Grouped(s, sep)
    ensures |s| >= 2 && s[0] == '-' && AllDigits(s[1..]) ==> r == "-" + Grouped(s[1..], sep)
    ensures sep == "" ==> r == s
  {
    if |s| >= 1 && AllDigits(s) then
      assert s == "" + s;
      InsertSeparatorsGroups("", s, sep);
      InsertSeparators(s, sep, 0)
    else if |s| >= 2 && s[0] == '-' && AllDigits(s[1..]) then
      assert s == "-" + s[1..];
      InsertSeparatorsGroups("-", s[1..], sep);
      InsertSeparators(s, sep, 0)
    else
      InsertSeparators(s, sep, 0)
  }

  /** Index of the first point, or |s| when there is none. */
  function FirstPoint(s: string): (i: nat)
    ensures i <= |s|
    ensures forall j :: 0 <= j < i ==> s[j] != '.'
    ensures i < |s| ==> s[i] == '.'
  {
    if s == [] || s[0] == '.' then 0 else 1 + FirstPoint(s[1..])
  }

  /**
   * `str.split('.').map((s, i) => i === 0 ? s.replace(re, sep) : s).join('.')`:
   * only the text before the first point is grouped; the rest, point included,
   * is put back as it was.
   */
  function GroupIntegerPart(s: string, sep: string): (r: string)
    ensures sep == "" ==> r == s
    ensures |s| - FirstPoint(s) <= |r| && r[|r| - (|s| - FirstPoint(s))..] == s[FirstPoint(s)..]
  {
    var i := FirstPoint(s);
    ReplaceThousands(s[..i], sep) + s[i..]
  }

  /** Reference grouping: the last three digits form a group, the rest is grouped the same way. */
  function Grouped(d: string, sep: string): string
    decreases |d|
  {
    if |d| <= 3 then d else Grouped(d[..|d| - 3], sep) + sep + d[|d| - 3..]
  }

  /** Left-to-right form of the grouping: sep before every character with a multiple of three characters from it to the end. */
  function Marked(e: string, sep: string): string {
    if e == [] then [] else (if |e| % 3 == 0 then sep else []) + [e[0]] + Marked(e[1..], sep)
  }

  lemma {:induction false} MarkedShort(e: string, sep: string)
    requires |e| < 3
    ensures Marked(e, sep) == e
  {
    if e != [] {
      MarkedShort(e[1..], sep);
    }
  }

  lemma {:induction false} MarkedAppend(e: string, t: string, sep: string)
    requires |t| % 3 == 0
    ensures Marked(e + t, sep) == Marked(e, sep) + Marked(t, sep)
  {
    if e == [] {
      assert e + t == t;
    } else {
      assert (e + t)[1..] == e[1..] + t;
      MarkedAppend(e[1..], t, sep);
    }
  }

  lemma {:induction false} GroupedIsMarked(d: string, sep: string)
    requires |d| >= 1
    ensures Grouped(d, sep) == [d[0]] + Marked(d[1..], sep)
    decreases |d|
  {
    if |d| <= 3 {
      MarkedShort(d[1..], sep);
      assert [d[0]] + d[1..] == d;
    } else {
      var p := d[..|d| - 3];
      GroupedIsMarked(p, sep);
      GroupedStep(d, sep);
    }
  }

  /** One step of GroupedIsMarked: splitting off the last three digits. */
  lemma GroupedStep(d: string, sep: string)
    requires |d| > 3
    ensures var p := d[..|d| - 3];
            [p[0]] + Marked(p[1..], sep) + sep + d[|d| - 3..] == [d[0]] + Marked(d[1..], sep)
  {
    var p, t := d[..|d| - 3], d[|d| - 3..];
    assert d[1..] == p[1..] + t;
    MarkedAppend(p[1..], t, sep);
    MarkedShort(t[1..], sep);
    assert [t[0]] + t[1..] == t;
    assert Marked(t, sep) == sep + t;
    assert p[0] == d[0];
  }

  /** Where the pattern matches in a signed digit string: after the first digit, at every multiple of three from the end. */
  lemma {:induction false} SeparatorPositions(sign: string, d: string, p: nat)
    requires sign == "" || sign == "-"
    requires AllDigits(d) && |d| >= 1
    requires p <= |sign + d|
    ensures DigitRun(sign + d, p) == if p < |sign| then 0 else |sign + d| - p
    ensures SeparatorAt(sign + d, p) <==> |sign| < p < |sign + d| && (|sign + d| - p) % 3 == 0
    decreases |sign + d| - p
  {
    var s := sign + d;
    if p < |s| {
      SeparatorPositions(sign, d, p + 1);
    }
    if p < |sign| {
      assert s[p] == '-';
    } else if p < |s| {
      assert IsDigit(s[p]) by { assert s[p] == d[p - |sign|]; }
      if p > |sign| {
        assert IsDigit(s[p - 1]) by { assert s[p - 1] == d[p - 1 - |sign|]; }
      } else if p > 0 {
        assert s[p - 1] == '-';
      }
    } else {
      assert IsDigit(s[p - 1]) by { assert s[p - 1] == d[p - 1 - |sign|]; }
    }
  }

  lemma {:induction false} InsertSeparatorsIsMarked(sign: string, d: string, sep: string, p: nat)
    requires sign == "" || sign == "-"
    requires AllDigits(d) && |d| >= 1
    requires |sign| < p <= |sign + d|
    ensures InsertSeparators(sign + d, sep, p) == Marked((sign + d)[p..], sep)
    decreases |sign + d| - p
  {
    var s := sign + d;
    SeparatorPositions(sign, d, p);
    if p < |s| {
      InsertSeparatorsIsMarked(sign, d, sep, p + 1);
      assert s[p..][1..] == s[p + 1..];
    }
  }

  /** The global replace on a signed digit string, in terms of Grouped. */
  lemma InsertSeparatorsGroups(sign: string, d: string, sep: string)
    requires sign == "" || sign == "-"
    requires AllDigits(d) && |d| >= 1
    ensures InsertSeparators(sign + d, sep, 0) == sign + Grouped(d, sep)
  {
    var s := sign + d;
    var o := |sign|;
    SeparatorPositions(sign, d, o);
    InsertSeparatorsIsMarked(sign, d, sep, o + 1);
    assert s[o + 1..] == d[1..];
    assert s[o] == d[0];
    GroupedIsMarked(d, sep);
    if o == 1 {
      SeparatorPositions(sign, d, 0);
      assert InsertSeparators(s, sep, 0) == [s[0]] + InsertSeparators(s, sep, 1);
    }
  }

  /** Grouping a numeral changes its integer digits only and leaves the fraction alone. */
  lemma GroupIntegerPartOfNumeral(x: Decimal, sep: string)
    requires WellFormed(x)
    ensures GroupIntegerPart(Show(x), sep) ==
            (if x.negative then "-" else "") + Grouped(x.intDigits, sep)
            + (if x.fracDigits == [] then "" else "." + x.fracDigits)
  {
    var sign := if x.negative then "-" else "";
    var head := sign + x.intDigits;
    var tail := if x.fracDigits == [] then "" else "." + x.fracDigits;
    var s := Show(x);
    assert s == head + tail;
    assert forall j :: 0 <= j < |head| ==> head[j] != '.' by {
      forall j | 0 <= j < |head| ensures head[j] != '.' {
        if j >= |sign| { assert head[j] == x.intDigits[j - |sign|]; }
      }
    }
    FirstPointAfter(head, tail);
    assert s[..|head|] == head && s[|head|..] == tail;
    if x.negative {
      assert head[0] == '-' && head[1..] == x.intDigits;
    } else {
      assert head == x.intDigits;
    }
  }

  lemma {:induction false} FirstPointAfter(head: string, tail: string)
    requires forall j :: 0 <= j < |head| ==> head[j] != '.'
    requires tail == [] || tail[0] == '.'
    ensures FirstPoint(head + tail) == |head|
  {
    if head != [] {
      assert (head + tail)[1..] == head[1..] + tail;
      FirstPointAfter(head[1..], tail);
    } else {
      assert head + tail == tail;
    }
  }
}
