/**
 * Formatting a number with the default options and parsing the text back
 * with the uncached parse: `ParseSpec(format(n))` (index.js:192-253 followed
 * by index.js:289-307). Through the caches of `parse` the round trip need not
 * hold; `Caches.RoundTripCacheDivergence` shows a case.
 */
module RoundTrip {
  import opened Wrappers
  import opened Text
  import opened Units
  import opened Numerals
  import opened Values
  import opened Format
  import opened Parse

  /**
   * `format(v)` without options writes the numeral of v counted in the auto
   * unit, to two places with the trailing zeros trimmed, straight followed by
   * the unit.
   */
  lemma FormatDefault(v: real)
    ensures var u := AutoUnit(Abs(v));
            var x := NumeralOf(InUnits(v, u), 2, false);
            WellFormed(x) && FormatSpec(Finite(v), None) == Text(Show(x) + u)
  {
    var u := AutoUnit(Abs(v));
    var y := InUnits(v, u);
    var x := NumeralOf(y, 2, false);
    FormatSpecParts(v, None, u, Show(x));
    EmptyPieces(Show(x), u);
  }

  /** The units the formatter picks, other than B, are units of the grammar. */
  lemma CanonicalGrammarUnit(u: string)
    requires IsCanonicalUnit(u) && u != "B"
    ensures |u| == 2 && ToLower(u) in GrammarUnits && ToLower(u) in UnitMap
  {
    var l := ToLower(u);
    if u == "PB" { assert l == "pb"; }
    else if u == "TB" { assert l == "tb"; }
    else if u == "GB" { assert l == "gb"; }
    else if u == "MB" { assert l == "mb"; }
    else { assert l == "kb"; }
  }

  /**
   * A numeral straight followed by a unit of the grammar parses to the floor
   * of the numeral times the unit's multiplier.
   */
  lemma ParseNumeralWithUnit(x: Decimal, u: string)
    requires WellFormed(x)
    requires |u| == 2 && ToLower(u) in GrammarUnits
    ensures ToLower(u) in UnitMap
    ensures ParseSpec(Show(x) + u).Some?
    ensures var r := ParseSpec(Show(x) + u).value;
            r as real <= TimesUnit(DecimalValue(x), u) < r as real + 1.0
  {
    var m := Match(if x.negative then "-" else "", x.intDigits, x.fracDigits, 0, u);
    assert MatchNumeral(m) == x;
    assert MatchText(m) == Show(x) + u by {
      NoSpaces(Show(x), u);
    }
    ParseOfMatch(m);
  }

  lemma NoSpaces(a: string, b: string)
    ensures a + Spaces(0) + b == a + b
  {
  }

  /** The trimmed two-place numeral of a whole number is its digits alone. */
  lemma WholeNumeral(k: int)
    ensures var x := NumeralOf(k as real, 2, false);
            WellFormed(x) && x.negative == (k < 0) && x.fracDigits == []
            && DigitsValue(x.intDigits) == (if k < 0 then -k else k)
            && x.intDigits == NatToDigits(if k < 0 then -k else k)
  {
    FixedPartsOfInteger(k, 2);
    CanonicalDigits(FixedParts(k as real, 2).intDigits);
  }

  /**
   * A value that is a whole number of its auto unit comes back exactly from
   * the uncached parse: ParseSpec(format(v)) is v, through the grammar for KB
   * and above and through parseInt for B, which the grammar does not know.
   */
  lemma RoundTripWhole(v: real, k: int)
    requires InUnits(v, AutoUnit(Abs(v))) == k as real
    ensures var m := Multiplier(AutoUnit(Abs(v)));
            v == (k * m) as real
            && ParseSpec(FormatSpec(Finite(v), None).text) == Some(k * m)
  {
    var u := AutoUnit(Abs(v));
    var i := UnitIndex(u);
    var m := Multiplier(u);
    var x := NumeralOf(k as real, 2, false);
    FormatDefault(v);
    WholeNumeral(k);
    assert v == (k * m) as real by {
      GrowShrink(v, i);
      WholeTimesUnit(k, u);
    }
    if u != "B" {
      CanonicalGrammarUnit(u);
    }
    ParseWholeNumeral(x, k, u);
  }

  /**
   * The digits of a whole number k followed by a unit parse to k of that
   * unit: through parseInt for a bare b, through the grammar otherwise.
   */
  lemma ParseWholeNumeral(x: Decimal, k: int, u: string)
    requires WellFormed(x) && x.negative == (k < 0) && x.fracDigits == []
    requires DigitsValue(x.intDigits) == (if k < 0 then -k else k)
    requires u == "B" || u == "b" || (|u| == 2 && ToLower(u) in GrammarUnits)
    ensures ToLower(u) in UnitMap
    ensures ParseSpec(Show(x) + u) == Some(k * Multiplier(u))
  {
    if u == "B" || u == "b" {
      ParseWholeBytes(x, k, u);
    } else {
      ParseNumeralWithUnit(x, u);
      assert DecimalValue(x) == k as real by {
        UnscaleZero(0);
      }
      WholeTimesUnit(k, u);
      FloorOfWhole(ParseSpec(Show(x) + u).value, k * Multiplier(u));
    }
  }

  lemma ParseWholeBytes(x: Decimal, k: int, u: string)
    requires WellFormed(x) && x.negative == (k < 0) && x.fracDigits == []
    requires DigitsValue(x.intDigits) == (if k < 0 then -k else k)
    requires u == "B" || u == "b"
    ensures ToLower(u) in UnitMap && Multiplier(u) == 1
    ensures ParseSpec(Show(x) + u) == Some(k)
  {
    UnitOfBytes(u);
    var sign := if x.negative then "-" else "";
    assert Show(x) + u == sign + x.intDigits + u by {
      EmptyPieces(sign + x.intDigits, u);
    }
    ParseBareBytes(sign, x.intDigits, u);
  }

  /** A whole number of a unit is a whole number of bytes. */
  lemma WholeTimesUnit(k: int, u: string)
    requires ToLower(u) in UnitMap
    ensures TimesUnit(k as real, u) == (k * Multiplier(u)) as real
  {
    TimesUnitIsProduct(k as real, u);
  }

  lemma FloorOfWhole(r: int, n: int)
    requires r as real <= n as real < r as real + 1.0
    ensures r == n
  {
  }

  /** Every byte count below one kilobyte in magnitude survives format and the uncached parse. */
  lemma RoundTripBytes(n: int)
    requires -1024 < n < 1024
    ensures ParseSpec(FormatSpec(Finite(n as real), None).text) == Some(n)
  {
    var u := AutoUnit(Abs(n as real));
    SmallUnit(n, u);
    RoundTripWhole(n as real, n);
  }

  /** Below one kilobyte the formatter counts in bytes. */
  lemma SmallUnit(n: int, u: string)
    requires -1024 < n < 1024
    requires u == AutoUnit(Abs(n as real))
    ensures ToLower(u) in UnitMap && UnitIndex(u) == 0 && Multiplier(u) == 1
  {
    assert u == "B";
    UnitOfBytes(u);
  }

  lemma UnitOfBytes(u: string)
    requires u == "B" || u == "b"
    ensures ToLower(u) in UnitMap && UnitIndex(u) == 0 && Multiplier(u) == 1
  {
    assert ToLower(u) == "b";
  }

  /**
   * Any byte count comes back from the uncached parse within half a
   * hundredth of its unit: rounding
   * to two places moves the numeral by at most 0.005, the multiplier scales
   * that, and the floor of the parser takes off less than one more byte.
   */
  lemma RoundTripNear(n: int)
    ensures var u := AutoUnit(Abs(n as real));
            var r := ParseSpec(FormatSpec(Finite(n as real), None).text);
            r.Some?
            && n as real - 0.005 * Multiplier(u) as real - 1.0 < r.value as real
            && r.value as real <= n as real + 0.005 * Multiplier(u) as real
  {
    var v := n as real;
    var u := AutoUnit(Abs(v));
    var y := InUnits(v, u);
    var x := NumeralOf(y, 2, false);
    FormatDefault(v);
    if u == "B" {
      UnitOfBytes(u);
      RoundTripWhole(v, n);
    } else {
      CanonicalGrammarUnit(u);
      NumeralOfNearest(y, 2, false);
      assert Unscale(0.5, 2) == 0.005;
      ParseNumeralWithUnit(x, u);
      var i := UnitIndex(u);
      GrowShrink(v, i);
      GrowWithin(v, y, DecimalValue(x), i);
      MultiplierIsPower(u);
    }
  }

  /** Growing keeps a value within its margin, the margin grown with it. */
  lemma GrowWithin(n: real, y: real, z: real, i: nat)
    requires Grow(y, i) == n
    requires y - 0.005 <= z <= y + 0.005
    ensures n - 0.005 * Pow1024(i) as real <= Grow(z, i) <= n + 0.005 * Pow1024(i) as real
  {
    GrowMonotonic(y + -0.005, z, i);
    GrowMonotonic(z, y + 0.005, i);
    GrowAdd(y, -0.005, i);
    GrowAdd(y, 0.005, i);
    GrowIsProduct(0.005, i);
    GrowIsProduct(-0.005, i);
  }
}
