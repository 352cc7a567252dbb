/**
 * `format(value, options)` (index.js:192-253) without its caches: the unit
 * choice, the numeral and the text that joins them.
 */
module Format {
  import opened Wrappers
  import opened Text
  import opened Units
  import opened Numerals
  import opened Values

  /**
   * The fields of `options` that format reads. An absent `decimalPlaces` is
   * None; an absent or empty separator or unit is the empty string, which
   * the library treats the same way.
   */
  datatype FormatOptions = FormatOptions(
    decimalPlaces: Option<int>,
    fixedDecimals: bool,
    thousandsSeparator: string,
    unitSeparator: string,
    unit: string)

  // The settings of index.js:213-217; None stands for absent options.

  function ThousandsSeparator(options: Option<FormatOptions>): string {
    if options.Some? then options.value.thousandsSeparator else ""
  }

  function UnitSeparator(options: Option<FormatOptions>): string {
    if options.Some? then options.value.unitSeparator else ""
  }

  function DecimalPlaces(options: Option<FormatOptions>): int {
    if options.Some? && options.value.decimalPlaces.Some? then options.value.decimalPlaces.value else 2
  }

  function FixedDecimals(options: Option<FormatOptions>): bool {
    options.Some? && options.value.fixedDecimals
  }

  function ForcedUnit(options: Option<FormatOptions>): string {
    if options.Some? then options.value.unit else ""
  }

  /** A unit the table knows in some letter case. */
  predicate KnownUnit(u: string) {
    ToLower(u) in UnitMap
  }

  /**
   * index.js:217-228: a forced unit the table knows is used as given, in the
   * caller's letter case; otherwise the threshold walk picks the largest
   * fitting unit.
   */
  function ResolveUnit(mag: real, forced: string): (u: string)
    requires mag >= 0.0
    ensures KnownUnit(u)
    ensures KnownUnit(forced) ==> u == forced
    ensures !KnownUnit(forced) ==> IsLargestFitting(mag, u)
  {
    if forced != "" && KnownUnit(forced) then forced else AutoUnit(mag)
  }

  /**
   * index.js:231-243: toFixed, the trim unless fixedDecimals, the grouping
   * when a separator is set. The text is that of the numeral NumeralOf,
   * grouped in threes when a separator is set.
   */
  function RenderNumeral(val: real, d: nat, fixedDecimals: bool, sep: string): (r: string)
    ensures WellFormed(NumeralOf(val, d, fixedDecimals))
    ensures r == ShowGrouped(NumeralOf(val, d, fixedDecimals), sep)
  {
    var x := FixedParts(val, d);
    TrimShow(x);
    TrimValue(x);
    GroupIntegerPartOfNumeral(NumeralOf(val, d, fixedDecimals), sep);
    var fixed := ToFixed(val, d);
    var str := if fixedDecimals then fixed else TrimDecimals(fixed);
    if sep != "" then GroupIntegerPart(str, sep) else str
  }

  /**
   * `format(value, options)` (index.js:192-253) as the uncached computation:
   * null for a value that is not finite, a RangeError when toFixed refuses
   * the number of places, and otherwise numeral, unit separator and unit.
   */
  function FormatSpec(value: Number, options: Option<FormatOptions>): (r: Outcome)
    ensures r.Null? <==> !value.Finite?
    ensures r.RangeError? <==> value.Finite? && !(0 <= DecimalPlaces(options) <= 100)
    ensures r.Null? || r.Text? || r.RangeError?
  {
    if !value.Finite? then Null
    else
      var unit := ResolveUnit(Abs(value.value), ForcedUnit(options));
      var d := DecimalPlaces(options);
      if !(0 <= d <= 100) then RangeError
      else
        var numeral := RenderNumeral(InUnits(value.value, unit), d,
                                     FixedDecimals(options), ThousandsSeparator(options));
        Text(numeral + UnitSeparator(options) + unit)
  }

  // ---------------------------------------------------------------------------
  // The numeral as a decimal number

  /** The numeral format writes for val: toFixed's, trimmed unless fixedDecimals. */
  function NumeralOf(val: real, d: nat, fixedDecimals: bool): Decimal {
    if fixedDecimals then FixedParts(val, d) else Trimmed(FixedParts(val, d))
  }

  /** The text of a numeral with its integer digits grouped when a separator is set. */
  function ShowGrouped(x: Decimal, sep: string): string {
    if sep == "" then Show(x)
    else (if x.negative then "-" else "") + Grouped(x.intDigits, sep)
         + (if x.fracDigits == [] then "" else "." + x.fracDigits)
  }

  /**
   * The numeral is within half a unit of its last place of val, and keeps
   * exactly d fraction digits when fixedDecimals is set, at most d otherwise.
   */
  lemma NumeralOfNearest(val: real, d: nat, fixedDecimals: bool)
    ensures var x := NumeralOf(val, d, fixedDecimals);
            WellFormed(x)
            && val - Unscale(0.5, d) <= DecimalValue(x) <= val + Unscale(0.5, d)
            && (if fixedDecimals then |x.fracDigits| == d else |x.fracDigits| <= d)
            && (x.negative <==> val < 0.0)
  {
    var r := FixedParts(val, d);
    FixedPartsNearest(val, d);
    NumeralOfParts(val, d, fixedDecimals, r, NumeralOf(val, d, fixedDecimals));
  }

  /** NumeralOfNearest for a numeral r with the properties of toFixed's. */
  lemma NumeralOfParts(val: real, d: nat, fixedDecimals: bool, r: Decimal, x: Decimal)
    requires WellFormed(r) && (r.negative <==> val < 0.0) && |r.fracDigits| == d
    requires val - Unscale(0.5, d) <= DecimalValue(r) <= val + Unscale(0.5, d)
    requires x == if fixedDecimals then r else Trimmed(r)
    ensures WellFormed(x)
    ensures val - Unscale(0.5, d) <= DecimalValue(x) <= val + Unscale(0.5, d)
    ensures if fixedDecimals then |x.fracDigits| == d else |x.fracDigits| <= d
    ensures x.negative <==> val < 0.0
  {
    if !fixedDecimals {
      TrimValue(r);
    }
  }

  // ---------------------------------------------------------------------------
  // Properties of format

  /**
   * Without a usable forced unit, the unit is the largest one that fits the
   * magnitude and the numeral renders value divided by its multiplier.
   */
  lemma FormatAutoUnit(x: real, options: Option<FormatOptions>)
    requires 0 <= DecimalPlaces(options) <= 100
    requires !KnownUnit(ForcedUnit(options))
    ensures forall u :: IsLargestFitting(Abs(x), u) ==>
              ToLower(u) in UnitMap &&
              FormatSpec(Finite(x), options)
              == Text(RenderNumeral(InUnits(x, u), DecimalPlaces(options),
                                    FixedDecimals(options), ThousandsSeparator(options))
                      + UnitSeparator(options) + u)
  {
    forall u | IsLargestFitting(Abs(x), u)
      ensures ToLower(u) in UnitMap
      ensures FormatSpec(Finite(x), options)
              == Text(RenderNumeral(InUnits(x, u), DecimalPlaces(options),
                                    FixedDecimals(options), ThousandsSeparator(options))
                      + UnitSeparator(options) + u)
    {
      LargestFittingUnique(Abs(x), u);
    }
  }

  /**
   * A forced unit the table knows divides the value by its multiplier and is
   * written back in the caller's letter case: the corollary of ResolveUnit's
   * `KnownUnit(forced) ==> u == forced` for the whole of FormatSpec.
   */
  lemma FormatForcedUnit(x: real, options: Option<FormatOptions>)
    requires 0 <= DecimalPlaces(options) <= 100
    requires KnownUnit(ForcedUnit(options))
    ensures var u := ForcedUnit(options);
            FormatSpec(Finite(x), options)
            == Text(RenderNumeral(InUnits(x, u), DecimalPlaces(options),
                                  FixedDecimals(options), ThousandsSeparator(options))
                    + UnitSeparator(options) + u)
  {
  }

  /**
   * The sign lives in the numeral only: formatting v = -x is formatting x
   * with a minus sign in front.
   */
  lemma NegationSymmetry(x: real, v: real, options: Option<FormatOptions>)
    requires x > 0.0 && v == -x
    requires 0 <= DecimalPlaces(options) <= 100
    ensures FormatSpec(Finite(x), options).Text?
    ensures FormatSpec(Finite(v), options) == Text("-" + FormatSpec(Finite(x), options).text)
  {
    var d: nat := DecimalPlaces(options);
    var fixed, sep, us := FixedDecimals(options), ThousandsSeparator(options), UnitSeparator(options);
    var u := ResolveUnit(Abs(x), ForcedUnit(options));
    var y := InUnits(x, u);
    assert Abs(v) == Abs(x);
    assert InUnits(v, u) == -y by {
      ShrinkNegate(x, UnitIndex(u));
    }
    var a := RenderNumeral(y, d, fixed, sep);
    RenderNegated(y, d, fixed, sep);
    FormatSpecParts(x, options, u, a);
    FormatSpecParts(v, options, u, "-" + a);
    Concat4("-", a, us, u);
  }

  /** The numeral of -y is the numeral of y with a minus sign in front. */
  lemma RenderNegated(y: real, d: nat, fixedDecimals: bool, sep: string)
    requires y > 0.0
    ensures RenderNumeral(-y, d, fixedDecimals, sep) == "-" + RenderNumeral(y, d, fixedDecimals, sep)
  {
    var n := NumeralOf(y, d, fixedDecimals);
    var m := NumeralOf(-y, d, fixedDecimals);
    NegatedNumeral(y, d, fixedDecimals);
    ShowGroupedNegated(n, m, sep);
  }

  lemma ShowGroupedNegated(n: Decimal, m: Decimal, sep: string)
    requires !n.negative && m == n.(negative := true)
    ensures ShowGrouped(m, sep) == "-" + ShowGrouped(n, sep)
  {
    var tail := if n.fracDigits == [] then "" else "." + n.fracDigits;
    var body := if sep == "" then n.intDigits else Grouped(n.intDigits, sep);
    assert ShowGrouped(n, sep) == "" + body + tail;
    assert ShowGrouped(m, sep) == "-" + body + tail;
  }

  /** FormatSpec in terms of the unit and the numeral it settles on. */
  lemma FormatSpecParts(v: real, options: Option<FormatOptions>, u: string, numeral: string)
    requires 0 <= DecimalPlaces(options) <= 100
    requires u == ResolveUnit(Abs(v), ForcedUnit(options))
    requires numeral == RenderNumeral(InUnits(v, u), DecimalPlaces(options),
                                      FixedDecimals(options), ThousandsSeparator(options))
    ensures FormatSpec(Finite(v), options) == Text(numeral + UnitSeparator(options) + u)
  {
  }


  /** Negating a positive value sets the sign of the numeral and changes nothing else. */
  lemma NegatedNumeral(y: real, d: nat, fixedDecimals: bool)
    requires y > 0.0
    ensures NumeralOf(-y, d, fixedDecimals) == NumeralOf(y, d, fixedDecimals).(negative := true)
    ensures !NumeralOf(y, d, fixedDecimals).negative
  {
    var r := FixedParts(y, d);
    assert FixedParts(-y, d) == r.(negative := true) by {
      assert Abs(-y) == Abs(y);
    }
    assert Trimmed(r.(negative := true)) == Trimmed(r).(negative := true);
  }

  /** With fixedDecimals, the numeral has exactly d digits after the point. */
  lemma FixedDecimalsKeepsPlaces(x: real, options: Option<FormatOptions>)
    requires 0 <= DecimalPlaces(options) <= 100
    requires FixedDecimals(options)
    ensures var u := ResolveUnit(Abs(x), ForcedUnit(options));
            var n := NumeralOf(InUnits(x, u), DecimalPlaces(options), true);
            |n.fracDigits| == DecimalPlaces(options)
            && FormatSpec(Finite(x), options)
               == Text(ShowGrouped(n, ThousandsSeparator(options)) + UnitSeparator(options) + u)
  {
  }
}
