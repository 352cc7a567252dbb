/**
 * The unit table of bytes.js (`map`, index.js:28-35) and the descending
 * threshold list the formatter walks to pick a unit (`unitThresholds`,
 * index.js:94-101).
 */
module Units {
  import opened Text

  const KB: nat := 1024
  const MB: nat := 1024 * KB
  const GB: nat := 1024 * MB
  const TB: nat := 1024 * GB
  const PB: nat := 1024 * TB

  /** Lower-case unit symbol to multiplier (`map`, index.js:28-35). */
  const UnitMap: map<string, nat> :=
    map["b" := 1, "kb" := KB, "mb" := MB, "gb" := GB, "tb" := TB, "pb" := PB]

  function Pow1024(k: nat): (p: nat)
    ensures p >= 1
  {
    if k == 0 then 1 else 1024 * Pow1024(k - 1)
  }

  /** The keys of the unit table in increasing order of multiplier. */
  const UnitKeys: seq<string> := ["b", "kb", "mb", "gb", "tb", "pb"]

  /** Every multiplier is a power of 1024: b = 1024^0, ..., pb = 1024^5. */
  lemma UnitMapPowers()
    ensures UnitMap.Keys == set k | k in UnitKeys
    ensures forall i :: 0 <= i < |UnitKeys| ==> UnitMap[UnitKeys[i]] == Pow1024(i)
  {
    assert Pow1024(5) == 1024 * Pow1024(4) == PB;
  }

  /** One entry of `unitThresholds`. */
  datatype Threshold = Threshold(threshold: nat, unit: string, divisor: nat)

  /** `unitThresholds`, index.js:94-101: descending, ending with the catch-all B. */
  const Thresholds: seq<Threshold> := [
    Threshold(PB, "PB", PB),
    Threshold(TB, "TB", TB),
    Threshold(GB, "GB", GB),
    Threshold(MB, "MB", MB),
    Threshold(KB, "KB", KB),
    Threshold(0, "B", 1)
  ]

  /** The unit names the formatter chooses by itself. */
  predicate IsCanonicalUnit(u: string) {
    u in {"PB", "TB", "GB", "MB", "KB", "B"}
  }

  /** Multiplier of a unit symbol in any letter case, when the table has it. */
  function Multiplier(u: string): nat
    requires ToLower(u) in UnitMap
  {
    UnitMap[ToLower(u)]
  }

  /** Position of a unit in UnitKeys: its multiplier is 1024 to that power. */
  function UnitIndex(u: string): (k: nat)
    requires ToLower(u) in UnitMap
    ensures k < |UnitKeys| && UnitKeys[k] == ToLower(u)
  {
    var l := ToLower(u);
    if l == "b" then 0 else if l == "kb" then 1 else if l == "mb" then 2
    else if l == "gb" then 3 else if l == "tb" then 4 else 5
  }

  /** v divided by 1024, k times. */
  function Shrink(v: real, k: nat): (r: real)
    ensures v > 0.0 ==> r > 0.0
  {
    if k == 0 then v else Shrink(v, k - 1) / 1024.0
  }

  /** `value / map[unit.toLowerCase()]` (index.js:230): the value counted in the given unit. */
  function InUnits(v: real, u: string): real
    requires ToLower(u) in UnitMap
  {
    Shrink(v, UnitIndex(u))
  }

  /** v multiplied by 1024, k times. */
  function Grow(v: real, k: nat): real {
    if k == 0 then v else 1024.0 * Grow(v, k - 1)
  }

  /** `map[unit] * floatValue` (index.js:307): the value counted in bytes. */
  function TimesUnit(v: real, u: string): real
    requires ToLower(u) in UnitMap
  {
    Grow(v, UnitIndex(u))
  }

  lemma {:induction false} ShrinkIsQuotient(v: real, k: nat)
    ensures Shrink(v, k) == v / Pow1024(k) as real
  {
    if k > 0 {
      ShrinkIsQuotient(v, k - 1);
      var p := Pow1024(k - 1) as real;
      assert Pow1024(k) as real == 1024.0 * p;
      assert (v / p) / 1024.0 == v / (1024.0 * p);
    }
  }

  /** Counting in a unit is dividing by the unit's multiplier. */
  lemma InUnitsIsQuotient(v: real, u: string)
    requires ToLower(u) in UnitMap
    ensures InUnits(v, u) == v / Multiplier(u) as real
  {
    MultiplierIsPower(u);
    ShrinkIsQuotient(v, UnitIndex(u));
  }

  lemma {:induction false} GrowIsProduct(v: real, k: nat)
    ensures Grow(v, k) == Pow1024(k) as real * v
  {
    if k > 0 {
      GrowIsProduct(v, k - 1);
      assert Pow1024(k) as real == 1024.0 * Pow1024(k - 1) as real;
    }
  }

  /** Counting bytes is multiplying by the unit's multiplier. */
  lemma TimesUnitIsProduct(v: real, u: string)
    requires ToLower(u) in UnitMap
    ensures TimesUnit(v, u) == Multiplier(u) as real * v
  {
    MultiplierIsPower(u);
    GrowIsProduct(v, UnitIndex(u));
  }

  lemma MultiplierIsPower(u: string)
    requires ToLower(u) in UnitMap
    ensures Multiplier(u) == Pow1024(UnitIndex(u))
  {
    UnitMapPowers();
  }

  /** Shrinking undoes growing. */
  lemma {:induction false} ShrinkGrow(v: real, k: nat)
    ensures Shrink(Grow(v, k), k) == v
    decreases k
  {
    if k > 0 {
      ShrinkGrow(1024.0 * v, k - 1);
      GrowShift(v, k - 1);
    }
  }

  lemma {:induction false} GrowShift(v: real, k: nat)
    ensures Grow(1024.0 * v, k) == 1024.0 * Grow(v, k)
  {
    if k > 0 {
      GrowShift(v, k - 1);
    }
  }

  /** Growing undoes shrinking: counting in a unit and back loses nothing. */
  lemma {:induction false} GrowShrink(v: real, k: nat)
    ensures Grow(Shrink(v, k), k) == v
  {
    if k > 0 {
      GrowShrink(v, k - 1);
      GrowShift(Shrink(v, k), k - 1);
    }
  }

  lemma {:induction false} GrowAdd(a: real, b: real, k: nat)
    ensures Grow(a + b, k) == Grow(a, k) + Grow(b, k)
  {
    if k > 0 {
      GrowAdd(a, b, k - 1);
    }
  }

  lemma {:induction false} GrowMonotonic(a: real, b: real, k: nat)
    requires a <= b
    ensures Grow(a, k) <= Grow(b, k)
  {
    if k > 0 {
      GrowMonotonic(a, b, k - 1);
    }
  }

  lemma {:induction false} ShrinkNegate(v: real, k: nat)
    ensures Shrink(-v, k) == -Shrink(v, k)
  {
    if k > 0 {
      ShrinkNegate(v, k - 1);
    }
  }

  lemma CanonicalUnitKnown(u: string)
    requires IsCanonicalUnit(u)
    ensures ToLower(u) in UnitMap
    ensures Multiplier(u) == if u == "PB" then PB else if u == "TB" then TB
                             else if u == "GB" then GB else if u == "MB" then MB
                             else if u == "KB" then KB else 1
  {
    var l := ToLower(u);
    if u == "PB" { assert l == "pb"; }
    else if u == "TB" { assert l == "tb"; }
    else if u == "GB" { assert l == "gb"; }
    else if u == "MB" { assert l == "mb"; }
    else if u == "KB" { assert l == "kb"; }
    else { assert l == "b"; }
  }

  /**
   * The threshold list is strictly descending, each entry divides by the
   * table's multiplier for its symbol, and it ends with the zero threshold of
   * B, which every magnitude passes.
   */
  lemma ThresholdsWellFormed()
    ensures |Thresholds| == 6 && Thresholds[5] == Threshold(0, "B", 1)
    ensures forall i, j :: 0 <= i < j < |Thresholds| ==> Thresholds[i].threshold > Thresholds[j].threshold
    ensures forall i :: 0 <= i < |Thresholds| ==>
      IsCanonicalUnit(Thresholds[i].unit) && ToLower(Thresholds[i].unit) in UnitMap
      && Thresholds[i].divisor == Multiplier(Thresholds[i].unit)
  {
    forall i | 0 <= i < |Thresholds|
      ensures ToLower(Thresholds[i].unit) in UnitMap
      ensures Thresholds[i].divisor == Multiplier(Thresholds[i].unit)
    {
      CanonicalUnitKnown(Thresholds[i].unit);
    }
  }

  /**
   * The unit auto-selection promises: u is one of the six units; its
   * multiplier does not exceed the magnitude unless u is the fallback B; and
   * no unit with a larger multiplier fits.
   */
  ghost predicate IsLargestFitting(mag: real, u: string) {
    && IsCanonicalUnit(u)
    && ToLower(u) in UnitMap
    && (u == "B" || Multiplier(u) as real <= mag)
    && forall k :: k in UnitMap && UnitMap[k] > Multiplier(u) ==> mag < UnitMap[k] as real
  }

  /** The unit the formatter picks for a magnitude. */
  function AutoUnit(mag: real): (u: string)
    requires mag >= 0.0
    ensures IsLargestFitting(mag, u)
  {
    CanonicalUnitKnown("PB");
    CanonicalUnitKnown("TB");
    CanonicalUnitKnown("GB");
    CanonicalUnitKnown("MB");
    CanonicalUnitKnown("KB");
    CanonicalUnitKnown("B");
    if mag >= PB as real then "PB"
    else if mag >= TB as real then "TB"
    else if mag >= GB as real then "GB"
    else if mag >= MB as real then "MB"
    else if mag >= KB as real then "KB"
    else "B"
  }

  /** Exactly one unit is the largest fitting one. */
  lemma {:induction false} LargestFittingUnique(mag: real, u: string)
    requires mag >= 0.0
    requires IsLargestFitting(mag, u)
    ensures u == AutoUnit(mag)
  {
    var a := AutoUnit(mag);
    CanonicalUnitKnown(u);
    CanonicalUnitKnown(a);
  }

  /**
   * Stopping the walk at the first threshold the magnitude reaches yields the
   * largest fitting unit.
   */
  lemma {:induction false} FirstReachedThreshold(mag: real, i: nat)
    requires mag >= 0.0 && i < |Thresholds|
    requires forall j :: 0 <= j < i ==> mag < Thresholds[j].threshold as real
    requires mag >= Thresholds[i].threshold as real
    ensures Thresholds[i].unit == AutoUnit(mag)
  {
    var t0, t1, t2, t3, t4 := Thresholds[0], Thresholds[1], Thresholds[2], Thresholds[3], Thresholds[4];
    if i > 0 { assert mag < t0.threshold as real; }
    if i > 1 { assert mag < t1.threshold as real; }
    if i > 2 { assert mag < t2.threshold as real; }
    if i > 3 { assert mag < t3.threshold as real; }
    if i > 4 { assert mag < t4.threshold as real; }
  }

  /**
   * The threshold walk of index.js:222-227: the first entry whose threshold
   * the magnitude reaches gives the unit.
   */
  method SelectUnit(mag: real) returns (unit: string)
    requires mag >= 0.0
    ensures unit == AutoUnit(mag)
  {
    unit := "";
    var i := 0;
    while i < |Thresholds|
      invariant 0 <= i < |Thresholds|
      invariant forall j :: 0 <= j < i ==> mag < Thresholds[j].threshold as real
    {
      if mag >= Thresholds[i].threshold as real {
        unit := Thresholds[i].unit;
        FirstReachedThreshold(mag, i);
        break;
      }
      i := i + 1;
    }
  }
}
