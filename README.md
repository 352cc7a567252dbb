# bytes.js in Dafny

A model of `bytes`, the JavaScript library that converts between byte counts
and human-readable strings such as `"1.5KB"`, with proofs about it. It has
three entry points:

- `format(value, options)` writes a number of bytes in the largest unit that
  fits, or in a forced unit. It rounds with `toFixed`. Unless `fixedDecimals`
  is set, it then drops an all-zero fraction with its point, or the zeros
  that follow a run of non-zero fraction digits; any other fraction is kept.
  It groups the integer digits in threes when a thousands separator is given.
- `parse(val)` reads a string. The strict grammar `/^((-|\+)?(\d+(?:\.\d+)?)) *(kb|mb|gb|tb|pb)$/i`
  is tried first and gives the floor of multiplier × numeral; `parseInt` is the
  fallback and reads bytes. A number other than NaN passes through unchanged.
- `bytes(value, options)` dispatches on `typeof`.

Both directions sit behind memo tables:

- For `format`: the static `commonValues` table and its `commonLookup` object,
  then a dynamic `formatCache`. Both are consulted only when no options are given.
- For `parse`: the static `parseCacheCommon` object, then a dynamic `parseCache`.
  Both are keyed by the lower-cased input with its white space removed.
- Each dynamic cache stops taking entries at 1000.

The project has eight modules:

| module | file | contents |
|---|---|---|
| `Wrappers`, `Text` | text.dfy | `Option`; decimal digit strings and their values; ASCII lower-casing; ECMAScript white space |
| `Units` | units.dfy | the unit table `map`, the descending `unitThresholds` and the threshold walk |
| `Numerals` | numerals.dfy | `Number.prototype.toFixed` for \|x\| < 10^21; the trim pattern `formatDecimalsRegExp`, matched literally; the grouping pattern `formatThousandsRegExp`, matched literally |
| `Values` | values.dfy | JavaScript numbers (NaN, ±Infinity, exact finite reals), argument kinds and results |
| `Format` | format.dfy | `format` without its caches (`FormatSpec`) and its properties |
| `Parse` | parse.dfy | the grammar as a scanner proved sound and complete; `parseInt`; `parse` without its caches (`ParseSpec`, `ParseUncached`) and its edge cases |
| `RoundTrip` | roundtrip.dfy | `parse(format(n))` with the uncached parse |
| `Caches` | caches.dfy | the static tables, proved to agree with the uncached functions; the cached `parse`; the module state as the class `ByteConverter`, whose `Format`, `Parse` and `Bytes` methods update the caches in place |

What the caches do, as proved:

- `format` never depends on its caches. Every static and every dynamic entry
  equals the uncached default formatting of its number.
- `parse` does depend on its caches. A table entry answers for the normal form
  of a string, while the grammar runs on the string as written:
  - `parse(' 8tb')` is 8 TB from the static table, though uncached it is 8.
  - After `parse('-5')`, `parse('- 5')` is -5 from the dynamic cache, though
    uncached it is null.
  - After `parse(' 3KB')`, which reads 3 through parseInt and stores it under
    "3kb", `parse(format(3072))`, that is `parse('3KB')`, is 3 and not 3072.
    The round trip of format and parse is therefore proved for the uncached
    parse only.
- The model follows the code here. The comments on the tables and the cache
  checks call them optimizations (index.js:40, 104, 275 and 282), which
  suggests no observable effect.

The constants are written out in the model from the source:

- `Units.UnitMap` is the unit table `map` (index.js:28-35).
- `Units.Thresholds` is `unitThresholds` (index.js:94-101).
- `Caches.CommonValues` is `commonValues` (index.js:49-79).
- `Caches.ParseCacheCommon` is the `parseCacheCommon` literal (index.js:108-145).

The rows `Units.UnitMapPowers`, `Units.ThresholdsWellFormed`,
`Caches.CommonValuesAgree`, `Caches.TableOfKeys`, `Caches.TableOfValues` and
`Caches.ParseCacheCommonAgrees` state what they hold.

## Model

| member | source | states |
|---|---|---|
| Units.UnitMapPowers | index.js:28-35 | the unit table has exactly the keys b, kb, mb, gb, tb, pb, and the i-th one is 1024^i |
| Units.MultiplierIsPower | index.js:28-35 | every unit the table knows, in any letter case, multiplies by 1024 to the power of its position |
| Units.ThresholdsWellFormed | index.js:94-101 | the thresholds strictly descend, each divisor is its unit's multiplier, and the list ends with the zero threshold of B |
| Units.AutoUnit | index.js:219-228 | the chosen unit is the largest unit whose multiplier the magnitude reaches, B when none is reached |
| Units.LargestFittingUnique | index.js:219-228 | exactly one unit is the largest fitting one |
| Units.FirstReachedThreshold | index.js:222-227 | stopping at the first threshold reached yields the largest fitting unit |
| Units.SelectUnit | index.js:220-227 | the threshold loop returns the largest fitting unit |
| Units.InUnitsIsQuotient | index.js:230 | counting in a unit divides by the unit's multiplier |
| Units.TimesUnitIsProduct | index.js:307 | counting bytes multiplies by the unit's multiplier |
| Units.GrowShrink | index.js:230 | multiplying back after dividing by 1024^k restores the value |
| Units.ShrinkGrow | index.js:307 | dividing after multiplying by 1024^k restores the value |
| Numerals.ToFixed | index.js:231 | the text toFixed writes starts with a minus exactly for a negative value, has no point for zero places, and otherwise has exactly d digits after its one point |
| Numerals.FixedParts | index.js:231 | toFixed's numeral has d fraction digits, no leading zero, the sign of x, and its digits spell \|x\|·10^d rounded half up |
| Numerals.FixedPartsNearest | index.js:231 | toFixed's numeral lies within 0.5·10^-d of x |
| Numerals.FixedPartsOfInteger | index.js:231 | toFixed of a whole number is its digits and d zeros |
| Numerals.PointSplit | index.js:231 | splitting the zero-padded digits of n d places from the right keeps the value n |
| Numerals.TrimDecimals | index.js:26 | the trim pattern only cuts off an end of the string: the result is a prefix of the input |
| Numerals.TrimCases | index.js:26 | the trim drops an all-zero fraction with its point, cuts a run of non-zero digits followed by zeros after the run, and keeps any other fraction |
| Numerals.TrimWithoutPoint | index.js:26 | a numeral without a point is left unchanged |
| Numerals.TrimExamplesByShape | index.js:26 | the three trim cases stated separately on digit strings |
| Numerals.TrimShow | index.js:233-235 | the trim pattern applied to a numeral's text yields the text of the trimmed numeral |
| Numerals.TrimValue | index.js:233-235 | trimming keeps sign, integer digits and value, and keeps a prefix of the fraction |
| Numerals.SeparatorPositions | index.js:24 | the grouping pattern matches in a signed digit string exactly after the first digit, at multiples of three from the end |
| Numerals.InsertSeparatorsGroups | index.js:24 | inserting the separator at each position the pattern matches is grouping the digits in threes from the right, never after the sign |
| Numerals.ReplaceThousands | index.js:240 | the global replace on a digit string, or on a minus followed by digits, groups the digits in threes from the right; an empty separator changes nothing |
| Numerals.GroupIntegerPart | index.js:237-243 | the split, map and join change nothing with an empty separator, and always keep the text from the first point on |
| Numerals.GroupIntegerPartOfNumeral | index.js:237-243 | splitting at points and regrouping the first piece changes only the integer digits |
| Format.ResolveUnit | index.js:217-228 | a forced unit the table knows is kept in the caller's case; otherwise the unit is the largest fitting one |
| Format.FormatSpec | index.js:192-253 | the result is null exactly for non-finite values and a RangeError exactly when decimalPlaces is outside 0..100; otherwise text |
| Format.RenderNumeral | index.js:231-243 | the rendered numeral is the text of the rounded numeral, trimmed unless fixedDecimals, with its integer digits grouped when a separator is set |
| Format.NumeralOfNearest | index.js:230-235 | the numeral is within 0.5·10^-d of the value in units, has d fraction digits with fixedDecimals and at most d otherwise, and carries the value's sign |
| Format.FormatAutoUnit | index.js:219-245 | without a known forced unit, the text is the numeral of value / multiplier of the largest fitting unit, the separator and that unit |
| Format.FormatForcedUnit | index.js:217-245 | with a known forced unit, the text uses that unit's multiplier and the unit as the caller wrote it |
| Format.NegationSymmetry | index.js:212-245 | formatting -x is formatting x with a minus sign in front |
| Format.FixedDecimalsKeepsPlaces | index.js:231-235 | with fixedDecimals and any decimalPlaces in 0..100 the numeral keeps exactly decimalPlaces fraction digits |
| Parse.Grammar | index.js:37 | a match the scanner reports has the pieces the expression allows |
| Parse.GrammarSound | index.js:37 | the grammar matches a string only as the text of its match |
| Parse.GrammarComplete | index.js:37 | every text the expression describes is matched, with exactly its pieces |
| Parse.ScanNumeralSound | index.js:37 | what the numeral scanner accepts is the text of its sign, digits and fraction |
| Parse.ScanNumeralComplete | index.js:37 | every signed numeral is scanned back into its pieces |
| Parse.NoMatchAfterSpace | index.js:37 | white space in front of a string always leaves the grammar |
| Parse.ParseIntOfShape | index.js:295 | parseInt reads white space, an optional sign and the longest digit run, and yields the signed value |
| Parse.ParseIntSound | index.js:295 | every integer parseInt reads comes from such a shape |
| Parse.ParseUncached | index.js:266-307 | a number other than NaN passes through, NaN and anything not a string is null, a string is null exactly when the parse finds no number, and a parsed string is a whole finite number |
| Parse.ParseOfMatch | index.js:298-307 | a grammar match parses to the floor of multiplier × numeral |
| Parse.ParseSpecCases | index.js:289-307 | a string outside the grammar parses as parseInt, in bytes; a grammar match always parses, to the whole number at most multiplier × numeral and within one of it, with a unit the table knows |
| Parse.ParseNoDigits | index.js:293-305 | a string starting with none of white space, a sign or a digit is null |
| Parse.ParseBareBytes | index.js:289-307 | "5b" falls outside the grammar and parseInt reads the signed digits |
| Parse.ParsePointWithoutFraction | index.js:289-307 | "5.kb" falls outside the grammar and reads as 5 bytes |
| Parse.ParseLeadingSpace | index.js:289-307 | white space before a grammar string makes parseInt read only the signed integer digits, in bytes |
| Parse.BareBytesExample | index.js:289-307 | parse("5b") is 5 |
| Parse.PointExample | index.js:289-307 | parse("5.kb") is 5 |
| Parse.LeadingSpaceExample | index.js:289-307 | parse(" 1kb") is 1, not 1024 |
| Parse.NoIntegerDigitsExample | index.js:289-305 | parse(".5kb") is null |
| Parse.NegativeFractionExample | index.js:298-307 | parse("-0.1kb") floors -102.4 to -103 |
| RoundTrip.FormatDefault | index.js:212-245 | the default text is the two-place trimmed numeral of the value in its auto unit, followed directly by the unit |
| RoundTrip.ParseNumeralWithUnit | index.js:298-307 | a numeral directly followed by a grammar unit parses to within one byte below numeral × multiplier |
| RoundTrip.ParseWholeNumeral | index.js:289-307 | the digits of a whole k before a unit parse to k × multiplier, through the grammar or through parseInt for B |
| RoundTrip.RoundTripWhole | index.js:192-253 | a whole number of its auto unit comes back exactly from the uncached parse of index.js:289-307 (ParseSpec) applied to format(v) |
| RoundTrip.RoundTripBytes | index.js:192-253 | every byte count below 1024 in magnitude survives format then the uncached parse of index.js:289-307 (ParseSpec) |
| RoundTrip.RoundTripNear | index.js:192-253 | every integer comes back from the uncached parse of index.js:289-307 (ParseSpec) applied to format(n) within half a hundredth of its unit, less at most one byte of flooring |
| Caches.Normalize | index.js:276 | the normal form is no longer than the string and holds neither white space nor an ASCII capital |
| Caches.PlainNormalize | index.js:276 | a string with neither white space nor an ASCII capital is its own normal form |
| Caches.NormalizeIdempotent | index.js:276 | normalizing a normal form changes nothing |
| Text.RemoveSpacesConcat | index.js:276 | removing white space from a concatenation removes it from each piece and keeps the rest in order |
| Text.ToLowerConcat | index.js:276 | lower-casing a concatenation lower-cases each piece |
| Caches.NormalizeConcat | index.js:276 | the key of a concatenation is the concatenation of the keys |
| Caches.NormalizeChar | index.js:276 | the key of one character is empty for white space and the lower-cased character otherwise; with NormalizeConcat, the key of any string is its characters other than white space, lower-cased, in their order |
| Caches.LookupOf | index.js:85-88 | the lookup has at most one key per entry, and every key is a whole non-negative number |
| Caches.TableOfKeys | index.js:108-145 | the static parse table has exactly the keys its literal lists |
| Caches.TableOfValues | index.js:108-145 | each value in the static parse table is the value its literal gives that key |
| Caches.ParseCacheCommonAgrees | index.js:108-145 | every static parse key is already normalized and parses, uncached, to its table value |
| Caches.CommonValuesAgree | index.js:49-79 | every commonValues string is the uncached default format of its number |
| Caches.LookupOfKeys | index.js:85-88 | the lookup has a key for exactly the numbers of the entries |
| Caches.LookupOfLastWins | index.js:85-88 | under each key the lookup holds the string of the last entry with that number |
| Caches.LookupOfValues | index.js:85-88 | each lookup string is the string of an entry with that number |
| Caches.BuildLookup | index.js:85-88 | the startup loop builds the lookup the entries denote |
| Caches.CommonLookupAgrees | index.js:198-203 | every lookup hit is the uncached default format of the value |
| Caches.CommonLookupSound | index.js:198-203 | the whole lookup holds only uncached default formats |
| Caches.FormatCacheStore | index.js:247-250 | storing the uncached default format of a number keeps the format cache sound |
| Caches.ParseCacheStore | index.js:309-312 | storing what the uncached parse gives a string, under its normal form, keeps the parse cache sound |
| Caches.ParseWithCache | index.js:275-286 | the cached parse gives null or a number; a non-string is parsed as usual; a string missing from both tables is parsed as usual; a number found for a string is whole and finite |
| Caches.ParseWithCacheSound | index.js:275-286 | with a sound dynamic cache, the cached parse returns null or a number; a non-string is parsed as usual; null only when the uncached parse is null; a number that the uncached parse gives for some string with the same normal form |
| Caches.StaticTableDivergence | index.js:276-280 | parse(" 8tb") is 8 TB from the table, while the uncached parse gives 8 |
| Caches.RoundTripCacheDivergence | index.js:276-312 | after parse(" 3KB") stores 3 under "3kb", parse(format(3072)), which is parse("3KB"), returns 3, while the uncached parse gives 3072 |
| Caches.DynamicCacheDivergence | index.js:282-312 | after parse("-5"), parse("- 5") is -5 from the cache, while the uncached parse gives null |
| Caches.ParseWithCacheAsWritten | index.js:277-280 | the as-written lookup differs from the own-property lookup only when the normal form names an inherited property such as constructor or __proto__ |
| Caches.InheritedKeyExample | index.js:276-280 | as written, parse("constructor") returns the inherited Object constructor, while the uncached parse gives null |
| Caches.FormatValue | index.js:212-245 | the uncached steps of format compute FormatSpec |
| Caches.ByteConverter.constructor | index.js:81-88 | module load fills the lookup from commonValues and starts with both caches empty |
| Caches.ByteConverter.Format | index.js:192-253 | the result is the uncached format, so it never depends on the caches. The cache gains the result only for a no-options finite value missing from both tables while below 1000 entries. Nothing else changes. The cache stays sound and within 1000 entries |
| Caches.ByteConverter.Parse | index.js:266-315 | the result is the cached parse, answered from the static table, then the cache, then the grammar. A string missing from both tables that parses is stored under its normal form while the cache holds fewer than 1000 entries. Nothing else changes. The cache stays sound and within 1000 entries |
| Caches.ByteConverter.Bytes | index.js:162-172 | a string is parsed with the caches and a number is formatted, each call updating its own cache exactly as Parse or Format does and leaving the other cache alone. Anything else is null and changes nothing |

## Findings

| source | as written | input that shows it | evidently intended | confidence | as-written member | corrected member |
|---|---|---|---|---|---|---|
| index.js:277-280 | `parseCacheCommon[normalized]` reads properties that a plain object literal inherits from Object.prototype. A normal form equal to `constructor` or `__proto__` returns that object, which is not undefined | `parse('constructor')` (also `parse(' Constructor ')` and `parse('__proto__')`) returns the Object constructor, or Object.prototype, in place of null | only the listed keys answer, so the result is null or a number | high (not executed) | Caches.InheritedKeyExample | Caches.ParseWithCacheSound |

The as-written lookup is `Caches.ParseWithCacheAsWritten`. The corrected
own-property lookup is `Caches.ParseWithCache`, which `ByteConverter.Parse`
uses.

## Left out

- JavaScript's `-0` is not modelled, because numbers are exact reals. `format(-0)` is "0B" like `format(0)`, since the lookup key is `String(-0)`, which is "0".
- `toFixed` for magnitudes of 10^21 and above, which fall back to exponent notation, is not modelled. Numbers are exact reals, so binary floating-point rounding of `value / multiplier` and `toFixed` is not modelled either. Division by a power of 1024 is exact for doubles only while the quotient stays in the normal range.
- A quotient below the smallest normal double loses bits, and a tiny negative value can underflow to `-0`. `format(-5e-324, {unit: 'kb'})` is "0kb" in JavaScript, while the model, whose quotient is a small negative real, writes "-0kb".
- `parseFloat` and `parseInt` produce exact values. Rounding to the nearest double and overflow to Infinity for very long digit strings are not modelled.
- `decimalPlaces` is modelled as an integer. A fractional `decimalPlaces`, which `toFixed` truncates, is not modelled, and neither is a non-number one.
- A thousands separator containing `$` replacement patterns is treated as literal text.
- Option values with another type are not modelled, such as a truthy non-string unit or separator. Each option is a string, a boolean or an optional integer.
- Inherited properties of `map` are not modelled, such as a forced unit `"constructor"`, for which `map[unit.toLowerCase()]` is truthy.
- Lower-casing is ASCII only. `toLowerCase` on other scripts is not modelled.
- The JavaScript object keys of `commonLookup` are `String(value)`. The model keys them by the number itself, which agrees for every finite value except -0.
- Format.NegationSymmetry: stated for positive x and v == -x, the form in which the negated value is one term. Zero has no sign in the model.
- RoundTrip.RoundTripNear: stated for integer byte counts only. Fractional byte counts are not covered.
- The module exports (index.js:15-17) are not modelled, and neither is the benchmark script benchmark.js.
- Concurrency is not modelled: the caches are process-wide state in a single-threaded host.
