/**
 * `parse(val)` (index.js:266-315) without its caches: the strict grammar
 * `parseRegExp` (index.js:37), the `parseInt` fallback and the floored
 * product with the unit's multiplier.
 */
module Parse {
  import opened Wrappers
  import opened Text
  import opened Units
  import opened Numerals
  import opened Values

  /** The units `parseRegExp` accepts, in lower case; a bare `b` is not among them. */
  const GrammarUnits: set<string> := {"kb", "mb", "gb", "tb", "pb"}

  /**
   * One match of `/^((-|\+)?(\d+(?:\.\d+)?)) *(kb|mb|gb|tb|pb)$/i`: the sign
   * ("", "-" or "+"), the integer digits, the fraction digits (empty when the
   * optional group did not take part), the number of spaces before the unit
   * and the unit as written.
   */
  datatype Match = Match(sign: string, intDigits: string, fracDigits: string, spaces: nat, unit: string)

  function Spaces(n: nat): (r: string)
    ensures |r| == n
    ensures forall i :: 0 <= i < n ==> r[i] == ' '
  {
    seq(n, _ => ' ')
  }

  /** The pieces the expression allows. */
  predicate IsMatch(m: Match) {
    && (m.sign == "" || m.sign == "-" || m.sign == "+")
    && |m.intDigits| >= 1 && AllDigits(m.intDigits) && AllDigits(m.fracDigits)
    && |m.unit| == 2 && ToLower(m.unit) in GrammarUnits
  }

  /** The text of the sign and the numeral: capture group 1. */
  function NumeralText(m: Match): string {
    m.sign + m.intDigits + (if m.fracDigits == [] then "" else "." + m.fracDigits)
  }

  /** The whole string a match spans, from `^` to `$`. */
  function MatchText(m: Match): string {
    NumeralText(m) + Spaces(m.spaces) + m.unit
  }

  /** The numeral `parseFloat(results[1])` reads. */
  function MatchNumeral(m: Match): (x: Decimal)
    requires IsMatch(m)
    ensures WellFormed(x)
  {
    Decimal(m.sign == "-", m.intDigits, m.fracDigits)
  }

  // ---------------------------------------------------------------------------
  // Scanning for the grammar

  /** The length of the run of digits s starts with. */
  function LeadingDigits(s: string): (k: nat)
    ensures k <= |s| && AllDigits(s[..k])
    ensures k < |s| ==> !IsDigit(s[k])
  {
    if s == [] || !IsDigit(s[0]) then 0
    else
      var k := 1 + LeadingDigits(s[1..]);
      assert forall i :: 1 <= i < k ==> s[..k][i] == s[1..][..k - 1][i - 1];
      k
  }

  /** The number of spaces s ends with. */
  function TrailingSpaces(s: string): (n: nat)
    ensures n <= |s|
    ensures forall i :: |s| - n <= i < |s| ==> s[i] == ' '
    ensures n < |s| ==> s[|s| - n - 1] != ' '
  {
    if s == [] || s[|s| - 1] != ' ' then 0 else 1 + TrailingSpaces(s[..|s| - 1])
  }

  /** The optional sign at the start of s. */
  function SignOf(s: string): (sign: string)
    ensures sign == "" || sign == "-" || sign == "+"
    ensures |sign| <= |s| && s[..|sign|] == sign
    ensures sign == "" ==> s == [] || (s[0] != '-' && s[0] != '+')
  {
    if |s| > 0 && s[0] == '-' then "-" else if |s| > 0 && s[0] == '+' then "+" else ""
  }

  /** Sign, integer digits and fraction digits when all of t is `[+-]?\d+(\.\d+)?`. */
  function ScanNumeral(t: string): (r: Option<(string, string, string)>)
    ensures r.Some? ==>
      && (r.value.0 == "" || r.value.0 == "-" || r.value.0 == "+")
      && |r.value.1| >= 1 && AllDigits(r.value.1) && AllDigits(r.value.2)
  {
    var sign := SignOf(t);
    var num := t[|sign|..];
    var k := LeadingDigits(num);
    var rest := num[k..];
    if k == 0 then None
    else if rest == [] then
      assert num == num[..k];
      Some((sign, num, ""))
    else if rest[0] == '.' && |rest| >= 2 && AllDigits(rest[1..]) then
      Some((sign, num[..k], rest[1..]))
    else None
  }

  /** What the scanner accepts is the text of its pieces. */
  lemma ScanNumeralSound(t: string)
    requires ScanNumeral(t).Some?
    ensures var (sign, i, f) := ScanNumeral(t).value;
            t == sign + i + (if f == [] then "" else "." + f)
  {
    var sign := SignOf(t);
    var num := t[|sign|..];
    var k := LeadingDigits(num);
    var rest := num[k..];
    SplitAt(t, |sign|);
    SplitAt(num, k);
    if rest != [] {
      SplitAt(rest, 1);
      assert rest[..1] == ".";
      Concat3(sign, num[..k], rest);
      Concat4(sign, num[..k], ".", rest[1..]);
      Concat3(num[..k], ".", rest[1..]);
    }
  }

  /**
   * `parseRegExp.exec(val)`: the unit is the last two characters, before it
   * any number of spaces, and before those the signed numeral, which must
   * reach back to the start of the string.
   */
  function Grammar(s: string): (r: Option<Match>)
    ensures r.Some? ==> IsMatch(r.value)
  {
    if |s| < 2 || ToLower(s[|s| - 2..]) !in GrammarUnits then None
    else MatchBefore(s[..|s| - 2], s[|s| - 2..])
  }

  /** The match whose unit is `unit` and whose spaces and numeral are `head`. */
  function MatchBefore(head: string, unit: string): (r: Option<Match>)
    ensures r.Some? ==> r.value.unit == unit
    ensures r.Some? && |unit| == 2 && ToLower(unit) in GrammarUnits ==> IsMatch(r.value)
  {
    var n := TrailingSpaces(head);
    match ScanNumeral(head[..|head| - n])
    case None => None
    case Some((sign, i, f)) => Some(Match(sign, i, f, n, unit))
  }

  /** The grammar matches only strings that are the text of the match. */
  lemma GrammarSound(s: string)
    requires Grammar(s).Some?
    ensures MatchText(Grammar(s).value) == s
  {
    MatchBeforeSound(s[..|s| - 2], s[|s| - 2..]);
    SplitAt(s, |s| - 2);
  }

  lemma MatchBeforeSound(head: string, unit: string)
    requires MatchBefore(head, unit).Some?
    ensures MatchText(MatchBefore(head, unit).value) == head + unit
  {
    var n := TrailingSpaces(head);
    var numeral := head[..|head| - n];
    ScanNumeralSound(numeral);
    var (sign, i, f) := ScanNumeral(numeral).value;
    TrailingSpacesSplit(head);
    MatchTextOf(sign, i, f, n, unit, numeral, head);
  }

  lemma MatchTextOf(sign: string, i: string, f: string, n: nat, unit: string, numeral: string, head: string)
    requires numeral == sign + i + (if f == [] then "" else "." + f)
    requires head == numeral + Spaces(n)
    ensures MatchText(Match(sign, i, f, n, unit)) == head + unit
  {
  }

  lemma TrailingSpacesSplit(s: string)
    ensures s == s[..|s| - TrailingSpaces(s)] + Spaces(TrailingSpaces(s))
  {
    var n := TrailingSpaces(s);
    var t := s[|s| - n..];
    forall i | 0 <= i < |t|
      ensures t[i] == ' '
    {
      assert t[i] == s[|s| - n + i];
    }
    OnlySpaces(t);
    SplitAt(s, |s| - n);
  }

  lemma OnlySpaces(t: string)
    requires forall i :: 0 <= i < |t| ==> t[i] == ' '
    ensures t == Spaces(|t|)
  {
  }

  lemma {:induction false} TrailingSpacesOf(a: string, n: nat)
    requires a != [] && a[|a| - 1] != ' '
    ensures TrailingSpaces(a + Spaces(n)) == n
  {
    if n > 0 {
      var s := a + Spaces(n);
      assert s[..|s| - 1] == a + Spaces(n - 1);
      TrailingSpacesOf(a, n - 1);
    } else {
      assert a + Spaces(n) == a;
    }
  }

  lemma {:induction false} LeadingDigitsOf(a: string, b: string)
    requires AllDigits(a)
    requires b == [] || !IsDigit(b[0])
    ensures LeadingDigits(a + b) == |a|
  {
    if a == [] {
      assert a + b == b;
    } else {
      assert (a + b)[1..] == a[1..] + b;
      LeadingDigitsOf(a[1..], b);
    }
  }

  /** A signed numeral is scanned back into its pieces. */
  lemma ScanNumeralComplete(sign: string, i: string, f: string)
    requires sign == "" || sign == "-" || sign == "+"
    requires |i| >= 1 && AllDigits(i) && AllDigits(f)
    ensures ScanNumeral(sign + i + (if f == [] then "" else "." + f)) == Some((sign, i, f))
  {
    var fracPart := if f == [] then "" else "." + f;
    var t := sign + i + fracPart;
    assert SignOf(t) == sign by {
      assert t[|sign|] == i[0];
    }
    Concat3(sign, i, fracPart);
    SplitConcat(sign, i + fracPart);
    var num := t[|sign|..];
    assert num == i + fracPart;
    LeadingDigitsOf(i, fracPart);
    SplitConcat(i, fracPart);
    var rest := num[|i|..];
    assert rest == fracPart;
    if f != [] {
      SplitConcat(".", f);
      assert rest[0] == '.' && rest[1..] == f;
    } else {
      assert num == i;
    }
  }

  /** Every text the expression describes is matched, and matched this way. */
  lemma GrammarComplete(m: Match)
    requires IsMatch(m)
    ensures Grammar(MatchText(m)) == Some(m)
  {
    var s := MatchText(m);
    var num := NumeralText(m);
    assert num[|num| - 1] != ' ' by {
      if m.fracDigits == [] {
        assert num[|num| - 1] == m.intDigits[|m.intDigits| - 1];
      } else {
        assert num[|num| - 1] == m.fracDigits[|m.fracDigits| - 1];
      }
    }
    var head := num + Spaces(m.spaces);
    assert s[..|s| - 2] == head && s[|s| - 2..] == m.unit;
    TrailingSpacesOf(num, m.spaces);
    assert head[..|head| - m.spaces] == num;
    ScanNumeralComplete(m.sign, m.intDigits, m.fracDigits);
  }

  // ---------------------------------------------------------------------------
  // parseInt(val, 10), ECMA-262 section 19.2.5

  /** s without its leading white space (`StrWhiteSpaceChar`). */
  function TrimStart(s: string): (r: string)
    ensures |r| <= |s| && r == s[|s| - |r|..]
    ensures AllJsSpace(s[..|s| - |r|])
    ensures r == [] || !IsJsSpace(r[0])
  {
    if s != [] && IsJsSpace(s[0]) then
      var r := TrimStart(s[1..]);
      assert s[..|s| - |r|][1..] == s[1..][..|s| - 1 - |r|];
      r
    else s
  }

  /**
   * The integer `parseInt(s, 10)` reads, None for NaN: after the leading
   * white space an optional sign, then the longest run of decimal digits,
   * which must not be empty.
   */
  function ParseIntPrefix(s: string): Option<int> {
    var t := TrimStart(s);
    var sign := SignOf(t);
    var body := t[|sign|..];
    var k := LeadingDigits(body);
    if k == 0 then None
    else
      Some(Signed(sign, DigitsValue(body[..k])))
  }

  /** n with the sign parseInt read. */
  function Signed(sign: string, n: nat): int {
    if sign == "-" then -(n as int) else n
  }

  /** Every character of s is white space. */
  predicate AllJsSpace(s: string) {
    s == [] || (IsJsSpace(s[0]) && AllJsSpace(s[1..]))
  }

  lemma {:induction false} TrimStartOf(ws: string, t: string)
    requires AllJsSpace(ws)
    requires t == [] || !IsJsSpace(t[0])
    ensures TrimStart(ws + t) == t
  {
    if ws == [] {
      assert ws + t == t;
    } else {
      assert (ws + t)[1..] == ws[1..] + t;
      TrimStartOf(ws[1..], t);
    }
  }

  /**
   * parseInt reads white space, an optional sign and a non-empty run of
   * digits, and stops at the first character that is not a digit.
   */
  lemma ParseIntOfShape(ws: string, sign: string, digits: string, rest: string)
    requires AllJsSpace(ws)
    requires sign == "" || sign == "-" || sign == "+"
    requires |digits| >= 1 && AllDigits(digits)
    requires rest == [] || !IsDigit(rest[0])
    ensures ParseIntPrefix(ws + sign + digits + rest)
            == Some(Signed(sign, DigitsValue(digits)))
  {
    var t := sign + digits + rest;
    Concat4(ws, sign, digits, rest);
    assert t[0] == if sign == "" then digits[0] else sign[0];
    TrimStartOf(ws, t);
    SignedDigitsOf(sign, digits, rest);
  }

  /** After the white space, parseInt reads the sign and then exactly the digits. */
  lemma SignedDigitsOf(sign: string, digits: string, rest: string)
    requires sign == "" || sign == "-" || sign == "+"
    requires |digits| >= 1 && AllDigits(digits)
    requires rest == [] || !IsDigit(rest[0])
    ensures var t := sign + digits + rest;
            && SignOf(t) == sign
            && LeadingDigits(t[|sign|..]) == |digits|
            && t[|sign|..][..|digits|] == digits
  {
    var t := sign + digits + rest;
    assert SignOf(t) == sign by {
      assert t[|sign|] == digits[0];
    }
    Concat3(sign, digits, rest);
    SplitConcat(sign, digits + rest);
    LeadingDigitsOf(digits, rest);
    SplitConcat(digits, rest);
  }

  /**
   * s is white space ws, an optional sign, a non-empty run of digits and a
   * rest that does not start with a digit.
   */
  predicate IntShape(s: string, ws: string, sign: string, digits: string, rest: string) {
    && s == ws + sign + digits + rest
    && AllJsSpace(ws) && (sign == "" || sign == "-" || sign == "+")
    && |digits| >= 1 && AllDigits(digits) && (rest == [] || !IsDigit(rest[0]))
  }

  /** What parseInt reads always has the shape ParseIntOfShape describes. */
  lemma ParseIntSound(s: string)
    requires ParseIntPrefix(s).Some?
    ensures exists ws, sign, digits, rest ::
      IntShape(s, ws, sign, digits, rest) && ParseIntPrefix(s) == Some(Signed(sign, DigitsValue(digits)))
  {
    var ws, sign, digits, rest := IntShapeOf(s);
  }

  /** The pieces parseInt reads s as. */
  lemma IntShapeOf(s: string) returns (ws: string, sign: string, digits: string, rest: string)
    requires ParseIntPrefix(s).Some?
    ensures IntShape(s, ws, sign, digits, rest)
    ensures ParseIntPrefix(s) == Some(Signed(sign, DigitsValue(digits)))
  {
    var t := TrimStart(s);
    ws, sign := s[..|s| - |t|], SignOf(t);
    var body := t[|sign|..];
    var k := LeadingDigits(body);
    digits, rest := body[..k], body[k..];
    ShapeOfPieces(s, t, ws, sign, body, k, digits, rest);
  }

  lemma ShapeOfPieces(s: string, t: string, ws: string, sign: string, body: string, k: nat,
                      digits: string, rest: string)
    requires |t| <= |s| && t == s[|s| - |t|..] && ws == s[..|s| - |t|] && AllJsSpace(ws)
    requires (sign == "" || sign == "-" || sign == "+") && |sign| <= |t| && t[..|sign|] == sign
    requires body == t[|sign|..]
    requires 1 <= k <= |body| && AllDigits(body[..k]) && (k < |body| ==> !IsDigit(body[k]))
    requires digits == body[..k] && rest == body[k..]
    ensures IntShape(s, ws, sign, digits, rest)
  {
    SplitAt(s, |s| - |t|);
    SplitAt(t, |sign|);
    SplitAt(body, k);
    Concat3(sign, digits, rest);
    Concat4(ws, sign, digits, rest);
    assert rest == [] || rest[0] == body[k];
  }

  // ---------------------------------------------------------------------------
  // parse without its caches

  /**
   * The number `parse` computes for a string on a cache miss (index.js:289-307):
   * on a grammar match, ⌊multiplier × numeral⌋; otherwise the parseInt
   * integer, counted in bytes; None where the library returns null.
   */
  function ParseSpec(s: string): Option<int> {
    match Grammar(s)
    case Some(m) =>
      GrammarUnitKnown(ToLower(m.unit));
      Some(TimesUnit(DecimalValue(MatchNumeral(m)), m.unit).Floor)
    case None =>
      match ParseIntPrefix(s)
      case None => None
      case Some(n) =>
        ByteUnitKnown();
        Some(TimesUnit(n as real, "b").Floor)
  }

  /**
   * The two paths of the parse: a grammar match gives the whole number of
   * bytes its numeral and unit name, rounded down; any other string gives
   * what parseInt reads from it, or null.
   */
  lemma ParseSpecCases(s: string)
    ensures Grammar(s).None? ==> ParseSpec(s) == ParseIntPrefix(s)
    ensures Grammar(s).Some? ==>
              var m := Grammar(s).value;
              var r := ParseSpec(s);
              ToLower(m.unit) in UnitMap && r.Some?
              && r.value as real <= TimesUnit(DecimalValue(MatchNumeral(m)), m.unit) < r.value as real + 1.0
  {
    if Grammar(s).Some? {
      GrammarUnitKnown(ToLower(Grammar(s).value.unit));
    } else {
      ByteUnitKnown();
    }
  }

  /** Every unit of the grammar is a key of the unit table. */
  lemma GrammarUnitKnown(u: string)
    requires u in GrammarUnits
    ensures u in UnitMap
  {
  }

  lemma ByteUnitKnown()
    ensures ToLower("b") == "b" && "b" in UnitMap && UnitIndex("b") == 0
  {
    assert ToLower("b") == "b";
  }

  /**
   * `parse(val)` on a cache miss (index.js:266-307): a number other than NaN
   * comes back unchanged, a string is parsed, anything else is null.
   */
  function ParseUncached(v: Value): (r: Outcome)
    ensures r.Null? || r.Numeric?
    ensures r.Numeric? && v.Str? ==> r.number.Finite? && r.number.value.Floor as real == r.number.value
    ensures v.Num? && !v.n.NaN? ==> r == Numeric(v.n)
    ensures v.Num? && v.n.NaN? ==> r.Null?
    ensures v.Str? ==> (r.Null? <==> ParseSpec(v.s).None?)
    ensures !v.Num? && !v.Str? ==> r.Null?
  {
    match v
    case Num(n) => if n.NaN? then Null else Numeric(n)
    case Str(s) =>
      (match ParseSpec(s)
       case None => Null
       case Some(k) => Numeric(Finite(k as real)))
    case Other => Null
  }

  // ---------------------------------------------------------------------------
  // Properties of parse

  /**
   * A string the grammar describes parses to the largest integer not above
   * the multiplier times the numeral: floored toward minus infinity.
   */
  lemma ParseOfMatch(m: Match)
    requires IsMatch(m)
    ensures ToLower(m.unit) in UnitMap
    ensures ParseSpec(MatchText(m)).Some?
    ensures var r := ParseSpec(MatchText(m)).value;
            var p := TimesUnit(DecimalValue(MatchNumeral(m)), m.unit);
            r as real <= p < r as real + 1.0
  {
    GrammarComplete(m);
  }

  /** A string whose first character is none of white space, a sign or a digit is not a number. */
  lemma ParseNoDigits(s: string)
    requires s != [] && !IsJsSpace(s[0]) && s[0] != '-' && s[0] != '+' && !IsDigit(s[0])
    ensures ParseSpec(s).None?
  {
    assert TrimStart(s) == s;
    assert LeadingDigits(s) == 0;
    if |s| >= 2 {
      var head := s[..|s| - 2];
      var n := TrailingSpaces(head);
      if head[..|head| - n] != [] {
        assert head[..|head| - n][0] == s[0];
      }
    }
  }

  /** The grammar has no bare `b` unit: "5b" falls back to parseInt, which reads the bytes. */
  lemma ParseBareBytes(sign: string, digits: string, b: string)
    requires sign == "" || sign == "-" || sign == "+"
    requires |digits| >= 1 && AllDigits(digits)
    requires b == "b" || b == "B"
    ensures ParseSpec(sign + digits + b) == Some(Signed(sign, DigitsValue(digits)))
  {
    var s := sign + digits + b;
    BareBytesNoGrammar(sign, digits, b);
    ParseIntOfShape("", sign, digits, b);
    EmptyPrefix(sign);
  }

  lemma BareBytesNoGrammar(sign: string, digits: string, b: string)
    requires |digits| >= 1 && AllDigits(digits)
    requires |b| == 1
    ensures Grammar(sign + digits + b).None?
  {
    var s := sign + digits + b;
    assert s[|s| - 2] == digits[|digits| - 1];
    NoGrammarUnitAfterDigit(s);
  }

  /** A grammar unit never starts with a digit. */
  lemma NoGrammarUnitAfterDigit(s: string)
    requires |s| >= 2 && IsDigit(s[|s| - 2])
    ensures Grammar(s).None?
  {
    assert ToLower(s[|s| - 2..]) !in GrammarUnits by {
      assert ToLower(s[|s| - 2..])[0] == LowerChar(s[|s| - 2]);
    }
  }

  /** A point with no fraction digits after it leaves the grammar: "5.kb" reads as 5 bytes. */
  lemma ParsePointWithoutFraction(sign: string, digits: string, unit: string)
    requires sign == "" || sign == "-" || sign == "+"
    requires |digits| >= 1 && AllDigits(digits)
    requires |unit| == 2 && !IsDigit(unit[0])
    ensures ParseSpec(sign + digits + "." + unit) == Some(Signed(sign, DigitsValue(digits)))
  {
    var s := sign + digits + "." + unit;
    assert Grammar(s).None? by {
      NoMatchBeforePoint(sign, digits, unit);
    }
    ParseSpecCases(s);
    ParseIntOfShape("", sign, digits, "." + unit);
    EmptyPrefix(sign);
    Concat3(sign + digits, ".", unit);
  }

  /** "5.kb" has no numeral before its unit. */
  lemma NoMatchBeforePoint(sign: string, digits: string, unit: string)
    requires sign == "" || sign == "-" || sign == "+"
    requires |digits| >= 1 && AllDigits(digits)
    requires |unit| == 2
    ensures Grammar(sign + digits + "." + unit).None?
  {
    var head := sign + digits + ".";
    SplitConcat(head, unit);
    PointHeadNoMatch(sign, digits, unit);
  }

  lemma PointHeadNoMatch(sign: string, digits: string, unit: string)
    requires sign == "" || sign == "-" || sign == "+"
    requires |digits| >= 1 && AllDigits(digits)
    ensures MatchBefore(sign + digits + ".", unit).None?
  {
    var head := sign + digits + ".";
    assert TrailingSpaces(head) == 0;
    assert head[..|head|] == head;
    ScanPointWithoutFraction(sign, digits);
  }

  /** A numeral cannot end with its point. */
  lemma ScanPointWithoutFraction(sign: string, digits: string)
    requires sign == "" || sign == "-" || sign == "+"
    requires |digits| >= 1 && AllDigits(digits)
    ensures ScanNumeral(sign + digits + ".").None?
  {
    var t := sign + digits + ".";
    assert SignOf(t) == sign by {
      assert t[|sign|] == digits[0];
    }
    Concat3(sign, digits, ".");
    SplitConcat(sign, digits + ".");
    var num := t[|sign|..];
    assert num == digits + ".";
    LeadingDigitsOf(digits, ".");
    SplitConcat(digits, ".");
    assert num[|digits|..] == ".";
  }

  /**
   * White space before a grammar string leaves the grammar: parseInt reads
   * the integer digits only, counted in bytes, so " 1kb" is 1.
   */
  lemma ParseLeadingSpace(ws: string, m: Match)
    requires ws != [] && AllJsSpace(ws)
    requires IsMatch(m)
    ensures ParseSpec(ws + MatchText(m)) == Some(Signed(m.sign, DigitsValue(m.intDigits)))
  {
    var s := ws + MatchText(m);
    var rest := MatchRest(m);
    assert Grammar(s).None? by {
      NoMatchAfterSpace(ws, MatchText(m));
    }
    ParseIntOfShape(ws, m.sign, m.intDigits, rest);
    Concat4(ws, m.sign, m.intDigits, rest);
  }

  /** What follows the integer digits of a match: fraction, spaces and unit. */
  function MatchRest(m: Match): (rest: string)
    requires IsMatch(m)
    ensures MatchText(m) == m.sign + m.intDigits + rest
    ensures rest == [] || !IsDigit(rest[0])
  {
    var fracPart := if m.fracDigits == [] then "" else "." + m.fracDigits;
    var rest := fracPart + Spaces(m.spaces) + m.unit;
    assert rest[0] != '.' ==> rest[0] == ' ' || rest[0] == m.unit[0];
    assert ToLower(m.unit)[0] == LowerChar(m.unit[0]);
    Concat4(m.sign + m.intDigits, fracPart, Spaces(m.spaces), m.unit);
    Concat3(m.sign, m.intDigits, fracPart);
    rest
  }

  /** The grammar has no room for white space in front. */
  lemma NoMatchAfterSpace(ws: string, t: string)
    requires ws != [] && AllJsSpace(ws)
    ensures Grammar(ws + t).None?
  {
    var s := ws + t;
    if Grammar(s).Some? {
      var g := Grammar(s).value;
      GrammarSound(s);
      NumeralTextStart(g);
      assert false;
    }
  }

  /** The text of a match starts with a sign or a digit. */
  lemma NumeralTextStart(m: Match)
    requires IsMatch(m)
    ensures MatchText(m)[0] == '-' || MatchText(m)[0] == '+' || IsDigit(MatchText(m)[0])
  {
    assert MatchText(m)[0] == if m.sign == "" then m.intDigits[0] else m.sign[0];
  }

  lemma DigitValues()
    ensures DigitsValue("0") == 0 && DigitsValue("1") == 1 && DigitsValue("5") == 5
  {
    assert "0"[..0] == [] && "1"[..0] == [] && "5"[..0] == [];
  }

  /** `parse('5b')` is 5. */
  lemma BareBytesExample()
    ensures ParseSpec("5b") == Some(5)
  {
    DigitValues();
    ParseBareBytes("", "5", "b");
    assert "" + "5" + "b" == "5b";
  }

  /** `parse('5.kb')` is 5. */
  lemma PointExample(s: string)
    requires s == "5.kb"
    ensures ParseSpec(s) == Some(5)
  {
    var digits, unit := PointPieces(s);
    ParsePointWithoutFraction("", digits, unit);
  }

  /** "5.kb" is the digit 5, a point and a unit. */
  lemma PointPieces(s: string) returns (digits: string, unit: string)
    requires s == "5.kb"
    ensures |digits| >= 1 && AllDigits(digits) && DigitsValue(digits) == 5
    ensures |unit| == 2 && !IsDigit(unit[0])
    ensures "" + digits + "." + unit == s
  {
    DigitValues();
    digits, unit := "5", "kb";
  }

  /** `parse(' 1kb')` is 1. */
  lemma LeadingSpaceExample(s: string)
    requires s == " 1kb"
    ensures ParseSpec(s) == Some(1)
  {
    var m := LeadingSpaceMatch(s);
    ParseLeadingSpace(" ", m);
  }

  /** " 1kb" is a space before the match of 1 kilobyte. */
  lemma LeadingSpaceMatch(s: string) returns (m: Match)
    requires s == " 1kb"
    ensures IsMatch(m) && " " + MatchText(m) == s
    ensures m.sign == "" && DigitsValue(m.intDigits) == 1
  {
    DigitValues();
    m := Match("", "1", "", 0, "kb");
    assert ToLower("kb") == "kb";
  }

  /** `parse('.5kb')` is null. */
  lemma NoIntegerDigitsExample()
    ensures ParseSpec(".5kb").None?
  {
    ParseNoDigits(".5kb");
  }

  /** `parse('-0.1kb')` floors -102.4 to -103. */
  lemma NegativeFractionExample(s: string)
    requires s == "-0.1kb"
    ensures ParseSpec(s) == Some(-103)
  {
    var m := NegativeFractionMatch(s);
    ParseOfMatchIs(m, s, -103);
  }

  /** The text of a match parses to r when r is the floor of the bytes it denotes. */
  lemma ParseOfMatchIs(m: Match, s: string, r: int)
    requires IsMatch(m) && MatchText(m) == s
    requires ToLower(m.unit) in UnitMap
    requires r as real <= TimesUnit(DecimalValue(MatchNumeral(m)), m.unit) < r as real + 1.0
    ensures ParseSpec(s) == Some(r)
  {
    ParseOfMatch(m);
    FloorUnique(ParseSpec(s).value, r, TimesUnit(DecimalValue(MatchNumeral(m)), m.unit));
  }

  /** Only one integer lies within one below a real. */
  lemma FloorUnique(a: int, b: int, p: real)
    requires a as real <= p < a as real + 1.0
    requires b as real <= p < b as real + 1.0
    ensures a == b
  {
  }

  /** "-0.1kb" is the match of -0.1 kilobytes, -102.4 bytes. */
  lemma NegativeFractionMatch(s: string) returns (m: Match)
    requires s == "-0.1kb"
    ensures IsMatch(m) && MatchText(m) == s
    ensures ToLower(m.unit) in UnitMap && TimesUnit(DecimalValue(MatchNumeral(m)), m.unit) == -102.4
  {
    m := Match("-", "0", "1", 0, "kb");
    assert ToLower("kb") == "kb";
    var v := DecimalValue(MatchNumeral(m));
    assert v == -0.1 by {
      DigitValues();
      assert Unscale(1.0, 1) == 0.1;
    }
    assert UnitIndex("kb") == 1;
    assert Grow(v, 1) == 1024.0 * v;
  }
}
