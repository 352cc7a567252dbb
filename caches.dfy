/**
 * The memo tables of bytes.js and the functions that consult them: the
 * static `commonValues`/`commonLookup` and the dynamic `formatCache` in front
 * of `format` (index.js:43-88, 198-210, 248-250), the static
 * `parseCacheCommon` and the dynamic `parseCache` in front of `parse`
 * (index.js:107-145, 276-286, 310-312), and the `bytes` dispatcher
 * (index.js:162-172).
 */
module Caches {
  import opened Wrappers
  import opened Text
  import opened Units
  import opened Numerals
  import opened Values
  import opened Format
  import opened Parse
  import opened RoundTrip

  /** The size below which the dynamic caches still take new entries. */
  const CacheLimit: nat := 1000

  /** One entry of `commonValues`. */
  datatype CommonValue = CommonValue(bytes: nat, str: string)

  /**
   * `commonValues`, index.js:49-79, in its own order: 0 B and the small
   * kilobytes, then the powers of two of MB, of GB and of TB.
   */
  const CommonValues: seq<CommonValue> := CommonKB + CommonMB + CommonGB + CommonTB

  const CommonKB: seq<CommonValue> := [
    CommonValue(0, "0B"),
    CommonValue(1024, "1KB"),
    CommonValue(2048, "2KB"),
    CommonValue(4096, "4KB"),
    CommonValue(8192, "8KB")
  ]

  const CommonMB: seq<CommonValue> := [
    CommonValue(1048576, "1MB"),
    CommonValue(2097152, "2MB"),
    CommonValue(4194304, "4MB"),
    CommonValue(8388608, "8MB"),
    CommonValue(16777216, "16MB"),
    CommonValue(33554432, "32MB"),
    CommonValue(67108864, "64MB"),
    CommonValue(134217728, "128MB"),
    CommonValue(268435456, "256MB"),
    CommonValue(536870912, "512MB")
  ]

  const CommonGB: seq<CommonValue> := [
    CommonValue(1073741824, "1GB"),
    CommonValue(2147483648, "2GB"),
    CommonValue(4294967296, "4GB"),
    CommonValue(8589934592, "8GB"),
    CommonValue(17179869184, "16GB"),
    CommonValue(34359738368, "32GB"),
    CommonValue(68719476736, "64GB"),
    CommonValue(137438953472, "128GB"),
    CommonValue(274877906944, "256GB"),
    CommonValue(549755813888, "512GB")
  ]

  const CommonTB: seq<CommonValue> := [
    CommonValue(1099511627776, "1TB"),
    CommonValue(2199023255552, "2TB"),
    CommonValue(4398046511104, "4TB"),
    CommonValue(8796093022208, "8TB")
  ]

  /** One property of `parseCacheCommon`: a normalized text and its byte count. */
  datatype ParseEntry = ParseEntry(key: string, bytes: nat)

  /**
   * The properties of `parseCacheCommon`, index.js:108-145, in the order of
   * the object literal: the ones, then the kilobytes, megabytes, gigabytes
   * and terabytes.
   */
  const ParseCommonEntries: seq<ParseEntry> :=
    ParseCommonOnes + ParseCommonKB + ParseCommonMB + ParseCommonGB + ParseCommonTB

  const ParseCommonOnes: seq<ParseEntry> := [
    ParseEntry("0", 0),
    ParseEntry("1kb", 1024),
    ParseEntry("1mb", 1048576),
    ParseEntry("1gb", 1073741824),
    ParseEntry("1tb", 1099511627776)
  ]

  const ParseCommonKB: seq<ParseEntry> := [
    ParseEntry("2kb", 2048),
    ParseEntry("4kb", 4096),
    ParseEntry("8kb", 8192),
    ParseEntry("16kb", 16384),
    ParseEntry("32kb", 32768),
    ParseEntry("64kb", 65536),
    ParseEntry("128kb", 131072),
    ParseEntry("256kb", 262144),
    ParseEntry("512kb", 524288),
    ParseEntry("1024kb", 1048576)
  ]

  const ParseCommonMB: seq<ParseEntry> := [
    ParseEntry("2mb", 2097152),
    ParseEntry("4mb", 4194304),
    ParseEntry("8mb", 8388608),
    ParseEntry("16mb", 16777216),
    ParseEntry("32mb", 33554432),
    ParseEntry("64mb", 67108864),
    ParseEntry("128mb", 134217728),
    ParseEntry("256mb", 268435456),
    ParseEntry("512mb", 536870912)
  ]

  const ParseCommonGB: seq<ParseEntry> := [
    ParseEntry("2gb", 2147483648),
    ParseEntry("4gb", 4294967296),
    ParseEntry("8gb", 8589934592),
    ParseEntry("16gb", 17179869184),
    ParseEntry("32gb", 34359738368),
    ParseEntry("64gb", 68719476736),
    ParseEntry("128gb", 137438953472),
    ParseEntry("256gb", 274877906944),
    ParseEntry("512gb", 549755813888)
  ]

  const ParseCommonTB: seq<ParseEntry> := [
    ParseEntry("2tb", 2199023255552),
    ParseEntry("4tb", 4398046511104),
    ParseEntry("8tb", 8796093022208)
  ]

  /** `parseCacheCommon` itself: the object the literal denotes. */
  const ParseCacheCommon: map<string, int> := TableOf(ParseCommonEntries)

  /** The object an object literal with these properties denotes: a later property overrides an earlier one. */
  function TableOf(entries: seq<ParseEntry>): map<string, int> {
    if entries == [] then map[]
    else
      var last := entries[|entries| - 1];
      TableOf(entries[..|entries| - 1])[last.key := last.bytes]
  }

  /** The table has exactly the keys of its entries. */
  lemma {:induction false} TableOfKeys(entries: seq<ParseEntry>)
    ensures forall k :: k in TableOf(entries) <==> exists i :: 0 <= i < |entries| && entries[i].key == k
  {
    if entries != [] {
      var n := |entries| - 1;
      var init := entries[..n];
      TableOfKeys(init);
      forall k | k in TableOf(init)
        ensures exists i :: 0 <= i < |entries| && entries[i].key == k
      {
        var i :| 0 <= i < n && init[i].key == k;
        assert entries[i] == init[i];
      }
      forall i | 0 <= i < n
        ensures entries[i].key in TableOf(entries)
      {
        assert entries[i] == init[i];
      }
    }
  }

  /** Every value in the table is the value of an entry with that key. */
  lemma {:induction false} TableOfValues(entries: seq<ParseEntry>, k: string)
    requires k in TableOf(entries)
    ensures exists i :: 0 <= i < |entries| && entries[i].key == k && TableOf(entries)[k] == entries[i].bytes
  {
    var n := |entries| - 1;
    if k != entries[n].key {
      var init := entries[..n];
      TableOfValues(init, k);
      var i :| 0 <= i < n && init[i].key == k && TableOf(init)[k] == init[i].bytes;
      assert entries[i] == init[i];
    }
  }

  /** The cache key of a string: `val.toLowerCase().replace(/\s+/g, '')` (index.js:276). */
  function Normalize(s: string): (r: string)
    ensures |r| <= |s| && NoUpper(r)
    ensures forall i :: 0 <= i < |r| ==> !IsJsSpace(r[i])
  {
    LowerNoUpper(s);
    RemoveSpaces(ToLower(s))
  }

  /** The key of a concatenation is the concatenation of the keys. */
  lemma NormalizeConcat(a: string, b: string)
    ensures Normalize(a + b) == Normalize(a) + Normalize(b)
  {
    ToLowerConcat(a, b);
    RemoveSpacesConcat(ToLower(a), ToLower(b));
  }

  /**
   * The key of one character: nothing for white space, the lower-case
   * character otherwise. With NormalizeConcat this fixes the key of every
   * string: its characters that are not white space, lower-cased, in order.
   */
  lemma NormalizeChar(c: char)
    ensures Normalize([c]) == if IsJsSpace(c) then [] else [LowerChar(c)]
  {
    assert ToLower([c]) == [LowerChar(c)];
    assert [LowerChar(c)][1..] == [];
    if !IsJsSpace(c) {
      assert IsJsSpace(LowerChar(c)) == IsJsSpace(c);
    }
  }

  /** A normal form is its own normal form: the key of a key is the key itself. */
  lemma NormalizeIdempotent(s: string)
    ensures Normalize(Normalize(s)) == Normalize(s)
  {
    PlainNormalize(Normalize(s));
  }

  /**
   * The object the startup loop of index.js:85-88 builds: one property per
   * entry, a later entry overwriting an earlier one with the same key.
   */
  function LookupOf(entries: seq<CommonValue>): (m: map<real, string>)
    ensures |m| <= |entries|
    ensures forall v :: v in m ==> v >= 0.0 && v.Floor as real == v
  {
    if entries == [] then map[]
    else
      var last := entries[|entries| - 1];
      LookupOf(entries[..|entries| - 1])[last.bytes as real := last.str]
  }

  /** The lookup has a key for exactly the numbers of the entries. */
  lemma {:induction false} LookupOfKeys(entries: seq<CommonValue>)
    ensures forall v :: v in LookupOf(entries) <==> exists i :: 0 <= i < |entries| && entries[i].bytes as real == v
  {
    if entries != [] {
      var n := |entries| - 1;
      var init := entries[..n];
      LookupOfKeys(init);
      forall v | v in LookupOf(init)
        ensures exists i :: 0 <= i < |entries| && entries[i].bytes as real == v
      {
        var i :| 0 <= i < n && init[i].bytes as real == v;
        assert entries[i] == init[i];
      }
      forall i | 0 <= i < n
        ensures entries[i].bytes as real in LookupOf(entries)
      {
        assert entries[i] == init[i];
      }
    }
  }

  /** Under each key the lookup holds the string of the last entry with that number. */
  lemma {:induction false} LookupOfLastWins(entries: seq<CommonValue>, i: nat)
    requires i < |entries|
    requires forall j :: i < j < |entries| ==> entries[j].bytes != entries[i].bytes
    ensures entries[i].bytes as real in LookupOf(entries)
            && LookupOf(entries)[entries[i].bytes as real] == entries[i].str
  {
    LookupOfKeys(entries);
    var n := |entries| - 1;
    if i < n {
      var init := entries[..n];
      assert init[i] == entries[i];
      forall j | i < j < |init|
        ensures init[j].bytes != init[i].bytes
      {
        assert init[j] == entries[j];
      }
      LookupOfLastWins(init, i);
    }
  }

  /** Every string in the lookup is the string of an entry with the key's number. */
  lemma {:induction false} LookupOfValues(entries: seq<CommonValue>, v: real)
    requires v in LookupOf(entries)
    ensures exists i :: 0 <= i < |entries| && entries[i].bytes as real == v && LookupOf(entries)[v] == entries[i].str
  {
    var n := |entries| - 1;
    if v != entries[n].bytes as real {
      var init := entries[..n];
      LookupOfValues(init, v);
      var i :| 0 <= i < n && init[i].bytes as real == v && LookupOf(init)[v] == init[i].str;
      assert entries[i] == init[i];
    }
  }

  /** The startup loop of index.js:85-88, filling the lookup entry by entry. */
  method BuildLookup(entries: seq<CommonValue>) returns (m: map<real, string>)
    ensures m == LookupOf(entries)
  {
    m := map[];
    var i := 0;
    while i < |entries|
      invariant 0 <= i <= |entries|
      invariant m == LookupOf(entries[..i])
    {
      assert entries[..i + 1][..i] == entries[..i];
      m := m[entries[i].bytes as real := entries[i].str];
      i := i + 1;
    }
    assert entries[..i] == entries;
  }

  // ---------------------------------------------------------------------------
  // Digit strings of the tables

  lemma DigitsValue1(a: char)
    requires IsDigit(a)
    ensures AllDigits([a]) && DigitsValue([a]) == DigitValue(a)
  {
    assert [a][..0] == [];
  }

  lemma DigitsValue2(a: char, b: char)
    requires IsDigit(a) && IsDigit(b)
    ensures AllDigits([a, b]) && DigitsValue([a, b]) == 10 * DigitValue(a) + DigitValue(b)
  {
    assert [a, b][..1] == [a];
    DigitsValue1(a);
  }

  lemma DigitsValue3(a: char, b: char, c: char)
    requires IsDigit(a) && IsDigit(b) && IsDigit(c)
    ensures AllDigits([a, b, c])
    ensures DigitsValue([a, b, c]) == 100 * DigitValue(a) + 10 * DigitValue(b) + DigitValue(c)
  {
    assert [a, b, c][..2] == [a, b];
    DigitsValue2(a, b);
  }

  lemma DigitsValue4(a: char, b: char, c: char, d: char)
    requires IsDigit(a) && IsDigit(b) && IsDigit(c) && IsDigit(d)
    ensures AllDigits([a, b, c, d])
    ensures DigitsValue([a, b, c, d])
            == 1000 * DigitValue(a) + 100 * DigitValue(b) + 10 * DigitValue(c) + DigitValue(d)
  {
    assert [a, b, c, d][..3] == [a, b, c];
    DigitsValue3(a, b, c);
  }

  // ---------------------------------------------------------------------------
  // `commonValues` agrees with the uncached format

  /** The text of a whole number of bytes below 1024 of a unit the formatter would pick. */
  lemma FormatWholeOfUnit(k: nat, u: string, v: real, s: string)
    requires IsCanonicalUnit(u) && ToLower(u) in UnitMap
    requires if u == "B" then k < 1024 else 1 <= k < 1024
    requires v == (k * Multiplier(u)) as real
    requires s == NatToDigits(k) + u
    ensures FormatSpec(Finite(v), None) == Text(s)
  {
    AutoUnitOfWhole(k, u, v);
    WholeTimesUnit(k, u);
    ShrinkGrow(k as real, UnitIndex(u));
    FormatDefault(v);
    WholeNumeral(k);
    ShowWhole(NumeralOf(k as real, 2, false));
  }

  lemma AutoUnitOfWhole(k: nat, u: string, v: real)
    requires IsCanonicalUnit(u) && ToLower(u) in UnitMap
    requires if u == "B" then k < 1024 else 1 <= k < 1024
    requires v == (k * Multiplier(u)) as real
    ensures AutoUnit(Abs(v)) == u
  {
    CanonicalUnitKnown(u);
    var m := Multiplier(u);
    if u == "B" {
      assert v < 1024.0;
    } else {
      assert m >= 1;
      WholeOfUnitBounds(k, m);
    }
  }

  lemma WholeOfUnitBounds(k: nat, m: nat)
    requires 1 <= k < 1024 && m >= 1
    ensures m as real <= (k * m) as real < 1024.0 * m as real
  {
    assert k * m - m == (k - 1) * m;
    assert 1024 * m - k * m == (1024 - k) * m;
  }

  lemma ShowWhole(x: Decimal)
    requires !x.negative && x.fracDigits == []
    ensures Show(x) == x.intDigits
  {
    assert Show(x) == "" + x.intDigits + "";
  }

  /** An entry written as the digits d of k followed by the unit u. */
  lemma CommonEntry(e: CommonValue, d: string, k: nat, u: string)
    requires IsCanonicalUnit(u) && ToLower(u) in UnitMap
    requires |d| >= 1 && AllDigits(d) && (d == "0" || d[0] != '0') && DigitsValue(d) == k
    requires if u == "B" then k < 1024 else 1 <= k < 1024
    requires e.bytes == k * Multiplier(u) && e.str == d + u
    ensures FormatSpec(Finite(e.bytes as real), None) == Text(e.str)
  {
    CanonicalDigits(d);
    FormatWholeOfUnit(k, u, e.bytes as real, e.str);
  }

  lemma CommonEntriesKB(i: nat)
    requires i < |CommonKB|
    ensures FormatSpec(Finite(CommonKB[i].bytes as real), None) == Text(CommonKB[i].str)
  {
    CanonicalUnitKnown("B");
    CanonicalUnitKnown("KB");
    var e := CommonKB[i];
    if i == 0 { DigitsValue1('0'); CommonEntry(e, "0", 0, "B"); }
    else if i == 1 { DigitsValue1('1'); CommonEntry(e, "1", 1, "KB"); }
    else if i == 2 { DigitsValue1('2'); CommonEntry(e, "2", 2, "KB"); }
    else if i == 3 { DigitsValue1('4'); CommonEntry(e, "4", 4, "KB"); }
    else { DigitsValue1('8'); CommonEntry(e, "8", 8, "KB"); }
  }

  lemma CommonEntriesSmallMB(i: nat)
    requires i < 5
    ensures FormatSpec(Finite(CommonMB[i].bytes as real), None) == Text(CommonMB[i].str)
  {
    CanonicalUnitKnown("MB");
    var e := CommonMB[i];
    if i == 0 { DigitsValue1('1'); CommonEntry(e, "1", 1, "MB"); }
    else if i == 1 { DigitsValue1('2'); CommonEntry(e, "2", 2, "MB"); }
    else if i == 2 { DigitsValue1('4'); CommonEntry(e, "4", 4, "MB"); }
    else if i == 3 { DigitsValue1('8'); CommonEntry(e, "8", 8, "MB"); }
    else { DigitsValue2('1', '6'); CommonEntry(e, "16", 16, "MB"); }
  }

  lemma CommonEntriesLargeMB(i: nat)
    requires 5 <= i < |CommonMB|
    ensures FormatSpec(Finite(CommonMB[i].bytes as real), None) == Text(CommonMB[i].str)
  {
    CanonicalUnitKnown("MB");
    var e := CommonMB[i];
    if i == 5 { DigitsValue2('3', '2'); CommonEntry(e, "32", 32, "MB"); }
    else if i == 6 { DigitsValue2('6', '4'); CommonEntry(e, "64", 64, "MB"); }
    else if i == 7 { DigitsValue3('1', '2', '8'); CommonEntry(e, "128", 128, "MB"); }
    else if i == 8 { DigitsValue3('2', '5', '6'); CommonEntry(e, "256", 256, "MB"); }
    else { DigitsValue3('5', '1', '2'); CommonEntry(e, "512", 512, "MB"); }
  }


  lemma CommonEntriesSmallGB(i: nat)
    requires i < 5
    ensures FormatSpec(Finite(CommonGB[i].bytes as real), None) == Text(CommonGB[i].str)
  {
    if i < 3 { CommonEntriesFirstGB(i); } else { CommonEntriesNextGB(i); }
  }

  lemma CommonEntriesFirstGB(i: nat)
    requires i < 3
    ensures FormatSpec(Finite(CommonGB[i].bytes as real), None) == Text(CommonGB[i].str)
  {
    CanonicalUnitKnown("GB");
    var e := CommonGB[i];
    if i == 0 { DigitsValue1('1'); CommonEntry(e, "1", 1, "GB"); }
    else if i == 1 { DigitsValue1('2'); CommonEntry(e, "2", 2, "GB"); }
    else { DigitsValue1('4'); CommonEntry(e, "4", 4, "GB"); }
  }

  lemma CommonEntriesNextGB(i: nat)
    requires 3 <= i < 5
    ensures FormatSpec(Finite(CommonGB[i].bytes as real), None) == Text(CommonGB[i].str)
  {
    CanonicalUnitKnown("GB");
    var e := CommonGB[i];
    if i == 3 { DigitsValue1('8'); CommonEntry(e, "8", 8, "GB"); }
    else { DigitsValue2('1', '6'); CommonEntry(e, "16", 16, "GB"); }
  }

  lemma CommonEntriesLargeGB(i: nat)
    requires 5 <= i < |CommonGB|
    ensures FormatSpec(Finite(CommonGB[i].bytes as real), None) == Text(CommonGB[i].str)
  {
    CanonicalUnitKnown("GB");
    var e := CommonGB[i];
    if i == 5 { DigitsValue2('3', '2'); CommonEntry(e, "32", 32, "GB"); }
    else if i == 6 { DigitsValue2('6', '4'); CommonEntry(e, "64", 64, "GB"); }
    else if i == 7 { DigitsValue3('1', '2', '8'); CommonEntry(e, "128", 128, "GB"); }
    else if i == 8 { DigitsValue3('2', '5', '6'); CommonEntry(e, "256", 256, "GB"); }
    else { DigitsValue3('5', '1', '2'); CommonEntry(e, "512", 512, "GB"); }
  }


  lemma CommonEntriesTB(i: nat)
    requires i < |CommonTB|
    ensures FormatSpec(Finite(CommonTB[i].bytes as real), None) == Text(CommonTB[i].str)
  {
    CanonicalUnitKnown("TB");
    var e := CommonTB[i];
    if i == 0 { DigitsValue1('1'); CommonEntry(e, "1", 1, "TB"); }
    else if i == 1 { DigitsValue1('2'); CommonEntry(e, "2", 2, "TB"); }
    else if i == 2 { DigitsValue1('4'); CommonEntry(e, "4", 4, "TB"); }
    else { DigitsValue1('8'); CommonEntry(e, "8", 8, "TB"); }
  }

  /** Every entry of `commonValues` is what `format` computes for its number without options. */
  lemma CommonValuesAgree()
    ensures forall i :: 0 <= i < |CommonValues| ==>
              FormatSpec(Finite(CommonValues[i].bytes as real), None) == Text(CommonValues[i].str)
  {
    forall i | 0 <= i < |CommonValues|
      ensures FormatSpec(Finite(CommonValues[i].bytes as real), None) == Text(CommonValues[i].str)
    {
      var n1 := |CommonKB|;
      var n2 := n1 + |CommonMB|;
      var n3 := n2 + |CommonGB|;
      if i < n1 { CommonEntriesKB(i); }
      else if i < n1 + 5 { CommonEntriesSmallMB(i - n1); }
      else if i < n2 { CommonEntriesLargeMB(i - n1); }
      else if i < n2 + 5 { CommonEntriesSmallGB(i - n2); }
      else if i < n3 { CommonEntriesLargeGB(i - n2); }
      else { CommonEntriesTB(i - n3); }
    }
  }

  // ---------------------------------------------------------------------------
  // `parseCacheCommon` agrees with the uncached parse

  /** Text without upper-case letters and white space is its own normal form. */
  lemma PlainNormalize(s: string)
    requires forall i :: 0 <= i < |s| ==> !('A' <= s[i] <= 'Z') && !IsJsSpace(s[i])
    ensures Normalize(s) == s
  {
    assert ToLower(s) == s;
    RemoveSpacesNone(s);
  }

  lemma {:induction false} RemoveSpacesNone(s: string)
    requires forall i :: 0 <= i < |s| ==> !IsJsSpace(s[i])
    ensures RemoveSpaces(s) == s
  {
    if s != [] {
      RemoveSpacesNone(s[1..]);
      assert s == [s[0]] + s[1..];
    }
  }

  lemma GrammarUnitLower(l: string)
    requires l in GrammarUnits
    ensures |l| == 2 && ToLower(l) == l && l in UnitMap
    ensures forall i :: 0 <= i < |l| ==> 'a' <= l[i] <= 'z'
  {
  }

  /**
   * A key made of the digits of k and a lower-case unit of the grammar is
   * its own normal form and parses to k of that unit.
   */
  lemma ParseKey(key: string, d: string, k: nat, l: string, m: nat)
    requires |d| >= 1 && AllDigits(d) && DigitsValue(d) == k
    requires l in GrammarUnits && key == d + l
    requires l in UnitMap && UnitMap[l] == m
    ensures Normalize(key) == key && ParseSpec(key) == Some(k * m)
  {
    GrammarUnitLower(l);
    var x := Decimal(false, d, []);
    ShowWhole(x);
    ParseWholeNumeral(x, k, l);
    forall i | 0 <= i < |key|
      ensures !('A' <= key[i] <= 'Z') && !IsJsSpace(key[i])
    {
      if i < |d| {
        assert key[i] == d[i];
      } else {
        assert key[i] == l[i - |d|];
      }
      DigitOrLowerPlain(key[i]);
    }
    PlainNormalize(key);
  }

  lemma DigitOrLowerPlain(c: char)
    requires IsDigit(c) || 'a' <= c <= 'z'
    ensures !('A' <= c <= 'Z') && !IsJsSpace(c)
  {
  }

  /** The key "0" goes past the grammar to parseInt. */
  lemma ParseZeroKey(key: string)
    requires key == "0"
    ensures Normalize(key) == key && ParseSpec(key) == Some(0)
  {
    PlainNormalize(key);
    ParseZero(key);
  }

  lemma ParseZero(key: string)
    requires key == "0"
    ensures ParseSpec(key) == Some(0)
  {
    DigitsValue1('0');
    EmptyPieces("", key);
    EmptyPrefix(key);
    ParseIntOfShape("", "", key, "");
  }

  lemma ParseKeyKB(key: string, d: string, k: nat)
    requires |d| >= 1 && AllDigits(d) && DigitsValue(d) == k && key == d + "kb"
    ensures Normalize(key) == key && ParseSpec(key) == Some(k * KB)
  {
    ParseKey(key, d, k, "kb", KB);
  }

  lemma ParseKeyMB(key: string, d: string, k: nat)
    requires |d| >= 1 && AllDigits(d) && DigitsValue(d) == k && key == d + "mb"
    ensures Normalize(key) == key && ParseSpec(key) == Some(k * MB)
  {
    ParseKey(key, d, k, "mb", MB);
  }

  lemma ParseKeyGB(key: string, d: string, k: nat)
    requires |d| >= 1 && AllDigits(d) && DigitsValue(d) == k && key == d + "gb"
    ensures Normalize(key) == key && ParseSpec(key) == Some(k * GB)
  {
    ParseKey(key, d, k, "gb", GB);
  }

  lemma ParseKeyTB(key: string, d: string, k: nat)
    requires |d| >= 1 && AllDigits(d) && DigitsValue(d) == k && key == d + "tb"
    ensures Normalize(key) == key && ParseSpec(key) == Some(k * TB)
  {
    ParseKey(key, d, k, "tb", TB);
  }

  lemma ParseEntriesOnes(i: nat)
    requires i < |ParseCommonOnes|
    ensures Normalize(ParseCommonOnes[i].key) == ParseCommonOnes[i].key
    ensures ParseSpec(ParseCommonOnes[i].key) == Some(ParseCommonOnes[i].bytes)
  {
    var e := ParseCommonOnes[i];
    if i == 0 { ParseZeroKey(e.key); }
    else if i == 1 { DigitsValue1('1'); ParseKeyKB(e.key, "1", 1); }
    else if i == 2 { DigitsValue1('1'); ParseKeyMB(e.key, "1", 1); }
    else if i == 3 { DigitsValue1('1'); ParseKeyGB(e.key, "1", 1); }
    else { DigitsValue1('1'); ParseKeyTB(e.key, "1", 1); }
  }

  lemma ParseEntriesSmallKB(i: nat)
    requires i < 5
    ensures Normalize(ParseCommonKB[i].key) == ParseCommonKB[i].key
    ensures ParseSpec(ParseCommonKB[i].key) == Some(ParseCommonKB[i].bytes)
  {
    var e := ParseCommonKB[i];
    if i == 0 { DigitsValue1('2'); ParseKeyKB(e.key, "2", 2); }
    else if i == 1 { DigitsValue1('4'); ParseKeyKB(e.key, "4", 4); }
    else if i == 2 { DigitsValue1('8'); ParseKeyKB(e.key, "8", 8); }
    else if i == 3 { DigitsValue2('1', '6'); ParseKeyKB(e.key, "16", 16); }
    else { DigitsValue2('3', '2'); ParseKeyKB(e.key, "32", 32); }
  }

  lemma ParseEntriesLargeKB(i: nat)
    requires 5 <= i < |ParseCommonKB|
    ensures Normalize(ParseCommonKB[i].key) == ParseCommonKB[i].key
    ensures ParseSpec(ParseCommonKB[i].key) == Some(ParseCommonKB[i].bytes)
  {
    var e := ParseCommonKB[i];
    if i == 5 { DigitsValue2('6', '4'); ParseKeyKB(e.key, "64", 64); }
    else if i == 6 { DigitsValue3('1', '2', '8'); ParseKeyKB(e.key, "128", 128); }
    else if i == 7 { DigitsValue3('2', '5', '6'); ParseKeyKB(e.key, "256", 256); }
    else if i == 8 { DigitsValue3('5', '1', '2'); ParseKeyKB(e.key, "512", 512); }
    else { DigitsValue4('1', '0', '2', '4'); ParseKeyKB(e.key, "1024", 1024); }
  }

  lemma ParseEntriesSmallMB(i: nat)
    requires i < 5
    ensures Normalize(ParseCommonMB[i].key) == ParseCommonMB[i].key
    ensures ParseSpec(ParseCommonMB[i].key) == Some(ParseCommonMB[i].bytes)
  {
    var e := ParseCommonMB[i];
    if i == 0 { DigitsValue1('2'); ParseKeyMB(e.key, "2", 2); }
    else if i == 1 { DigitsValue1('4'); ParseKeyMB(e.key, "4", 4); }
    else if i == 2 { DigitsValue1('8'); ParseKeyMB(e.key, "8", 8); }
    else if i == 3 { DigitsValue2('1', '6'); ParseKeyMB(e.key, "16", 16); }
    else { DigitsValue2('3', '2'); ParseKeyMB(e.key, "32", 32); }
  }

  lemma ParseEntriesLargeMB(i: nat)
    requires 5 <= i < |ParseCommonMB|
    ensures Normalize(ParseCommonMB[i].key) == ParseCommonMB[i].key
    ensures ParseSpec(ParseCommonMB[i].key) == Some(ParseCommonMB[i].bytes)
  {
    var e := ParseCommonMB[i];
    if i == 5 { DigitsValue2('6', '4'); ParseKeyMB(e.key, "64", 64); }
    else if i == 6 { DigitsValue3('1', '2', '8'); ParseKeyMB(e.key, "128", 128); }
    else if i == 7 { DigitsValue3('2', '5', '6'); ParseKeyMB(e.key, "256", 256); }
    else { DigitsValue3('5', '1', '2'); ParseKeyMB(e.key, "512", 512); }
  }

  lemma ParseEntriesSmallGB(i: nat)
    requires i < 5
    ensures Normalize(ParseCommonGB[i].key) == ParseCommonGB[i].key
    ensures ParseSpec(ParseCommonGB[i].key) == Some(ParseCommonGB[i].bytes)
  {
    var e := ParseCommonGB[i];
    if i == 0 { DigitsValue1('2'); ParseKeyGB(e.key, "2", 2); }
    else if i == 1 { DigitsValue1('4'); ParseKeyGB(e.key, "4", 4); }
    else if i == 2 { DigitsValue1('8'); ParseKeyGB(e.key, "8", 8); }
    else if i == 3 { DigitsValue2('1', '6'); ParseKeyGB(e.key, "16", 16); }
    else { DigitsValue2('3', '2'); ParseKeyGB(e.key, "32", 32); }
  }

  lemma ParseEntriesLargeGB(i: nat)
    requires 5 <= i < |ParseCommonGB|
    ensures Normalize(ParseCommonGB[i].key) == ParseCommonGB[i].key
    ensures ParseSpec(ParseCommonGB[i].key) == Some(ParseCommonGB[i].bytes)
  {
    var e := ParseCommonGB[i];
    if i == 5 { DigitsValue2('6', '4'); ParseKeyGB(e.key, "64", 64); }
    else if i == 6 { DigitsValue3('1', '2', '8'); ParseKeyGB(e.key, "128", 128); }
    else if i == 7 { DigitsValue3('2', '5', '6'); ParseKeyGB(e.key, "256", 256); }
    else { DigitsValue3('5', '1', '2'); ParseKeyGB(e.key, "512", 512); }
  }

  lemma ParseEntriesTB(i: nat)
    requires i < |ParseCommonTB|
    ensures Normalize(ParseCommonTB[i].key) == ParseCommonTB[i].key
    ensures ParseSpec(ParseCommonTB[i].key) == Some(ParseCommonTB[i].bytes)
  {
    var e := ParseCommonTB[i];
    if i == 0 { DigitsValue1('2'); ParseKeyTB(e.key, "2", 2); }
    else if i == 1 { DigitsValue1('4'); ParseKeyTB(e.key, "4", 4); }
    else { DigitsValue1('8'); ParseKeyTB(e.key, "8", 8); }
  }

  /** Every property of the literal is normalized and parses, uncached, to its value. */
  lemma ParseEntriesAgree(i: nat)
    requires i < |ParseCommonEntries|
    ensures Normalize(ParseCommonEntries[i].key) == ParseCommonEntries[i].key
    ensures ParseSpec(ParseCommonEntries[i].key) == Some(ParseCommonEntries[i].bytes)
  {
    var n1 := |ParseCommonOnes|;
    var n2 := n1 + |ParseCommonKB|;
    var n3 := n2 + |ParseCommonMB|;
    var n4 := n3 + |ParseCommonGB|;
    if i < n1 { ParseEntriesOnes(i); }
    else if i < n1 + 5 { ParseEntriesSmallKB(i - n1); }
    else if i < n2 { ParseEntriesLargeKB(i - n1); }
    else if i < n2 + 5 { ParseEntriesSmallMB(i - n2); }
    else if i < n3 { ParseEntriesLargeMB(i - n2); }
    else if i < n3 + 5 { ParseEntriesSmallGB(i - n3); }
    else if i < n4 { ParseEntriesLargeGB(i - n3); }
    else { ParseEntriesTB(i - n4); }
  }

  /**
   * Every key of `parseCacheCommon` is already normalized and parses,
   * uncached, to its table value.
   */
  lemma ParseCacheCommonAgrees(key: string)
    requires key in ParseCacheCommon
    ensures Normalize(key) == key && ParseSpec(key) == Some(ParseCacheCommon[key])
  {
    TableOfValues(ParseCommonEntries, key);
    var i :| 0 <= i < |ParseCommonEntries| && ParseCommonEntries[i].key == key
             && ParseCacheCommon[key] == ParseCommonEntries[i].bytes;
    ParseEntriesAgree(i);
  }

  /** The value at the last position of the literal is the table's value for its key. */
  lemma TableOfLast(entries: seq<ParseEntry>)
    requires entries != []
    ensures entries[|entries| - 1].key in TableOf(entries)
    ensures TableOf(entries)[entries[|entries| - 1].key] == entries[|entries| - 1].bytes
  {
  }

  // ---------------------------------------------------------------------------
  // The cached parse

  /** Every dynamic entry was stored under the normal form of a text that parses to it. */
  ghost predicate ParseCacheSound(cache: map<string, int>) {
    forall key :: key in cache ==> exists t :: Normalize(t) == key && ParseSpec(t) == Some(cache[key])
  }

  /** Every dynamic entry is what `format` computes for its number without options. */
  predicate FormatCacheSound(cache: map<real, string>) {
    forall v :: v in cache ==> FormatSpec(Finite(v), None) == Text(cache[v])
  }

  /** Storing the text `format` computes for a number keeps the cache sound. */
  lemma FormatCacheStore(cache: map<real, string>, v: real, t: string)
    requires FormatCacheSound(cache) && FormatSpec(Finite(v), None) == Text(t)
    ensures FormatCacheSound(cache[v := t])
  {
  }

  /** Storing a parsed number under the normal form of its string keeps the cache sound. */
  lemma ParseCacheStore(cache: map<string, int>, s: string, n: int)
    requires ParseCacheSound(cache) && ParseSpec(s) == Some(n)
    ensures ParseCacheSound(cache[Normalize(s) := n])
  {
  }

  /**
   * What `parse` (index.js:266-315) returns given the dynamic cache: a string
   * whose normal form is a key of the static table, then of the dynamic
   * cache, gets the stored number without being parsed.
   */
  function ParseWithCache(value: Value, cache: map<string, int>): (r: Outcome)
    ensures r.Null? || r.Numeric?
    ensures r.Numeric? && value.Str? ==> r.number.Finite? && r.number.value.Floor as real == r.number.value
    ensures !value.Str? ==> r == ParseUncached(value)
    ensures value.Str? && Normalize(value.s) !in ParseCacheCommon && Normalize(value.s) !in cache
            ==> r == ParseUncached(value)
  {
    match value
    case Str(s) =>
      var key := Normalize(s);
      if key in ParseCacheCommon then Numeric(Finite(ParseCacheCommon[key] as real))
      else if key in cache then Numeric(Finite(cache[key] as real))
      else ParseUncached(value)
    case _ => ParseUncached(value)
  }

  /**
   * The caches are only a partial substitute for parsing: a value that is not
   * a string is parsed as always; a stored number never stands for null; and
   * every number the cached parse returns for a string is what the uncached
   * parse gives for some string with the same normal form, though not
   * necessarily for this one.
   */
  lemma ParseWithCacheSound(value: Value, cache: map<string, int>)
    requires ParseCacheSound(cache)
    ensures var r := ParseWithCache(value, cache);
            && (!value.Str? ==> r == ParseUncached(value))
            && (r.Null? || r.Numeric?)
            && (r.Null? ==> ParseUncached(value).Null?)
            && (value.Str? && r.Numeric? ==>
                  exists t :: Normalize(t) == Normalize(value.s) && ParseUncached(Str(t)) == r)
  {
    if value.Str? {
      var key := Normalize(value.s);
      var r := ParseWithCache(value, cache);
      if key in ParseCacheCommon {
        ParseCacheCommonAgrees(key);
        assert Normalize(key) == key && ParseUncached(Str(key)) == r;
      } else if key in cache {
        var t :| Normalize(t) == key && ParseSpec(t) == Some(cache[key]);
        assert ParseUncached(Str(t)) == r;
      } else {
        assert ParseUncached(Str(value.s)) == r;
      }
    }
  }

  /**
   * The lower-case property names every object literal inherits from
   * Object.prototype: a lookup in `parseCacheCommon` finds them although the
   * literal does not list them.
   */
  const InheritedNames: set<string> := {"constructor", "__proto__"}

  /**
   * `parse` as written (index.js:276-280): `parseCacheCommon[normalized]`
   * also reads inherited properties, which are not undefined, so a string
   * normalizing to one of their names returns the inherited object.
   */
  function ParseWithCacheAsWritten(value: Value, cache: map<string, int>): (r: Outcome)
    ensures !r.Inherited? ==> r == ParseWithCache(value, cache)
    ensures r.Inherited? ==> value.Str? && r.property == Normalize(value.s) && r.property in InheritedNames
  {
    if value.Str? && Normalize(value.s) !in ParseCacheCommon && Normalize(value.s) in InheritedNames
    then Inherited(Normalize(value.s))
    else ParseWithCache(value, cache)
  }

  /**
   * `parse('constructor')` returns the Object constructor through the
   * static table, where the uncached parse returns null and the own-property
   * lookup ParseWithCache returns null or a number.
   */
  lemma InheritedKeyExample(s: string, cache: map<string, int>)
    requires s == "constructor"
    ensures ParseWithCacheAsWritten(Str(s), cache) == Inherited("constructor")
    ensures ParseUncached(Str(s)) == Null
  {
    ConstructorPlain(s);
    ParseNoDigits(s);
    if s in ParseCacheCommon {
      ParseCacheCommonAgrees(s);
      assert false;
    }
  }

  lemma ConstructorPlain(s: string)
    requires s == "constructor"
    ensures Normalize(s) == s && s in InheritedNames
    ensures s != [] && !IsJsSpace(s[0]) && s[0] != '-' && s[0] != '+' && !IsDigit(s[0])
  {
    forall i | 0 <= i < |s|
      ensures !('A' <= s[i] <= 'Z') && !IsJsSpace(s[i])
    {
      assert 'a' <= s[i] <= 'z';
    }
    PlainNormalize(s);
  }

  lemma NormalizeLeadingSpace(t: string)
    ensures Normalize(" " + t) == Normalize(t)
  {
    var s := " " + t;
    assert ToLower(s) == " " + ToLower(t);
    assert ToLower(s)[1..] == ToLower(t);
  }

  /**
   * The static table answers for the normal form, while the grammar runs on
   * the original text: `parse(' 8tb')` is 8 TB from the table, though the
   * grammar rejects the leading space and parseInt reads 8.
   */
  lemma StaticTableDivergence(s: string, cache: map<string, int>)
    requires s == " 8tb"
    ensures ParseWithCache(Str(s), cache) == Numeric(Finite(8796093022208.0))
    ensures ParseUncached(Str(s)) == Numeric(Finite(8.0))
  {
    var m := EightTerabytesMatch(s);
    ParseLeadingSpace(" ", m);
    var key := MatchText(m);
    NormalizeLeadingSpace(key);
    ParseEntriesAgree(|ParseCommonEntries| - 1);
    TableOfLast(ParseCommonEntries);
  }

  /** " 8tb" is a space before the match of 8 terabytes, and "8tb" is the last key of the table. */
  lemma EightTerabytesMatch(s: string) returns (m: Match)
    requires s == " 8tb"
    ensures IsMatch(m) && " " + MatchText(m) == s
    ensures m.sign == "" && DigitsValue(m.intDigits) == 8
    ensures MatchText(m) == ParseCommonEntries[|ParseCommonEntries| - 1].key
    ensures ParseCommonEntries[|ParseCommonEntries| - 1].bytes == 8796093022208
  {
    DigitsValue1('8');
    m := Match("", "8", "", 0, "tb");
    assert ToLower("tb") == "tb";
  }

  // ---------------------------------------------------------------------------
  // The converter

  /**
   * The uncached part of `format` (index.js:212-245): the settings, the
   * threshold walk unless a known unit is forced, toFixed and the rewriting
   * of its digits, then the unit separator and the unit.
   */
  method FormatValue(v: real, options: Option<FormatOptions>) returns (r: Outcome)
    ensures r == FormatSpec(Finite(v), options)
  {
    var mag := Abs(v);
    var unit := ForcedUnit(options);
    if unit == "" || !KnownUnit(unit) {
      unit := SelectUnit(mag);
    }
    var d := DecimalPlaces(options);
    if !(0 <= d <= 100) {
      return RangeError;
    }
    var str := RenderNumeral(InUnits(v, unit), d, FixedDecimals(options), ThousandsSeparator(options));
    r := Text(str + UnitSeparator(options) + unit);
  }

  /**
   * The module state of bytes.js: the lookup the startup loop fills and the
   * two dynamic caches, each a `Map` that only grows and stops taking
   * entries at 1000.
   */
  class ByteConverter {
    var commonLookup: map<real, string>
    var formatCache: map<real, string>
    var parseCache: map<string, int>

    ghost predicate Valid()
      reads this
    {
      && FormatCacheSound(commonLookup)
      && |formatCache| <= CacheLimit
      && |parseCache| <= CacheLimit
      && FormatCacheSound(formatCache)
      && ParseCacheSound(parseCache)
    }

    /** Module load: the lookup filled from `commonValues`, both caches empty. */
    constructor()
      ensures Valid()
      ensures commonLookup == LookupOf(CommonValues)
      ensures formatCache == map[] && parseCache == map[]
    {
      var lookup := BuildLookup(CommonValues);
      CommonLookupSound();
      commonLookup := lookup;
      formatCache := map[];
      parseCache := map[];
    }

    /**
     * `format(value, options)` (index.js:192-253): without options the
     * lookup and then the cache answer first, and a computed text is stored
     * while the cache has room. The result never depends on the caches.
     */
    method Format(value: Value, options: Option<FormatOptions>) returns (r: Outcome)
      requires Valid()
      modifies this
      ensures Valid()
      ensures r == if value.Num? then FormatSpec(value.n, options) else Null
      ensures commonLookup == old(commonLookup) && parseCache == old(parseCache)
      ensures formatCache ==
                if && options.None? && value.Num? && value.n.Finite?
                   && value.n.value !in old(commonLookup) && value.n.value !in old(formatCache)
                   && |old(formatCache)| < CacheLimit
                then old(formatCache)[value.n.value := r.text]
                else old(formatCache)
    {
      if !value.Num? || !value.n.Finite? {
        r := Null;
      } else if options.None? && value.n.value in commonLookup {
        r := Text(commonLookup[value.n.value]);
      } else if options.None? && value.n.value in formatCache {
        r := Text(formatCache[value.n.value]);
      } else {
        var v := value.n.value;
        r := FormatValue(v, options);
        if options.None? && |formatCache| < CacheLimit {
          FormatCacheStore(formatCache, v, r.text);
          formatCache := formatCache[v := r.text];
        }
      }
    }

    /**
     * `parse(value)` (index.js:266-315): a number other than NaN comes back
     * as it is; a string is looked up by its normal form in the static table
     * and then in the cache, and only then parsed, the parsed number being
     * stored under the normal form while the cache has room.
     */
    method Parse(value: Value) returns (r: Outcome)
      requires Valid()
      modifies this
      ensures Valid()
      ensures r == ParseWithCache(value, old(parseCache))
      ensures commonLookup == old(commonLookup) && formatCache == old(formatCache)
      ensures parseCache ==
                if && value.Str? && Normalize(value.s) !in ParseCacheCommon
                   && Normalize(value.s) !in old(parseCache)
                   && ParseSpec(value.s).Some? && |old(parseCache)| < CacheLimit
                then old(parseCache)[Normalize(value.s) := ParseSpec(value.s).value]
                else old(parseCache)
    {
      if value.Num? && !value.n.NaN? {
        r := Numeric(value.n);
      } else if !value.Str? {
        r := Null;
      } else {
        var normalized := Normalize(value.s);
        if normalized in ParseCacheCommon {
          r := Numeric(Finite(ParseCacheCommon[normalized] as real));
        } else if normalized in parseCache {
          r := Numeric(Finite(parseCache[normalized] as real));
        } else {
          var parsed := ParseSpec(value.s);
          if parsed.None? {
            r := Null;
          } else {
            if |parseCache| < CacheLimit {
              ParseCacheStore(parseCache, value.s, parsed.value);
              parseCache := parseCache[normalized := parsed.value];
            }
            r := Numeric(Finite(parsed.value as real));
          }
        }
      }
    }

    /** `bytes(value, options)` (index.js:162-172): parse a string, format a number, null otherwise. */
    method Bytes(value: Value, options: Option<FormatOptions>) returns (r: Outcome)
      requires Valid()
      modifies this
      ensures Valid()
      ensures value.Str? ==> r == ParseWithCache(value, old(parseCache)) && formatCache == old(formatCache)
      ensures value.Str? ==>
                parseCache ==
                  if && Normalize(value.s) !in ParseCacheCommon && Normalize(value.s) !in old(parseCache)
                     && ParseSpec(value.s).Some? && |old(parseCache)| < CacheLimit
                  then old(parseCache)[Normalize(value.s) := ParseSpec(value.s).value]
                  else old(parseCache)
      ensures value.Num? ==> r == FormatSpec(value.n, options) && parseCache == old(parseCache)
      ensures value.Num? ==>
                formatCache ==
                  if && options.None? && value.n.Finite?
                     && value.n.value !in old(commonLookup) && value.n.value !in old(formatCache)
                     && |old(formatCache)| < CacheLimit
                  then old(formatCache)[value.n.value := r.text]
                  else old(formatCache)
      ensures value.Other? ==> r == Null && formatCache == old(formatCache) && parseCache == old(parseCache)
      ensures commonLookup == old(commonLookup)
    {
      match value
      case Str(_) => r := Parse(value);
      case Num(_) => r := Format(value, options);
      case Other => r := Null;
    }
  }

  /** The lookup, as a whole, holds only what `format` computes without options. */
  lemma CommonLookupSound()
    ensures FormatCacheSound(LookupOf(CommonValues))
  {
    forall v | v in LookupOf(CommonValues)
      ensures FormatSpec(Finite(v), None) == Text(LookupOf(CommonValues)[v])
    {
      CommonLookupAgrees(v);
    }
  }

  /** Every entry of the lookup is what `format` computes for its number without options. */
  lemma CommonLookupAgrees(v: real)
    requires v in LookupOf(CommonValues)
    ensures FormatSpec(Finite(v), None) == Text(LookupOf(CommonValues)[v])
  {
    LookupOfValues(CommonValues, v);
    CommonValuesAgree();
  }

  /**
   * A later call whose normal form hits the dynamic cache gets the stored
   * number: after `parse('-5')`, `parse('- 5')` is -5, though uncached it
   * is null, since parseInt stops at the space after the sign.
   */
  method DynamicCacheDivergence() returns (first: Outcome, second: Outcome)
    ensures first == Numeric(Finite(-5.0)) && second == Numeric(Finite(-5.0))
    ensures ParseUncached(Str("- 5")) == Null
  {
    var c := new ByteConverter();
    var a := "-5";
    var b := "- 5";
    NegativeFive(a);
    SignThenSpace(b);
    NotInStaticTable(a);
    NormalizeSignSpace(a, b);
    first := c.Parse(Str(a));
    second := c.Parse(Str(b));
  }

  /**
   * The dynamic cache also breaks the round trip of format and parse:
   * `parse(' 3KB')` misses the grammar, parseInt reads 3, and 3 is stored
   * under "3kb"; after that `parse(format(3072))`, which is `parse('3KB')`,
   * returns 3, though uncached it is 3072.
   */
  method RoundTripCacheDivergence() returns (first: Outcome, second: Outcome)
    ensures FormatSpec(Finite(3072.0), None) == Text("3KB")
    ensures ParseUncached(Str("3KB")) == Numeric(Finite(3072.0))
    ensures first == Numeric(Finite(3.0)) && second == Numeric(Finite(3.0))
  {
    var c := new ByteConverter();
    var a := " 3KB";
    var b := "3KB";
    FormatThreeKB(b);
    ParseThreeKB(b);
    ParseSpaceThreeKB(a);
    NormalizeThreeKB(a, b);
    ThreeKBNotInStaticTable("3kb");
    first := c.Parse(Str(a));
    second := c.Parse(Str(b));
  }

  /** `format(3072)` is "3KB". */
  lemma FormatThreeKB(b: string)
    requires b == "3KB"
    ensures FormatSpec(Finite(3072.0), None) == Text(b)
  {
    CanonicalUnitKnown("KB");
    DigitsValue1('3');
    CommonEntry(CommonValue(3072, b), "3", 3, "KB");
  }

  /** `parse('3KB')` is 3072, through the grammar. */
  lemma ParseThreeKB(b: string)
    requires b == "3KB"
    ensures ParseSpec(b) == Some(3072)
  {
    DigitsValue1('3');
    assert ToLower("KB") == "kb";
    ParseDigitsUnit(b, "3", 3, "KB", KB);
  }

  /** Digits of k directly followed by a unit of the grammar, in any case, parse to k of that unit. */
  lemma ParseDigitsUnit(key: string, d: string, k: nat, u: string, m: nat)
    requires |d| >= 1 && AllDigits(d) && DigitsValue(d) == k
    requires |u| == 2 && ToLower(u) in GrammarUnits && key == d + u
    requires ToLower(u) in UnitMap && Multiplier(u) == m
    ensures ParseSpec(key) == Some(k * m)
  {
    var x := Decimal(false, d, []);
    ShowWhole(x);
    ParseWholeNumeral(x, k, u);
  }

  /** `parse(' 3KB')` is 3: the space leaves the grammar and parseInt reads 3. */
  lemma ParseSpaceThreeKB(a: string)
    requires a == " 3KB"
    ensures ParseSpec(a) == Some(3)
  {
    DigitsValue1('3');
    var m := Match("", "3", "", 0, "KB");
    assert ToLower("KB") == "kb";
    assert IsMatch(m);
    assert " " + MatchText(m) == a;
    ParseLeadingSpace(" ", m);
  }

  /** " 3KB" and "3KB" share the normal form "3kb". */
  lemma NormalizeThreeKB(a: string, b: string)
    requires a == " 3KB" && b == "3KB"
    ensures Normalize(a) == "3kb" && Normalize(b) == "3kb"
  {
    assert a == " " + b;
    NormalizeLeadingSpace(b);
    assert ToLower(b) == "3kb";
    PlainNormalize("3kb");
    assert ToLower("3kb") == "3kb";
  }

  /** "3kb" is none of the keys of the static table. */
  lemma ThreeKBNotInStaticTable(k: string)
    requires k == "3kb"
    ensures k !in ParseCacheCommon
  {
    TableOfKeys(ParseCommonEntries);
    forall i | 0 <= i < |ParseCommonEntries|
      ensures ParseCommonEntries[i].key != k
    {
      var e := ParseCommonEntries[i];
      assert e in ParseCommonEntries;
      if e in ParseCommonOnes {
      } else if e in ParseCommonKB {
      } else if e in ParseCommonMB {
      } else if e in ParseCommonGB {
      } else {
        assert e in ParseCommonTB;
      }
    }
  }

  /** `parse('-5')` is -5, through parseInt. */
  lemma NegativeFive(a: string)
    requires a == "-5"
    ensures ParseSpec(a) == Some(-5)
  {
    MinusFiveNoGrammar(a);
    MinusFiveInt(a);
  }

  lemma MinusFiveNoGrammar(a: string)
    requires a == "-5"
    ensures Grammar(a).None?
  {
    assert ToLower(a[|a| - 2..])[0] == '-';
  }

  /** parseInt reads "-5" as the sign and the digit 5. */
  lemma MinusFiveInt(a: string)
    requires a == "-5"
    ensures ParseIntPrefix(a) == Some(-5)
  {
    var d := a[1..];
    assert d == "5" && a == "-" + d;
    DigitsValue1('5');
    EmptyPieces("-", d);
    ParseIntOfShape("", "-", d, "");
  }

  /** `parse('- 5')` is null: parseInt finds no digit right after the sign. */
  lemma SignThenSpace(b: string)
    requires b == "- 5"
    ensures ParseSpec(b).None?
  {
    assert Grammar(b).None? by {
      assert ToLower(b[|b| - 2..])[0] == ' ';
    }
    assert TrimStart(b) == b;
    assert SignOf(b) == "-";
    var body := b[1..];
    assert !IsDigit(body[0]);
    assert LeadingDigits(body) == 0;
  }

  /** "-5" is no key of the static table, whose numbers are all non-negative. */
  lemma NotInStaticTable(a: string)
    requires a == "-5"
    ensures Normalize(a) == a && a !in ParseCacheCommon
  {
    PlainNormalize(a);
    MinusFiveNoKey(a);
  }

  lemma MinusFiveNoKey(a: string)
    requires a == "-5"
    ensures a !in ParseCacheCommon
  {
    NegativeFive(a);
    if a in ParseCacheCommon {
      ParseCacheCommonAgrees(a);
      TableValuesNonNegative(a);
      assert false;
    }
  }

  /** Every value of the static table is a non-negative byte count. */
  lemma TableValuesNonNegative(key: string)
    requires key in ParseCacheCommon
    ensures ParseCacheCommon[key] >= 0
  {
    TableOfValues(ParseCommonEntries, key);
    var i :| 0 <= i < |ParseCommonEntries| && ParseCommonEntries[i].key == key
             && ParseCacheCommon[key] == ParseCommonEntries[i].bytes;
  }

  lemma NormalizeSignSpace(a: string, b: string)
    requires a == "-5" && b == "- 5"
    ensures Normalize(b) == Normalize(a)
  {
    PlainNormalize(a);
    assert ToLower(b) == b;
    assert RemoveSpaces(b) == [b[0]] + RemoveSpaces(b[1..]);
    assert RemoveSpaces(b[1..]) == RemoveSpaces(b[2..]);
    assert b[2..] == "5";
    RemoveSpacesNone("5");
  }
}
