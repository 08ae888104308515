/**
 * The phone helpers exercised by the server's phone test suite. The suite
 * carries its own `formatBRPhone` and `normalizeE164BR`, which differ from the
 * client's: the display shows the country code only when the input has more
 * than eleven digits and starts with it, and the normal form is capped at
 * thirteen digits and carries a leading `+`. Its `onlyDigits` and its
 * completeness check are the client's (`PhoneUtils.OnlyDigits`,
 * `PhoneUtils.IsValidBRPhone`).
 */
module PhoneTest {
  import opened Records
  import opened Text
  import opened PhoneUtils

  /** The test suite's `formatBRPhone`: `(DD) NNNNN-NNNN` for mobiles,
      `(DD) NNNN-NNNN` for landlines, prefixed by `+55 ` when the input carried
      the country code. */
  function TestFormatBRPhone(raw: string): (r: string)
  {
    var digits := OnlyDigits(raw);
    var hasDDI := HasDDI(digits);
    Display(if hasDDI then digits[2..] else digits, hasDDI)
  }

  /** The country code is taken as present only when the digits start with it
      and are too many for an area code and a number alone. */
  predicate HasDDI(digits: string)
  {
    StartsWith(digits, "55") && |digits| > 11
  }

  /** The display of `d`: only its first eleven digits are used, the two of the
      area code and then a group of five (more than eight remain) or four, and
      a second group of the rest. An empty group contributes nothing. */
  function Display(digits: string, hasDDI: bool): (r: string)
  {
    var d := digits[..Min(11, |digits|)];
    var ddd := d[..Min(2, |d|)];
    var rest := d[Min(2, |d|)..];
    var cut := if |rest| > 8 then 5 else Min(4, |rest|);
    var part1 := rest[..cut];
    var part2 := rest[cut..Min(cut + 4, |rest|)];
    var formatted := Groups(ddd, part1, part2);
    if hasDDI then "+55 " + formatted else formatted
  }

  /** The area code in parentheses, then each group with its separator; an
      empty piece contributes nothing. */
  function Groups(ddd: string, part1: string, part2: string): string
  {
    (if ddd != [] then "(" + ddd + ")" else "") +
    (if part1 != [] then " " + part1 else "") +
    (if part2 != [] then "-" + part2 else "")
  }

  /** The test suite's `normalizeE164BR`: `+`, the country code, and at most
      thirteen digits in all. */
  function TestNormalizeE164BR(raw: string): (r: string)
    ensures 3 <= |r| <= 14 && r[0] == '+' && r[1..3] == "55" && AllDigits(r[1..])
  {
    var digits := OnlyDigits(raw);
    var d := if StartsWith(digits, "55") then digits else "55" + digits;
    CodedDigits(digits, d);
    var t := d[..Min(13, |d|)];
    AllDigitsSlice(d, 0, |t|);
    assert t[..2] == d[..2] && t == d[0..|t|];
    assert ("+" + t)[1..] == t;
    "+" + t
  }

  lemma CodedDigits(digits: string, d: string)
    requires AllDigits(digits)
    requires d == if StartsWith(digits, "55") then digits else "55" + digits
    ensures AllDigits(d) && |d| >= 2 && d[..2] == "55"
  {
    if !StartsWith(digits, "55") {
      assert d[..2] == "55" && d[2..] == digits;
    }
  }

  // ---------------------------------------------------------------------------
  // Properties

  lemma DigitsOfPieces(ddd: string, p1: string, p2: string)
    requires AllDigits(ddd) && AllDigits(p1) && AllDigits(p2)
    ensures OnlyDigits("(" + ddd + ")") == ddd
    ensures OnlyDigits(" " + p1) == p1
    ensures OnlyDigits("-" + p2) == p2
  {
    OnlyDigitsNone("(");
    OnlyDigitsNone(")");
    OnlyDigitsNone(" ");
    OnlyDigitsNone("-");
    OnlyDigitsConcat("(", ddd);
    OnlyDigitsConcat("(" + ddd, ")");
    OnlyDigitsConcat(" ", p1);
    OnlyDigitsConcat("-", p2);
  }

  /** The display shows exactly the first eleven digits after a country code
      it recognised, in order, preceded by that country code. */
  lemma DisplayKeepsDigits(digits: string, hasDDI: bool)
    requires AllDigits(digits)
    ensures OnlyDigits(Display(digits, hasDDI)) == (if hasDDI then "55" else "") + digits[..Min(11, |digits|)]
  {
    var ddd, part1, part2 := DisplayParts(digits);
    GroupsKeepDigits(ddd, part1, part2);
    if hasDDI {
      LiteralDigits();
      OnlyDigitsConcat("+55 ", Groups(ddd, part1, part2));
    } else {
      assert "" + digits[..Min(11, |digits|)] == digits[..Min(11, |digits|)];
    }
  }

  /** The pieces the display is built from, which together are the digits it
      keeps. */
  lemma DisplayParts(digits: string) returns (ddd: string, part1: string, part2: string)
    requires AllDigits(digits)
    ensures AllDigits(ddd) && AllDigits(part1) && AllDigits(part2)
    ensures digits[..Min(11, |digits|)] == ddd + part1 + part2
    ensures Display(digits, false) == Groups(ddd, part1, part2)
    ensures Display(digits, true) == "+55 " + Groups(ddd, part1, part2)
  {
    var d := digits[..Min(11, |digits|)];
    ddd := d[..Min(2, |d|)];
    var rest := d[Min(2, |d|)..];
    var cut := if |rest| > 8 then 5 else Min(4, |rest|);
    part1 := rest[..cut];
    part2 := rest[cut..Min(cut + 4, |rest|)];
    AllDigitsSlice(digits, 0, |d|);
    assert d == digits[0..|d|];
    AllDigitsSlice(d, 0, |ddd|);
    AllDigitsSlice(d, |ddd|, |d|);
    assert ddd == d[0..|ddd|] && rest == d[|ddd|..|d|];
    AllDigitsSlice(rest, 0, cut);
    AllDigitsSlice(rest, cut, Min(cut + 4, |rest|));
    assert part1 == rest[0..cut];
    assert d == ddd + part1 + part2;
  }

  lemma GroupsKeepDigits(ddd: string, part1: string, part2: string)
    requires AllDigits(ddd) && AllDigits(part1) && AllDigits(part2)
    ensures OnlyDigits(Groups(ddd, part1, part2)) == ddd + part1 + part2
  {
    DigitsOfPieces(ddd, part1, part2);
    var a := if ddd != [] then "(" + ddd + ")" else "";
    var b := if part1 != [] then " " + part1 else "";
    var c := if part2 != [] then "-" + part2 else "";
    assert OnlyDigits(a) == ddd && OnlyDigits(b) == part1 && OnlyDigits(c) == part2;
    OnlyDigitsConcat(a, b);
    OnlyDigitsConcat(a + b, c);
  }

  /** A complete number (ten or eleven digits once the country code is set
      aside) is shown whole, with a first group of four (landline) or five
      (mobile) digits and a last group of four. */
  lemma TestFormatGrouping(raw: string)
    requires IsValidBRPhone(raw)
    ensures var digits := OnlyDigits(raw);
      var local := if HasDDI(digits) then digits[2..] else digits;
      |local| == 10 || |local| == 11
    ensures var digits := OnlyDigits(raw);
      var local := if HasDDI(digits) then digits[2..] else digits;
      TestFormatBRPhone(raw) ==
        (if HasDDI(digits) then "+55 " else "") +
        ("(" + local[..2] + ") " + local[2..|local| - 4] + "-" + local[|local| - 4..])
  {
    var digits := OnlyDigits(raw);
    LocalOfValid(digits);
    var local := if HasDDI(digits) then digits[2..] else digits;
    CompleteGrouping(local, HasDDI(digits));
  }

  /** On a complete number the country code is recognised exactly when the
      completeness check sets it aside. */
  lemma LocalOfValid(digits: string)
    requires |WithoutCountry(digits)| == 10 || |WithoutCountry(digits)| == 11
    ensures WithoutCountry(digits) == if HasDDI(digits) then digits[2..] else digits
  {
    if StartsWith(digits, "55") {
      assert |digits| == |WithoutCountry(digits)| + 2;
    }
  }

  lemma CompleteGrouping(local: string, hasDDI: bool)
    requires |local| == 10 || |local| == 11
    ensures Display(local, hasDDI) ==
      (if hasDDI then "+55 " else "") +
      ("(" + local[..2] + ") " + local[2..|local| - 4] + "-" + local[|local| - 4..])
  {
    var ddd, p1, p2 := local[..2], local[2..|local| - 4], local[|local| - 4..];
    CompleteParts(local);
    FullGroups(ddd, p1, p2);
    if !hasDDI {
      assert "" + Groups(ddd, p1, p2) == Groups(ddd, p1, p2);
    }
  }

  lemma CompleteParts(local: string)
    requires |local| == 10 || |local| == 11
    ensures var g := Groups(local[..2], local[2..|local| - 4], local[|local| - 4..]);
      Display(local, false) == g && Display(local, true) == "+55 " + g
  {
    var rest := local[2..];
    var cut := if |rest| > 8 then 5 else 4;
    assert local[..Min(11, |local|)] == local;
    assert rest[..cut] == local[2..|local| - 4];
    assert rest[cut..Min(cut + 4, |rest|)] == local[|local| - 4..];
  }

  lemma FullGroups(ddd: string, p1: string, p2: string)
    requires ddd != [] && p1 != [] && p2 != []
    ensures Groups(ddd, p1, p2) == "(" + ddd + ") " + p1 + "-" + p2
  {
    assert "(" + ddd + ")" + (" " + p1) + ("-" + p2) == "(" + ddd + ") " + p1 + "-" + p2;
  }

  /** The display is a normal form: formatting it again gives it back. */
  lemma TestFormatIdempotent(raw: string)
    ensures TestFormatBRPhone(TestFormatBRPhone(raw)) == TestFormatBRPhone(raw)
  {
    var digits := OnlyDigits(raw);
    var hasDDI := HasDDI(digits);
    var local := if hasDDI then digits[2..] else digits;
    var kept := local[..Min(11, |local|)];
    DisplayKeepsDigits(local, hasDDI);
    var shown := OnlyDigits(TestFormatBRPhone(raw));
    assert shown == (if hasDDI then "55" else "") + kept;
    if hasDDI {
      assert shown[..2] == "55" && shown[2..] == kept;
      assert HasDDI(shown);
    } else {
      assert shown == digits[..Min(11, |digits|)];
      assert !HasDDI(shown);
    }
    DisplayTruncate(local, hasDDI);
  }

  lemma DisplayTruncate(digits: string, hasDDI: bool)
    ensures Display(digits[..Min(11, |digits|)], hasDDI) == Display(digits, hasDDI)
  {
    assert digits[..Min(11, |digits|)][..Min(11, Min(11, |digits|))] == digits[..Min(11, |digits|)];
  }

  /** With the country code present, digits past the thirteenth are ignored. */
  lemma TestFormatTruncate(raw: string)
    requires AllDigits(raw) && HasDDI(raw)
    ensures TestFormatBRPhone(raw) == TestFormatBRPhone(raw[..Min(13, |raw|)])
  {
    var t := raw[..Min(13, |raw|)];
    AllDigitsSlice(raw, 0, |t|);
    assert t == raw[0..|t|];
    assert t[..2] == raw[..2];
    assert HasDDI(t);
    assert t[2..] == raw[2..][..Min(11, |raw[2..]|)];
    DisplayTruncate(raw[2..], true);
    DisplayTruncate(t[2..], true);
  }

  /** The suite's normal form is the client's, with `+` in front and cut at
      thirteen digits. */
  lemma TestNormalizeIsClientNormalize(raw: string)
    ensures var n := NormalizeE164BR(raw);
      TestNormalizeE164BR(raw) == "+" + n[..Min(13, |n|)]
  {
  }

  /** The normal form is a fixed point. */
  lemma TestNormalizeIdempotent(raw: string)
    ensures TestNormalizeE164BR(TestNormalizeE164BR(raw)) == TestNormalizeE164BR(raw)
  {
    var r := TestNormalizeE164BR(raw);
    assert r == "+" + r[1..];
    OnlyDigitsNone("+");
    OnlyDigitsConcat("+", r[1..]);
    assert r[1..][..2] == "55";
  }

  /** For a complete number, the display and the input have the same normal
      form. */
  lemma TestFormatKeepsNumber(raw: string)
    requires IsValidBRPhone(raw)
    ensures TestNormalizeE164BR(TestFormatBRPhone(raw)) == TestNormalizeE164BR(raw)
  {
    TestFormatKeepsDigits(raw);
    TestNormalizeDependsOnDigits(TestFormatBRPhone(raw), raw);
  }

  lemma TestFormatKeepsDigits(raw: string)
    requires IsValidBRPhone(raw)
    ensures OnlyDigits(TestFormatBRPhone(raw)) == OnlyDigits(raw)
  {
    var digits := OnlyDigits(raw);
    LocalOfValid(digits);
    if HasDDI(digits) {
      DisplayWithDDIKeepsDigits(digits);
    } else {
      DisplayLocalKeepsDigits(digits);
    }
  }

  lemma DisplayLocalKeepsDigits(digits: string)
    requires AllDigits(digits) && |digits| <= 11
    ensures OnlyDigits(Display(digits, false)) == digits
  {
    DisplayKeepsDigits(digits, false);
    assert digits[..Min(11, |digits|)] == digits;
  }

  lemma DisplayWithDDIKeepsDigits(digits: string)
    requires AllDigits(digits) && StartsWith(digits, "55") && 12 <= |digits| <= 13
    ensures OnlyDigits(Display(digits[2..], true)) == digits
  {
    var local := digits[2..];
    AllDigitsSlice(digits, 2, |digits|);
    DisplayKeepsDigits(local, true);
    assert local[..Min(11, |local|)] == local;
    assert digits == "55" + local;
  }

  lemma TestNormalizeDependsOnDigits(a: string, b: string)
    requires OnlyDigits(a) == OnlyDigits(b)
    ensures TestNormalizeE164BR(a) == TestNormalizeE164BR(b)
  {
  }
}

/** The expectations of the phone test suite. */
module PhoneTestCases {
  import opened Records
  import opened Text
  import opened PhoneUtils
  import opened PhoneTest

  /** `onlyDigits` removes every character that is not a digit. */
  lemma OnlyDigitsRemovesOthers()
    ensures OnlyDigits("+55 (11) 98765-4321") == "5511987654321"
    ensures OnlyDigits("abc123def456") == "123456"
    ensures OnlyDigits("(22) 99999-2039") == "22999992039"
  {
    PlusDisplayDigits("+55 (11) 98765-4321");
    MixedDigits("abc123def456");
    LocalDisplayExample("(22) 99999-2039");
  }

  lemma LocalDisplayExample(s: string)
    requires s == "(22) 99999-2039"
    ensures OnlyDigits(s) == "22999992039"
  {
    LocalDisplayDigits(s, "22", "99999", "2039", "22999992039");
  }

  /** `onlyDigits` of a string without digits is empty. */
  lemma OnlyDigitsEmpty()
    ensures OnlyDigits("abc") == [] && OnlyDigits("()- ") == []
  {
    NoDigits("abc");
    NoDigits("()- ");
  }

  lemma NoDigits(s: string)
    requires s == "abc" || s == "()- "
    ensures OnlyDigits(s) == []
  {
    OnlyDigitsNone(s);
  }

  lemma MixedDigits(s: string)
    requires s == "abc123def456"
    ensures OnlyDigits(s) == "123456"
  {
    var a, b, c, d := "abc", "123", "def", "456";
    assert s == a + b + c + d;
    assert b + d == "123456";
    assert AllDigits(b) && AllDigits(d);
    OnlyDigitsNone(a);
    OnlyDigitsNone(c);
    OnlyDigitsConcat(a, b);
    assert OnlyDigits(a + b) == b;
    OnlyDigitsConcat(a + b, c);
    assert OnlyDigits(a + b + c) == b;
    OnlyDigitsConcat(a + b + c, d);
    assert OnlyDigits(a + b + c + d) == b + d;
  }

  lemma PlusDisplayDigits(s: string)
    requires s == "+55 (11) 98765-4321"
    ensures OnlyDigits(s) == "5511987654321"
  {
    DisplayDigitsOf(s, "11", "98765", "4321", "5511987654321");
  }

  lemma LocalDisplayDigits(s: string, ddd: string, p1: string, p2: string, digits: string)
    requires AllDigits(ddd) && AllDigits(p1) && AllDigits(p2)
    requires s == "(" + ddd + ")" + " " + p1 + "-" + p2
    requires digits == ddd + p1 + p2
    ensures OnlyDigits(s) == digits
  {
    DigitsOfPieces(ddd, p1, p2);
    var h1 := "(" + ddd + ")";
    var h2 := h1 + " " + p1;
    assert h2 == h1 + (" " + p1);
    OnlyDigitsConcat(h1, " " + p1);
    assert OnlyDigits(h2) == ddd + p1;
    assert s == h2 + ("-" + p2);
    OnlyDigitsConcat(h2, "-" + p2);
  }

  // ---------------------------------------------------------------------------
  // formatBRPhone

  /** A digit-only input that splits into an area code and two groups. */
  lemma DigitCase(raw: string, hasDDI: bool, ddd: string, p1: string, p2: string, shown: string)
    requires AllDigits(raw) && |ddd| == 2 && (|p1| == 4 || |p1| == 5) && |p2| == 4
    requires raw == (if hasDDI then "55" else "") + ddd + p1 + p2
    requires hasDDI == HasDDI(raw)
    requires shown == (if hasDDI then "+55 " else "") + ("(" + ddd + ") " + p1 + "-" + p2)
    ensures TestFormatBRPhone(raw) == shown
  {
    var local := ddd + p1 + p2;
    if hasDDI {
      assert raw == "55" + local;
      assert raw[2..] == local;
    } else {
      assert raw == local;
    }
    assert OnlyDigits(raw) == raw;
    assert TestFormatBRPhone(raw) == Display(local, hasDDI);
    CompleteGrouping(local, hasDDI);
    assert local[..2] == ddd && local[2..|local| - 4] == p1 && local[|local| - 4..] == p2;
  }

  lemma TestFormatDependsOnDigits(a: string, b: string)
    requires OnlyDigits(a) == OnlyDigits(b)
    ensures TestFormatBRPhone(a) == TestFormatBRPhone(b)
  {
  }

  /** Mobile numbers with the country code. */
  lemma FormatMobileWithDDI1()
    ensures TestFormatBRPhone("5511987654321") == "+55 (11) 98765-4321"
  {
    DigitCase("5511987654321", true, "11", "98765", "4321", "+55 (11) 98765-4321");
  }

  lemma FormatMobileWithDDI2()
    ensures TestFormatBRPhone("5522999992039") == "+55 (22) 99999-2039"
  {
    DigitCase("5522999992039", true, "22", "99999", "2039", "+55 (22) 99999-2039");
  }

  /** Mobile numbers without the country code. */
  lemma FormatMobileWithoutDDI1()
    ensures TestFormatBRPhone("11987654321") == "(11) 98765-4321"
  {
    DigitCase("11987654321", false, "11", "98765", "4321", "(11) 98765-4321");
  }

  lemma FormatMobileWithoutDDI2()
    ensures TestFormatBRPhone("22999992039") == "(22) 99999-2039"
  {
    DigitCase("22999992039", false, "22", "99999", "2039", "(22) 99999-2039");
  }

  /** Landlines with the country code. */
  lemma FormatLandlineWithDDI1()
    ensures TestFormatBRPhone("551199992039") == "+55 (11) 9999-2039"
  {
    DigitCase("551199992039", true, "11", "9999", "2039", "+55 (11) 9999-2039");
  }

  lemma FormatLandlineWithDDI2()
    ensures TestFormatBRPhone("552299992039") == "+55 (22) 9999-2039"
  {
    DigitCase("552299992039", true, "22", "9999", "2039", "+55 (22) 9999-2039");
  }

  /** Landlines without the country code. */
  lemma FormatLandlineWithoutDDI1()
    ensures TestFormatBRPhone("1199992039") == "(11) 9999-2039"
  {
    DigitCase("1199992039", false, "11", "9999", "2039", "(11) 9999-2039");
  }

  lemma FormatLandlineWithoutDDI2()
    ensures TestFormatBRPhone("2299992039") == "(22) 9999-2039"
  {
    DigitCase("2299992039", false, "22", "9999", "2039", "(22) 9999-2039");
  }

  /** Incomplete numbers are shown as far as they go. */
  lemma FormatPartialAreaCode()
    ensures TestFormatBRPhone("11") == "(11)"
  {
    PartialCase("11", "11", "", "", "(11)");
  }

  lemma FormatPartialOneDigit()
    ensures TestFormatBRPhone("119") == "(11) 9"
  {
    PartialCase("119", "11", "9", "", "(11) 9");
  }

  lemma FormatPartialFiveDigits()
    ensures TestFormatBRPhone("1198765") == "(11) 9876-5"
  {
    PartialCase("1198765", "11", "9876", "5", "(11) 9876-5");
  }

  /** A digit-only input without the country code and with at most eight
      digits after the area code: a first group of up to four, then the rest. */
  lemma PartialCase(raw: string, ddd: string, p1: string, p2: string, shown: string)
    requires AllDigits(raw) && |ddd| == 2 && raw == ddd + p1 + p2
    requires |p1| == 4 || (|p1| < 4 && p2 == [])
    requires |p2| <= 4 && !HasDDI(raw)
    requires shown == "(" + ddd + ")" + (if p1 != [] then " " + p1 else "") + (if p2 != [] then "-" + p2 else "")
    ensures TestFormatBRPhone(raw) == shown
  {
    assert OnlyDigits(raw) == raw;
    assert raw[..Min(11, |raw|)] == raw;
    assert raw[..2] == ddd && raw[2..] == p1 + p2;
    assert (p1 + p2)[..|p1|] == p1 && (p1 + p2)[|p1|..] == p2;
  }

  /** Formatting characters in the input are ignored. */
  lemma FormatIgnoresFormattingWithDDI()
    ensures TestFormatBRPhone("+55 (11) 98765-4321") == "+55 (11) 98765-4321"
  {
    FormattedMobile("+55 (11) 98765-4321");
  }

  lemma FormattedMobile(s: string)
    requires s == "+55 (11) 98765-4321"
    ensures TestFormatBRPhone(s) == "+55 (11) 98765-4321"
  {
    PlusDisplayDigits(s);
    TestFormatDependsOnDigits(s, "5511987654321");
    FormatMobileWithDDI1();
  }

  lemma FormatIgnoresFormattingWithoutDDI()
    ensures TestFormatBRPhone("(11) 98765-4321") == "(11) 98765-4321"
  {
    FormattedLocalMobile("(11) 98765-4321");
  }

  lemma FormattedLocalMobile(s: string)
    requires s == "(11) 98765-4321"
    ensures TestFormatBRPhone(s) == "(11) 98765-4321"
  {
    LocalMobileDigits(s);
    TestFormatDependsOnDigits(s, "11987654321");
    FormatMobileWithoutDDI1();
  }

  lemma LocalMobileDigits(s: string)
    requires s == "(11) 98765-4321"
    ensures OnlyDigits(s) == "11987654321"
  {
    LocalDisplayDigits(s, "11", "98765", "4321", "11987654321");
  }

  /** Digits beyond the country code, area code and nine digits are dropped. */
  lemma FormatLimitsDigits()
    ensures TestFormatBRPhone("551198765432199999") == "+55 (11) 98765-4321"
  {
    LongCase("551198765432199999");
  }

  lemma LongCase(raw: string)
    requires raw == "551198765432199999"
    ensures TestFormatBRPhone(raw) == "+55 (11) 98765-4321"
  {
    assert AllDigits(raw) && HasDDI(raw);
    TestFormatTruncate(raw);
    assert raw[..13] == "5511987654321";
    FormatMobileWithDDI1();
  }

  // ---------------------------------------------------------------------------
  // normalizeE164BR

  /** An input whose digits are `digits`, already carrying the country code. */
  lemma NormalizeCase(raw: string, digits: string)
    requires OnlyDigits(raw) == digits && AllDigits(digits)
    requires StartsWith(digits, "55") && |digits| <= 13
    ensures TestNormalizeE164BR(raw) == "+" + digits
  {
    assert digits[..Min(13, |digits|)] == digits;
  }

  /** An input whose digits are `digits`, without the country code. */
  lemma NormalizeLocalCase(raw: string, digits: string)
    requires OnlyDigits(raw) == digits && AllDigits(digits)
    requires !StartsWith(digits, "55") && |digits| <= 11
    ensures TestNormalizeE164BR(raw) == "+55" + digits
  {
    assert ("55" + digits)[..Min(13, |digits| + 2)] == "55" + digits;
    assert "+" + ("55" + digits) == "+55" + digits;
  }

  /** The country code is added when missing. */
  lemma NormalizeAddsDDI1(raw: string)
    requires raw == "11987654321"
    ensures TestNormalizeE164BR(raw) == "+5511987654321"
  {
    assert "+55" + raw == "+5511987654321";
    assert AllDigits(raw) && raw[0] == '1';
    NormalizeLocalCase(raw, raw);
  }

  lemma NormalizeAddsDDI2(raw: string)
    requires raw == "22999992039"
    ensures TestNormalizeE164BR(raw) == "+5522999992039"
  {
    assert "+55" + raw == "+5522999992039";
    assert AllDigits(raw) && raw[0] == '2';
    NormalizeLocalCase(raw, raw);
  }

  /** The country code is kept when present. */
  lemma NormalizeKeepsDDI1(raw: string)
    requires raw == "5511987654321"
    ensures TestNormalizeE164BR(raw) == "+5511987654321"
  {
    assert "+" + raw == "+5511987654321";
    assert AllDigits(raw) && StartsWith(raw, "55");
    NormalizeCase(raw, raw);
  }

  lemma NormalizeKeepsDDI2(raw: string)
    requires raw == "+5511987654321"
    ensures TestNormalizeE164BR(raw) == "+5511987654321"
  {
    var digits := raw[1..];
    assert digits == "5511987654321";
    assert AllDigits(digits) && StartsWith(digits, "55");
    PlusDigits(raw, digits);
    NormalizeCase(raw, digits);
  }

  lemma PlusDigits(s: string, digits: string)
    requires AllDigits(digits) && s == "+" + digits
    ensures OnlyDigits(s) == digits
  {
    OnlyDigitsNone("+");
    OnlyDigitsConcat("+", digits);
  }

  /** Formatting is removed before normalising. */
  lemma NormalizeRemovesFormatting1(raw: string)
    requires raw == "+55 (11) 98765-4321"
    ensures TestNormalizeE164BR(raw) == "+5511987654321"
  {
    assert "+" + "5511987654321" == "+5511987654321";
    PlusDisplayDigits(raw);
    NormalizeCase(raw, "5511987654321");
  }

  lemma NormalizeRemovesFormatting2(raw: string)
    requires raw == "(22) 99999-2039"
    ensures TestNormalizeE164BR(raw) == "+5522999992039"
  {
    assert "+55" + "22999992039" == "+5522999992039";
    LocalDisplayExample(raw);
    assert AllDigits("22999992039") && "22999992039"[0] == '2';
    NormalizeLocalCase(raw, "22999992039");
  }

  /** The normal form is cut at thirteen digits. */
  lemma NormalizeLimitsDigits(raw: string)
    requires raw == "551198765432199999"
    ensures TestNormalizeE164BR(raw) == "+5511987654321"
  {
    assert raw[..13] == "5511987654321";
    assert "+" + raw[..13] == "+5511987654321";
    assert AllDigits(raw) && StartsWith(raw, "55");
    assert OnlyDigits(raw) == raw;
  }

  // ---------------------------------------------------------------------------
  // validatePhone (the client's completeness check)

  /** Complete mobile numbers, bare, with the country code and formatted. */
  lemma ValidMobile1(raw: string)
    requires raw == "11987654321"
    ensures IsValidBRPhone(raw)
  {
    assert AllDigits(raw) && raw[0] == '1';
  }

  lemma ValidMobile2(raw: string)
    requires raw == "5511987654321"
    ensures IsValidBRPhone(raw)
  {
    assert AllDigits(raw) && StartsWith(raw, "55");
  }

  lemma ValidMobile3(raw: string)
    requires raw == "+55 (11) 98765-4321"
    ensures IsValidBRPhone(raw)
  {
    PlusDisplayDigits(raw);
    assert StartsWith("5511987654321", "55");
  }

  /** Complete landlines, bare, with the country code and formatted. */
  lemma ValidLandline1(raw: string)
    requires raw == "1199992039"
    ensures IsValidBRPhone(raw)
  {
    assert AllDigits(raw) && raw[0] == '1';
  }

  lemma ValidLandline2(raw: string)
    requires raw == "551199992039"
    ensures IsValidBRPhone(raw)
  {
    assert AllDigits(raw) && StartsWith(raw, "55");
  }

  lemma ValidLandline3(raw: string)
    requires raw == "+55 (11) 9999-2039"
    ensures IsValidBRPhone(raw)
  {
    LandlineDisplayDigits(raw);
    assert StartsWith("551199992039", "55");
  }

  lemma LandlineDisplayDigits(s: string)
    requires s == "+55 (11) 9999-2039"
    ensures OnlyDigits(s) == "551199992039"
  {
    DisplayDigitsOf(s, "11", "9999", "2039", "551199992039");
  }

  /** Incomplete numbers are rejected. */
  lemma IncompleteRejected1(raw: string)
    requires raw == "119"
    ensures !IsValidBRPhone(raw)
  {
    assert AllDigits(raw);
  }

  lemma IncompleteRejected2(raw: string)
    requires raw == "11987"
    ensures !IsValidBRPhone(raw)
  {
    assert AllDigits(raw);
  }

  lemma IncompleteRejected3(raw: string)
    requires raw == ""
    ensures !IsValidBRPhone(raw)
  {
  }
}
