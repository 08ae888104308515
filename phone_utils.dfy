/**
 * The Brazilian phone helpers of the client: digit extraction, the E.164-style
 * normal form used to compare numbers, the display format and the completeness
 * check. A number is the country code 55 (optional in the input), a two-digit
 * area code (DDD) and eight (landline) or nine (mobile) digits.
 */
module PhoneUtils {
  import opened Records
  import opened Text

  /** `onlyDigits`: the digits of `s`, in order. */
  function OnlyDigits(s: string): (r: string)
    ensures AllDigits(r) && |r| <= |s|
    ensures AllDigits(s) ==> r == s
    decreases |s|
  {
    if s == [] then []
    else if IsDigit(s[0]) then
      assert AllDigits(s) ==> AllDigits(s[1..]);
      [s[0]] + OnlyDigits(s[1..])
    else OnlyDigits(s[1..])
  }

  /** Digit extraction distributes over concatenation. */
  lemma {:induction false} OnlyDigitsConcat(a: string, b: string)
    ensures OnlyDigits(a + b) == OnlyDigits(a) + OnlyDigits(b)
    decreases |a|
  {
    if a == [] {
      assert a + b == b;
    } else {
      var ab := a + b;
      assert ab[0] == a[0] && ab[1..] == a[1..] + b;
      OnlyDigitsConcat(a[1..], b);
      var head := if IsDigit(a[0]) then [a[0]] else [];
      assert OnlyDigits(a) == head + OnlyDigits(a[1..]);
      assert OnlyDigits(ab) == head + (OnlyDigits(a[1..]) + OnlyDigits(b));
      assert head + (OnlyDigits(a[1..]) + OnlyDigits(b)) == (head + OnlyDigits(a[1..])) + OnlyDigits(b);
    }
  }

  /** A string without digits contributes nothing. */
  lemma {:induction false} OnlyDigitsNone(s: string)
    requires forall i :: 0 <= i < |s| ==> !IsDigit(s[i])
    ensures OnlyDigits(s) == []
    decreases |s|
  {
    if s != [] {
      OnlyDigitsNone(s[1..]);
    }
  }

  /** The digits after the country code 55, when the digits start with it. */
  function WithoutCountry(digits: string): (r: string)
    ensures |r| <= |digits| && r == digits[|digits| - |r|..]
    ensures |digits| - |r| == if StartsWith(digits, "55") then 2 else 0
    ensures AllDigits(digits) ==> AllDigits(r)
  {
    if StartsWith(digits, "55") then digits[2..] else digits
  }

  // ---------------------------------------------------------------------------
  // Normal form

  /** `normalizeE164BR`: the digits, with the country code prepended when they
      do not already start with it. */
  function NormalizeE164BR(phone: string): (r: string)
    ensures AllDigits(r) && StartsWith(r, "55")
    ensures |OnlyDigits(phone)| <= |r| <= |OnlyDigits(phone)| + 2
    ensures r[|r| - |OnlyDigits(phone)|..] == OnlyDigits(phone)
  {
    var digits := OnlyDigits(phone);
    if StartsWith(digits, "55") then digits else "55" + digits
  }

  /** The normal form is a fixed point. */
  lemma NormalizeIdempotent(phone: string)
    ensures NormalizeE164BR(NormalizeE164BR(phone)) == NormalizeE164BR(phone)
  {
  }

  /** Two inputs with the same digits have the same normal form. */
  lemma NormalizeDependsOnDigits(a: string, b: string)
    requires OnlyDigits(a) == OnlyDigits(b)
    ensures NormalizeE164BR(a) == NormalizeE164BR(b)
  {
  }

  // ---------------------------------------------------------------------------
  // Completeness

  /** `isValidBRPhone`: after dropping the country code, an area code and eight
      or nine digits remain. */
  predicate IsValidBRPhone(phone: string)
  {
    var local := WithoutCountry(OnlyDigits(phone));
    |local| == 10 || |local| == 11
  }

  /** Normalising never changes whether a number is complete. */
  lemma ValidityIgnoresNormalizing(phone: string)
    ensures IsValidBRPhone(NormalizeE164BR(phone)) == IsValidBRPhone(phone)
  {
    var digits := OnlyDigits(phone);
    if !StartsWith(digits, "55") {
      assert ("55" + digits)[..2] == "55";
      assert ("55" + digits)[2..] == digits;
    }
  }

  // ---------------------------------------------------------------------------
  // Display format

  /** `formatBRPhone` as written: `+55 (DD) NNNNN-NNNN`, a partial form while the
      number is incomplete. */
  function FormatBRPhone(phone: string): (r: string)
    ensures StartsWith(r, "+55 ")
  {
    FormatLocal(WithoutCountry(OnlyDigits(phone)))
  }

  /** The display of the digits after the country code. Every local number with
      more than five digits after the area code is grouped five-then-rest, so
      the four-four grouping meant for landlines is never reached (see
      `FormatLocalIntended`). */
  function FormatLocal(local: string): (r: string)
    ensures StartsWith(r, "+55 ")
  {
    if |local| < 2 then "+55 " + local
    else
      var ddd, number := local[..2], local[2..];
      if |number| == 0 then "+55 (" + ddd + ") "
      else if |number| > 5 then "+55 (" + ddd + ") " + number[..5] + "-" + number[5..Min(9, |number|)]
      else "+55 (" + ddd + ") " + number
  }

  /** The display format with the landline grouping reachable. */
  function FormatBRPhoneIntended(phone: string): (r: string)
    ensures StartsWith(r, "+55 ")
  {
    FormatLocalIntended(WithoutCountry(OnlyDigits(phone)))
  }

  /** As `FormatLocal`, except that exactly eight digits after the area code are
      shown four-four. */
  function FormatLocalIntended(local: string): (r: string)
    ensures StartsWith(r, "+55 ")
  {
    if |local| < 2 then "+55 " + local
    else
      var ddd, number := local[..2], local[2..];
      if |number| == 0 then "+55 (" + ddd + ") "
      else if |number| == 8 then "+55 (" + ddd + ") " + number[..4] + "-" + number[4..]
      else if |number| > 5 then "+55 (" + ddd + ") " + number[..5] + "-" + number[5..Min(9, |number|)]
      else "+55 (" + ddd + ") " + number
  }

  lemma LiteralDigits()
    ensures OnlyDigits("+55 ") == "55" && OnlyDigits("+55 (") == "55"
    ensures OnlyDigits(") ") == [] && OnlyDigits("-") == []
  {
    assert "+55 "[1..] == "55 " && "55 "[1..] == "5 " && "5 "[1..] == " ";
    assert "+55 ("[1..] == "55 (" && "55 ("[1..] == "5 (" && "5 ("[1..] == " (" && " ("[1..] == "(";
    OnlyDigitsNone(" ");
    OnlyDigitsNone(" (");
    OnlyDigitsNone(") ");
    OnlyDigitsNone("-");
  }

  /** The digits of a display built from digit groups are those groups. */
  lemma DisplayDigits(ddd: string, p1: string, p2: string)
    requires AllDigits(ddd) && AllDigits(p1) && AllDigits(p2)
    ensures OnlyDigits("+55 (" + ddd + ") " + p1) == "55" + ddd + p1
    ensures OnlyDigits("+55 (" + ddd + ") " + p1 + "-" + p2) == "55" + ddd + p1 + p2
  {
    LiteralDigits();
    var h1 := "+55 (" + ddd;
    OnlyDigitsConcat("+55 (", ddd);
    assert OnlyDigits(h1) == "55" + ddd;
    var h2 := h1 + ") ";
    OnlyDigitsConcat(h1, ") ");
    assert OnlyDigits(h2) == "55" + ddd;
    var h3 := h2 + p1;
    OnlyDigitsConcat(h2, p1);
    assert OnlyDigits(h3) == "55" + ddd + p1;
    var h4 := h3 + "-";
    OnlyDigitsConcat(h3, "-");
    assert OnlyDigits(h4) == "55" + ddd + p1;
    OnlyDigitsConcat(h4, p2);
  }

  /** The display keeps the country code, the area code and at most nine further
      digits, in order, and nothing else. */
  lemma FormatLocalDigits(local: string)
    requires AllDigits(local)
    ensures OnlyDigits(FormatLocal(local)) == "55" + local[..Min(11, |local|)]
  {
    if |local| < 2 {
      LiteralDigits();
      OnlyDigitsConcat("+55 ", local);
      assert local[..Min(11, |local|)] == local;
    } else if |local| > 7 {
      GroupedLocalDigits(local);
    } else {
      ShortLocalDigits(local);
    }
  }

  lemma GroupedLocalDigits(local: string)
    requires AllDigits(local) && |local| > 7
    ensures OnlyDigits(FormatLocal(local)) == "55" + local[..Min(11, |local|)]
  {
    var ddd, number := local[..2], local[2..];
    var p1, p2 := number[..5], number[5..Min(9, |number|)];
    assert FormatLocal(local) == "+55 (" + ddd + ") " + p1 + "-" + p2;
    AllDigitsSlice(local, 0, 2);
    AllDigitsSlice(local, 2, |local|);
    AllDigitsSlice(number, 0, 5);
    AllDigitsSlice(number, 5, Min(9, |number|));
    DisplayDigits(ddd, p1, p2);
    GroupedPrefix(local, ddd, p1, p2);
  }

  lemma GroupedPrefix(local: string, ddd: string, p1: string, p2: string)
    requires |local| > 7 && ddd == local[..2]
    requires p1 == local[2..][..5] && p2 == local[2..][5..Min(9, |local| - 2)]
    ensures "55" + local[..Min(11, |local|)] == "55" + ddd + p1 + p2
  {
    assert p1 == local[2..7];
    assert p2 == local[7..Min(11, |local|)];
    assert local[..Min(11, |local|)] == ddd + p1 + p2;
  }

  lemma ShortLocalDigits(local: string)
    requires AllDigits(local) && 2 <= |local| <= 7
    ensures OnlyDigits(FormatLocal(local)) == "55" + local[..Min(11, |local|)]
  {
    var ddd, number := local[..2], local[2..];
    AllDigitsSlice(local, 0, 2);
    AllDigitsSlice(local, 2, |local|);
    DisplayDigits(ddd, number, []);
    assert local[..Min(11, |local|)] == ddd + number;
    ConcatAssoc("55", ddd, number);
    if number == [] {
      assert FormatLocal(local) == "+55 (" + ddd + ") " + number;
    }
  }

  lemma FormatKeepsDigits(phone: string)
    ensures var local := WithoutCountry(OnlyDigits(phone));
      OnlyDigits(FormatBRPhone(phone)) == "55" + local[..Min(11, |local|)]
  {
    FormatLocalDigits(WithoutCountry(OnlyDigits(phone)));
  }

  /** Formatting a complete number loses nothing: the display has the same normal
      form as the input and is itself complete. */
  lemma FormatKeepsNumber(phone: string)
    requires IsValidBRPhone(phone)
    ensures NormalizeE164BR(FormatBRPhone(phone)) == NormalizeE164BR(phone)
    ensures IsValidBRPhone(FormatBRPhone(phone))
  {
    var digits := OnlyDigits(phone);
    var local := WithoutCountry(digits);
    FormatKeepsDigits(phone);
    var shown := OnlyDigits(FormatBRPhone(phone));
    assert shown == "55" + local;
    assert shown[..2] == "55" && shown[2..] == local;
    if !StartsWith(digits, "55") {
      assert local == digits;
    } else {
      assert digits == "55" + local;
    }
  }

  /** Formatting is a normal form: formatting the display again changes nothing. */
  lemma FormatIdempotent(phone: string)
    ensures FormatBRPhone(FormatBRPhone(phone)) == FormatBRPhone(phone)
  {
    var local := WithoutCountry(OnlyDigits(phone));
    FormatKeepsDigits(phone);
    var shown := OnlyDigits(FormatBRPhone(phone));
    var local' := local[..Min(11, |local|)];
    WithoutCountryOfCode(shown, local');
    FormatLocalTruncate(local);
  }

  lemma WithoutCountryOfCode(digits: string, local: string)
    requires digits == "55" + local
    ensures WithoutCountry(digits) == local
  {
    assert digits[..2] == "55" && digits[2..] == local;
  }

  /** Digits past the eleventh after the country code never reach the display. */
  lemma FormatLocalTruncate(local: string)
    ensures FormatLocal(local[..Min(11, |local|)]) == FormatLocal(local)
  {
    var local' := local[..Min(11, |local|)];
    if |local| >= 2 {
      var number, number' := local[2..], local'[2..];
      assert local'[..2] == local[..2];
      assert number' == number[..Min(9, |number|)];
      if |number| > 5 {
        assert number'[..5] == number[..5];
        assert number'[5..Min(9, |number'|)] == number[5..Min(9, |number|)];
      }
    }
  }

  /** A complete number is shown with every local digit, in a first group of four
      (landline) or five (mobile) and a last group of four. */
  lemma IntendedGrouping(phone: string)
    requires IsValidBRPhone(phone)
    ensures var local := WithoutCountry(OnlyDigits(phone));
      var number := local[2..];
      FormatBRPhoneIntended(phone) ==
        "+55 (" + local[..2] + ") " + number[..|number| - 4] + "-" + number[|number| - 4..]
  {
  }

  /** The correction changes the display of eight-digit local numbers only. */
  lemma IntendedDiffersOnlyOnLandline(phone: string)
    ensures var local := WithoutCountry(OnlyDigits(phone));
      FormatBRPhoneIntended(phone) != FormatBRPhone(phone) ==> |local| == 10
  {
  }

  /** On a digit string, both formats work on the digits after the country code. */
  lemma FormatOfDigits(digits: string, local: string)
    requires AllDigits(digits) && WithoutCountry(digits) == local
    ensures FormatBRPhone(digits) == FormatLocal(local)
    ensures FormatBRPhoneIntended(digits) == FormatLocalIntended(local)
  {
  }

  lemma DisplayDigitsOf(s: string, ddd: string, p1: string, p2: string, digits: string)
    requires AllDigits(ddd) && AllDigits(p1) && AllDigits(p2)
    requires s == "+55 (" + ddd + ") " + p1 + "-" + p2
    requires digits == "55" + ddd + p1 + p2
    ensures OnlyDigits(s) == digits
  {
    DisplayDigits(ddd, p1, p2);
  }
}

/** The examples documented beside the phone helpers. */
module PhoneUtilsExamples {
  import opened Text
  import opened PhoneUtils

  /** The documented landline example: as written, the number comes out with a
      five-digit first group and a three-digit last group. */
  lemma LandlineCounterexample()
    ensures FormatBRPhone("551499992039") == "+55 (14) 99992-039"
    ensures FormatBRPhoneIntended("551499992039") == "+55 (14) 9999-2039"
  {
    FormatOfDigits("551499992039", "1499992039");
    LandlineDisplay();
  }

  lemma LandlineDisplay()
    ensures FormatLocal("1499992039") == "+55 (14) 99992-039"
    ensures FormatLocalIntended("1499992039") == "+55 (14) 9999-2039"
  {
  }

  /** The documented mobile example holds for both versions. */
  lemma MobileExample()
    ensures FormatBRPhone("5514982250395") == "+55 (14) 98225-0395"
    ensures FormatBRPhoneIntended("5514982250395") == "+55 (14) 98225-0395"
  {
    FormatOfDigits("5514982250395", "14982250395");
    MobileDisplay();
  }

  lemma MobileDisplay()
    ensures FormatLocal("14982250395") == "+55 (14) 98225-0395"
    ensures FormatLocalIntended("14982250395") == "+55 (14) 98225-0395"
  {
  }

  /** The second documented example does not hold for either version: its
      input has nine digits after the area code, which are grouped 5-4, so its
      digits come out as given and not as the documented display shows them. */
  lemma SecondExampleMismatch()
    ensures FormatBRPhone("5522999920399") == "+55 (22) 99992-0399"
    ensures FormatBRPhoneIntended("5522999920399") == FormatBRPhone("5522999920399")
    ensures FormatBRPhone("5522999920399") != "+55 (22) 99999-2039"
  {
    FormatOfDigits("5522999920399", "22999920399");
    SecondExampleDisplay();
  }

  lemma SecondExampleDisplay()
    ensures FormatLocal("22999920399") == "+55 (22) 99992-0399"
    ensures FormatLocalIntended("22999920399") == "+55 (22) 99992-0399"
  {
  }

  /** The documented display is what the number "5522999992039" formats to, in
      both versions. */
  lemma SecondExampleCorrected()
    ensures FormatBRPhone("5522999992039") == "+55 (22) 99999-2039"
    ensures FormatBRPhoneIntended("5522999992039") == "+55 (22) 99999-2039"
  {
    FormatOfDigits("5522999992039", "22999992039");
    CorrectedExampleDisplay();
  }

  lemma CorrectedExampleDisplay()
    ensures FormatLocal("22999992039") == "+55 (22) 99999-2039"
    ensures FormatLocalIntended("22999992039") == "+55 (22) 99999-2039"
  {
  }

  /** The documented normal forms: of the display, and of the number without
      the country code. */
  lemma NormalizeExamples()
    ensures OnlyDigits("+55 (14) 98225-0395") == "5514982250395"
    ensures NormalizeE164BR("+55 (14) 98225-0395") == "5514982250395"
    ensures NormalizeE164BR("14982250395") == "5514982250395"
  {
    NormalizeDisplay("+55 (14) 98225-0395");
    NormalizeLocal("14982250395");
  }

  lemma NormalizeDisplay(phone: string)
    requires phone == "+55 (14) 98225-0395"
    ensures OnlyDigits(phone) == "5514982250395"
    ensures NormalizeE164BR(phone) == "5514982250395"
  {
    MobileDisplayDigits(phone);
    assert StartsWith(OnlyDigits(phone), "55");
  }

  lemma MobileDisplayDigits(phone: string)
    requires phone == "+55 (14) 98225-0395"
    ensures OnlyDigits(phone) == "5514982250395"
  {
    DisplayDigitsOf(phone, "14", "98225", "0395", "5514982250395");
  }

  lemma NormalizeLocal(phone: string)
    requires phone == "14982250395"
    ensures NormalizeE164BR(phone) == "5514982250395"
  {
    assert AllDigits(phone) && phone[0] == '1';
  }
}
