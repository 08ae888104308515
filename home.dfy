/**
 * The logic of the dashboard page: the remaining-time label, the phone field
 * of the "add number" dialog (its input mask, its validation and what it
 * submits), the order of the number grid, the "next available" hint and the
 * status counters.
 */
module Home {
  import opened Records
  import opened Collections
  import opened Text
  import opened NumberStatus
  import opened PhoneUtils
  import opened Router

  // ---------------------------------------------------------------------------
  // formatTimeRemaining

  /** "{h}h {m}m", or "{m}m" below one hour, for a count of seconds. */
  function FormatTimeRemaining(seconds: nat): (r: string)
    ensures |r| >= 2 && r[|r| - 1] == 'm'
  {
    var hours := seconds / 3600;
    var minutes := (seconds % 3600) / 60;
    if hours > 0 then NatToString(hours) + "h " + NatToString(minutes) + "m"
    else NatToString(minutes) + "m"
  }

  lemma MinuteParts(s: nat)
    ensures s / 3600 == (s / 60) / 60
    ensures (s % 3600) / 60 == (s / 60) % 60
  {
    var q, r := s / 3600, s % 3600;
    var a, b := r / 60, r % 60;
    assert s == 60 * (60 * q + a) + b;
    assert s / 60 == 60 * q + a;
  }

  /** The label shows hours exactly when there is at least one whole hour. */
  lemma TimeLabelHasHours(s: nat)
    ensures 'h' in FormatTimeRemaining(s) <==> s / 3600 > 0
  {
    var m := NatToString((s % 3600) / 60);
    assert 'h' !in m + "m" by {
      forall i | 0 <= i < |m + "m"| ensures (m + "m")[i] != 'h' {
        if i < |m| {
          assert IsDigit(m[i]);
        }
      }
    }
    if s / 3600 > 0 {
      var hs := NatToString(s / 3600);
      assert FormatTimeRemaining(s)[|hs|] == 'h';
    }
  }

  lemma MinutesLabelInjective(m1: nat, m2: nat)
    requires NatToString(m1) + "m" == NatToString(m2) + "m"
    ensures m1 == m2
  {
    DigitRunSplit(NatToString(m1), "m", NatToString(m2), "m");
    NatToStringInjective(m1, m2);
  }

  lemma HoursLabelInjective(h1: nat, t1: string, h2: nat, t2: string)
    requires NatToString(h1) + ("h " + t1) == NatToString(h2) + ("h " + t2)
    ensures h1 == h2 && t1 == t2
  {
    var a1, a2 := "h " + t1, "h " + t2;
    assert a1[0] == 'h' && a2[0] == 'h';
    DigitRunSplit(NatToString(h1), a1, NatToString(h2), a2);
    NatToStringInjective(h1, h2);
    DropCommonPrefix("h ", t1, t2);
  }

  lemma TimeLabelShape(s: nat)
    ensures s / 3600 > 0 ==> FormatTimeRemaining(s) == NatToString(s / 3600) + ("h " + (NatToString((s % 3600) / 60) + "m"))
    ensures s / 3600 == 0 ==> FormatTimeRemaining(s) == NatToString((s % 3600) / 60) + "m"
  {
  }

  /** Equal labels have equal hour and minute parts. */
  lemma TimeLabelParts(s1: nat, s2: nat)
    requires FormatTimeRemaining(s1) == FormatTimeRemaining(s2)
    ensures s1 / 3600 == s2 / 3600 && (s1 % 3600) / 60 == (s2 % 3600) / 60
  {
    TimeLabelHasHours(s1);
    TimeLabelHasHours(s2);
    TimeLabelShape(s1);
    TimeLabelShape(s2);
    var h1, m1 := s1 / 3600, (s1 % 3600) / 60;
    var h2, m2 := s2 / 3600, (s2 % 3600) / 60;
    if h1 > 0 {
      HoursLabelInjective(h1, NatToString(m1) + "m", h2, NatToString(m2) + "m");
    }
    MinutesLabelInjective(m1, m2);
  }

  /** The label loses exactly the seconds: two counts get the same label if
      and only if they fall in the same whole minute. */
  lemma TimeLabelIsWholeMinutes(s1: nat, s2: nat)
    ensures FormatTimeRemaining(s1) == FormatTimeRemaining(s2) <==> s1 / 60 == s2 / 60
  {
    MinuteParts(s1);
    MinuteParts(s2);
    if FormatTimeRemaining(s1) == FormatTimeRemaining(s2) {
      TimeLabelParts(s1, s2);
    }
  }

  // ---------------------------------------------------------------------------
  // validatePhoneNumber

  /** The first failing check's message, or "" when the input is acceptable:
      something besides whitespace, only the allowed characters, and 10 to 15
      digits. */
  function ValidatePhoneNumber(phone: string): (r: string)
    ensures r == "" <==> Trim(phone) != [] && MatchesPhonePattern(phone) && 10 <= |OnlyDigits(phone)| <= 15
  {
    if Trim(phone) == [] then "Digite um número de telefone"
    else if !MatchesPhonePattern(phone) then "Use apenas números, +, -, ( ) e espaços"
    else if |OnlyDigits(phone)| < 10 then "Número muito curto (mínimo 10 dígitos)"
    else if |OnlyDigits(phone)| > 15 then "Número muito longo (máximo 15 dígitos)"
    else ""
  }

  /** Trimming removes whitespace only, so no digit. */
  lemma TrimKeepsDigits(phone: string)
    ensures OnlyDigits(Trim(phone)) == OnlyDigits(phone)
  {
    var i, j := TrimSlice(phone);
    SliceSpaces(phone, i, j);
    PaddingKeepsDigits(phone[..i], phone[i..j], phone[j..]);
  }

  lemma SliceSpaces(s: string, i: nat, j: nat)
    requires i <= j <= |s|
    requires forall k :: 0 <= k < i ==> IsSpace(s[k])
    requires forall k :: j <= k < |s| ==> IsSpace(s[k])
    ensures s == s[..i] + s[i..j] + s[j..]
    ensures forall k :: 0 <= k < |s[..i]| ==> !IsDigit(s[..i][k])
    ensures forall k :: 0 <= k < |s[j..]| ==> !IsDigit(s[j..][k])
  {
    assert s[..i] + s[i..j] == s[..j];
    assert s[..j] + s[j..] == s;
    forall k | 0 <= k < |s[j..]| ensures !IsDigit(s[j..][k]) {
      assert IsSpace(s[j + k]);
    }
  }

  lemma PaddingKeepsDigits(pre: string, mid: string, post: string)
    requires forall k :: 0 <= k < |pre| ==> !IsDigit(pre[k])
    requires forall k :: 0 <= k < |post| ==> !IsDigit(post[k])
    ensures OnlyDigits(pre + mid + post) == OnlyDigits(mid)
  {
    OnlyDigitsNone(pre);
    OnlyDigitsNone(post);
    OnlyDigitsConcat(pre, mid);
    OnlyDigitsConcat(pre + mid, post);
    assert OnlyDigits(pre + mid) == OnlyDigits(mid);
  }

  /** Whatever the client accepts, trimmed as it is submitted, passes the
      server's input schema for `addNumber`. */
  lemma ClientValidIsServerValid(phone: string)
    requires ValidatePhoneNumber(phone) == ""
    ensures ValidPhoneInput(Trim(phone))
  {
    TrimKeepsDigits(phone);
    assert |Trim(phone)| >= |OnlyDigits(Trim(phone))| >= 10;
    TrimKeepsPattern(phone);
  }

  /** Trimming keeps the phone pattern, as long as something besides a `+`
      is left. */
  lemma TrimKeepsPattern(phone: string)
    requires MatchesPhonePattern(phone) && |Trim(phone)| >= 2
    ensures MatchesPhonePattern(Trim(phone))
  {
    var i, j := TrimSlice(phone);
    if phone[0] == '+' {
      assert !IsSpace(phone[0]);
      PlusSliceMatches(phone, j);
    } else {
      BareSliceMatches(phone, i, j);
    }
  }

  lemma PlusSliceMatches(phone: string, j: int)
    requires MatchesPhonePattern(phone) && phone[0] == '+' && 2 <= j <= |phone|
    ensures MatchesPhonePattern(phone[0..j])
  {
    var t := phone[0..j];
    assert t[0] == '+';
    forall k | 0 <= k < |t[1..]| ensures IsPhoneChar(t[1..][k]) {
      assert t[1..][k] == phone[1..][k];
    }
  }

  lemma BareSliceMatches(phone: string, i: int, j: int)
    requires MatchesPhonePattern(phone) && phone != [] && phone[0] != '+' && 0 <= i < j <= |phone|
    ensures MatchesPhonePattern(phone[i..j])
  {
    var t := phone[i..j];
    assert IsPhoneChar(phone[i]);
    assert t[0] == phone[i];
    forall k | 0 <= k < |t| ensures IsPhoneChar(t[k]) {
      assert t[k] == phone[i + k];
    }
  }

  // ---------------------------------------------------------------------------
  // formatPhoneNumber

  /** The digits the mask works on: at most the first 13, without one leading
      country code "55". */
  function MaskedLocal(value: string): (wc: string)
    ensures AllDigits(wc) && |wc| <= 13
  {
    var digits := OnlyDigits(value);
    WithoutCountry(digits[..Min(13, |digits|)])
  }

  /** The mask after "+55 ": "(" and up to two area-code digits; then, past two
      digits, ") " and the rest raw up to six digits, grouped 5-4 from ten
      digits on and 4-4 otherwise. */
  function MaskLayout(wc: string): string
  {
    if wc == [] then ""
    else if |wc| <= 2 then "(" + wc
    else "(" + wc[..2] + ") " + MaskGroups(wc)
  }

  /** The digits after the area code, as the mask groups them. */
  function MaskGroups(wc: string): string
    requires |wc| > 2
  {
    if |wc| <= 6 then wc[2..]
    else if |wc| >= 10 then wc[2..7] + "-" + wc[7..Min(11, |wc|)]
    else wc[2..6] + "-" + wc[6..]
  }

  /** The input mask of the phone field. */
  function PhoneMask(value: string): (r: string)
    ensures StartsWith(r, "+55 ")
  {
    "+55 " + MaskLayout(MaskedLocal(value))
  }

  /** `formatPhoneNumber`, step by step as the page builds the text. */
  method FormatPhoneNumber(value: string) returns (formatted: string)
    ensures formatted == PhoneMask(value)
  {
    var digits := OnlyDigits(value);
    if |digits| > 13 {
      digits := digits[..13];
    }
    if |digits| == 0 {
      EmptyMask(value);
      return "+55 ";
    }
    var wc := WithoutCountry(digits);
    MaskedLocalOf(value, digits);
    formatted := "+55 ";
    if |wc| > 0 {
      formatted := formatted + "(";
      formatted := formatted + wc[..Min(2, |wc|)];
      if |wc| > 2 {
        formatted := formatted + ") ";
        ghost var head := formatted;
        if |wc| <= 6 {
          formatted := formatted + wc[2..];
        } else {
          var isNineDigits := |wc| >= 10;
          if isNineDigits {
            formatted := formatted + wc[2..7];
            if |wc| > 7 {
              formatted := formatted + "-" + wc[7..Min(11, |wc|)];
            }
            HyphenJoin(head, wc[2..7], wc[7..Min(11, |wc|)], formatted);
          } else {
            formatted := formatted + wc[2..6];
            if |wc| > 6 {
              formatted := formatted + "-" + wc[6..Min(10, |wc|)];
            }
            HyphenJoin(head, wc[2..6], wc[6..Min(10, |wc|)], formatted);
          }
        }
        GroupsCases(wc);
        MaskOfGroups(value, wc, head, formatted);
      } else {
        assert wc[..Min(2, |wc|)] == wc;
        MaskOfAreaCode(value, wc, formatted);
      }
    } else {
      assert PhoneMask(value) == "+55 ";
    }
  }

  lemma HyphenJoin(head: string, first: string, last: string, formatted: string)
    requires formatted == head + first + "-" + last
    ensures formatted == head + (first + "-" + last)
  {
  }

  lemma GroupsCases(wc: string)
    requires |wc| > 2
    ensures |wc| <= 6 ==> MaskGroups(wc) == wc[2..]
    ensures |wc| >= 10 ==> MaskGroups(wc) == wc[2..7] + "-" + wc[7..Min(11, |wc|)]
    ensures 6 < |wc| < 10 ==> MaskGroups(wc) == wc[2..6] + "-" + wc[6..Min(10, |wc|)]
  {
    if 6 < |wc| < 10 {
      assert wc[6..Min(10, |wc|)] == wc[6..];
    }
  }

  lemma EmptyMask(value: string)
    requires OnlyDigits(value) == []
    ensures PhoneMask(value) == "+55 "
  {
    assert MaskedLocal(value) == [];
  }

  lemma MaskedLocalOf(value: string, digits: string)
    requires digits == (if |OnlyDigits(value)| > 13 then OnlyDigits(value)[..13] else OnlyDigits(value))
    ensures WithoutCountry(digits) == MaskedLocal(value)
  {
    assert digits == OnlyDigits(value)[..Min(13, |OnlyDigits(value)|)];
  }

  lemma MaskOfGroups(value: string, wc: string, head: string, formatted: string)
    requires wc == MaskedLocal(value) && |wc| > 2
    requires head == "+55 " + "(" + wc[..2] + ") "
    requires formatted == head + MaskGroups(wc)
    ensures formatted == PhoneMask(value)
  {
    GroupsLayout(wc, head, formatted);
  }

  lemma GroupsLayout(wc: string, head: string, formatted: string)
    requires |wc| > 2
    requires head == "+55 " + "(" + wc[..2] + ") "
    requires formatted == head + MaskGroups(wc)
    ensures formatted == "+55 " + MaskLayout(wc)
  {
    var b, c, d, g := "(", wc[..2], ") ", MaskGroups(wc);
    ConcatAssoc("+55 ", b, c);
    ConcatAssoc("+55 ", b + c, d);
    ConcatAssoc("+55 ", b + c + d, g);
  }

  lemma MaskOfAreaCode(value: string, wc: string, formatted: string)
    requires wc == MaskedLocal(value) && 0 < |wc| <= 2
    requires formatted == "+55 " + "(" + wc
    ensures formatted == PhoneMask(value)
  {
  }

  /** The mask shows the country code, the area code and at most nine more
      digits, in order, and no other digit. */
  lemma MaskKeepsDigits(value: string)
    ensures var wc := MaskedLocal(value);
      OnlyDigits(PhoneMask(value)) == "55" + wc[..Min(11, |wc|)]
  {
    MaskLayoutDigits(MaskedLocal(value));
  }

  lemma MaskLayoutDigits(wc: string)
    requires AllDigits(wc)
    ensures OnlyDigits("+55 " + MaskLayout(wc)) == "55" + wc[..Min(11, |wc|)]
  {
    LiteralDigits();
    LayoutDigits(wc);
    OnlyDigitsConcat("+55 ", MaskLayout(wc));
  }

  /** The layout shows the first eleven digits and no other. */
  lemma LayoutDigits(wc: string)
    requires AllDigits(wc)
    ensures OnlyDigits(MaskLayout(wc)) == wc[..Min(11, |wc|)]
  {
    OnlyDigitsNone("(");
    if wc == [] {
    } else if |wc| <= 2 {
      OnlyDigitsConcat("(", wc);
      assert wc[..Min(11, |wc|)] == wc;
    } else {
      var ddd := wc[..2];
      var groups := MaskGroups(wc);
      AllDigitsSlice(wc, 0, 2);
      GroupsDigits(wc);
      OnlyDigitsNone(") ");
      OnlyDigitsConcat("(", ddd);
      OnlyDigitsConcat("(" + ddd, ") ");
      OnlyDigitsConcat("(" + ddd + ") ", groups);
      assert OnlyDigits(MaskLayout(wc)) == ddd + wc[2..Min(11, |wc|)];
      assert wc[..Min(11, |wc|)] == ddd + wc[2..Min(11, |wc|)];
    }
  }

  /** The groups after the area code show the third to the eleventh digit. */
  lemma GroupsDigits(wc: string)
    requires AllDigits(wc) && |wc| > 2
    ensures OnlyDigits(MaskGroups(wc)) == wc[2..Min(11, |wc|)]
  {
    GroupsCases(wc);
    if |wc| <= 6 {
      AllDigitsSlice(wc, 2, |wc|);
    } else {
      var n := if |wc| >= 10 then 7 else 6;
      var e := Min(if |wc| >= 10 then 11 else 10, |wc|);
      AllDigitsSlice(wc, 2, n);
      AllDigitsSlice(wc, n, e);
      HyphenDigits(wc[2..n], wc[n..e]);
      assert wc[2..n] + wc[n..e] == wc[2..e];
    }
  }

  lemma HyphenDigits(a: string, b: string)
    requires AllDigits(a) && AllDigits(b)
    ensures OnlyDigits(a + "-" + b) == a + b
  {
    OnlyDigitsNone("-");
    OnlyDigitsConcat(a, "-");
    OnlyDigitsConcat(a + "-", b);
  }

  /** Digits past the eleventh after the country code never reach the mask. */
  lemma MaskLayoutTruncate(wc: string)
    ensures MaskLayout(wc[..Min(11, |wc|)]) == MaskLayout(wc)
  {
    var wc' := wc[..Min(11, |wc|)];
    if |wc| > 11 {
      GroupsCases(wc);
      GroupsCases(wc');
      assert wc'[..2] == wc[..2];
      assert wc'[2..7] == wc[2..7];
      assert wc'[7..11] == wc[7..11];
    } else {
      assert wc' == wc;
    }
  }

  /** Masking is a normal form: masking the masked text changes nothing. */
  lemma MaskIdempotent(value: string)
    ensures PhoneMask(PhoneMask(value)) == PhoneMask(value)
  {
    var wc := MaskedLocal(value);
    var wc' := wc[..Min(11, |wc|)];
    MaskKeepsDigits(value);
    var shown := OnlyDigits(PhoneMask(value));
    assert shown == "55" + wc' && |shown| <= 13;
    assert shown[..Min(13, |shown|)] == shown;
    assert shown[..2] == "55" && shown[2..] == wc';
    assert MaskedLocal(PhoneMask(value)) == wc';
    MaskLayoutTruncate(wc);
  }

  /** Every character of `s` is one the phone pattern allows after the `+`. */
  predicate PhoneChars(s: string)
  {
    forall i :: 0 <= i < |s| ==> IsPhoneChar(s[i])
  }

  lemma PhoneCharsConcat(a: string, b: string)
    requires PhoneChars(a) && PhoneChars(b)
    ensures PhoneChars(a + b)
  {
    forall i | 0 <= i < |a + b| ensures IsPhoneChar((a + b)[i]) {
      if i >= |a| {
        assert (a + b)[i] == b[i - |a|];
      }
    }
  }

  lemma DigitsArePhoneChars(s: string)
    requires AllDigits(s)
    ensures PhoneChars(s)
  {
  }

  /** The layout uses digits, parentheses, a space and a hyphen only. */
  lemma MaskLayoutChars(wc: string)
    requires AllDigits(wc)
    ensures PhoneChars(MaskLayout(wc))
  {
    assert PhoneChars("(") && PhoneChars(") ") && PhoneChars("-");
    if wc != [] {
      DigitsArePhoneChars(wc);
      PhoneCharsConcat("(", wc);
      if |wc| > 2 {
        var ddd, rest := wc[..2], wc[2..];
        AllDigitsSlice(wc, 0, 2);
        AllDigitsSlice(wc, 2, |wc|);
        DigitsArePhoneChars(ddd);
        DigitsArePhoneChars(rest);
        PhoneCharsConcat("(", ddd);
        PhoneCharsConcat("(" + ddd, ") ");
        var head := "(" + ddd + ") ";
        if |wc| <= 6 {
          PhoneCharsConcat(head, rest);
        } else {
          var n := if |wc| >= 10 then 7 else 6;
          var e := if |wc| >= 10 then Min(11, |wc|) else |wc|;
          AllDigitsSlice(wc, 2, n);
          AllDigitsSlice(wc, n, e);
          DigitsArePhoneChars(wc[2..n]);
          DigitsArePhoneChars(wc[n..e]);
          PhoneCharsConcat(wc[2..n], "-");
          PhoneCharsConcat(wc[2..n] + "-", wc[n..e]);
          assert MaskGroups(wc) == wc[2..n] + "-" + wc[n..e];
          PhoneCharsConcat(head, MaskGroups(wc));
        }
      }
    }
  }

  /** A masked field passes the page's validation exactly when it holds at
      least eight digits after the country code. */
  lemma MaskAcceptedIffEightDigits(value: string)
    ensures ValidatePhoneNumber(PhoneMask(value)) == "" <==> |MaskedLocal(value)| >= 8
  {
    var wc := MaskedLocal(value);
    MaskWellFormed(wc);
    MaskKeepsDigits(value);
    assert |OnlyDigits(PhoneMask(value))| == 2 + Min(11, |wc|);
  }

  /** The masked text is never blank and always fits the phone pattern. */
  lemma MaskWellFormed(wc: string)
    requires AllDigits(wc)
    ensures Trim("+55 " + MaskLayout(wc)) != [] && MatchesPhonePattern("+55 " + MaskLayout(wc))
  {
    var layout := MaskLayout(wc);
    var r := "+55 " + layout;
    MaskLayoutChars(wc);
    assert PhoneChars("55 ");
    PhoneCharsConcat("55 ", layout);
    assert r[0] == '+' && r[1..] == "55 " + layout;
    PlusPattern(r);
  }

  /** A `+` followed by pattern characters matches and is not blank. */
  lemma PlusPattern(r: string)
    requires |r| > 1 && r[0] == '+' && PhoneChars(r[1..])
    ensures Trim(r) != [] && MatchesPhonePattern(r)
  {
    TrimKeepsNonSpace(r, 0);
  }

  // ---------------------------------------------------------------------------
  // The "add number" dialog

  /** What `handleAddNumber` submits to `addNumber`. */
  datatype AddRequest = AddRequest(phoneNumber: string, displayName: Option<string>)

  class AddNumberForm {
    var phone: string
    var displayName: string
    var error: string

    /** The dialog's initial state. */
    constructor ()
      ensures phone == "+55 " && displayName == "" && error == ""
    {
      phone, displayName, error := "+55 ", "", "";
    }

    /** The reset done when the dialog closes or a number was added. */
    method Reset()
      modifies this
      ensures phone == "+55 " && displayName == "" && error == ""
    {
      phone, displayName, error := "+55 ", "", "";
    }

    /** `handlePhoneChange`: clearing the field (or leaving only "+") puts back
        "+55 " with no error; anything else is masked and validated. */
    method HandlePhoneChange(value: string)
      modifies this
      ensures displayName == old(displayName)
      ensures value == "" || value == "+" ==> phone == "+55 " && error == ""
      ensures value != "" && value != "+" ==> phone == PhoneMask(value) && error == ValidatePhoneNumber(phone)
      ensures value != "" && value != "+" ==> (error == "" <==> |MaskedLocal(value)| >= 8)
    {
      if |value| == 0 || value == "+" {
        phone := "+55 ";
        error := "";
        return;
      }
      var formatted := FormatPhoneNumber(value);
      phone := formatted;
      error := ValidatePhoneNumber(formatted);
      MaskAcceptedIffEightDigits(value);
    }

    /** The unmasked phone field of the second dialog, which stores what is typed. */
    method EditPhone(value: string)
      modifies this
      ensures phone == value && displayName == old(displayName) && error == old(error)
    {
      phone := value;
    }

    method EditDisplayName(value: string)
      modifies this
      ensures displayName == value && phone == old(phone) && error == old(error)
    {
      displayName := value;
    }

    /** `handleAddNumber`: an invalid field reports its error and submits
        nothing; otherwise the trimmed phone and the trimmed name (none if
        empty) are submitted, and the server's schema accepts that phone. */
    method HandleAddNumber() returns (request: Option<AddRequest>)
      modifies this
      ensures phone == old(phone) && displayName == old(displayName)
      ensures ValidatePhoneNumber(phone) != "" ==> request == None && error == ValidatePhoneNumber(phone)
      ensures ValidatePhoneNumber(phone) == "" ==>
        && error == old(error)
        && request == Some(AddRequest(Trim(phone), if Trim(displayName) == [] then None else Some(Trim(displayName))))
      ensures request.Some? ==> ValidPhoneInput(request.value.phoneNumber)
    {
      var e := ValidatePhoneNumber(phone);
      if e != "" {
        error := e;
        return None;
      }
      ClientValidIsServerValid(phone);
      var name := Trim(displayName);
      request := Some(AddRequest(Trim(phone), if name == [] then None else Some(name)));
    }
  }

  // ---------------------------------------------------------------------------
  // The number grid, the "next available" hint and the counters

  function StatusRank(s: Status): int
  {
    match s
    case Available => 0
    case Cooldown => 1
    case Blocked => 2
  }

  /** The grid's comparator: available, then cooldown, then blocked; within a
      status, the least time remaining first. */
  function GridCompare(a: NumberView, b: NumberView): int
  {
    var orderA, orderB := StatusRank(a.calculatedStatus), StatusRank(b.calculatedStatus);
    if orderA != orderB then orderA - orderB else a.timeRemaining - b.timeRemaining
  }

  predicate GridBefore(a: NumberView, b: NumberView)
  {
    GridCompare(a, b) <= 0
  }

  lemma GridTotalPreorder()
    ensures Total(GridBefore) && Transitive(GridBefore)
  {
  }

  /** In a grid in comparator order, the statuses come in blocks (available,
      cooldown, blocked) and each block runs from least to most time remaining. */
  lemma GridGroupsByStatus(grid: seq<NumberView>)
    requires SortedBy(grid, GridBefore)
    ensures forall i, j :: 0 <= i < j < |grid| ==>
      StatusRank(grid[i].calculatedStatus) <= StatusRank(grid[j].calculatedStatus)
    ensures forall i, j :: 0 <= i < j < |grid| && grid[i].calculatedStatus == grid[j].calculatedStatus ==>
      grid[i].timeRemaining <= grid[j].timeRemaining
  {
    forall i, j | 0 <= i < j < |grid|
      ensures StatusRank(grid[i].calculatedStatus) <= StatusRank(grid[j].calculatedStatus)
    {
      assert GridBefore(grid[i], grid[j]);
    }
  }

  /** The grid's in-place sort. */
  method SortGrid(grid: array<NumberView>)
    modifies grid
    ensures SortedBy(grid[..], GridBefore)
    ensures multiset(grid[..]) == multiset(old(grid[..]))
  {
    GridTotalPreorder();
    SortInPlace(grid, GridBefore);
  }

  function HasStatus(s: Status): NumberView -> bool
  {
    (v: NumberView) => v.calculatedStatus == s
  }

  predicate ReleasesFirst(a: NumberView, b: NumberView)
  {
    a.timeRemaining - b.timeRemaining <= 0
  }

  lemma ReleasesFirstTotalPreorder()
    ensures Total(ReleasesFirst) && Transitive(ReleasesFirst)
  {
  }

  /** "Next available": of the numbers in cooldown, one with the least time
      remaining, or none when no number is in cooldown. */
  method NextAvailable(views: seq<NumberView>) returns (next: Option<NumberView>)
    ensures next.None? <==> forall v :: v in views ==> v.calculatedStatus != Cooldown
    ensures next.Some? ==>
      && next.value in views && next.value.calculatedStatus == Cooldown
      && forall v :: v in views && v.calculatedStatus == Cooldown ==> next.value.timeRemaining <= v.timeRemaining
  {
    var cooling := Filter(views, HasStatus(Cooldown));
    var a := new NumberView[|cooling|](i requires 0 <= i < |cooling| => cooling[i]);
    assert a[..] == cooling;
    ReleasesFirstTotalPreorder();
    SortInPlace(a, ReleasesFirst);
    if a.Length == 0 {
      FilterEmpty(views, HasStatus(Cooldown));
      return None;
    }
    assert a[0] in multiset(a[..]);
    assert a[0] in cooling;
    assert HasStatus(Cooldown)(a[0]);
    next := Some(a[0]);
    forall v | v in views && v.calculatedStatus == Cooldown
      ensures a[0].timeRemaining <= v.timeRemaining
    {
      assert v in multiset(cooling);
      assert v in multiset(a[..]);
      var k :| 0 <= k < a.Length && a[k] == v;
      if k > 0 {
        assert ReleasesFirst(a[..][0], a[..][k]);
      }
    }
  }

  /** The number of views in a status (the page's three counters). */
  function StatusCount(views: seq<NumberView>, s: Status): (n: nat)
    ensures n <= |views|
    ensures n == 0 <==> forall v :: v in views ==> v.calculatedStatus != s
  {
    FilterEmpty(views, HasStatus(s));
    |Filter(views, HasStatus(s))|
  }

  /** The three counters add up to the number of views. */
  lemma CountsCoverAll(views: seq<NumberView>)
    ensures StatusCount(views, Available) + StatusCount(views, Cooldown) + StatusCount(views, Blocked) == |views|
  {
    FilterPartitionSize(views, HasStatus(Available), HasStatus(Cooldown), HasStatus(Blocked));
  }
}
