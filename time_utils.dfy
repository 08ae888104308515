/**
 * The relative-time label of the history page ("há 2 horas"), with the
 * current time passed in as `now` (milliseconds, like the timestamp).
 */
module TimeUtils {
  import opened Records
  import opened Text

  /** `formatRelativeTime`: the elapsed time in the largest unit that counts
      at least one; no timestamp (or 0) reads "Nunca usado". */
  function FormatRelativeTime(timestamp: Option<int>, now: int): (r: string)
    ensures timestamp.None? || timestamp.value == 0 ==> r == "Nunca usado"
    ensures timestamp.Some? && timestamp.value != 0 ==> StartsWith(r, "há ") && r[0] != "Nunca usado"[0]
  {
    if timestamp.None? || timestamp.value == 0 then "Nunca usado"
    else
      var diff := now - timestamp.value;
      var seconds := diff / 1000;
      var minutes := seconds / 60;
      var hours := minutes / 60;
      var days := hours / 24;
      if days > 0 then "há " + NatToString(days) + " " + (if days == 1 then "dia" else "dias")
      else if hours > 0 then "há " + NatToString(hours) + " " + (if hours == 1 then "hora" else "horas")
      else if minutes > 0 then "há " + NatToString(minutes) + " " + (if minutes == 1 then "minuto" else "minutos")
      else "há poucos segundos"
  }

  // ---------------------------------------------------------------------------
  // A reference reading of the label

  datatype Unit = Minutes | Hours | Days

  function UnitMs(u: Unit): int
  {
    match u
    case Minutes => MsPerMinute
    case Hours => MsPerHour
    case Days => MsPerDay
  }

  /** The largest unit of which `diff` holds at least one whole, for a
      difference of a minute or more. */
  function LargestUnit(diff: int): Unit
    requires diff >= MsPerMinute
  {
    if diff >= MsPerDay then Days else if diff >= MsPerHour then Hours else Minutes
  }

  function Noun(u: Unit, count: nat): string
  {
    match u
    case Minutes => if count == 1 then "minuto" else "minutos"
    case Hours => if count == 1 then "hora" else "horas"
    case Days => if count == 1 then "dia" else "dias"
  }

  function Phrase(u: Unit, count: nat): string
  {
    "há " + NatToString(count) + " " + Noun(u, count)
  }

  /** Dividing by 1000, 60, 60 and 24 in turn is dividing by the unit at once. */
  lemma ChainedFloors(diff: int)
    ensures (diff / 1000) / 60 == diff / MsPerMinute
    ensures ((diff / 1000) / 60) / 60 == diff / MsPerHour
    ensures (((diff / 1000) / 60) / 60) / 24 == diff / MsPerDay
  {
  }

  /** The label agrees with the reference reading: the count of the largest
      whole unit, singular exactly for one, and "há poucos segundos" below a
      minute, future timestamps included. */
  lemma RelativeTimeIsLargestUnit(timestamp: int, now: int)
    requires timestamp != 0
    ensures var diff := now - timestamp;
      && (diff < MsPerMinute ==> FormatRelativeTime(Some(timestamp), now) == "há poucos segundos")
      && (diff >= MsPerMinute ==>
            var u := LargestUnit(diff);
            && 1 <= diff / UnitMs(u)
            && (u == Minutes ==> diff / UnitMs(u) < 60)
            && (u == Hours ==> diff / UnitMs(u) < 24)
            && FormatRelativeTime(Some(timestamp), now) == Phrase(u, diff / UnitMs(u)))
  {
    ChainedFloors(now - timestamp);
  }

  lemma PhraseSplit(u: Unit, count: nat)
    ensures Phrase(u, count) == "há " + (NatToString(count) + (" " + Noun(u, count)))
  {
  }

  lemma NounNamesUnit(u1: Unit, u2: Unit, count: nat)
    requires Noun(u1, count) == Noun(u2, count)
    ensures u1 == u2
  {
    assert Noun(u1, count)[0] == Noun(u2, count)[0];
  }

  /** The count and its unit can be read back from a label. */
  lemma PhraseInjective(u1: Unit, c1: nat, u2: Unit, c2: nat)
    requires Phrase(u1, c1) == Phrase(u2, c2)
    ensures u1 == u2 && c1 == c2
  {
    var n1, n2 := NatToString(c1), NatToString(c2);
    var w1, w2 := Noun(u1, c1), Noun(u2, c2);
    PhraseSplit(u1, c1);
    PhraseSplit(u2, c2);
    DropCommonPrefix("há ", n1 + (" " + w1), n2 + (" " + w2));
    assert (" " + w1)[0] == ' ' && (" " + w2)[0] == ' ';
    DigitRunSplit(n1, " " + w1, n2, " " + w2);
    NatToStringInjective(c1, c2);
    DropCommonPrefix(" ", w1, w2);
    NounNamesUnit(u1, u2, c1);
  }

  /** Two labels of a minute or more are equal exactly when they count the
      same number of the same unit. */
  lemma SameLabelSameReading(t1: int, t2: int, now: int)
    requires t1 != 0 && t2 != 0
    requires now - t1 >= MsPerMinute && now - t2 >= MsPerMinute
    ensures FormatRelativeTime(Some(t1), now) == FormatRelativeTime(Some(t2), now) <==>
      var u1, u2 := LargestUnit(now - t1), LargestUnit(now - t2);
      u1 == u2 && (now - t1) / UnitMs(u1) == (now - t2) / UnitMs(u2)
  {
    RelativeTimeIsLargestUnit(t1, now);
    RelativeTimeIsLargestUnit(t2, now);
    var u1, u2 := LargestUnit(now - t1), LargestUnit(now - t2);
    if FormatRelativeTime(Some(t1), now) == FormatRelativeTime(Some(t2), now) {
      PhraseInjective(u1, (now - t1) / UnitMs(u1), u2, (now - t2) / UnitMs(u2));
    }
  }
}
