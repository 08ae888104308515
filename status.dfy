/**
 * The status classifier of the rotation engine: the derived status of a
 * number and the whole seconds until it changes, recomputed from the stored
 * timestamps and the current time `now` on every read.
 */
module NumberStatus {
  import opened Records

  datatype Status = Available | Cooldown | Blocked

  datatype StatusInfo = StatusInfo(status: Status, timeRemaining: int)

  /** An active manual block: `blockedUntil` is set and still in the future. */
  predicate BlockActive(num: WhatsappNumber, now: int)
  {
    num.blockedUntil.Some? && num.blockedUntil.value > now
  }

  /** An active cooldown: the number was used less than 24 hours before `now`. */
  predicate CooldownActive(num: WhatsappNumber, now: int)
  {
    num.lastUsedAt.Some? && num.lastUsedAt.value + CooldownMs > now
  }

  /** The classifier: a block wins over a cooldown, and the remaining time is
      truncated to whole seconds. */
  function GetNumberStatus(num: WhatsappNumber, now: int): (r: StatusInfo)
    ensures r.timeRemaining >= 0
    ensures r.status == Available <==> r.timeRemaining == 0 && !BlockActive(num, now) && !CooldownActive(num, now)
  {
    if BlockActive(num, now) then
      StatusInfo(Blocked, (num.blockedUntil.value - now) / MsPerSecond)
    else if num.lastUsedAt.Some? && num.lastUsedAt.value + CooldownMs > now then
      StatusInfo(Cooldown, (num.lastUsedAt.value + CooldownMs - now) / MsPerSecond)
    else
      StatusInfo(Available, 0)
  }

  /** A block in the future decides the status whatever `lastUsedAt` is. */
  lemma BlockedWins(num: WhatsappNumber, now: int)
    requires BlockActive(num, now)
    ensures GetNumberStatus(num, now) == StatusInfo(Blocked, (num.blockedUntil.value - now) / 1000)
    ensures GetNumberStatus(num.(lastUsedAt := None), now) == GetNumberStatus(num, now)
  {
  }

  /** Without an active block, a use less than 24 hours ago means cooldown, and
      otherwise the number is available with nothing remaining. */
  lemma CooldownOrAvailable(num: WhatsappNumber, now: int)
    requires !BlockActive(num, now)
    ensures CooldownActive(num, now) ==>
      GetNumberStatus(num, now) == StatusInfo(Cooldown, (num.lastUsedAt.value + 86400000 - now) / 1000)
    ensures !CooldownActive(num, now) ==> GetNumberStatus(num, now) == StatusInfo(Available, 0)
  {
  }

  /** The instant from which the number is available, if it ever is not:
      the later of the block's end and the cooldown's end. */
  function ReleaseTime(num: WhatsappNumber): Option<int>
  {
    match (num.blockedUntil, num.lastUsedAt)
    case (None, None) => None
    case (Some(b), None) => Some(b)
    case (None, Some(u)) => Some(u + CooldownMs)
    case (Some(b), Some(u)) => Some(if b >= u + CooldownMs then b else u + CooldownMs)
  }

  /** The classifier agrees with the release time: a number is available exactly
      when `now` has reached it (reaching it exactly counts as available). */
  lemma AvailableIffReleased(num: WhatsappNumber, now: int)
    ensures GetNumberStatus(num, now).status == Available
        <==> (ReleaseTime(num).None? || now >= ReleaseTime(num).value)
  {
  }

  /** Once available, a number stays available as time goes on, until a
      mutation changes it. */
  lemma AvailableStaysAvailable(num: WhatsappNumber, now: int, later: int)
    requires now <= later
    requires GetNumberStatus(num, now).status == Available
    ensures GetNumberStatus(num, later) == StatusInfo(Available, 0)
  {
    AvailableIffReleased(num, now);
    AvailableIffReleased(num, later);
  }

  /** The remaining time is the distance to the deadline that decided the status,
      in whole seconds: it counts down to zero exactly as the deadline comes. */
  lemma TimeRemainingBounds(num: WhatsappNumber, now: int)
    ensures var r := GetNumberStatus(num, now);
      r.status != Available ==>
        var deadline := if r.status == Blocked then num.blockedUntil.value else num.lastUsedAt.value + CooldownMs;
        r.timeRemaining * 1000 <= deadline - now < r.timeRemaining * 1000 + 1000
  {
  }

  /** A number in cooldown with no block after the cooldown's end is available
      once the reported seconds and the remaining fraction have elapsed. */
  lemma CooldownEndsOnTime(num: WhatsappNumber, now: int)
    requires GetNumberStatus(num, now).status == Cooldown
    requires num.blockedUntil.None? || num.blockedUntil.value <= num.lastUsedAt.value + CooldownMs
    ensures GetNumberStatus(num, num.lastUsedAt.value + CooldownMs) == StatusInfo(Available, 0)
    ensures GetNumberStatus(num, num.lastUsedAt.value + CooldownMs - 1).status == Cooldown
  {
  }
}
