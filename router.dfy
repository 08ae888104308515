/**
 * The `whatsapp` procedures of the server: the number listing with its live
 * status, the rotation suggestion, and the mutations that record a use, block,
 * unblock, delete or add a number and manage the usage history. Each procedure
 * takes the store it acts on and the single `now` it reads from the clock.
 *
 * Besides the store's own table invariants, the procedures keep two more:
 * every history entry names an existing number by its id and phone, and no two
 * numbers share the same digits.
 */
module Router {
  import opened Records
  import opened Collections
  import opened Text
  import opened NumberStatus
  import opened Store
  import opened PhoneUtils
  import Suggestion

  /** The input defaults of `useNumber` and `getHistory`. */
  const DefaultContactCount: int := 45
  const DefaultHistoryLimit: nat := 100

  // ---------------------------------------------------------------------------
  // Invariants kept by the procedures

  /** Every history entry belongs to a stored number and carries its phone. */
  ghost predicate HistoryRefersToNumbers(numbers: seq<WhatsappNumber>, history: seq<UsageEntry>)
  {
    forall e :: e in history ==> exists n :: n in numbers && n.id == e.numberId && n.phoneNumber == e.phoneNumber
  }

  /** No two stored numbers have the same digit-only form (what the duplicate
      check of `addNumber` maintains). */
  ghost predicate DigitsDistinct(numbers: seq<WhatsappNumber>)
  {
    forall a, b :: a in numbers && b in numbers && OnlyDigits(a.phoneNumber) == OnlyDigits(b.phoneNumber) ==> a == b
  }

  ghost predicate Consistent(db: WhatsappStore)
    reads db
  {
    db.Valid() && HistoryRefersToNumbers(db.numbers, db.history) && DigitsDistinct(db.numbers)
  }

  /** `b` is `a` with some rows rewritten in place, ids and phones kept. */
  ghost predicate SameKeys(a: seq<WhatsappNumber>, b: seq<WhatsappNumber>)
  {
    |a| == |b| && forall i :: 0 <= i < |a| ==> a[i].id == b[i].id && a[i].phoneNumber == b[i].phoneNumber
  }

  /** Rewriting rows without touching their keys keeps both invariants. */
  lemma SameKeysKeepConsistency(a: seq<WhatsappNumber>, b: seq<WhatsappNumber>, history: seq<UsageEntry>, nextId: int)
    requires NumbersValid(a, nextId) && SameKeys(a, b)
    requires HistoryRefersToNumbers(a, history) && DigitsDistinct(a)
    ensures HistoryRefersToNumbers(b, history) && DigitsDistinct(b)
  {
    forall e | e in history
      ensures exists n :: n in b && n.id == e.numberId && n.phoneNumber == e.phoneNumber
    {
      var n :| n in a && n.id == e.numberId && n.phoneNumber == e.phoneNumber;
      var i :| 0 <= i < |a| && a[i] == n;
      assert b[i] in b;
    }
    forall x, y | x in b && y in b && OnlyDigits(x.phoneNumber) == OnlyDigits(y.phoneNumber)
      ensures x == y
    {
      var i :| 0 <= i < |b| && b[i] == x;
      var j :| 0 <= j < |b| && b[j] == y;
      assert a[i] in a && a[j] in a;
      IdDeterminesIndex(a, nextId, i, j);
    }
  }

  /** Distinct primary keys: a row's id fixes its position. */
  lemma IdDeterminesIndex(rows: seq<WhatsappNumber>, nextId: int, i: int, j: int)
    requires NumbersValid(rows, nextId)
    requires 0 <= i < |rows| && 0 <= j < |rows| && rows[i].id == rows[j].id
    ensures i == j
  {
  }

  /** A new history entry for a stored number keeps the references valid. */
  lemma AppendEntryKeepsReferences(numbers: seq<WhatsappNumber>, history: seq<UsageEntry>, n: WhatsappNumber, e: UsageEntry)
    requires HistoryRefersToNumbers(numbers, history)
    requires n in numbers && e.numberId == n.id && e.phoneNumber == n.phoneNumber
    ensures HistoryRefersToNumbers(numbers, history + [e])
  {
    forall x | x in history + [e]
      ensures exists m :: m in numbers && m.id == x.numberId && m.phoneNumber == x.phoneNumber
    {
      if x == e {
        assert n in numbers && n.id == x.numberId && n.phoneNumber == x.phoneNumber;
      } else {
        assert x in history;
      }
    }
  }
  /** An entry for a row that an in-place rewrite kept still refers to it. */
  lemma AppendAfterRewrite(a: seq<WhatsappNumber>, b: seq<WhatsappNumber>, history: seq<UsageEntry>,
                           n: WhatsappNumber, e: UsageEntry)
    requires SameKeys(a, b) && HistoryRefersToNumbers(b, history)
    requires n in a && e.numberId == n.id && e.phoneNumber == n.phoneNumber
    ensures HistoryRefersToNumbers(b, history + [e])
  {
    var i :| 0 <= i < |a| && a[i] == n;
    AppendEntryKeepsReferences(b, history, b[i], e);
  }


  /** Deleting a number's history before the number leaves no entry behind
      that points at it, and no entry that points at nothing. */
  lemma CascadeKeepsConsistency(numbers: seq<WhatsappNumber>, history: seq<UsageEntry>, id: int)
    requires HistoryRefersToNumbers(numbers, history) && DigitsDistinct(numbers)
    ensures HistoryRefersToNumbers(Filter(numbers, NotNumber(id)), Filter(history, NotOfNumber(id)))
    ensures DigitsDistinct(Filter(numbers, NotNumber(id)))
    ensures forall e :: e in Filter(history, NotOfNumber(id)) ==> e.numberId != id
    ensures forall n :: n in Filter(numbers, NotNumber(id)) ==> n.id != id
  {
    var kept := Filter(numbers, NotNumber(id));
    forall e | e in Filter(history, NotOfNumber(id))
      ensures exists n :: n in kept && n.id == e.numberId && n.phoneNumber == e.phoneNumber
    {
      assert e in history && NotOfNumber(id)(e);
      var n :| n in numbers && n.id == e.numberId && n.phoneNumber == e.phoneNumber;
      assert NotNumber(id)(n);
      assert n in kept;
    }
  }

  /** Removing one history entry keeps the references valid. */
  lemma DropEntryKeepsReferences(numbers: seq<WhatsappNumber>, history: seq<UsageEntry>, id: int)
    requires HistoryRefersToNumbers(numbers, history)
    ensures HistoryRefersToNumbers(numbers, Filter(history, NotEntry(id)))
    ensures forall e :: e in Filter(history, NotEntry(id)) ==> e.id != id
  {
  }

  /** A number whose digits differ from every stored number keeps the digit
      forms distinct. */
  lemma FreshDigitsKeepConsistency(numbers: seq<WhatsappNumber>, history: seq<UsageEntry>, r: WhatsappNumber)
    requires HistoryRefersToNumbers(numbers, history) && DigitsDistinct(numbers)
    requires forall n :: n in numbers ==> OnlyDigits(n.phoneNumber) != OnlyDigits(r.phoneNumber)
    ensures HistoryRefersToNumbers(numbers + [r], history) && DigitsDistinct(numbers + [r])
    ensures forall n :: n in numbers ==> n.phoneNumber != r.phoneNumber
  {
    forall e | e in history
      ensures exists n :: n in numbers + [r] && n.id == e.numberId && n.phoneNumber == e.phoneNumber
    {
      var n :| n in numbers && n.id == e.numberId && n.phoneNumber == e.phoneNumber;
      assert n in numbers + [r];
    }
  }

  // ---------------------------------------------------------------------------
  // listNumbers

  /** A row of the listing: the stored record with its status at `now`. */
  datatype NumberView = NumberView(number: WhatsappNumber, calculatedStatus: Status, timeRemaining: int, isSensitive: bool)

  function ToView(num: WhatsappNumber, now: int): NumberView
  {
    var info := GetNumberStatus(num, now);
    NumberView(num, info.status, info.timeRemaining, num.isSensitive == 1)
  }

  function ViewedRows(views: seq<NumberView>): (rows: seq<WhatsappNumber>)
    ensures |rows| == |views|
    ensures forall i :: 0 <= i < |views| ==> rows[i] == views[i].number
  {
    seq(|views|, i requires 0 <= i < |views| => views[i].number)
  }

  /** `listNumbers`: every stored number, ordered by phone, each classified at
      the same `now`. */
  method ListNumbers(db: WhatsappStore, now: int) returns (r: seq<NumberView>)
    requires db.Valid()
    ensures !db.connected ==> r == []
    ensures db.connected ==> multiset(ViewedRows(r)) == multiset(db.numbers) && SortedBy(ViewedRows(r), ByPhone)
    ensures forall v :: v in r ==>
      && StatusInfo(v.calculatedStatus, v.timeRemaining) == GetNumberStatus(v.number, now)
      && (v.isSensitive <==> v.number.isSensitive == 1)
  {
    var numbers := db.GetAllWhatsappNumbers();
    r := seq(|numbers|, i requires 0 <= i < |numbers| => ToView(numbers[i], now));
    assert ViewedRows(r) == numbers;
  }

  // ---------------------------------------------------------------------------
  // getSuggestion

  lemma ValidIdsUnique(rows: seq<WhatsappNumber>, listing: seq<WhatsappNumber>, nextId: int)
    requires NumbersValid(rows, nextId) && multiset(listing) == multiset(rows)
    ensures Suggestion.UniqueIds(rows) && Suggestion.UniqueIds(listing)
  {
    forall a, b | a in rows && b in rows && a.id == b.id ensures a == b {
      var i :| 0 <= i < |rows| && rows[i] == a;
      var j :| 0 <= j < |rows| && rows[j] == b;
      IdDeterminesIndex(rows, nextId, i, j);
    }
    forall a | a in listing ensures a in rows {
      assert a in multiset(listing);
    }
  }

  /** `getSuggestion`: the ranked first two of the numbers available at `now`,
      two different numbers; it does not depend on the order the listing comes in. */
  method GetSuggestion(db: WhatsappStore, now: int) returns (r: seq<WhatsappNumber>)
    requires db.Valid()
    ensures r == if db.connected then Suggestion.Suggest(db.numbers, now) else []
    ensures db.connected ==> Suggestion.IsSuggestion(db.numbers, now, r)
    ensures forall i, j :: 0 <= i < j < |r| ==> r[i].id != r[j].id
  {
    var numbers := db.GetAllWhatsappNumbers();
    r := Suggestion.GetSuggestion(numbers, now);
    if db.connected {
      ValidIdsUnique(db.numbers, numbers, db.nextNumberId);
      Suggestion.SuggestOrderIndependent(db.numbers, numbers, now);
      Suggestion.SuggestIsSuggestion(db.numbers, now);
      Suggestion.SuggestionDistinct(db.numbers, now, r);
    } else {
      Suggestion.SuggestIsSuggestion([], now);
    }
  }

  // ---------------------------------------------------------------------------
  // useNumber

  /** The partial update `useNumber` writes. */
  function UsePatch(n: WhatsappNumber, contactCount: int, now: int): NumberPatch
  {
    NumberPatch(
      status := Some(StoredCooldown),
      lastUsedAt := Some(Some(now)),
      lastContactCount := Some(contactCount),
      totalUseCount := Some(n.totalUseCount + 1),
      blockedUntil := None,
      isSensitive := None)
  }

  /** A use starts a full 24-hour cooldown (unless a block is still running),
      counts one more use, and leaves the block fields alone. */
  lemma UseStartsCooldown(n: WhatsappNumber, contactCount: int, now: int)
    ensures var u := ApplyPatch(n, UsePatch(n, contactCount, now), now);
      && u.lastUsedAt == Some(now) && u.lastContactCount == Some(contactCount)
      && u.totalUseCount == n.totalUseCount + 1 && u.status == StoredCooldown
      && u.blockedUntil == n.blockedUntil && u.isSensitive == n.isSensitive
      && u.updatedAt == now
    ensures !BlockActive(n, now) ==>
      GetNumberStatus(ApplyPatch(n, UsePatch(n, contactCount, now), now), now) == StatusInfo(Cooldown, CooldownMs / MsPerSecond)
  {
    var u := ApplyPatch(n, UsePatch(n, contactCount, now), now);
    assert u.totalUseCount != n.totalUseCount;
  }

  /** A number used at `now` is left out of every suggestion for the next 24 hours. */
  lemma UsedNotSuggested(rows: seq<WhatsappNumber>, id: int, p: NumberPatch, now: int, t: int)
    requires p.lastUsedAt == Some(Some(now))
    requires now <= t < now + CooldownMs
    ensures forall x :: x in Suggestion.Suggest(UpdateRows(rows, id, p, now), t) ==> x.id != id
  {
    var s := UpdateRows(rows, id, p, now);
    Suggestion.SuggestIsSuggestion(s, t);
    forall y | y in s && y.id == id ensures CooldownActive(y, t) {
      var i :| 0 <= i < |s| && s[i] == y;
      assert rows[i].id == id;
      assert y == ApplyPatch(rows[i], p, now);
    }
  }

  /** `useNumber`: a missing number (or no database) fails with
      `NumberNotFound` and changes nothing; otherwise the row gets the use
      patch and exactly one history entry is appended for it. */
  method UseNumber(db: WhatsappStore, id: int, contactCount: Option<int>, notes: Option<string>, now: int)
    returns (res: Outcome)
    requires Consistent(db)
    modifies db
    ensures Consistent(db)
    ensures res.Fail? <==> !db.connected || forall n :: n in old(db.numbers) ==> n.id != id
    ensures res.Fail? ==> res.error == NumberNotFound && db.numbers == old(db.numbers) && db.history == old(db.history)
    ensures res.Pass? ==> FindById(old(db.numbers), id).Some?
    ensures res.Pass? ==>
      var n := FindById(old(db.numbers), id).value;
      var count := Pick(contactCount, DefaultContactCount);
      && db.numbers == UpdateRows(old(db.numbers), id, UsePatch(n, count, now), now)
      && db.history == old(db.history) + [UsageEntry(old(db.nextHistoryId), id, n.phoneNumber, count, now, notes, 0)]
  {
    var found := db.GetWhatsappNumberById(id);
    if found.None? {
      return Fail(NumberNotFound);
    }
    var n := found.value;
    var count := Pick(contactCount, DefaultContactCount);
    ghost var rows := db.numbers;
    db.UpdateWhatsappNumber(id, UsePatch(n, count, now), now);
    SameKeysKeepConsistency(rows, db.numbers, db.history, db.nextNumberId);
    AppendAfterRewrite(rows, db.numbers, db.history, n,
      UsageEntry(db.nextHistoryId, n.id, n.phoneNumber, count, now, notes, 0));
    db.InsertUsageHistory(n.id, n.phoneNumber, count, notes, None, now);
    res := Pass;
  }

  // ---------------------------------------------------------------------------
  // blockNumber

  /** The partial update `blockNumber` writes. */
  function BlockPatch(hours: int, now: int): NumberPatch
  {
    NumberPatch(
      status := None,
      lastUsedAt := None,
      lastContactCount := None,
      totalUseCount := None,
      blockedUntil := Some(Some(now + hours * MsPerHour)),
      isSensitive := Some(1))
  }

  /** The note of a block's history entry: the caller's note, or a default
      naming the hours. */
  function BlockNote(notes: Option<string>, hours: nat): (note: string)
    ensures note != ""
  {
    if notes.Some? && notes.value != "" then notes.value
    else "Bloqueado manualmente por " + NatToString(hours) + "h"
  }

  /** The default note records the number of hours unambiguously, and a
      non-empty note of the caller is kept as given. */
  lemma BlockNoteRecordsHours(notes: Option<string>, h1: nat, h2: nat)
    ensures notes.Some? && notes.value != "" ==> BlockNote(notes, h1) == notes.value
    ensures BlockNote(None, h1) == BlockNote(None, h2) <==> h1 == h2
  {
    if BlockNote(None, h1) == BlockNote(None, h2) {
      var prefix := "Bloqueado manualmente por ";
      var a, b := NatToString(h1) + "h", NatToString(h2) + "h";
      assert BlockNote(None, h1) == prefix + a;
      assert BlockNote(None, h2) == prefix + b;
      assert a == (prefix + a)[|prefix|..];
      assert b == (prefix + b)[|prefix|..];
      DigitRunSplit(NatToString(h1), "h", NatToString(h2), "h");
      NatToStringInjective(h1, h2);
    }
  }

  /** A block of `hours` makes the number `blocked` for exactly that long,
      marks it sensitive and leaves its usage fields alone. */
  lemma BlockMakesBlocked(n: WhatsappNumber, hours: int, now: int)
    requires MinBlockHours <= hours <= MaxBlockHours
    ensures var u := ApplyPatch(n, BlockPatch(hours, now), now);
      && u.blockedUntil == Some(now + hours * MsPerHour) && u.isSensitive == 1
      && u.lastUsedAt == n.lastUsedAt && u.totalUseCount == n.totalUseCount
      && u.lastContactCount == n.lastContactCount && u.status == n.status
      && GetNumberStatus(u, now) == StatusInfo(Blocked, hours * 3600)
      && (forall t :: now <= t < now + hours * MsPerHour ==> GetNumberStatus(u, t).status == Blocked)
      && GetNumberStatus(u, now + hours * MsPerHour).status != Blocked
  {
    var u := ApplyPatch(n, BlockPatch(hours, now), now);
    assert u.blockedUntil == Some(now + hours * MsPerHour);
    assert hours * MsPerHour == (hours * 3600) * MsPerSecond;
  }

  /** A number blocked until `until` is left out of every suggestion before then. */
  lemma BlockedNotSuggested(rows: seq<WhatsappNumber>, id: int, p: NumberPatch, now: int, until: int, t: int)
    requires p.blockedUntil == Some(Some(until))
    requires t < until
    ensures forall x :: x in Suggestion.Suggest(UpdateRows(rows, id, p, now), t) ==> x.id != id
  {
    var s := UpdateRows(rows, id, p, now);
    Suggestion.SuggestIsSuggestion(s, t);
    forall y | y in s && y.id == id ensures BlockActive(y, t) {
      var i :| 0 <= i < |s| && s[i] == y;
      assert rows[i].id == id;
      assert y == ApplyPatch(rows[i], p, now);
    }
  }

  /** `blockNumber`: `hours` outside 1..168 is rejected before anything else;
      a missing number fails with `NumberNotFound`; otherwise the block patch
      is written and one history entry with 0 contacts and `wasBlocked` 1. */
  method BlockNumber(db: WhatsappStore, id: int, hours: int, notes: Option<string>, now: int)
    returns (res: Outcome)
    requires Consistent(db)
    modifies db
    ensures Consistent(db)
    ensures !(MinBlockHours <= hours <= MaxBlockHours) ==> res == Fail(InvalidInput)
    ensures res.Fail? <==>
      !(MinBlockHours <= hours <= MaxBlockHours) || !db.connected || forall n :: n in old(db.numbers) ==> n.id != id
    ensures res.Fail? && MinBlockHours <= hours <= MaxBlockHours ==> res.error == NumberNotFound
    ensures res.Fail? ==> db.numbers == old(db.numbers) && db.history == old(db.history)
    ensures res.Pass? ==> FindById(old(db.numbers), id).Some? && 0 <= hours
    ensures res.Pass? ==>
      var n := FindById(old(db.numbers), id).value;
      && db.numbers == UpdateRows(old(db.numbers), id, BlockPatch(hours, now), now)
      && db.history == old(db.history) + [UsageEntry(old(db.nextHistoryId), id, n.phoneNumber, 0, now, Some(BlockNote(notes, hours)), 1)]
  {
    if !(MinBlockHours <= hours <= MaxBlockHours) {
      return Fail(InvalidInput);
    }
    var found := db.GetWhatsappNumberById(id);
    if found.None? {
      return Fail(NumberNotFound);
    }
    var n := found.value;
    ghost var rows := db.numbers;
    db.UpdateWhatsappNumber(id, BlockPatch(hours, now), now);
    SameKeysKeepConsistency(rows, db.numbers, db.history, db.nextNumberId);
    AppendAfterRewrite(rows, db.numbers, db.history, n,
      UsageEntry(db.nextHistoryId, id, n.phoneNumber, 0, now, Some(BlockNote(notes, hours)), 1));
    db.InsertUsageHistory(id, n.phoneNumber, 0, Some(BlockNote(notes, hours)), Some(1), now);
    res := Pass;
  }

  // ---------------------------------------------------------------------------
  // unblockNumber and deleteNumber

  /** After an unblock the number is never `blocked`; what is left is its
      cooldown, if any. */
  lemma UnblockEndsBlock(n: WhatsappNumber, now: int, t: int)
    ensures GetNumberStatus(Unblocked(n, now), t).status != Blocked
    ensures GetNumberStatus(Unblocked(n, now), t) == GetNumberStatus(n.(blockedUntil := None), t)
    ensures Unblocked(n, now).isSensitive == 0
  {
  }

  /** `unblockNumber`: succeeds whether or not the id exists. */
  method UnblockNumber(db: WhatsappStore, id: int, now: int) returns (res: Outcome)
    requires Consistent(db)
    modifies db
    ensures Consistent(db)
    ensures res == if db.connected then Pass else Fail(DatabaseUnavailable)
    ensures db.numbers == if db.connected then UnblockRows(old(db.numbers), id, now) else old(db.numbers)
    ensures db.history == old(db.history)
  {
    ghost var rows := db.numbers;
    res := db.UnblockWhatsappNumber(id, now);
    SameKeysKeepConsistency(rows, db.numbers, db.history, db.nextNumberId);
  }

  /** `deleteNumber`: succeeds whether or not the id exists; afterwards
      neither the number nor any of its history remains. */
  method DeleteNumber(db: WhatsappStore, id: int) returns (res: Outcome)
    requires Consistent(db)
    modifies db
    ensures Consistent(db)
    ensures res == if db.connected then Pass else Fail(DatabaseUnavailable)
    ensures db.numbers == if db.connected then Filter(old(db.numbers), NotNumber(id)) else old(db.numbers)
    ensures db.history == if db.connected then Filter(old(db.history), NotOfNumber(id)) else old(db.history)
    ensures db.connected ==> (forall n :: n in db.numbers ==> n.id != id) && (forall e :: e in db.history ==> e.numberId != id)
  {
    CascadeKeepsConsistency(db.numbers, db.history, id);
    res := db.DeleteWhatsappNumber(id);
  }

  // ---------------------------------------------------------------------------
  // addNumber

  /** The input schema of `addNumber` for the phone: at least 10 characters,
      only an optional `+` then digits, whitespace, `-`, `(` and `)`, and
      between 10 and 15 digits. */
  predicate ValidPhoneInput(phone: string)
  {
    |phone| >= 10 && MatchesPhonePattern(phone) && 10 <= |OnlyDigits(phone)| <= 15
  }

  /** Some stored number has the same digits as `phone`. */
  predicate IsRegistered(numbers: seq<WhatsappNumber>, phone: string)
  {
    exists n :: n in numbers && OnlyDigits(n.phoneNumber) == OnlyDigits(phone)
  }

  /** `addNumber`: invalid input is rejected first; then, with a database, a
      phone whose digits match a stored number is rejected; otherwise the new
      number is stored in cooldown. */
  method AddNumber(db: WhatsappStore, phoneNumber: string, displayName: Option<string>, now: int)
    returns (res: Outcome)
    requires Consistent(db)
    modifies db
    ensures Consistent(db)
    ensures !ValidPhoneInput(phoneNumber) ==> res == Fail(InvalidInput)
    ensures ValidPhoneInput(phoneNumber) && !db.connected ==> res == Fail(DatabaseUnavailable)
    ensures ValidPhoneInput(phoneNumber) && db.connected && IsRegistered(old(db.numbers), phoneNumber) ==>
      res == Fail(AlreadyRegistered)
    ensures res.Pass? <==> ValidPhoneInput(phoneNumber) && db.connected && !IsRegistered(old(db.numbers), phoneNumber)
    ensures res.Pass? ==> db.numbers == old(db.numbers) + [NewNumber(old(db.nextNumberId), phoneNumber, displayName, now)]
    ensures res.Fail? ==> db.numbers == old(db.numbers)
    ensures db.history == old(db.history)
  {
    if !ValidPhoneInput(phoneNumber) {
      return Fail(InvalidInput);
    }
    var existing := db.GetAllWhatsappNumbers();
    var normalized := OnlyDigits(phoneNumber);
    var isDuplicate := exists n :: n in existing && OnlyDigits(n.phoneNumber) == normalized;
    assert db.connected ==> forall n :: n in existing <==> n in db.numbers by {
      if db.connected {
        forall n ensures n in existing <==> n in db.numbers {
          assert n in existing <==> n in multiset(existing);
          assert n in db.numbers <==> n in multiset(db.numbers);
        }
      }
    }
    if isDuplicate {
      return Fail(AlreadyRegistered);
    }
    if db.connected {
      FreshDigitsKeepConsistency(db.numbers, db.history, NewNumber(db.nextNumberId, phoneNumber, displayName, now));
    }
    res := db.AddWhatsappNumber(phoneNumber, displayName, now);
  }

  // ---------------------------------------------------------------------------
  // History procedures

  /** `getHistory`: at most `limit` entries (100 when not given), the most
      recent first, and none left out that is more recent than one returned. */
  method GetHistory(db: WhatsappStore, limit: Option<nat>) returns (r: seq<UsageEntry>)
    ensures !db.connected ==> r == []
    ensures db.connected ==>
      && |r| == Min(Pick(limit, DefaultHistoryLimit), |db.history|)
      && multiset(r) <= multiset(db.history)
      && SortedBy(r, NewerFirst)
      && forall x, e :: x in r && e in multiset(db.history) - multiset(r) ==> x.usedAt >= e.usedAt
  {
    r := db.GetUsageHistory(Pick(limit, DefaultHistoryLimit));
  }

  /** `deleteHistoryEntry`: removes the entry with that id, if any. */
  method DeleteHistoryEntry(db: WhatsappStore, id: int) returns (res: Outcome)
    requires Consistent(db)
    modifies db
    ensures Consistent(db)
    ensures res == if db.connected then Pass else Fail(DatabaseUnavailable)
    ensures db.history == if db.connected then Filter(old(db.history), NotEntry(id)) else old(db.history)
    ensures db.numbers == old(db.numbers)
  {
    DropEntryKeepsReferences(db.numbers, db.history, id);
    res := db.DeleteHistoryEntry(id);
  }

  /** `clearHistory`: empties the history and leaves the numbers alone. */
  method ClearHistory(db: WhatsappStore) returns (res: Outcome)
    requires Consistent(db)
    modifies db
    ensures Consistent(db)
    ensures res == if db.connected then Pass else Fail(DatabaseUnavailable)
    ensures db.history == if db.connected then [] else old(db.history)
    ensures db.numbers == old(db.numbers)
  {
    res := db.ClearAllHistory();
  }
}
