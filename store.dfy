/**
 * The persistence layer of the rotation engine: the `whatsapp_numbers` and
 * `usage_history` tables and the query functions over them, held in memory.
 *
 * `connected` stands for whether a database connection could be made; without
 * one, reads return nothing, `updateWhatsappNumber` and `insertUsageHistory`
 * do nothing, and every other write fails with `DatabaseUnavailable`.
 */
module Store {
  import opened Records
  import opened Collections
  import opened Text
  import opened NumberStatus

  // ---------------------------------------------------------------------------
  // Table invariants

  /** Primary keys are distinct and below the auto-increment counter, and the
      unique index on `phone_number` holds. */
  ghost predicate NumbersValid(rows: seq<WhatsappNumber>, nextId: int)
  {
    && (forall i, j :: 0 <= i < j < |rows| ==> rows[i].id != rows[j].id)
    && (forall i, j :: 0 <= i < j < |rows| ==> rows[i].phoneNumber != rows[j].phoneNumber)
    && (forall r :: r in rows ==> 1 <= r.id < nextId)
    && 1 <= nextId
  }

  ghost predicate HistoryValid(entries: seq<UsageEntry>, nextId: int)
  {
    && (forall i, j :: 0 <= i < j < |entries| ==> entries[i].id != entries[j].id)
    && (forall e :: e in entries ==> 1 <= e.id < nextId)
    && 1 <= nextId
  }

  // ---------------------------------------------------------------------------
  // Row-level effects

  /** The partial update accepted by `updateWhatsappNumber`: absent fields are
      left alone. */
  datatype NumberPatch = NumberPatch(
    status: Option<StoredStatus>,
    lastUsedAt: Option<Option<int>>,
    lastContactCount: Option<int>,
    totalUseCount: Option<int>,
    blockedUntil: Option<Option<int>>,
    isSensitive: Option<int>)

  function Pick<T>(field: Option<T>, current: T): T
  {
    if field.Some? then field.value else current
  }

  /** The row after a partial update at time `now`. `updatedAt` is refreshed by
      the column's ON UPDATE CURRENT_TIMESTAMP, which fires only when some other
      column actually changes. */
  function ApplyPatch(r: WhatsappNumber, p: NumberPatch, now: int): (u: WhatsappNumber)
    ensures u.id == r.id && u.phoneNumber == r.phoneNumber && u.displayName == r.displayName
    ensures u.createdAt == r.createdAt
    ensures p.status.None? ==> u.status == r.status
    ensures p.lastUsedAt.None? ==> u.lastUsedAt == r.lastUsedAt
    ensures p.lastContactCount.None? ==> u.lastContactCount == r.lastContactCount
    ensures p.totalUseCount.None? ==> u.totalUseCount == r.totalUseCount
    ensures p.blockedUntil.None? ==> u.blockedUntil == r.blockedUntil
    ensures p.isSensitive.None? ==> u.isSensitive == r.isSensitive
    ensures p.status.Some? ==> u.status == p.status.value
    ensures p.lastUsedAt.Some? ==> u.lastUsedAt == p.lastUsedAt.value
    ensures p.lastContactCount.Some? ==> u.lastContactCount == p.lastContactCount
    ensures p.totalUseCount.Some? ==> u.totalUseCount == p.totalUseCount.value
    ensures p.blockedUntil.Some? ==> u.blockedUntil == p.blockedUntil.value
    ensures p.isSensitive.Some? ==> u.isSensitive == p.isSensitive.value
    ensures u == r || u.updatedAt == now
  {
    var written := r.(
      status := Pick(p.status, r.status),
      lastUsedAt := Pick(p.lastUsedAt, r.lastUsedAt),
      lastContactCount := if p.lastContactCount.Some? then p.lastContactCount else r.lastContactCount,
      totalUseCount := Pick(p.totalUseCount, r.totalUseCount),
      blockedUntil := Pick(p.blockedUntil, r.blockedUntil),
      isSensitive := Pick(p.isSensitive, r.isSensitive));
    if written == r then r else written.(updatedAt := now)
  }

  /** `UPDATE ... SET p WHERE id = id` over the whole table. */
  function UpdateRows(rows: seq<WhatsappNumber>, id: int, p: NumberPatch, now: int): (s: seq<WhatsappNumber>)
    ensures |s| == |rows|
    ensures forall i :: 0 <= i < |rows| ==> s[i] == if rows[i].id == id then ApplyPatch(rows[i], p, now) else rows[i]
  {
    seq(|rows|, i requires 0 <= i < |rows| => if rows[i].id == id then ApplyPatch(rows[i], p, now) else rows[i])
  }

  /** What `unblockWhatsappNumber` writes into the matching row. */
  function Unblocked(r: WhatsappNumber, now: int): WhatsappNumber
  {
    r.(blockedUntil := None, isSensitive := 0, updatedAt := now)
  }

  function UnblockRows(rows: seq<WhatsappNumber>, id: int, now: int): (s: seq<WhatsappNumber>)
    ensures |s| == |rows|
    ensures forall i :: 0 <= i < |rows| ==> s[i] == if rows[i].id == id then Unblocked(rows[i], now) else rows[i]
  {
    seq(|rows|, i requires 0 <= i < |rows| => if rows[i].id == id then Unblocked(rows[i], now) else rows[i])
  }

  /** The row `addWhatsappNumber` inserts: a fresh number starts as used now, so
      that it serves a protective 24-hour cooldown; an empty display name is
      stored as null. */
  function NewNumber(id: int, phoneNumber: string, displayName: Option<string>, now: int): WhatsappNumber
  {
    WhatsappNumber(
      id := id,
      phoneNumber := phoneNumber,
      displayName := if displayName.Some? && displayName.value != "" then displayName else None,
      status := StoredCooldown,
      lastUsedAt := Some(now),
      lastContactCount := Some(DefaultLastContactCount),
      totalUseCount := 0,
      blockedUntil := None,
      isSensitive := 0,
      createdAt := now,
      updatedAt := now)
  }

  /** A freshly added number serves a full 24-hour cooldown: it is not
      available before `now + CooldownMs` and is available from then on. */
  lemma NewNumberStartsInCooldown(id: int, phoneNumber: string, displayName: Option<string>, now: int, t: int)
    ensures GetNumberStatus(NewNumber(id, phoneNumber, displayName, now), now) == StatusInfo(Cooldown, CooldownMs / MsPerSecond)
    ensures now <= t < now + CooldownMs ==> GetNumberStatus(NewNumber(id, phoneNumber, displayName, now), t).status == Cooldown
    ensures t >= now + CooldownMs ==> GetNumberStatus(NewNumber(id, phoneNumber, displayName, now), t) == StatusInfo(Available, 0)
    ensures NewNumber(id, phoneNumber, displayName, now).displayName.None? <==> displayName.None? || displayName.value == ""
  {
  }

  /** The rows a `DELETE ... WHERE id = id` keeps. */
  function NotNumber(id: int): WhatsappNumber -> bool
  {
    (r: WhatsappNumber) => r.id != id
  }

  /** The history entries a `DELETE ... WHERE number_id = id` keeps. */
  function NotOfNumber(id: int): UsageEntry -> bool
  {
    (e: UsageEntry) => e.numberId != id
  }

  /** The history entries a `DELETE ... WHERE id = id` keeps. */
  function NotEntry(id: int): UsageEntry -> bool
  {
    (e: UsageEntry) => e.id != id
  }

  /** `SELECT ... WHERE id = id LIMIT 1`. */
  function FindById(rows: seq<WhatsappNumber>, id: int): (r: Option<WhatsappNumber>)
    ensures r.Some? ==> r.value in rows && r.value.id == id
    ensures r.None? <==> forall x :: x in rows ==> x.id != id
    decreases |rows|
  {
    if rows == [] then None
    else if rows[0].id == id then Some(rows[0])
    else FindById(rows[1..], id)
  }

  /** The `ORDER BY phone_number` of the number listing (by character code). */
  predicate ByPhone(x: WhatsappNumber, y: WhatsappNumber)
  {
    StringLe(x.phoneNumber, y.phoneNumber)
  }

  /** The `ORDER BY used_at DESC` of the history listing. */
  predicate NewerFirst(x: UsageEntry, y: UsageEntry)
  {
    x.usedAt >= y.usedAt
  }

  lemma ByPhoneTotalPreorder()
    ensures Total(ByPhone) && Transitive(ByPhone)
  {
    forall x, y ensures ByPhone(x, y) || ByPhone(y, x) {
      StringLeTotal(x.phoneNumber, y.phoneNumber);
    }
    forall x, y, z | ByPhone(x, y) && ByPhone(y, z) ensures ByPhone(x, z) {
      StringLeTransitive(x.phoneNumber, y.phoneNumber, z.phoneNumber);
    }
  }

  lemma NewerFirstTotalPreorder()
    ensures Total(NewerFirst) && Transitive(NewerFirst)
  {
  }

  // ---------------------------------------------------------------------------
  // Lemmas about the row-level effects

  /** A partial update touches only the row with that id, and there only the
      fields it names (and the update stamp). Applying it twice equals once. */
  lemma UpdateRowsOnlyTarget(rows: seq<WhatsappNumber>, id: int, p: NumberPatch, now: int)
    ensures forall i :: 0 <= i < |rows| && rows[i].id != id ==> UpdateRows(rows, id, p, now)[i] == rows[i]
    ensures UpdateRows(UpdateRows(rows, id, p, now), id, p, now) == UpdateRows(rows, id, p, now)
  {
    var once := UpdateRows(rows, id, p, now);
    forall i | 0 <= i < |rows| && rows[i].id == id
      ensures ApplyPatch(once[i], p, now) == once[i]
    {
      PatchIdempotent(rows[i], p, now);
    }
  }

  lemma PatchIdempotent(r: WhatsappNumber, p: NumberPatch, now: int)
    ensures ApplyPatch(ApplyPatch(r, p, now), p, now) == ApplyPatch(r, p, now)
  {
  }

  /** Updates and unblocks keep every key and phone number, so the table
      invariant survives them. */
  lemma UpdateRowsKeepsKeys(rows: seq<WhatsappNumber>, id: int, p: NumberPatch, now: int, nextId: int)
    requires NumbersValid(rows, nextId)
    ensures NumbersValid(UpdateRows(rows, id, p, now), nextId)
  {
    var s := UpdateRows(rows, id, p, now);
    forall r | r in s ensures 1 <= r.id < nextId {
      var i :| 0 <= i < |s| && s[i] == r;
      assert rows[i] in rows;
    }
  }

  lemma UnblockRowsKeepsKeys(rows: seq<WhatsappNumber>, id: int, now: int, nextId: int)
    requires NumbersValid(rows, nextId)
    ensures NumbersValid(UnblockRows(rows, id, now), nextId)
  {
    var s := UnblockRows(rows, id, now);
    forall r | r in s ensures 1 <= r.id < nextId {
      var i :| 0 <= i < |s| && s[i] == r;
      assert rows[i] in rows;
    }
  }

  /** Unblocking clears the block and the sensitive flag of the matching row
      only, whether it was blocked or not; unblocking again changes nothing. */
  lemma UnblockIdempotent(rows: seq<WhatsappNumber>, id: int, now: int)
    ensures forall i :: 0 <= i < |rows| && rows[i].id == id ==>
      UnblockRows(rows, id, now)[i].blockedUntil.None? && UnblockRows(rows, id, now)[i].isSensitive == 0
    ensures UnblockRows(UnblockRows(rows, id, now), id, now) == UnblockRows(rows, id, now)
  {
  }

  /** Deleting by a predicate keeps the table invariants. */
  lemma {:induction false} FilterKeepsNumbersValid(rows: seq<WhatsappNumber>, p: WhatsappNumber -> bool, nextId: int)
    requires NumbersValid(rows, nextId)
    ensures NumbersValid(Filter(rows, p), nextId)
    decreases |rows|
  {
    if rows != [] {
      FilterKeepsNumbersValid(rows[1..], p, nextId);
      var rest := Filter(rows[1..], p);
      if p(rows[0]) {
        forall x | x in rest ensures x.id != rows[0].id && x.phoneNumber != rows[0].phoneNumber {
          var j :| 0 <= j < |rows[1..]| && rows[1..][j] == x;
          assert rows[j + 1] == x;
        }
        ConsKeepsNumbersValid(rows[0], rest, nextId);
      }
    }
  }

  lemma ConsKeepsNumbersValid(r: WhatsappNumber, rest: seq<WhatsappNumber>, nextId: int)
    requires NumbersValid(rest, nextId) && 1 <= r.id < nextId
    requires forall x :: x in rest ==> x.id != r.id && x.phoneNumber != r.phoneNumber
    ensures NumbersValid([r] + rest, nextId)
  {
    var s := [r] + rest;
    forall i, j | 0 <= i < j < |s| ensures s[i].id != s[j].id && s[i].phoneNumber != s[j].phoneNumber {
      assert s[j] == rest[j - 1];
      if i > 0 {
        assert s[i] == rest[i - 1];
      } else {
        assert s[j] in rest;
      }
    }
  }

  lemma {:induction false} FilterKeepsHistoryValid(entries: seq<UsageEntry>, p: UsageEntry -> bool, nextId: int)
    requires HistoryValid(entries, nextId)
    ensures HistoryValid(Filter(entries, p), nextId)
    decreases |entries|
  {
    if entries != [] {
      FilterKeepsHistoryValid(entries[1..], p, nextId);
      var rest := Filter(entries[1..], p);
      if p(entries[0]) {
        forall x | x in rest ensures x.id != entries[0].id {
          var j :| 0 <= j < |entries[1..]| && entries[1..][j] == x;
          assert entries[j + 1] == x;
        }
        ConsKeepsHistoryValid(entries[0], rest, nextId);
      }
    }
  }

  lemma ConsKeepsHistoryValid(e: UsageEntry, rest: seq<UsageEntry>, nextId: int)
    requires HistoryValid(rest, nextId) && 1 <= e.id < nextId
    requires forall x :: x in rest ==> x.id != e.id
    ensures HistoryValid([e] + rest, nextId)
  {
    var s := [e] + rest;
    forall i, j | 0 <= i < j < |s| ensures s[i].id != s[j].id {
      assert s[j] == rest[j - 1];
      if i > 0 {
        assert s[i] == rest[i - 1];
      } else {
        assert s[j] in rest;
      }
    }
  }

  /** The cascading delete removes exactly the number with that id and the
      history entries that point at it; an id nothing refers to changes nothing. */
  lemma CascadeDeleteEffect(rows: seq<WhatsappNumber>, entries: seq<UsageEntry>, id: int)
    ensures forall r :: r in Filter(rows, NotNumber(id)) <==> r in rows && r.id != id
    ensures forall e :: e in Filter(entries, NotOfNumber(id)) <==> e in entries && e.numberId != id
    ensures (forall r :: r in rows ==> r.id != id) ==> Filter(rows, NotNumber(id)) == rows
    ensures (forall e :: e in entries ==> e.numberId != id) ==> Filter(entries, NotOfNumber(id)) == entries
  {
    if forall r :: r in rows ==> r.id != id {
      FilterKeepsAll(rows, NotNumber(id));
    }
    if forall e :: e in entries ==> e.numberId != id {
      FilterKeepsAll(entries, NotOfNumber(id));
    }
  }

  /** Appending a row with the next key and a phone number not yet stored, and
      advancing the counter, keeps the table invariant. */
  lemma AppendKeepsNumbersValid(rows: seq<WhatsappNumber>, r: WhatsappNumber, nextId: int)
    requires NumbersValid(rows, nextId) && r.id == nextId
    requires forall x :: x in rows ==> x.phoneNumber != r.phoneNumber
    ensures NumbersValid(rows + [r], nextId + 1)
  {
    var s := rows + [r];
    forall i, j | 0 <= i < j < |s| ensures s[i].id != s[j].id && s[i].phoneNumber != s[j].phoneNumber {
      if j == |rows| {
        assert s[i] in rows;
      }
    }
  }

  lemma AppendKeepsHistoryValid(entries: seq<UsageEntry>, e: UsageEntry, nextId: int)
    requires HistoryValid(entries, nextId) && e.id == nextId
    ensures HistoryValid(entries + [e], nextId + 1)
  {
    var s := entries + [e];
    forall i, j | 0 <= i < j < |s| ensures s[i].id != s[j].id {
      if j == |entries| {
        assert s[i] in entries;
      }
    }
  }

  /** With unique phone numbers, the listing order is fully determined. */
  lemma ListingOrderDetermined(rows: seq<WhatsappNumber>, listing: seq<WhatsappNumber>, nextId: int)
    requires NumbersValid(rows, nextId)
    requires multiset(listing) == multiset(rows) && SortedBy(listing, ByPhone)
    ensures listing == InsertionSort(rows, ByPhone)
  {
    ByPhoneTotalPreorder();
    InsertionSortSorted(rows, ByPhone);
    forall x, y | x in listing && y in listing && ByPhone(x, y) && ByPhone(y, x) ensures x == y {
      StringLeAntisymmetric(x.phoneNumber, y.phoneNumber);
      assert x in multiset(rows) && y in multiset(rows);
      var i :| 0 <= i < |rows| && rows[i] == x;
      var j :| 0 <= j < |rows| && rows[j] == y;
      if i < j {
        assert rows[i].phoneNumber != rows[j].phoneNumber;
      } else if j < i {
        assert rows[j].phoneNumber != rows[i].phoneNumber;
      }
    }
    SortedUnique(listing, InsertionSort(rows, ByPhone), ByPhone);
  }

  // ---------------------------------------------------------------------------
  // The tables

  class WhatsappStore {
    const connected: bool
    var numbers: seq<WhatsappNumber>
    var history: seq<UsageEntry>
    var nextNumberId: int
    var nextHistoryId: int

    ghost predicate Valid()
      reads this
    {
      NumbersValid(numbers, nextNumberId) && HistoryValid(history, nextHistoryId)
    }

    constructor (connected: bool)
      ensures Valid()
      ensures this.connected == connected && numbers == [] && history == []
    {
      this.connected := connected;
      numbers, history := [], [];
      nextNumberId, nextHistoryId := 1, 1;
    }

    /** `getAllWhatsappNumbers`: every row, ordered by phone number. */
    method GetAllWhatsappNumbers() returns (r: seq<WhatsappNumber>)
      requires Valid()
      ensures !connected ==> r == []
      ensures connected ==> multiset(r) == multiset(numbers) && SortedBy(r, ByPhone)
    {
      if !connected {
        return [];
      }
      ByPhoneTotalPreorder();
      InsertionSortSorted(numbers, ByPhone);
      r := InsertionSort(numbers, ByPhone);
    }

    /** `getWhatsappNumberById`: the row with that id, if any. */
    method GetWhatsappNumberById(id: int) returns (r: Option<WhatsappNumber>)
      ensures r == if connected then FindById(numbers, id) else None
      ensures r.Some? ==> connected && r.value in numbers && r.value.id == id
      ensures r.None? <==> !connected || forall x :: x in numbers ==> x.id != id
    {
      if !connected {
        return None;
      }
      r := FindById(numbers, id);
    }

    /** `updateWhatsappNumber`: a partial update of the row with that id. */
    method UpdateWhatsappNumber(id: int, p: NumberPatch, now: int)
      requires Valid()
      modifies this
      ensures Valid()
      ensures numbers == if connected then UpdateRows(old(numbers), id, p, now) else old(numbers)
      ensures history == old(history) && nextNumberId == old(nextNumberId) && nextHistoryId == old(nextHistoryId)
    {
      if !connected {
        return;
      }
      UpdateRowsKeepsKeys(numbers, id, p, now, nextNumberId);
      numbers := UpdateRows(numbers, id, p, now);
    }

    /** `insertUsageHistory`: appends one entry stamped `now`; `wasBlocked`
        defaults to 0. */
    method InsertUsageHistory(numberId: int, phoneNumber: string, contactCount: int,
                              notes: Option<string>, wasBlocked: Option<int>, now: int)
      requires Valid()
      modifies this
      ensures Valid()
      ensures history == if connected
        then old(history) + [UsageEntry(old(nextHistoryId), numberId, phoneNumber, contactCount, now, notes, Pick(wasBlocked, 0))]
        else old(history)
      ensures numbers == old(numbers) && nextNumberId == old(nextNumberId)
    {
      if !connected {
        return;
      }
      AppendKeepsHistoryValid(history, UsageEntry(nextHistoryId, numberId, phoneNumber, contactCount, now, notes, Pick(wasBlocked, 0)), nextHistoryId);
      history := history + [UsageEntry(nextHistoryId, numberId, phoneNumber, contactCount, now, notes, Pick(wasBlocked, 0))];
      nextHistoryId := nextHistoryId + 1;
    }

    /** `getUsageHistory`: at most `limit` entries, the most recent first. */
    method GetUsageHistory(limit: nat) returns (r: seq<UsageEntry>)
      ensures !connected ==> r == []
      ensures connected ==> |r| == Min(limit, |history|) && multiset(r) <= multiset(history) && SortedBy(r, NewerFirst)
      ensures connected ==> forall x, e :: x in r && e in multiset(history) - multiset(r) ==> x.usedAt >= e.usedAt
    {
      if !connected {
        return [];
      }
      NewerFirstTotalPreorder();
      var sorted := InsertionSort(history, NewerFirst);
      InsertionSortSorted(history, NewerFirst);
      assert |sorted| == |multiset(sorted)| == |history|;
      var k := Min(limit, |history|);
      r := sorted[..k];
      SortedPrefix(sorted, k, NewerFirst);
      PrefixPrecedesRest(sorted, k, NewerFirst);
    }

    /** `unblockWhatsappNumber`: clears the block of the row with that id. */
    method UnblockWhatsappNumber(id: int, now: int) returns (res: Outcome)
      requires Valid()
      modifies this
      ensures Valid()
      ensures res == if connected then Pass else Fail(DatabaseUnavailable)
      ensures numbers == if connected then UnblockRows(old(numbers), id, now) else old(numbers)
      ensures history == old(history) && nextNumberId == old(nextNumberId) && nextHistoryId == old(nextHistoryId)
    {
      if !connected {
        return Fail(DatabaseUnavailable);
      }
      UnblockRowsKeepsKeys(numbers, id, now, nextNumberId);
      numbers := UnblockRows(numbers, id, now);
      res := Pass;
    }

    /** `deleteWhatsappNumber`: first the history of the number, then the number. */
    method DeleteWhatsappNumber(id: int) returns (res: Outcome)
      requires Valid()
      modifies this
      ensures Valid()
      ensures res == if connected then Pass else Fail(DatabaseUnavailable)
      ensures history == if connected then Filter(old(history), NotOfNumber(id)) else old(history)
      ensures numbers == if connected then Filter(old(numbers), NotNumber(id)) else old(numbers)
      ensures nextNumberId == old(nextNumberId) && nextHistoryId == old(nextHistoryId)
    {
      if !connected {
        return Fail(DatabaseUnavailable);
      }
      FilterKeepsHistoryValid(history, NotOfNumber(id), nextHistoryId);
      history := Filter(history, NotOfNumber(id));
      FilterKeepsNumbersValid(numbers, NotNumber(id), nextNumberId);
      numbers := Filter(numbers, NotNumber(id));
      res := Pass;
    }

    /** `addWhatsappNumber`: inserts a fresh row; the unique index rejects a phone
        number that is already stored verbatim. */
    method AddWhatsappNumber(phoneNumber: string, displayName: Option<string>, now: int) returns (res: Outcome)
      requires Valid()
      modifies this
      ensures Valid()
      ensures !connected ==> res == Fail(DatabaseUnavailable)
      ensures connected && (exists x :: x in old(numbers) && x.phoneNumber == phoneNumber) ==> res == Fail(DuplicateEntry)
      ensures res.Pass? <==> connected && forall x :: x in old(numbers) ==> x.phoneNumber != phoneNumber
      ensures res.Fail? ==> numbers == old(numbers) && nextNumberId == old(nextNumberId)
      ensures res.Pass? ==>
        numbers == old(numbers) + [NewNumber(old(nextNumberId), phoneNumber, displayName, now)] &&
        nextNumberId == old(nextNumberId) + 1
      ensures history == old(history) && nextHistoryId == old(nextHistoryId)
    {
      if !connected {
        return Fail(DatabaseUnavailable);
      }
      if exists x :: x in numbers && x.phoneNumber == phoneNumber {
        return Fail(DuplicateEntry);
      }
      AppendKeepsNumbersValid(numbers, NewNumber(nextNumberId, phoneNumber, displayName, now), nextNumberId);
      numbers := numbers + [NewNumber(nextNumberId, phoneNumber, displayName, now)];
      nextNumberId := nextNumberId + 1;
      res := Pass;
    }

    /** `deleteHistoryEntry`: removes the entry with that id. */
    method DeleteHistoryEntry(id: int) returns (res: Outcome)
      requires Valid()
      modifies this
      ensures Valid()
      ensures res == if connected then Pass else Fail(DatabaseUnavailable)
      ensures history == if connected then Filter(old(history), NotEntry(id)) else old(history)
      ensures numbers == old(numbers) && nextNumberId == old(nextNumberId) && nextHistoryId == old(nextHistoryId)
    {
      if !connected {
        return Fail(DatabaseUnavailable);
      }
      FilterKeepsHistoryValid(history, NotEntry(id), nextHistoryId);
      history := Filter(history, NotEntry(id));
      res := Pass;
    }

    /** `clearAllHistory`: empties the history table. */
    method ClearAllHistory() returns (res: Outcome)
      requires Valid()
      modifies this
      ensures Valid()
      ensures res == if connected then Pass else Fail(DatabaseUnavailable)
      ensures history == if connected then [] else old(history)
      ensures numbers == old(numbers) && nextNumberId == old(nextNumberId) && nextHistoryId == old(nextHistoryId)
    {
      if !connected {
        return Fail(DatabaseUnavailable);
      }
      history := [];
      res := Pass;
    }
  }
}
