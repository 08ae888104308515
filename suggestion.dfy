/**
 * The suggestion ranker: keep the numbers that are available at one `now`,
 * order them with a four-level tie-break, and return the first two.
 */
module Suggestion {
  import opened Records
  import opened NumberStatus
  import opened Collections

  /** How many numbers the ranker suggests. */
  const SuggestionSize: nat := 2

  /** The sort comparator, with the sign convention of `Array.prototype.sort`:
      negative when `a` goes first. Never-used numbers go first, then by fewer
      uses and smaller id; used numbers by earlier last use, then fewer uses,
      then smaller id. */
  function Compare(a: WhatsappNumber, b: WhatsappNumber): int
  {
    if a.lastUsedAt.None? && b.lastUsedAt.None? then
      if a.totalUseCount != b.totalUseCount then a.totalUseCount - b.totalUseCount
      else a.id - b.id
    else if a.lastUsedAt.None? then -1
    else if b.lastUsedAt.None? then 1
    else if a.lastUsedAt.value - b.lastUsedAt.value != 0 then a.lastUsedAt.value - b.lastUsedAt.value
    else if a.totalUseCount != b.totalUseCount then a.totalUseCount - b.totalUseCount
    else a.id - b.id
  }

  /** `a` goes before `b` or ties with it. */
  predicate Precedes(a: WhatsappNumber, b: WhatsappNumber)
  {
    Compare(a, b) <= 0
  }

  // ---------------------------------------------------------------------------
  // The comparator is a strict total order on numbers with distinct ids

  /** The ranking key, compared lexicographically: used-flag, last use, uses, id. */
  function Key(a: WhatsappNumber): seq<int>
  {
    match a.lastUsedAt
    case None => [0, 0, a.totalUseCount, a.id]
    case Some(t) => [1, t, a.totalUseCount, a.id]
  }

  predicate KeyLess(k: seq<int>, l: seq<int>)
    requires |k| == |l|
    decreases |k|
  {
    k != [] && (k[0] < l[0] || (k[0] == l[0] && KeyLess(k[1..], l[1..])))
  }

  /** The comparator is exactly the lexicographic order of the keys. */
  lemma CompareIsKeyOrder(a: WhatsappNumber, b: WhatsappNumber)
    ensures Compare(a, b) < 0 <==> KeyLess(Key(a), Key(b))
    ensures Compare(a, b) == 0 <==> Key(a) == Key(b)
  {
    KeyLessOnFour(Key(a), Key(b));
  }

  lemma KeyLessOnFour(k: seq<int>, l: seq<int>)
    requires |k| == |l| == 4
    ensures KeyLess(k, l) <==>
      k[0] < l[0] || (k[0] == l[0] && (k[1] < l[1] || (k[1] == l[1] && (k[2] < l[2] || (k[2] == l[2] && k[3] < l[3])))))
  {
    var k1, l1 := k[1..], l[1..];
    var k2, l2 := k1[1..], l1[1..];
    var k3, l3 := k2[1..], l2[1..];
    assert k1[0] == k[1] && k2[0] == k[2] && k3[0] == k[3];
    assert l1[0] == l[1] && l2[0] == l[2] && l3[0] == l[3];
    assert !KeyLess(k3[1..], l3[1..]);
    assert KeyLess(k3, l3) <==> k3[0] < l3[0];
    assert KeyLess(k2, l2) <==> k2[0] < l2[0] || (k2[0] == l2[0] && KeyLess(k3, l3));
    assert KeyLess(k1, l1) <==> k1[0] < l1[0] || (k1[0] == l1[0] && KeyLess(k2, l2));
    assert KeyLess(k, l) <==> k[0] < l[0] || (k[0] == l[0] && KeyLess(k1, l1));
  }

  /** Swapping the arguments negates the comparator. */
  lemma CompareAntisymmetric(a: WhatsappNumber, b: WhatsappNumber)
    ensures Compare(a, b) == -Compare(b, a)
  {
  }

  /** The comparator ties only numbers with the same id. */
  lemma CompareZeroSameId(a: WhatsappNumber, b: WhatsappNumber)
    ensures Compare(a, b) == 0 ==> a.id == b.id
  {
  }

  /** Never-used numbers always go before used ones. */
  lemma NeverUsedFirst(a: WhatsappNumber, b: WhatsappNumber)
    requires a.lastUsedAt.None? && b.lastUsedAt.Some?
    ensures Compare(a, b) < 0 && Compare(b, a) > 0
  {
  }

  lemma {:induction false} KeyLessTransitive(k: seq<int>, l: seq<int>, m: seq<int>)
    requires |k| == |l| == |m|
    requires KeyLess(k, l) && KeyLess(l, m)
    ensures KeyLess(k, m)
    decreases |k|
  {
    if k[0] == l[0] && l[0] == m[0] {
      KeyLessTransitive(k[1..], l[1..], m[1..]);
    }
  }

  lemma CompareTransitive(a: WhatsappNumber, b: WhatsappNumber, c: WhatsappNumber)
    requires Compare(a, b) < 0 && Compare(b, c) < 0
    ensures Compare(a, c) < 0
  {
    CompareIsKeyOrder(a, b);
    CompareIsKeyOrder(b, c);
    CompareIsKeyOrder(a, c);
    KeyLessTransitive(Key(a), Key(b), Key(c));
  }

  /** On distinct ids exactly one of the two goes first: a strict total order. */
  lemma StrictTotalOnDistinctIds(a: WhatsappNumber, b: WhatsappNumber)
    requires a.id != b.id
    ensures (Compare(a, b) < 0) != (Compare(b, a) < 0)
  {
    CompareAntisymmetric(a, b);
    CompareZeroSameId(a, b);
  }

  /** `Precedes` is a total preorder, so sorting by it is well defined. */
  lemma PrecedesTotalPreorder()
    ensures Total(Precedes) && Transitive(Precedes)
  {
    forall a, b ensures Precedes(a, b) || Precedes(b, a) {
      CompareAntisymmetric(a, b);
    }
    forall a, b, c | Precedes(a, b) && Precedes(b, c) ensures Precedes(a, c) {
      CompareIsKeyOrder(a, b);
      CompareIsKeyOrder(b, c);
      CompareIsKeyOrder(a, c);
      if Compare(a, b) < 0 && Compare(b, c) < 0 {
        KeyLessTransitive(Key(a), Key(b), Key(c));
      }
    }
  }

  /** No two different records of `s` share an id (true of the table's rows). */
  ghost predicate UniqueIds(s: seq<WhatsappNumber>)
  {
    forall a, b :: a in s && b in s && a.id == b.id ==> a == b
  }

  lemma PrecedesAntisymmetricOnUniqueIds(s: seq<WhatsappNumber>)
    requires UniqueIds(s)
    ensures AntisymmetricOn(Precedes, s)
  {
    forall a, b | a in s && b in s && Precedes(a, b) && Precedes(b, a) ensures a == b {
      CompareAntisymmetric(a, b);
      CompareZeroSameId(a, b);
    }
  }

  // ---------------------------------------------------------------------------
  // The ranker

  predicate IsAvailableAt(now: int, num: WhatsappNumber)
  {
    GetNumberStatus(num, now).status == Available
  }

  /** The numbers available at `now`, in their original order. */
  function AvailableAt(numbers: seq<WhatsappNumber>, now: int): seq<WhatsappNumber>
  {
    Filter(numbers, n => IsAvailableAt(now, n))
  }

  /** The reference ranking: the first two of the available numbers, sorted. */
  function Suggest(numbers: seq<WhatsappNumber>, now: int): (r: seq<WhatsappNumber>)
    ensures |r| == Min(SuggestionSize, |AvailableAt(numbers, now)|)
    ensures forall x :: x in r ==> x in numbers && IsAvailableAt(now, x)
  {
    var ranked := InsertionSort(AvailableAt(numbers, now), Precedes);
    assert |ranked| == |multiset(ranked)| == |AvailableAt(numbers, now)|;
    assert forall x :: x in ranked ==> x in multiset(AvailableAt(numbers, now));
    assert forall x :: x in ranked ==> x in AvailableAt(numbers, now);
    var k := Min(SuggestionSize, |ranked|);
    assert forall x :: x in ranked[..k] ==> x in ranked;
    ranked[..k]
  }

  /** What a prefix of a sorted ranking of the available numbers guarantees. */
  ghost predicate IsSuggestion(numbers: seq<WhatsappNumber>, now: int, r: seq<WhatsappNumber>)
  {
    && (forall x :: x in r ==> x in numbers && GetNumberStatus(x, now).status == Available)
    && multiset(r) <= multiset(AvailableAt(numbers, now))
    && |r| == Min(2, |AvailableAt(numbers, now)|)
    && SortedBy(r, Precedes)
    && (forall x, e :: x in r && e in multiset(AvailableAt(numbers, now)) - multiset(r) ==> Precedes(x, e))
  }

  /** The first two of any sorted arrangement of the available numbers form a suggestion. */
  lemma RankedPrefixIsSuggestion(numbers: seq<WhatsappNumber>, now: int, ranked: seq<WhatsappNumber>)
    requires SortedBy(ranked, Precedes)
    requires multiset(ranked) == multiset(AvailableAt(numbers, now))
    ensures IsSuggestion(numbers, now, ranked[..Min(2, |ranked|)])
  {
    var available := AvailableAt(numbers, now);
    var r := ranked[..Min(2, |ranked|)];
    assert |ranked| == |multiset(ranked)| == |available|;
    PrefixPrecedesRest(ranked, |r|, Precedes);
    assert ranked == r + ranked[|r|..];
    assert multiset(ranked) == multiset(r) + multiset(ranked[|r|..]);
    forall x | x in r ensures x in available {
      assert x in multiset(ranked);
    }
  }

  /** A row occurs at most once in a sequence whose rows have pairwise distinct ids. */
  lemma {:induction false} DistinctIdsOccurOnce(s: seq<WhatsappNumber>, x: WhatsappNumber)
    requires forall i, j :: 0 <= i < j < |s| ==> s[i].id != s[j].id
    ensures multiset(s)[x] <= 1
    decreases |s|
  {
    if s != [] {
      assert s == [s[0]] + s[1..];
      DistinctIdsOccurOnce(s[1..], x);
      if s[0] == x {
        assert x !in s[1..];
      }
    }
  }

  /** Over a table with distinct ids (its primary key), the two suggested numbers
      are two different rows. */
  lemma SuggestionDistinct(numbers: seq<WhatsappNumber>, now: int, r: seq<WhatsappNumber>)
    requires forall i, j :: 0 <= i < j < |numbers| ==> numbers[i].id != numbers[j].id
    requires IsSuggestion(numbers, now, r)
    ensures forall i, j :: 0 <= i < j < |r| ==> r[i].id != r[j].id
  {
    if |r| == 2 {
      var x, y := r[0], r[1];
      DistinctIdsOccurOnce(numbers, x);
      FilterCount(numbers, n => IsAvailableAt(now, n), x);
      assert multiset(r)[x] <= 1;
      assert r == [x, y];
      assert x != y;
      assert x in r && y in r;
      var k :| 0 <= k < |numbers| && numbers[k] == x;
      var l :| 0 <= l < |numbers| && numbers[l] == y;
      assert k != l;
    }
  }

  /** The suggestion query: filter with a single `now`, sort in place, keep two. */
  method GetSuggestion(numbers: seq<WhatsappNumber>, now: int) returns (r: seq<WhatsappNumber>)
    ensures IsSuggestion(numbers, now, r)
    ensures UniqueIds(numbers) ==> r == Suggest(numbers, now)
  {
    var available := AvailableAt(numbers, now);
    if |available| == 0 {
      RankedPrefixIsSuggestion(numbers, now, []);
      return [];
    }
    var a := new WhatsappNumber[|available|](i requires 0 <= i < |available| => available[i]);
    assert a[..] == available;
    PrecedesTotalPreorder();
    SortInPlace(a, Precedes);
    r := a[..Min(SuggestionSize, a.Length)];
    RankedPrefixIsSuggestion(numbers, now, a[..]);
    if UniqueIds(numbers) {
      SuggestIsRankedPrefix(numbers, now, a[..]);
    }
  }

  /** With distinct ids, every sorted arrangement of the available numbers is the
      reference ranking. */
  lemma SuggestIsRankedPrefix(numbers: seq<WhatsappNumber>, now: int, ranked: seq<WhatsappNumber>)
    requires UniqueIds(numbers)
    requires SortedBy(ranked, Precedes)
    requires multiset(ranked) == multiset(AvailableAt(numbers, now))
    ensures ranked == InsertionSort(AvailableAt(numbers, now), Precedes)
  {
    var available := AvailableAt(numbers, now);
    forall x | x in ranked ensures x in numbers {
      assert x in multiset(available);
    }
    PrecedesAntisymmetricOnUniqueIds(ranked);
    PrecedesTotalPreorder();
    InsertionSortSorted(available, Precedes);
    SortedUnique(ranked, InsertionSort(available, Precedes), Precedes);
  }

  /** The reference ranking has every property of a suggestion: only numbers
      available at the `now` of the call, two of them or all when fewer are
      available, sorted, and no number left out ranks before a suggested one. */
  lemma SuggestIsSuggestion(numbers: seq<WhatsappNumber>, now: int)
    ensures IsSuggestion(numbers, now, Suggest(numbers, now))
    ensures Suggest(numbers, now) == [] <==> forall n :: n in numbers ==> GetNumberStatus(n, now).status != Available
  {
    var available := AvailableAt(numbers, now);
    PrecedesTotalPreorder();
    InsertionSortSorted(available, Precedes);
    RankedPrefixIsSuggestion(numbers, now, InsertionSort(available, Precedes));
    var ranked := InsertionSort(available, Precedes);
    assert |ranked| == |multiset(ranked)| == |available|;
    FilterEmpty(numbers, n => IsAvailableAt(now, n));
  }

  /** With distinct ids the suggestion does not depend on the order in which
      the numbers were read. */
  lemma SuggestOrderIndependent(numbers: seq<WhatsappNumber>, reordered: seq<WhatsappNumber>, now: int)
    requires multiset(numbers) == multiset(reordered)
    requires UniqueIds(numbers)
    ensures Suggest(numbers, now) == Suggest(reordered, now)
  {
    var p := n => IsAvailableAt(now, n);
    FilterRespectsMultiset(numbers, reordered, p);
    var s, t := AvailableAt(numbers, now), AvailableAt(reordered, now);
    PrecedesTotalPreorder();
    InsertionSortSorted(s, Precedes);
    InsertionSortSorted(t, Precedes);
    var rs, rt := InsertionSort(s, Precedes), InsertionSort(t, Precedes);
    assert forall x :: x in rs ==> x in numbers by {
      forall x | x in rs ensures x in numbers {
        assert x in multiset(s);
      }
    }
    PrecedesAntisymmetricOnUniqueIds(rs);
    SortedUnique(rs, rt, Precedes);
  }
}
