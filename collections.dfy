/**
 * Sequence filtering and sorting, the library operations the engine leans on:
 * `Array.prototype.filter`, `Array.prototype.sort` with a comparator, and the
 * `ORDER BY ... LIMIT` of the database. A comparator is modelled as a
 * "precedes or ties" relation `le`; every sort used here is over a relation
 * that is total and transitive.
 */
module Collections {

  // ---------------------------------------------------------------------------
  // Filtering

  /** The elements of `s` that satisfy `p`, in their original order. */
  function Filter<T>(s: seq<T>, p: T -> bool): (r: seq<T>)
    ensures |r| <= |s|
    ensures forall x :: x in r ==> x in s && p(x)
    ensures forall x :: x in s && p(x) ==> x in r
    decreases |s|
  {
    if s == [] then []
    else if p(s[0]) then [s[0]] + Filter(s[1..], p)
    else Filter(s[1..], p)
  }

  /** Filtering keeps each element as often as it occurs, or drops it entirely. */
  lemma {:induction false} FilterCount<T>(s: seq<T>, p: T -> bool, x: T)
    ensures multiset(Filter(s, p))[x] == if p(x) then multiset(s)[x] else 0
    decreases |s|
  {
    if s != [] {
      FilterCount(s[1..], p, x);
      assert s == [s[0]] + s[1..];
    }
  }

  /** So the filtered multiset depends only on the multiset of the input. */
  lemma FilterRespectsMultiset<T>(s: seq<T>, t: seq<T>, p: T -> bool)
    requires multiset(s) == multiset(t)
    ensures multiset(Filter(s, p)) == multiset(Filter(t, p))
  {
    var a, b := multiset(Filter(s, p)), multiset(Filter(t, p));
    forall x ensures a[x] == b[x] {
      FilterCount(s, p, x);
      FilterCount(t, p, x);
    }
    MultisetExt(a, b);
  }

  lemma MultisetExt<T>(a: multiset<T>, b: multiset<T>)
    requires forall x :: a[x] == b[x]
    ensures a == b
  {
  }

  /** A filter comes out empty exactly when no element satisfies the predicate. */
  lemma {:induction false} FilterEmpty<T>(s: seq<T>, p: T -> bool)
    ensures Filter(s, p) == [] <==> forall x :: x in s ==> !p(x)
    decreases |s|
  {
    if s != [] {
      FilterEmpty(s[1..], p);
      assert forall x :: x in s <==> x == s[0] || x in s[1..];
    }
  }

  /** A filter that rejects nothing is the identity. */
  lemma {:induction false} FilterKeepsAll<T>(s: seq<T>, p: T -> bool)
    requires forall x :: x in s ==> p(x)
    ensures Filter(s, p) == s
    decreases |s|
  {
    if s != [] {
      FilterKeepsAll(s[1..], p);
    }
  }

  /** Three filters whose predicates split the element type count every element once. */
  lemma {:induction false} FilterPartitionSize<T>(s: seq<T>, p: T -> bool, q: T -> bool, u: T -> bool)
    requires forall x :: x in s ==> (if p(x) then 1 else 0) + (if q(x) then 1 else 0) + (if u(x) then 1 else 0) == 1
    ensures |Filter(s, p)| + |Filter(s, q)| + |Filter(s, u)| == |s|
    decreases |s|
  {
    if s != [] {
      FilterPartitionSize(s[1..], p, q, u);
    }
  }

  // ---------------------------------------------------------------------------
  // Orders

  ghost predicate Total<T(!new)>(le: (T, T) -> bool)
  {
    forall x, y :: le(x, y) || le(y, x)
  }

  ghost predicate Transitive<T(!new)>(le: (T, T) -> bool)
  {
    forall x, y, z :: le(x, y) && le(y, z) ==> le(x, z)
  }

  /** On the elements of `s`, two elements that tie are the same element. */
  ghost predicate AntisymmetricOn<T>(le: (T, T) -> bool, s: seq<T>)
  {
    forall x, y :: x in s && y in s && le(x, y) && le(y, x) ==> x == y
  }

  predicate SortedBy<T>(s: seq<T>, le: (T, T) -> bool)
  {
    forall i, j :: 0 <= i < j < |s| ==> le(s[i], s[j])
  }

  // ---------------------------------------------------------------------------
  // A reference sort

  function Insert<T>(x: T, s: seq<T>, le: (T, T) -> bool): (r: seq<T>)
    ensures multiset(r) == multiset(s) + multiset{x}
    decreases |s|
  {
    if s == [] || le(x, s[0]) then [x] + s
    else
      assert s == [s[0]] + s[1..];
      [s[0]] + Insert(x, s[1..], le)
  }

  /** Insertion sort: the ordering of a total preorder (see `InsertionSortSorted`). */
  function InsertionSort<T>(s: seq<T>, le: (T, T) -> bool): (r: seq<T>)
    ensures multiset(r) == multiset(s)
    decreases |s|
  {
    if s == [] then []
    else
      assert s == [s[0]] + s[1..];
      Insert(s[0], InsertionSort(s[1..], le), le)
  }

  lemma {:induction false} InsertSorted<T(!new)>(x: T, s: seq<T>, le: (T, T) -> bool)
    requires Total(le) && Transitive(le)
    requires SortedBy(s, le)
    ensures SortedBy(Insert(x, s, le), le)
    decreases |s|
  {
    if s != [] && !le(x, s[0]) {
      InsertSorted(x, s[1..], le);
      var r := Insert(x, s[1..], le);
      assert multiset(r) == multiset(s[1..]) + multiset{x};
      forall j | 0 <= j < |r| ensures le(s[0], r[j]) {
        assert r[j] in multiset(r);
        if r[j] != x {
          assert r[j] in multiset(s[1..]);
          var k :| 0 <= k < |s[1..]| && s[1..][k] == r[j];
          assert s[k + 1] == r[j];
        }
      }
    }
  }

  lemma {:induction false} InsertionSortSorted<T(!new)>(s: seq<T>, le: (T, T) -> bool)
    requires Total(le) && Transitive(le)
    ensures SortedBy(InsertionSort(s, le), le)
    decreases |s|
  {
    if s != [] {
      InsertionSortSorted(s[1..], le);
      InsertSorted(s[0], InsertionSort(s[1..], le), le);
    }
  }

  /** Two sorted permutations of one multiset on which `le` is antisymmetric are equal:
      the order does not depend on the order of the input. */
  lemma {:induction false} SortedUnique<T>(s: seq<T>, t: seq<T>, le: (T, T) -> bool)
    requires SortedBy(s, le) && SortedBy(t, le)
    requires multiset(s) == multiset(t)
    requires AntisymmetricOn(le, s)
    ensures s == t
    decreases |s|
  {
    assert |s| == |multiset(s)| == |t|;
    if s != [] {
      SortedSameHead(s, t, le);
      var s', t' := s[1..], t[1..];
      assert s == [s[0]] + s' && t == [t[0]] + t';
      assert multiset(s') == multiset(s) - multiset{s[0]};
      assert multiset(t') == multiset(t) - multiset{t[0]};
      SortedTail(s, le);
      SortedTail(t, le);
      SortedUnique(s', t', le);
    }
  }

  lemma SortedSameHead<T>(s: seq<T>, t: seq<T>, le: (T, T) -> bool)
    requires SortedBy(s, le) && SortedBy(t, le)
    requires multiset(s) == multiset(t)
    requires AntisymmetricOn(le, s)
    requires s != [] && t != []
    ensures s[0] == t[0]
  {
    assert s[0] in multiset(t) && t[0] in multiset(s);
    var i :| 0 <= i < |s| && s[i] == t[0];
    var j :| 0 <= j < |t| && t[j] == s[0];
    if i != 0 && j != 0 {
      assert le(s[0], t[0]) && le(t[0], s[0]);
    }
  }

  lemma SortedTail<T>(s: seq<T>, le: (T, T) -> bool)
    requires SortedBy(s, le) && s != []
    ensures SortedBy(s[1..], le)
  {
    forall i, j | 0 <= i < j < |s[1..]| ensures le(s[1..][i], s[1..][j]) {
      assert s[1..][i] == s[i + 1] && s[1..][j] == s[j + 1];
    }
  }

  /** A prefix of a sorted sequence is sorted and drawn from it. */
  lemma SortedPrefix<T>(s: seq<T>, k: nat, le: (T, T) -> bool)
    requires SortedBy(s, le) && k <= |s|
    ensures SortedBy(s[..k], le) && multiset(s[..k]) <= multiset(s)
  {
    assert s == s[..k] + s[k..];
  }

  /** In a sorted sequence, every element of a prefix precedes every element left out of it. */
  lemma PrefixPrecedesRest<T>(s: seq<T>, k: nat, le: (T, T) -> bool)
    requires SortedBy(s, le) && k <= |s|
    ensures forall x, e :: x in s[..k] && e in multiset(s) - multiset(s[..k]) ==> le(x, e)
  {
    var front, back := s[..k], s[k..];
    assert s == front + back;
    assert multiset(s) - multiset(front) == multiset(back);
    forall x, e | x in front && e in multiset(s) - multiset(front) ensures le(x, e) {
      assert e in back;
      FrontPrecedesBack(s, k, x, e, le);
    }
  }

  lemma FrontPrecedesBack<T>(s: seq<T>, k: nat, x: T, e: T, le: (T, T) -> bool)
    requires SortedBy(s, le) && k <= |s|
    requires x in s[..k] && e in s[k..]
    ensures le(x, e)
  {
    var i :| 0 <= i < k && s[..k][i] == x;
    var j :| 0 <= j < |s| - k && s[k..][j] == e;
    assert s[i] == x && s[k + j] == e;
  }

  // ---------------------------------------------------------------------------
  // Sorting an array in place

  /** Sorts `a` in place by adjacent swaps (insertion sort). */
  method SortInPlace<T(!new)>(a: array<T>, le: (T, T) -> bool)
    requires Total(le) && Transitive(le)
    modifies a
    ensures SortedBy(a[..], le)
    ensures multiset(a[..]) == multiset(old(a[..]))
  {
    var i := 0;
    while i < a.Length
      invariant 0 <= i <= a.Length
      invariant forall k, l :: 0 <= k < l < i ==> le(a[k], a[l])
      invariant multiset(a[..]) == multiset(old(a[..]))
    {
      SiftDown(a, i, le);
      i := i + 1;
    }
  }

  /** Moves `a[i]` down into the sorted prefix `a[..i]` by adjacent swaps. */
  method SiftDown<T(!new)>(a: array<T>, i: int, le: (T, T) -> bool)
    requires Total(le) && Transitive(le)
    requires 0 <= i < a.Length
    requires forall k, l :: 0 <= k < l < i ==> le(a[k], a[l])
    modifies a
    ensures forall k, l :: 0 <= k < l <= i ==> le(a[k], a[l])
    ensures multiset(a[..]) == multiset(old(a[..]))
  {
    var j := i;
    while j > 0 && !le(a[j - 1], a[j])
      invariant 0 <= j <= i
      invariant forall k, l :: 0 <= k < l <= i && k != j && l != j ==> le(a[k], a[l])
      invariant forall l :: j < l <= i ==> le(a[j], a[l])
      invariant multiset(a[..]) == multiset(old(a[..]))
    {
      assert le(a[j], a[j - 1]);
      a[j - 1], a[j] := a[j], a[j - 1];
      j := j - 1;
    }
  }
}
