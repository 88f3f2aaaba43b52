/** Sorting by a total order, as `slice::sort` does for a type whose `Ord`
    is derived. The order is a parameter so that the proofs below depend only
    on its being total, antisymmetric and transitive. */
module Sorting {

  /** `le` is a total order: any two elements compare, ties are equal
      elements, and the order is transitive. */
  ghost predicate TotalOrder<T(!new)>(le: (T, T) -> bool) {
    && (forall a, b :: le(a, b) || le(b, a))
    && (forall a, b :: le(a, b) && le(b, a) ==> a == b)
    && (forall a, b, c :: le(a, b) && le(b, c) ==> le(a, c))
  }

  predicate Sorted<T>(s: seq<T>, le: (T, T) -> bool) {
    forall i, j :: 0 <= i < j < |s| ==> le(s[i], s[j])
  }

  /** Inserting `x` into a sorted sequence keeps it sorted and adds exactly `x`. */
  function Insert<T(==,!new)>(x: T, s: seq<T>, le: (T, T) -> bool): (r: seq<T>)
    requires TotalOrder(le)
    ensures multiset(r) == multiset(s) + multiset{x}
    ensures Sorted(s, le) ==> Sorted(r, le)
  {
    if s == [] || le(x, s[0]) then [x] + s
    else
      var rest := Insert(x, s[1..], le);
      assert s == [s[0]] + s[1..];
      assert Sorted(s, le) ==> Sorted([s[0]] + rest, le) by {
        if Sorted(s, le) {
          assert le(s[0], x);
          forall y | y in multiset(rest) ensures le(s[0], y) {
            if y != x {
              assert y in multiset(s[1..]);
              var k :| 0 <= k < |s[1..]| && s[1..][k] == y;
              assert s[k + 1] == y;
            }
          }
          ConsSorted(s[0], rest, le);
        }
      }
      [s[0]] + rest
  }

  /** A sorted sequence stays sorted under a new head no greater than any element. */
  lemma ConsSorted<T>(h: T, t: seq<T>, le: (T, T) -> bool)
    requires Sorted(t, le)
    requires forall y :: y in multiset(t) ==> le(h, y)
    ensures Sorted([h] + t, le)
  {
    forall j | 0 < j < |[h] + t| ensures le(h, ([h] + t)[j]) {
      assert t[j - 1] in multiset(t);
    }
  }

  /** The reference sort: a sorted permutation of `s`. */
  function SortedSeq<T(==,!new)>(s: seq<T>, le: (T, T) -> bool): (r: seq<T>)
    requires TotalOrder(le)
    ensures Sorted(r, le) && multiset(r) == multiset(s)
  {
    if s == [] then []
    else
      assert s == [s[0]] + s[1..];
      Insert(s[0], SortedSeq(s[1..], le), le)
  }

  /** Under a total order a sorted permutation is unique, so any sorting
      algorithm, stable or not, gives the same result. */
  lemma {:induction false} SortedUnique<T(!new)>(a: seq<T>, b: seq<T>, le: (T, T) -> bool)
    requires TotalOrder(le)
    requires Sorted(a, le) && Sorted(b, le) && multiset(a) == multiset(b)
    ensures a == b
  {
    assert |a| == |multiset(a)| == |multiset(b)| == |b|;
    if a != [] {
      HeadsEqual(a, b, le);
      TailMultiset(a);
      TailMultiset(b);
      assert multiset(a[1..]) == multiset(b[1..]);
      SortedTail(a, le);
      SortedTail(b, le);
      SortedUnique(a[1..], b[1..], le);
      assert a == [a[0]] + a[1..] && b == [b[0]] + b[1..];
    }
  }

  /** The least element of a sorted permutation comes first in both. */
  lemma HeadsEqual<T(!new)>(a: seq<T>, b: seq<T>, le: (T, T) -> bool)
    requires TotalOrder(le)
    requires Sorted(a, le) && Sorted(b, le) && multiset(a) == multiset(b)
    requires a != [] && b != []
    ensures a[0] == b[0]
  {
    assert a[0] in multiset(b) && b[0] in multiset(a);
    var i :| 0 <= i < |b| && b[i] == a[0];
    var j :| 0 <= j < |a| && a[j] == b[0];
    assert le(b[0], a[0]) by { assert i == 0 || le(b[0], b[i]); }
    assert le(a[0], b[0]) by { assert j == 0 || le(a[0], a[j]); }
  }

  lemma TailMultiset<T>(s: seq<T>)
    requires s != []
    ensures multiset(s[1..]) == multiset(s) - multiset{s[0]}
  {
    assert s == [s[0]] + s[1..];
  }

  lemma SortedTail<T>(s: seq<T>, le: (T, T) -> bool)
    requires s != [] && Sorted(s, le)
    ensures Sorted(s[1..], le)
  {
    forall i, j | 0 <= i < j < |s[1..]| ensures le(s[1..][i], s[1..][j]) {
      assert s[1..][i] == s[i + 1] && s[1..][j] == s[j + 1];
    }
  }

  predicate SortedBetween<T>(s: seq<T>, lo: int, hi: int, le: (T, T) -> bool) {
    forall p, q :: lo <= p < q < hi && 0 <= p && q < |s| ==> le(s[p], s[q])
  }

  /** Sorts `a` in place by adjacent swaps (an insertion sort). */
  method InsertionSort<T(==,!new)>(a: array<T>, le: (T, T) -> bool)
    requires TotalOrder(le)
    modifies a
    ensures Sorted(a[..], le)
    ensures multiset(a[..]) == multiset(old(a[..]))
  {
    var i := 0;
    while i < a.Length
      invariant 0 <= i <= a.Length
      invariant SortedBetween(a[..], 0, i, le)
      invariant multiset(a[..]) == multiset(old(a[..]))
    {
      SiftDown(a, i, le);
      i := i + 1;
    }
  }

  /** Exchanging two neighbours permutes a sequence. */
  lemma SwapMultiset<T>(s: seq<T>, t: seq<T>, k: int)
    requires 0 <= k < k + 1 < |s| == |t|
    requires t[k] == s[k + 1] && t[k + 1] == s[k]
    requires forall m :: 0 <= m < |s| && m != k && m != k + 1 ==> t[m] == s[m]
    ensures multiset(t) == multiset(s)
  {
    assert s == s[..k] + [s[k], s[k + 1]] + s[k + 2..];
    assert t == s[..k] + [s[k + 1], s[k]] + s[k + 2..];
  }

  /** Moves `a[i]` left past every greater element, so that the sorted
      prefix `a[..i]` grows by one. */
  method SiftDown<T(==,!new)>(a: array<T>, i: int, le: (T, T) -> bool)
    requires TotalOrder(le)
    requires 0 <= i < a.Length && SortedBetween(a[..], 0, i, le)
    modifies a
    ensures SortedBetween(a[..], 0, i + 1, le)
    ensures multiset(a[..]) == multiset(old(a[..]))
    ensures a[i + 1..] == old(a[i + 1..])
  {
    var j := i;
    ghost var start := a[..];
    while j > 0 && !le(a[j - 1], a[j])
      invariant 0 <= j <= i
      invariant multiset(a[..]) == multiset(start)
      invariant a[i + 1..] == start[i + 1..]
      invariant SortedBetween(a[..], 0, j, le) && SortedBetween(a[..], j, i + 1, le)
      invariant forall p, q :: 0 <= p < j < q <= i ==> le(a[p], a[q])
    {
      ghost var before := a[..];
      SwapStep(before, j, i, le);
      a[j - 1], a[j] := a[j], a[j - 1];
      assert a[..] == before[j - 1 := before[j]][j := before[j - 1]];
      j := j - 1;
    }
  }

  /** One pass of the `SiftDown` loop on sequences: exchanging the
      out-of-order neighbours at `j - 1` and `j` permutes the sequence,
      keeps what follows `i`, and moves the run boundary one place left. */
  lemma SwapStep<T(!new)>(s: seq<T>, j: int, i: int, le: (T, T) -> bool)
    requires TotalOrder(le)
    requires 0 < j <= i < |s|
    requires !le(s[j - 1], s[j])
    requires SortedBetween(s, 0, j, le) && SortedBetween(s, j, i + 1, le)
    requires forall p, q :: 0 <= p < j < q <= i ==> le(s[p], s[q])
    ensures var t := s[j - 1 := s[j]][j := s[j - 1]];
      && multiset(t) == multiset(s)
      && t[i + 1..] == s[i + 1..]
      && SortedBetween(t, 0, j - 1, le) && SortedBetween(t, j - 1, i + 1, le)
      && (forall p, q :: 0 <= p < j - 1 < q <= i ==> le(t[p], t[q]))
  {
    var t := s[j - 1 := s[j]][j := s[j - 1]];
    SwapMultiset(s, t, j - 1);
    SwapOrder(s, t, j, i, le);
    SwapKeepsSuffix(s, t, j - 1, i + 1);
  }

  /** Exchanging two neighbours leaves everything after them in place. */
  lemma SwapKeepsSuffix<T>(s: seq<T>, t: seq<T>, k: int, n: int)
    requires 0 <= k < k + 1 < n <= |s| == |t|
    requires forall m :: 0 <= m < |s| && m != k && m != k + 1 ==> t[m] == s[m]
    ensures t[n..] == s[n..]
  {
  }

  /** One step of `SiftDown`: exchanging the out-of-order neighbours at
      `j - 1` and `j` moves the boundary between the two sorted runs left. */
  lemma SwapOrder<T(!new)>(s: seq<T>, t: seq<T>, j: int, i: int, le: (T, T) -> bool)
    requires TotalOrder(le)
    requires 0 < j <= i < |s| == |t|
    requires t[j - 1] == s[j] && t[j] == s[j - 1]
    requires forall m :: 0 <= m < |s| && m != j - 1 && m != j ==> t[m] == s[m]
    requires !le(s[j - 1], s[j])
    requires SortedBetween(s, 0, j, le) && SortedBetween(s, j, i + 1, le)
    requires forall p, q :: 0 <= p < j < q <= i ==> le(s[p], s[q])
    ensures SortedBetween(t, 0, j - 1, le) && SortedBetween(t, j - 1, i + 1, le)
    ensures forall p, q :: 0 <= p < j - 1 < q <= i ==> le(t[p], t[q])
  {
  }
}
