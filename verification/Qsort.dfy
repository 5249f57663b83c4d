/**
 The library quicksort (`myqsort`): Hoare partitioning in which the pivot is
 not copied out of the array but followed by a pointer as elements are swapped.
 The comparator is only ever tested for `< 0`.
 */
module Qsort {

  /** `x` sorts strictly before `y`: the only question the algorithm asks. */
  predicate Before<T>(cmp: (T, T) -> int, x: T, y: T) {
    cmp(x, y) < 0
  }

  /**
   What the sort needs of a comparator, on the elements `d` it is used on: the
   `< 0` test is a strict weak order. Nothing is asked of the other results, so
   `cmp(x, y)` and `cmp(y, x)` may both be positive.
   */
  ghost predicate StrictWeak<T(!new)>(cmp: (T, T) -> int, d: set<T>) {
    && (forall x, y | x in d && y in d && Before(cmp, x, y) :: !Before(cmp, y, x))
    && (forall x, y, z | x in d && y in d && z in d && Before(cmp, x, y) && !Before(cmp, z, y) :: Before(cmp, x, z))
  }

  ghost predicate Sorted<T(!new)>(cmp: (T, T) -> int, w: seq<T>, lo: nat, hi: nat)
    requires hi <= |w|
  {
    forall i, j | lo <= i < j < hi :: !Before(cmp, w[j], w[i])
  }

  ghost predicate Within<T(!new)>(w: seq<T>, lo: nat, hi: nat, d: set<T>)
    requires hi <= |w|
  {
    forall k | lo <= k < hi :: w[k] in d
  }

  ghost predicate NoneAfter<T(!new)>(cmp: (T, T) -> int, w: seq<T>, lo: nat, hi: nat, p: T)
    requires hi <= |w|
  {
    forall k | lo <= k < hi :: !Before(cmp, p, w[k])
  }

  ghost predicate NoneBefore<T(!new)>(cmp: (T, T) -> int, w: seq<T>, lo: nat, hi: nat, p: T)
    requires hi <= |w|
  {
    forall k | lo <= k < hi :: !Before(cmp, w[k], p)
  }

  /** `w` and `v` differ by a permutation of the range `lo..hi` only. */
  ghost predicate PermutesRange<T>(w: seq<T>, v: seq<T>, lo: nat, hi: nat) {
    && lo <= hi <= |w| == |v|
    && (forall k | 0 <= k < |w| && !(lo <= k < hi) :: v[k] == w[k])
    && multiset(w[lo..hi]) == multiset(v[lo..hi])
  }

  lemma Widened<T>(w: seq<T>, v: seq<T>, x: nat, y: nat, lo: nat, hi: nat)
    requires PermutesRange(w, v, x, y) && lo <= x && y <= hi <= |w|
    ensures PermutesRange(w, v, lo, hi)
  {
    assert w[lo..hi] == w[lo..x] + w[x..y] + w[y..hi];
    assert v[lo..hi] == v[lo..x] + v[x..y] + v[y..hi];
    assert w[lo..x] == v[lo..x] && w[y..hi] == v[y..hi];
  }

  lemma Composed<T>(w: seq<T>, v: seq<T>, u: seq<T>, lo: nat, hi: nat)
    requires PermutesRange(w, v, lo, hi) && PermutesRange(v, u, lo, hi)
    ensures PermutesRange(w, u, lo, hi)
  {
  }

  /** Every element of a permuted range was in the range before. */
  lemma CameFrom<T>(w: seq<T>, v: seq<T>, lo: nat, hi: nat, k: nat) returns (j: nat)
    requires PermutesRange(w, v, lo, hi) && lo <= k < hi
    ensures lo <= j < hi && w[j] == v[k]
  {
    assert v[k] == v[lo..hi][k - lo];
    assert v[k] in multiset(v[lo..hi]);
    assert v[k] in w[lo..hi];
    var i :| 0 <= i < hi - lo && w[lo..hi][i] == v[k];
    j := lo + i;
  }

  lemma PermutationKeeps<T(!new)>(cmp: (T, T) -> int, w: seq<T>, v: seq<T>, lo: nat, hi: nat, p: T, d: set<T>)
    requires PermutesRange(w, v, lo, hi)
    ensures NoneAfter(cmp, w, lo, hi, p) ==> NoneAfter(cmp, v, lo, hi, p)
    ensures NoneBefore(cmp, w, lo, hi, p) ==> NoneBefore(cmp, v, lo, hi, p)
    ensures Within(w, lo, hi, d) ==> Within(v, lo, hi, d)
  {
    forall k | lo <= k < hi
      ensures exists j :: lo <= j < hi && w[j] == v[k]
    {
      var _ := CameFrom(w, v, lo, hi, k);
    }
  }

  method Swap<T>(a: array<T>, lo: nat, hi: nat, i: nat, j: nat)
    requires lo <= i < j < hi <= a.Length
    modifies a
    ensures a[i] == old(a[j]) && a[j] == old(a[i])
    ensures forall k | 0 <= k < a.Length && k != i && k != j :: a[k] == old(a[k])
    ensures PermutesRange(old(a[..]), a[..], lo, hi)
  {
    ghost var w := a[..];
    a[i], a[j] := a[j], a[i];
    assert a[..][lo..hi] == w[lo..hi][i - lo := w[j]][j - lo := w[i]];
  }

  /** The left scan: from `i0`, the first element not before the pivot; one is known at `stop`. */
  method ScanUp<T(!new)>(a: array<T>, i0: nat, px: nat, cmp: (T, T) -> int, ghost stop: nat) returns (i: nat)
    requires i0 <= stop < a.Length && px < a.Length && !Before(cmp, a[stop], a[px])
    ensures i0 <= i <= stop && !Before(cmp, a[i], a[px])
    ensures forall k | i0 <= k < i :: Before(cmp, a[k], a[px])
  {
    hide Before;
    i := i0;
    while Before(cmp, a[i], a[px])
      invariant i0 <= i <= stop
      invariant forall k | i0 <= k < i :: Before(cmp, a[k], a[px])
      decreases stop - i
    {
      i := i + 1;
    }
  }

  /** The right scan: down from `j0`, the first element not after the pivot; one is known at `stop`. */
  method ScanDown<T(!new)>(a: array<T>, j0: nat, px: nat, cmp: (T, T) -> int, ghost stop: nat) returns (j: nat)
    requires stop <= j0 < a.Length && px < a.Length && !Before(cmp, a[px], a[stop])
    ensures stop <= j <= j0 && !Before(cmp, a[px], a[j])
    ensures forall k | j < k <= j0 :: Before(cmp, a[px], a[k])
  {
    hide Before;
    j := j0;
    while Before(cmp, a[px], a[j])
      invariant stop <= j <= j0
      invariant forall k | j < k <= j0 :: Before(cmp, a[px], a[k])
      decreases j
    {
      j := j - 1;
    }
  }

  /** What both scans leave: nothing after the pivot below `i`, nothing before it above `j`. */
  ghost predicate Split<T(!new)>(cmp: (T, T) -> int, w: seq<T>, lo: nat, hi: nat, i: nat, j: int, p: T, d: set<T>) {
    && lo <= i <= hi <= |w| && lo <= j + 1 <= hi && i <= j + 1
    && Within(w, lo, hi, d)
    && NoneAfter(cmp, w, lo, i, p) && NoneBefore(cmp, w, j + 1, hi, p)
  }

  lemma Scanned<T(!new)>(cmp: (T, T) -> int, w: seq<T>, lo: nat, hi: nat, i0: nat, j0: int, i: nat, j: nat, p: T, d: set<T>)
    requires StrictWeak(cmp, d) && p in d && Split(cmp, w, lo, hi, i0, j0, p, d)
    requires i0 <= i < hi && lo <= j <= j0 && i <= j0 + 1 && !Before(cmp, w[i], p) && !Before(cmp, p, w[j])
    requires forall k | i0 <= k < i :: Before(cmp, w[k], p)
    requires forall k | j < k <= j0 :: Before(cmp, p, w[k])
    ensures i <= j + 1 && Split(cmp, w, lo, hi, i, j, p, d)
    ensures j <= i ==> NoneAfter(cmp, w, lo, j + 1, p) && NoneBefore(cmp, w, i, hi, p)
  {
    if j + 1 < hi {
      assert w[j + 1] in d;
    }
  }

  lemma Exchanged<T(!new)>(cmp: (T, T) -> int, w: seq<T>, v: seq<T>, lo: nat, hi: nat, i: nat, j: nat, p: T, d: set<T>)
    requires Split(cmp, w, lo, hi, i, j, p, d) && i < j < hi
    requires !Before(cmp, w[i], p) && !Before(cmp, p, w[j])
    requires |v| == |w| && v[i] == w[j] && v[j] == w[i]
    requires forall k | 0 <= k < |w| && k != i && k != j :: v[k] == w[k]
    ensures Split(cmp, v, lo, hi, i + 1, j - 1, p, d)
    ensures !Before(cmp, p, v[i]) && !Before(cmp, v[j], p)
  {
  }

  /** Two elements of which neither sorts before the other change places. */
  ghost predicate TieSwapped<T(!new)>(cmp: (T, T) -> int, w: seq<T>, v: seq<T>, lo: nat, hi: nat) {
    hi == lo + 2 && hi <= |w| == |v| && !Before(cmp, w[lo], w[lo + 1]) && !Before(cmp, w[lo + 1], w[lo])
    ==> v[lo] == w[lo + 1] && v[lo + 1] == w[lo]
  }

  lemma PairMeets<T(!new)>(cmp: (T, T) -> int, w: seq<T>, lo: nat, hi: nat, i: nat, j: nat)
    requires lo + 1 < hi <= |w| && lo + 1 <= j <= i <= hi && forall k | lo <= k < i :: Before(cmp, w[k], w[lo + 1])
    ensures TieSwapped(cmp, w, w, lo, hi)
  {
    hide Before;
  }

  lemma PairExchanged<T(!new)>(cmp: (T, T) -> int, w: seq<T>, v: seq<T>, lo: nat, hi: nat, i: nat, j: nat)
    requires lo <= i < j < hi <= |w| == |v| && v[i] == w[j] && v[j] == w[i]
    ensures TieSwapped(cmp, w, v, lo, hi)
  {
    hide Before;
  }

  lemma NoPair<T(!new)>(cmp: (T, T) -> int, w: seq<T>, v: seq<T>, lo: nat, hi: nat)
    requires hi != lo + 2
    ensures TieSwapped(cmp, w, v, lo, hi)
  {
  }

  /**
   One partition pass over `a[lo..hi]` around the element first found at
   `pivot`. Both scans stay inside the range without testing for its ends: on
   the first pass the pivot itself stops them, afterwards the swapped elements do.
   */
  method Partition<T(!new)>(a: array<T>, lo: nat, hi: nat, pivot: nat, cmp: (T, T) -> int, ghost d: set<T>)
    returns (i: nat, j: nat)
    requires lo <= pivot < hi <= a.Length && lo + 2 <= hi
    requires StrictWeak(cmp, d) && Within(a[..], lo, hi, d)
    modifies a
    ensures lo <= i < hi && lo <= j < hi && i <= j + 1 <= i + 1
    ensures PermutesRange(old(a[..]), a[..], lo, hi) && Within(a[..], lo, hi, d)
    ensures NoneAfter(cmp, a[..], lo, j + 1, old(a[..])[pivot])
    ensures NoneBefore(cmp, a[..], i, hi, old(a[..])[pivot])
    ensures pivot == lo + 1 ==> TieSwapped(cmp, old(a[..]), a[..], lo, hi)
  {
    hide Before, TieSwapped;
    ghost var w := a[..];
    ghost var p := w[pivot];
    var px := pivot;
    i, j := lo, hi - 1;
    while true
      invariant lo <= px < hi && a[px] == p
      invariant (i == lo && j == hi - 1 && px == pivot) || (lo < i && j + 2 <= hi)
      invariant PermutesRange(w, a[..], lo, hi)
      invariant Split(cmp, a[..], lo, hi, i, j, p, d)
      invariant i == lo ==> a[..] == w
      invariant i > lo && pivot == lo + 1 ==> TieSwapped(cmp, w, a[..], lo, hi)
      decreases j - i
    {
      ghost var v := a[..];
      ghost var i0, j0 := i, j;
      ghost var stopI, stopJ := if i == lo then px else j + 1, if i == lo then px else i - 1;
      assert !Before(cmp, v[stopI], p) && !Before(cmp, p, v[stopJ]);
      i := ScanUp(a, i, px, cmp, stopI);
      j := ScanDown(a, j, px, cmp, stopJ);
      Scanned(cmp, v, lo, hi, i0, j0, i, j, p, d);
      if i >= j {
        if i0 == lo && pivot == lo + 1 {
          PairMeets(cmp, w, lo, hi, i, j);
        }
        break;
      }
      Swap(a, lo, hi, i, j);
      Exchanged(cmp, v, a[..], lo, hi, i, j, p, d);
      Composed(w, v, a[..], lo, hi);
      if i0 == lo {
        PairExchanged(cmp, w, a[..], lo, hi, i, j);
      } else {
        NoPair(cmp, w, a[..], lo, hi);
      }
      if px == i {
        px := j;
      } else if px == j {
        px := i;
      }
      i, j := i + 1, j - 1;
    }
  }

  /** Permuting one side of a partition keeps the partition. */
  lemma SideSorted<T(!new)>(cmp: (T, T) -> int, w: seq<T>, v: seq<T>, x: nat, y: nat,
                            lo: nat, hi: nat, i: nat, j: nat, p: T, d: set<T>)
    requires lo <= i <= j <= hi <= |w| && ((x == lo && y == i) || (x == j && y == hi))
    requires PermutesRange(w, v, x, y)
    requires Within(w, lo, hi, d) && NoneAfter(cmp, w, lo, j, p) && NoneBefore(cmp, w, i, hi, p)
    ensures PermutesRange(w, v, lo, hi)
    ensures Within(v, lo, hi, d) && NoneAfter(cmp, v, lo, j, p) && NoneBefore(cmp, v, i, hi, p)
  {
    Widened(w, v, x, y, lo, hi);
    PermutationKeeps(cmp, w, v, x, y, p, d);
    forall k | lo <= k < hi && !(x <= k < y)
      ensures v[k] == w[k]
    {
    }
  }

  /** Two sorted sides around a pivot value make a sorted whole. */
  lemma Joined<T(!new)>(cmp: (T, T) -> int, w: seq<T>, lo: nat, hi: nat, i: nat, j: nat, p: T, d: set<T>)
    requires lo <= i <= j <= hi <= |w| && j <= i + 1
    requires StrictWeak(cmp, d) && Within(w, lo, hi, d) && p in d
    requires Sorted(cmp, w, lo, i) && Sorted(cmp, w, j, hi)
    requires NoneAfter(cmp, w, lo, j, p) && NoneBefore(cmp, w, i, hi, p)
    ensures Sorted(cmp, w, lo, hi)
  {
    forall a, b | lo <= a < b < hi
      ensures !Before(cmp, w[b], w[a])
    {
      if a < j && i <= b {
        assert !Before(cmp, p, w[a]) && !Before(cmp, w[b], p);
        assert w[a] in d && w[b] in d;
      }
    }
  }

  /** Partitioned, then the left side sorted, then the right side: the range is sorted. */
  lemma Finished<T(!new)>(cmp: (T, T) -> int, w0: seq<T>, w1: seq<T>, w2: seq<T>, w3: seq<T>,
                          lo: nat, hi: nat, i: nat, j: nat, p: T, d: set<T>)
    requires lo <= i <= j <= hi <= |w0| && j <= i + 1 && StrictWeak(cmp, d) && p in d
    requires PermutesRange(w0, w1, lo, hi) && Within(w1, lo, hi, d)
    requires NoneAfter(cmp, w1, lo, j, p) && NoneBefore(cmp, w1, i, hi, p)
    requires PermutesRange(w1, w2, lo, i) && Sorted(cmp, w2, lo, i)
    requires PermutesRange(w2, w3, j, hi) && Sorted(cmp, w3, j, hi)
    ensures PermutesRange(w0, w3, lo, hi) && Sorted(cmp, w3, lo, hi)
  {
    SideSorted(cmp, w1, w2, lo, i, lo, hi, i, j, p, d);
    SideSorted(cmp, w2, w3, j, hi, lo, hi, i, j, p, d);
    forall a, b | lo <= a < b < i
      ensures !Before(cmp, w3[b], w3[a])
    {
      assert w3[a] == w2[a] && w3[b] == w2[b];
    }
    Joined(cmp, w3, lo, hi, i, j, p, d);
    Composed(w0, w1, w2, lo, hi);
    Composed(w0, w2, w3, lo, hi);
  }

  /** Sorts `a[lo..hi]`. */
  method MyQsort<T(!new)>(a: array<T>, lo: nat, hi: nat, cmp: (T, T) -> int, ghost d: set<T>)
    requires lo <= hi <= a.Length
    requires StrictWeak(cmp, d) && Within(a[..], lo, hi, d)
    modifies a
    ensures Sorted(cmp, a[..], lo, hi)
    ensures PermutesRange(old(a[..]), a[..], lo, hi)
    ensures TieSwapped(cmp, old(a[..]), a[..], lo, hi)
    decreases hi - lo
  {
    hide Before, TieSwapped;
    var n := hi - lo;
    if n <= 1 {
      NoPair(cmp, a[..], a[..], lo, hi);
      return;
    }
    ghost var w0 := a[..];
    ghost var p := w0[lo + n / 2];
    var i, j := Partition(a, lo, hi, lo + n / 2, cmp, d);
    ghost var w1 := a[..];
    if i - lo > 1 {
      MyQsort(a, lo, i, cmp, d);
    }
    ghost var w2 := a[..];
    SideSorted(cmp, w1, w2, lo, i, lo, hi, i, j + 1, p, d);
    if j - lo + 2 < n {
      MyQsort(a, j + 1, hi, cmp, d);
    }
    Finished(cmp, w0, w1, w2, a[..], lo, hi, i, j + 1, p, d);
    if n != 2 {
      NoPair(cmp, w0, a[..], lo, hi);
    }
  }
}
