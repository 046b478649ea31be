/** The quicksort benchmark: median of three, scans that rely on sentinels, an
    explicit stack of fifty slots, insertion sort for short pieces.  Pointers are
    offsets into the array; a piece with pointers `l` and `ir` is [l - 1, ir). */
module Quicksort {
  import opened BitVectors

  const Threshold := 10
  const NStack := 50

  // ----- rearrangements -----

  /** `t` rearranges the elements of `s` within [lo, hi). */
  ghost predicate Permuted(s: seq<int>, t: seq<int>, lo: nat, hi: nat) {
    && |s| == |t| && lo <= hi <= |s| && multiset(s) == multiset(t)
    && forall p :: 0 <= p < lo || hi <= p < |s| ==> t[p] == s[p]
  }

  predicate SortedIn(s: seq<int>, lo: nat, hi: nat) {
    hi <= |s| && forall p, q :: lo <= p < q < hi ==> s[p] <= s[q]
  }

  lemma {:induction false} SwapKeepsMultiset(s: seq<int>, i: nat, j: nat)
    requires i < |s| && j < |s|
    ensures multiset(s[i := s[j]][j := s[i]]) == multiset(s)
  {
  }

  lemma {:induction false} PermutedTrans(s: seq<int>, t: seq<int>, u: seq<int>, lo: nat, hi: nat)
    requires Permuted(s, t, lo, hi) && Permuted(t, u, lo, hi)
    ensures Permuted(s, u, lo, hi)
  {
  }

  lemma {:induction false} Parts(s: seq<int>, lo: nat, hi: nat)
    requires lo <= hi <= |s|
    ensures multiset(s) == multiset(s[..lo]) + multiset(s[lo..hi]) + multiset(s[hi..])
  {
    assert s == s[..lo] + s[lo..hi] + s[hi..];
  }

  /** Rearranging a smaller range rearranges a larger one. */
  lemma {:induction false} PermutedWider(s: seq<int>, t: seq<int>, lo: nat, hi: nat, lo': nat, hi': nat)
    requires Permuted(s, t, lo, hi) && lo' <= lo && hi <= hi' <= |s|
    ensures Permuted(s, t, lo', hi')
  {
  }

  /** The rearranged part holds the same elements. */
  lemma {:induction false} PermutedPart(s: seq<int>, t: seq<int>, lo: nat, hi: nat)
    requires Permuted(s, t, lo, hi)
    ensures multiset(s[lo..hi]) == multiset(t[lo..hi])
  {
    Parts(s, lo, hi);
    Parts(t, lo, hi);
    assert s[..lo] == t[..lo] && s[hi..] == t[hi..];
    Cancel(multiset(s[..lo]), multiset(s[lo..hi]), multiset(t[lo..hi]), multiset(s[hi..]));
  }

  lemma {:induction false} Cancel(x: multiset<int>, y: multiset<int>, y': multiset<int>, z: multiset<int>)
    requires x + y + z == x + y' + z
    ensures y == y'
  {
    forall e ensures y[e] == y'[e] {
      assert (x + y + z)[e] == (x + y' + z)[e];
    }
  }

  lemma {:induction false} PermutedFrom(s: seq<int>, t: seq<int>, lo: nat, hi: nat, q: nat) returns (p: nat)
    requires Permuted(s, t, lo, hi) && lo <= q < hi
    ensures lo <= p < hi && s[p] == t[q]
  {
    PermutedPart(s, t, lo, hi);
    assert t[lo..hi][q - lo] in multiset(t[lo..hi]);
    assert t[q] in multiset(s[lo..hi]);
    var k :| 0 <= k < hi - lo && s[lo..hi][k] == t[q];
    p := lo + k;
  }

  predicate Swapped(s: seq<int>, t: seq<int>, i: nat, j: nat) {
    && |s| == |t| && i < |s| && j < |s| && t[i] == s[j] && t[j] == s[i]
    && forall p :: 0 <= p < |s| && p != i && p != j ==> t[p] == s[p]
  }

  method Swap(a: array<int>, i: nat, j: nat, ghost lo: nat, ghost hi: nat)
    requires lo <= i < hi <= a.Length && lo <= j < hi
    modifies a
    ensures Swapped(old(a[..]), a[..], i, j) && Permuted(old(a[..]), a[..], lo, hi)
  {
    SwapKeepsMultiset(a[..], i, j);
    a[i], a[j] := a[j], a[i];
    assert a[..] == old(a[..])[i := old(a[j])][j := old(a[i])];
  }

  method SwapIfGreater(a: array<int>, i: nat, j: nat, ghost lo: nat, ghost hi: nat)
    requires lo <= i < hi <= a.Length && lo <= j < hi
    modifies a
    ensures if old(a[i] > a[j]) then Swapped(old(a[..]), a[..], i, j) else a[..] == old(a[..])
    ensures Permuted(old(a[..]), a[..], lo, hi)
  {
    if a[i] > a[j] { Swap(a, i, j, lo, hi); }
  }

  // ----- insertion sort -----

  /** `t` is `s` with s[i] moved down to position `j`. */
  predicate Moved(s: seq<int>, t: seq<int>, j: nat, i: nat) {
    && j <= i < |s| == |t| && t[j] == s[i]
    && (forall p :: 0 <= p < j ==> t[p] == s[p])
    && (forall p :: j < p <= i ==> t[p] == s[p - 1])
    && (forall p :: i < p < |s| ==> t[p] == s[p])
  }

  lemma {:induction false} MovedPermuted(s: seq<int>, t: seq<int>, j: nat, i: nat, lo: nat)
    requires Moved(s, t, j, i) && lo <= j
    ensures Permuted(s, t, lo, i + 1)
    decreases i - j
  {
    if j < i {
      var t' := t[j := t[j + 1]][j + 1 := t[j]];
      assert Moved(s, t', j + 1, i);
      MovedPermuted(s, t', j + 1, i, lo);
      SwapKeepsMultiset(t, j, j + 1);
      assert multiset(t) == multiset(t') == multiset(s);
    } else {
      assert s == t;
    }
  }

  /** Moves a[i] down to its place in the sorted piece before it. */
  method Insert(a: array<int>, lo: nat, i: nat)
    requires lo < i < a.Length && SortedIn(a[..], lo, i)
    modifies a
    ensures Permuted(old(a[..]), a[..], lo, i + 1) && SortedIn(a[..], lo, i + 1)
  {
    hide Permuted;
    var value := a[i];
    var j := i;
    ghost var s := a[..];
    while value < a[j - 1]
      invariant lo < j <= i && a.Length == |s|
      invariant forall p :: 0 <= p < j ==> a[p] == s[p]
      invariant forall p :: j < p <= i ==> a[p] == s[p - 1]
      invariant forall p :: i < p < |s| ==> a[p] == s[p]
      invariant forall p :: j <= p < i ==> value < s[p]
      decreases j
    {
      a[j] := a[j - 1];
      j := j - 1;
      if j == lo { break; }
    }
    a[j] := value;
    assert Moved(s, a[..], j, i);
    MovedPermuted(s, a[..], j, i, lo);
    MovedSorted(s, a[..], j, i, lo);
  }

  lemma {:induction false} MovedSorted(s: seq<int>, t: seq<int>, j: nat, i: nat, lo: nat)
    requires Moved(s, t, j, i) && lo <= j && SortedIn(s, lo, i)
    requires (forall p :: j <= p < i ==> s[i] < s[p]) && (j == lo || s[j - 1] <= s[i])
    ensures SortedIn(t, lo, i + 1)
  {
    forall p, q | lo <= p < q < i + 1 ensures t[p] <= t[q] {
      if q <= j { assert t[p] == s[p]; } else { assert t[q] == s[q - 1]; }
    }
  }

  /** Sorts the `n` elements from `lo` on. */
  method InsertionSort(a: array<int>, n: nat, lo: nat)
    requires lo + n <= a.Length
    modifies a
    ensures Permuted(old(a[..]), a[..], lo, lo + n) && SortedIn(a[..], lo, lo + n)
  {
    var i := lo + 1;
    while i < lo + n
      invariant lo + 1 <= i && (i <= lo + n || n == 0)
      invariant Permuted(old(a[..]), a[..], lo, lo + n)
      invariant n > 0 ==> SortedIn(a[..], lo, i)
    {
      ghost var s := a[..];
      Insert(a, lo, i);
      PermutedWider(s, a[..], lo, i + 1, lo, lo + n);
      i := i + 1;
    }
  }

  // ----- partitioning -----

  /** One of the three, with two of them at most `m` and two at least `m`. */
  predicate IsMedian(m: int, x: int, y: int, z: int) {
    && (m == x || m == y || m == z)
    && ((x <= m && y <= m) || (x <= m && z <= m) || (y <= m && z <= m))
    && ((x >= m && y >= m) || (x >= m && z >= m) || (y >= m && z >= m))
  }

  /** Brings the median of the left, centre and right elements to a[l]. */
  method MedianOfThree(a: array<int>, l: nat, ir: nat)
    requires 1 <= l && l + Threshold <= ir <= a.Length
    modifies a
    ensures Permuted(old(a[..]), a[..], l - 1, ir)
    ensures a[l - 1] <= a[l] <= a[ir - 1]
    ensures IsMedian(a[l], old(a[l - 1]), old(a[(l + ir) / 2 - 1]), old(a[ir - 1]))
  {
    hide Permuted;
    ghost var s0, lo := a[..], l - 1;
    Swap(a, (l + ir) / 2 - 1, l, lo, ir);
    ghost var s1 := a[..];
    SwapIfGreater(a, l - 1, ir - 1, lo, ir);
    ghost var s2 := a[..];
    PermutedTrans(s0, s1, s2, lo, ir);
    SwapIfGreater(a, l, ir - 1, lo, ir);
    ghost var s3 := a[..];
    PermutedTrans(s0, s2, s3, lo, ir);
    SwapIfGreater(a, l - 1, l, lo, ir);
    PermutedTrans(s0, s3, a[..], lo, ir);
    assert s2[l - 1] <= s2[ir - 1];
    assert s3[l - 1] <= s3[ir - 1] && s3[l] <= s3[ir - 1];
  }

  /** What lies left of `j - 1`, between, and from `i - 1` on is in order, inside [lo, hi). */
  predicate Split(s: seq<int>, lo: nat, hi: nat, i: nat, j: nat) {
    && lo + 1 < j < i <= hi <= |s|
    && forall p, q :: lo <= p < q < hi && !(q < j - 1) && !(i - 1 <= p) ==> s[p] <= s[q]
  }

  /** Elements up to `i` are at most `v`, those from `j - 1` on at least `v`. */
  ghost predicate Scanned(s: seq<int>, l: nat, ir: nat, i: nat, j: nat, v: int) {
    && 1 <= l < i < ir <= |s| && l + 2 <= j <= ir && i <= j && s[l - 1] <= v && s[l] == v && s[ir - 1] >= v
    && (forall p :: l < p < i ==> s[p] <= v)
    && (forall p :: j - 1 <= p < ir ==> s[p] >= v)
  }

  /** Where the two scans have stopped. */
  ghost predicate Stopped(s: seq<int>, l: nat, ir: nat, i: nat, j: nat, v: int) {
    && 1 <= l && l + 1 < i <= ir <= |s| && l < j < ir
    && s[l - 1] <= v && s[l] == v && s[i - 1] >= v && s[j - 1] <= v && s[ir - 1] >= v
    && (forall p :: l < p < i - 1 ==> s[p] <= v)
    && (forall p :: j <= p < ir ==> s[p] >= v)
  }

  lemma {:induction false} ScanStarts(s: seq<int>, l: nat, ir: nat)
    requires 1 <= l && l + Threshold <= ir <= |s| && s[l - 1] <= s[l] <= s[ir - 1]
    ensures Scanned(s, l, ir, l + 1, ir, s[l])
  {
  }

  lemma {:induction false} BothStopped(s: seq<int>, l: nat, ir: nat, i0: nat, j0: nat, i: nat, j: nat, v: int)
    requires Scanned(s, l, ir, i0, j0, v) && i0 < i <= ir <= |s| && s[i - 1] >= v && l < j < j0 <= ir && s[j - 1] <= v
    requires (forall p :: l < p < i - 1 ==> s[p] <= v) && (forall p :: j <= p < ir ==> s[p] >= v)
    ensures Stopped(s, l, ir, i, j, v)
  {
  }

  lemma {:induction false} SwapAndScanOn(s: seq<int>, t: seq<int>, l: nat, ir: nat, i: nat, j: nat, v: int)
    requires Stopped(s, l, ir, i, j, v) && i <= j && Swapped(s, t, i - 1, j - 1)
    ensures Scanned(t, l, ir, i, j, v)
  {
  }

  lemma {:induction false} CrossedIsSplit(s: seq<int>, t: seq<int>, l: nat, ir: nat, i: nat, j: nat, v: int)
    requires Stopped(s, l, ir, i, j, v) && j < i && Swapped(s, t, l, j - 1)
    ensures Split(t, l - 1, ir, i, j)
  {
    assert forall p :: l - 1 <= p < j - 1 ==> t[p] <= v;
    assert forall p :: i - 1 <= p < ir ==> t[p] >= v;
    assert forall p :: j - 1 <= p < i - 1 ==> t[p] == v;
  }

  /** The scan for an element not less than `v`; s[ir - 1] stops it. */
  method ScanUp(a: array<int>, l: nat, ir: nat, i0: nat, j: nat, v: int) returns (i: nat)
    requires Scanned(a[..], l, ir, i0, j, v)
    ensures i0 < i <= ir <= a.Length && 1 <= l && a[i - 1] >= v
    ensures forall p :: l < p < i - 1 ==> a[p] <= v
  {
    i := i0;
    while a[i] < v
      invariant i0 <= i < ir
      invariant forall p :: l < p < i ==> a[p] <= v
      decreases ir - i
    {
      i := i + 1;
    }
    i := i + 1;
  }

  /** The scan for an element not greater than `v`; s[l] stops it. */
  method ScanDown(a: array<int>, l: nat, ir: nat, i: nat, j0: nat, v: int) returns (j: nat)
    requires Scanned(a[..], l, ir, i, j0, v)
    ensures l < j < j0 <= ir <= a.Length && a[j - 1] <= v
    ensures forall p :: j <= p < ir ==> a[p] >= v
  {
    j := j0;
    while a[j - 2] > v
      invariant l + 2 <= j <= j0
      invariant forall p :: j - 1 <= p < ir ==> a[p] >= v
      decreases j
    {
      j := j - 1;
    }
    j := j - 1;
  }

  lemma PermutedSelf(s: seq<int>, lo: nat, hi: nat)
    requires lo <= hi <= |s|
    ensures Permuted(s, s, lo, hi)
  {
  }

  /** Scans from both ends and exchanges what is on the wrong side, until the scans cross. */
  method ExchangeUntilCrossed(a: array<int>, l: nat, ir: nat, v: int) returns (i: nat, j: nat)
    requires ir <= a.Length && Scanned(a[..], l, ir, l + 1, ir, v)
    modifies a
    ensures Permuted(old(a[..]), a[..], l - 1, ir) && Stopped(a[..], l, ir, i, j, v) && j < i
  {
    i, j := l + 1, ir;
    PermutedSelf(a[..], l - 1, ir);
    hide Permuted, Swapped, Stopped, Scanned;
    while true
      invariant Permuted(old(a[..]), a[..], l - 1, ir)
      invariant Scanned(a[..], l, ir, i, j, v)
      decreases j
    {
      ghost var s := a[..];
      var i', j' := i, j;
      i := ScanUp(a, l, ir, i', j', v);
      j := ScanDown(a, l, ir, i', j', v);
      BothStopped(s, l, ir, i', j', i, j, v);
      if j < i { break; }
      Swap(a, i - 1, j - 1, l - 1, ir);
      SwapAndScanOn(s, a[..], l, ir, i, j, v);
      PermutedTrans(old(a[..]), s, a[..], l - 1, ir);
    }
  }

  method Partition(a: array<int>, l: nat, ir: nat) returns (i: nat, j: nat)
    requires 1 <= l && l + Threshold <= ir <= a.Length
    modifies a
    ensures Permuted(old(a[..]), a[..], l - 1, ir) && Split(a[..], l - 1, ir, i, j)
  {
    hide Permuted, Swapped, Split, Scanned, IsMedian;
    ghost var s0 := a[..];
    MedianOfThree(a, l, ir);
    ghost var s1 := a[..];
    var v := a[l];
    ScanStarts(a[..], l, ir);
    i, j := ExchangeUntilCrossed(a, l, ir, v);
    ghost var s2 := a[..];
    Swap(a, l, j - 1, l - 1, ir);
    CrossedIsSplit(s2, a[..], l, ir, i, j, v);
    PermutedTrans(s0, s1, s2, l - 1, ir);
    PermutedTrans(s0, s2, a[..], l - 1, ir);
  }

  // ----- the pieces still to be sorted -----

  datatype Piece = Piece(lo: nat, hi: nat)

  function Size(p: Piece): int { p.hi - p.lo }

  /** No piece contains both positions. */
  predicate Apart(ps: seq<Piece>, p: nat, q: nat) {
    forall m :: 0 <= m < |ps| ==> !(ps[m].lo <= p && q < ps[m].hi)
  }

  /** The pieces are disjoint, and all elements that share no piece are in order. */
  ghost predicate InOrder(s: seq<int>, ps: seq<Piece>) {
    && (forall m :: 0 <= m < |ps| ==> ps[m].lo <= ps[m].hi <= |s|)
    && (forall m, k :: 0 <= m < k < |ps| ==> ps[m].hi <= ps[k].lo || ps[k].hi <= ps[m].lo)
    && forall p, q :: 0 <= p < q < |s| && Apart(ps, p, q) ==> s[p] <= s[q]
  }

  /** Each split drops an element: with one added to every size, the piece at depth `m`
      is at most a 2^m-th of the array. */
  ghost predicate Halving(ps: seq<Piece>, n: nat) {
    forall m :: 0 <= m < |ps| ==> (Size(ps[m]) + 1) * Pow2(m) <= n + 1
  }

  function Total(ps: seq<Piece>): int {
    if ps == [] then 0 else Total(ps[..|ps| - 1]) + Size(ps[|ps| - 1])
  }

  lemma {:induction false} TotalNonNegative(ps: seq<Piece>)
    requires forall m :: 0 <= m < |ps| ==> ps[m].lo <= ps[m].hi
    ensures Total(ps) >= 0
    decreases |ps|
  {
    if ps != [] { TotalNonNegative(ps[..|ps| - 1]); }
  }

  lemma {:induction false} TotalSnoc(ps: seq<Piece>, p: Piece)
    ensures Total(ps + [p]) == Total(ps) + Size(p)
  {
    assert (ps + [p])[..|ps|] == ps;
  }

  /** Positions of one piece share no other piece with any position. */
  lemma {:induction false} OthersApart(ps: seq<Piece>, cur: Piece, s: seq<int>, p: nat, q: nat)
    requires InOrder(s, ps + [cur]) && p < q < |s|
    requires (cur.lo <= p < cur.hi && cur.hi <= q) || (p < cur.lo <= q < cur.hi)
    ensures Apart(ps + [cur], p, q)
  {
    var all := ps + [cur];
    forall m | 0 <= m < |all| ensures !(all[m].lo <= p && q < all[m].hi) {
      if m < |ps| {
        assert all[m] == ps[m];
        assert all[|ps|] == cur;
      }
    }
  }

  /** Rearranging the current piece keeps everything else in order. */
  lemma {:induction false} RearrangeInOrder(s: seq<int>, t: seq<int>, ps: seq<Piece>, cur: Piece)
    requires InOrder(s, ps + [cur]) && Permuted(s, t, cur.lo, cur.hi)
    ensures InOrder(t, ps + [cur])
  {
    forall p, q | 0 <= p < q < |t| && Apart(ps + [cur], p, q) ensures t[p] <= t[q] {
      assert !((ps + [cur])[|ps|].lo <= p && q < (ps + [cur])[|ps|].hi);
      var p', q' := p, q;
      if cur.lo <= p < cur.hi { p' := PermutedFrom(s, t, cur.lo, cur.hi, p); }
      if cur.lo <= q < cur.hi { q' := PermutedFrom(s, t, cur.lo, cur.hi, q); }
      assert s[p'] == t[p] && s[q'] == t[q];
      if (cur.lo <= p < cur.hi && cur.hi <= q) || (p < cur.lo <= q < cur.hi) {
        OthersApart(ps, cur, s, p', q');
      }
    }
  }

  /** A sorted piece is done. */
  lemma {:induction false} FinishPiece(s: seq<int>, ps: seq<Piece>, cur: Piece)
    requires InOrder(s, ps + [cur]) && SortedIn(s, cur.lo, cur.hi)
    ensures InOrder(s, ps)
  {
    var all := ps + [cur];
    assert forall m :: 0 <= m < |ps| ==> ps[m] == all[m];
    forall p, q | 0 <= p < q < |s| && Apart(ps, p, q) ensures s[p] <= s[q] {
      if !(cur.lo <= p && q < cur.hi) {
        assert Apart(all, p, q);
      }
    }
  }

  /** A partitioned piece gives two smaller ones. */
  lemma {:induction false} SplitPiece(s: seq<int>, ps: seq<Piece>, cur: Piece, i: nat, j: nat, x: Piece, y: Piece)
    requires InOrder(s, ps + [cur]) && Split(s, cur.lo, cur.hi, i, j)
    requires (x, y) == (Piece(i - 1, cur.hi), Piece(cur.lo, j - 1)) || (y, x) == (Piece(i - 1, cur.hi), Piece(cur.lo, j - 1))
    ensures InOrder(s, ps + [x, y])
  {
    var all, all' := ps + [cur], ps + [x, y];
    assert all[|ps|] == cur && all'[|ps|] == x && all'[|ps| + 1] == y;
    assert forall m :: 0 <= m < |ps| ==> all[m] == ps[m] == all'[m];
    forall p, q | 0 <= p < q < |s| && Apart(all', p, q) ensures s[p] <= s[q] {
      assert !(x.lo <= p && q < x.hi) && !(y.lo <= p && q < y.hi);
      if !(cur.lo <= p && q < cur.hi) {
        assert Apart(all, p, q);
      }
    }
  }

  lemma Doubled(x: nat, y: nat)
    ensures x * (2 * y) == (2 * x) * y
  {
  }

  lemma {:induction false} SplitHalves(ps: seq<Piece>, cur: Piece, n: nat, x: Piece, y: Piece)
    requires Halving(ps + [cur], n) && 0 <= Size(y) <= Size(x) && Size(x) + Size(y) < Size(cur)
    ensures Halving(ps + [x, y], n)
  {
    var all, all' := ps + [cur], ps + [x, y];
    forall m | 0 <= m < |all'| ensures (Size(all'[m]) + 1) * Pow2(m) <= n + 1 {
      assert all[|ps|] == cur && (Size(cur) + 1) * Pow2(|ps|) <= n + 1;
      if m < |ps| {
        assert all'[m] == all[m];
      } else if m == |ps| {
        MulMonotone(Size(x) + 1, Size(cur) + 1, Pow2(m));
      } else {
        assert Pow2(m) == 2 * Pow2(|ps|);
        MulMonotone(2 * (Size(y) + 1), Size(cur) + 1, Pow2(|ps|));
        Doubled(Size(y) + 1, Pow2(|ps|));
      }
    }
  }

  lemma {:induction false} MulMonotone(x: int, y: int, z: nat)
    requires x <= y
    ensures x * z <= y * z
  {
  }

  lemma {:induction false} Pow2Monotone(k: nat, m: nat)
    requires k <= m
    ensures Pow2(k) <= Pow2(m)
    decreases m
  {
    if k < m { Pow2Monotone(k, m - 1); }
  }

  /** A piece of more than ten elements is never deeper than the stack allows. */
  lemma {:induction false} DepthBound(ps: seq<Piece>, cur: Piece, n: nat)
    requires Halving(ps + [cur], n) && Size(cur) > Threshold && n + 1 < 12 * Pow2(24)
    ensures 2 * |ps| + 2 < NStack
  {
    assert (ps + [cur])[|ps|] == cur;
    if |ps| >= 24 {
      Pow2Monotone(24, |ps|);
      MulMonotone(12, Size(cur) + 1, Pow2(|ps|));
    }
  }

  /** The stack slots hold the pending pieces, from slot 1 on. */
  ghost predicate Holds(stack: seq<nat>, ps: seq<Piece>) {
    && 2 * |ps| < |stack|
    && forall m :: 0 <= m < |ps| ==> stack[2 * m + 1] == ps[m].lo + 1 && stack[2 * m + 2] == ps[m].hi
  }

  lemma {:induction false} StartInOrder(s: seq<int>)
    ensures InOrder(s, [] + [Piece(0, |s|)]) && Halving([] + [Piece(0, |s|)], |s|)
  {
    var ps := [] + [Piece(0, |s|)];
    assert ps[0] == Piece(0, |s|);
  }

  lemma {:induction false} PermutedMultiset(s: seq<int>, t: seq<int>, lo: nat, hi: nat)
    requires Permuted(s, t, lo, hi)
    ensures multiset(s) == multiset(t)
  {
  }

  lemma {:induction false} NothingLeft(s: seq<int>)
    requires InOrder(s, [])
    ensures SortedIn(s, 0, |s|)
  {
    assert forall p: nat, q: nat :: Apart([], p, q);
  }

  lemma {:induction false} PopPieces(ps: seq<Piece>, cur: Piece, n: nat)
    requires |ps| > 0 && cur.lo <= cur.hi && Halving(ps + [cur], n)
    ensures ps == ps[..|ps| - 1] + [ps[|ps| - 1]]
    ensures Halving(ps, n) && Total(ps) <= Total(ps + [cur])
  {
    hide Total, Pow2;
    TotalSnoc(ps, cur);
    forall m | 0 <= m < |ps| ensures (Size(ps[m]) + 1) * Pow2(m) <= n + 1 {
      assert ps[m] == (ps + [cur])[m];
    }
  }

  /** `x` is pushed and `y` becomes current. */
  lemma {:induction false} PushPieces(s: seq<int>, ps: seq<Piece>, cur: Piece, n: nat, i: nat, j: nat, x: Piece, y: Piece)
    requires InOrder(s, ps + [cur]) && Halving(ps + [cur], n) && Split(s, cur.lo, cur.hi, i, j)
    requires (x, y) == (Piece(i - 1, cur.hi), Piece(cur.lo, j - 1)) || (y, x) == (Piece(i - 1, cur.hi), Piece(cur.lo, j - 1))
    requires Size(y) <= Size(x)
    ensures cur.lo + 1 < j < i <= cur.hi
    ensures InOrder(s, (ps + [x]) + [y]) && Halving((ps + [x]) + [y], n)
    ensures Total((ps + [x]) + [y]) < Total(ps + [cur])
  {
    assert (ps + [x]) + [y] == ps + [x, y];
    SplitPiece(s, ps, cur, i, j, x, y);
    SplitHalves(ps, cur, n, x, y);
    TotalSnoc(ps, cur);
    TotalSnoc(ps, x);
    TotalSnoc(ps + [x], y);
  }

  lemma {:induction false} HoldsPush(stack: seq<nat>, stack': seq<nat>, ps: seq<Piece>, x: Piece)
    requires Holds(stack, ps) && 2 * |ps| + 2 < |stack|
    requires stack' == stack[2 * |ps| + 2 := x.hi][2 * |ps| + 1 := x.lo + 1]
    ensures Holds(stack', ps + [x])
  {
  }

  lemma {:induction false} HoldsTop(stack: seq<nat>, ps: seq<Piece>)
    requires Holds(stack, ps) && |ps| > 0
    ensures var top := ps[|ps| - 1]; stack[2 * |ps|] == top.hi && stack[2 * |ps| - 1] == top.lo + 1
    ensures Holds(stack, ps[..|ps| - 1])
  {
    assert stack[2 * (|ps| - 1) + 1] == ps[|ps| - 1].lo + 1;
  }

  /** Everything the sorting loop keeps, for the piece with pointers `l` and `ir`. */
  ghost predicate Sorting(s: seq<int>, stack: seq<nat>, ps: seq<Piece>, l: nat, ir: nat) {
    && 1 <= l <= ir + 1 && ir <= |s| && |stack| == NStack
    && Holds(stack, ps) && InOrder(s, ps + [Piece(l - 1, ir)]) && Halving(ps + [Piece(l - 1, ir)], |s|)
  }

  lemma {:induction false} SortingBounds(s: seq<int>, stack: seq<nat>, ps: seq<Piece>, l: nat, ir: nat)
    requires Sorting(s, stack, ps, l, ir)
    ensures 1 <= l <= ir + 1 && ir <= |s| && |stack| == NStack && 2 * |ps| < NStack
    ensures Total(ps + [Piece(l - 1, ir)]) >= 0
    ensures ir - l >= Threshold && |s| + 1 < 12 * Pow2(24) ==> 2 * |ps| + 2 < NStack
  {
    TotalNonNegative(ps + [Piece(l - 1, ir)]);
    if ir - l >= Threshold && |s| + 1 < 12 * Pow2(24) { DepthBound(ps, Piece(l - 1, ir), |s|); }
  }

  lemma {:induction false} SortingStarts(s: seq<int>, stack: seq<nat>)
    requires |stack| == NStack
    ensures Sorting(s, stack, [], 1, |s|)
  {
    StartInOrder(s);
  }

  /** The current piece is sorted. */
  lemma {:induction false} SortingDone(s: seq<int>, t: seq<int>, stack: seq<nat>, ps: seq<Piece>, l: nat, ir: nat)
    requires Sorting(s, stack, ps, l, ir) && Permuted(s, t, l - 1, ir) && SortedIn(t, l - 1, ir)
    ensures InOrder(t, ps)
  {
    RearrangeInOrder(s, t, ps, Piece(l - 1, ir));
    FinishPiece(t, ps, Piece(l - 1, ir));
  }

  /** The topmost pending piece becomes current. */
  lemma {:induction false} SortingPop(s: seq<int>, t: seq<int>, stack: seq<nat>, ps: seq<Piece>, l: nat, ir: nat)
    requires Sorting(s, stack, ps, l, ir) && InOrder(t, ps) && |ps| > 0 && |t| == |s|
    ensures var ps', ir', l' := ps[..|ps| - 1], stack[2 * |ps|], stack[2 * |ps| - 1];
            l' >= 1 && Sorting(t, stack, ps', l', ir') && Total(ps' + [Piece(l' - 1, ir')]) <= Total(ps + [Piece(l - 1, ir)])
  {
    PopPieces(ps, Piece(l - 1, ir), |s|);
    HoldsTop(stack, ps);
  }

  /** The current piece has been partitioned, and `x` goes on the stack. */
  lemma {:induction false} SortingPush(s: seq<int>, t: seq<int>, stack: seq<nat>, stack': seq<nat>, ps: seq<Piece>, l: nat, ir: nat,
                    i: nat, j: nat, x: Piece, y: Piece)
    requires Sorting(s, stack, ps, l, ir) && Permuted(s, t, l - 1, ir) && Split(t, l - 1, ir, i, j)
    requires (x, y) == (Piece(i - 1, ir), Piece(l - 1, j - 1)) || (y, x) == (Piece(i - 1, ir), Piece(l - 1, j - 1))
    requires Size(y) <= Size(x) && 2 * |ps| + 2 < NStack && |stack| == NStack
    requires stack' == stack[2 * |ps| + 2 := x.hi][2 * |ps| + 1 := x.lo + 1]
    ensures Sorting(t, stack', ps + [x], y.lo + 1, y.hi)
    ensures Total((ps + [x]) + [y]) < Total(ps + [Piece(l - 1, ir)])
  {
    RearrangeInOrder(s, t, ps, Piece(l - 1, ir));
    PushPieces(t, ps, Piece(l - 1, ir), |s|, i, j, x, y);
    HoldsPush(stack, stack', ps, x);
  }

  /** Sorts the whole array, in place, within the fifty stack slots. */
  method Sort(a: array<int>)
    requires a.Length + 1 < 12 * Pow2(24)
    modifies a
    ensures multiset(a[..]) == multiset(old(a[..])) && SortedIn(a[..], 0, a.Length)
  {
    hide Permuted, InOrder, Split, SortedIn, Sorting, Total, Pow2;
    var ir: nat, l: nat := a.Length, 1;
    var stack := new nat[NStack](_ => 0);
    var stackp := 0;
    ghost var ps: seq<Piece> := [];
    SortingStarts(a[..], stack[..]);
    while true
      invariant l >= 1 && stackp == 2 * |ps| && Sorting(a[..], stack[..], ps, l, ir)
      invariant multiset(a[..]) == multiset(old(a[..]))
      decreases Total(ps + [Piece(l - 1, ir)]), |ps|
    {
      ghost var s, slots := a[..], stack[..];
      SortingBounds(s, slots, ps, l, ir);
      if ir - l < Threshold {
        InsertionSort(a, ir - l + 1, l - 1);
        PermutedMultiset(s, a[..], l - 1, ir);
        SortingDone(s, a[..], slots, ps, l, ir);
        if stackp == 0 { break; }
        SortingPop(s, a[..], slots, ps, l, ir);
        ir := stack[stackp];
        stackp := stackp - 1;
        l := stack[stackp];
        stackp := stackp - 1;
        ps := ps[..|ps| - 1];
      } else {
        var i, j := Partition(a, l, ir);
        PermutedMultiset(s, a[..], l - 1, ir);
        SplitBounds(a[..], l - 1, ir, i, j);
        stackp := stackp + 2;
        if ir - i + 1 >= j - l {
          stack[stackp] := ir;
          stack[stackp - 1] := i;
          SortingPush(s, a[..], slots, stack[..], ps, l, ir, i, j, Piece(i - 1, ir), Piece(l - 1, j - 1));
          ps := ps + [Piece(i - 1, ir)];
          ir := j - 1;
        } else {
          stack[stackp] := j - 1;
          stack[stackp - 1] := l;
          SortingPush(s, a[..], slots, stack[..], ps, l, ir, i, j, Piece(l - 1, j - 1), Piece(i - 1, ir));
          ps := ps + [Piece(l - 1, j - 1)];
          l := i;
        }
      }
    }
    NothingLeft(a[..]);
  }

  lemma {:induction false} SplitBounds(s: seq<int>, lo: nat, hi: nat, i: nat, j: nat)
    requires Split(s, lo, hi, i, j)
    ensures lo + 1 < j < i <= hi
  {
  }
}
