// mdb_midl_sort (liblmdb/src/midl.c): an in-place quicksort with an explicit
// stack and an insertion pass for small segments. A list starts at some place
// of an array; lo and hi are the array positions of its first and last ID, and
// all positions below are array positions.

module IdlSort {

  const SMALL: nat := 8
  const ISTACK: nat := 64   // sizeof(int) * CHAR_BIT * 2
  const INT_MAX: nat := 0x7fff_ffff

  type Ids = seq<nat>

  // --- Rearranging a segment --------------------------------------------

  ghost predicate SameOutside(s: Ids, t: Ids, l: nat, r: int) {
    |s| == |t| && forall k :: 0 <= k < |s| && !(l <= k < r) ==> t[k] == s[k]
  }

  // t is s with the positions l..r-1 rearranged.
  ghost predicate Permuted(s: Ids, t: Ids, l: nat, r: int) {
    SameOutside(s, t, l, r) && multiset(t) == multiset(s)
  }

  lemma SwapPermutes(s: Ids, t: Ids, i: nat, j: nat, l: nat, r: nat)
    requires l <= i < r <= |s| && l <= j < r && t == s[i := s[j]][j := s[i]]
    ensures Permuted(s, t, l, r)
  {
  }

  lemma PermutedTrans(s: Ids, t: Ids, u: Ids, l: nat, r: int)
    requires Permuted(s, t, l, r) && Permuted(t, u, l, r)
    ensures Permuted(s, u, l, r)
  {
  }

  lemma Widen(s: Ids, t: Ids, u: Ids, l: nat, r: int, l': nat, r': int)
    requires Permuted(s, t, l, r) && Permuted(t, u, l', r') && l <= l' && r' <= r
    ensures Permuted(s, u, l, r)
  {
  }

  // A rearranged segment holds the same IDs.
  lemma SegmentIds(s: Ids, t: Ids, l: nat, r: nat)
    requires Permuted(s, t, l, r) && l <= r <= |s|
    ensures multiset(t[l..r]) == multiset(s[l..r])
  {
    var a, b, c, b' := s[..l], s[l..r], s[r..], t[l..r];
    assert s == a + b + c && t == a + b' + c;
    assert multiset(s) == multiset(a) + multiset(b) + multiset(c);
    assert multiset(t) == multiset(a) + multiset(b') + multiset(c);
    Cancel(multiset(a), multiset(b), multiset(b'), multiset(c));
  }

  lemma Cancel<T(!new)>(a: multiset<T>, b: multiset<T>, b': multiset<T>, c: multiset<T>)
    requires a + b + c == a + b' + c
    ensures b == b'
  {
    forall x ensures b[x] == b'[x] {
      assert (a + b + c)[x] == a[x] + b[x] + c[x];
      assert (a + b' + c)[x] == a[x] + b'[x] + c[x];
    }
  }

  lemma CameFrom(s: Ids, t: Ids, l: nat, r: nat, y: nat) returns (x: nat)
    requires Permuted(s, t, l, r) && l <= y < r <= |s|
    ensures l <= x < r && t[y] == s[x]
  {
    SegmentIds(s, t, l, r);
    assert t[l..r][y - l] in multiset(s[l..r]);
    var k :| 0 <= k < r - l && s[l..r][k] == t[y];
    x := l + k;
  }

  // --- Cuts -------------------------------------------------------------

  // Everything before p is at least everything from p on.
  ghost predicate Cut(s: Ids, lo: nat, hi: int, p: int)
    requires hi < |s|
  {
    forall x, y :: lo <= x < p <= y <= hi ==> s[x] >= s[y]
  }

  ghost predicate Descending(s: Ids, lo: nat, hi: int)
    requires hi < |s|
  {
    forall x, y :: lo <= x <= y <= hi ==> s[x] >= s[y]
  }

  // A cut that is not strictly inside a segment survives its rearrangement.
  lemma CutKept(s: Ids, t: Ids, lo: nat, hi: int, l: nat, ir: int, p: int)
    requires Permuted(s, t, l, ir + 1) && lo <= l <= ir + 1 && ir <= hi < |s| && (p <= l || ir < p) && Cut(s, lo, hi, p)
    ensures Cut(t, lo, hi, p)
  {
    forall x, y | lo <= x < p <= y <= hi ensures t[x] >= t[y] {
      var x', y' := x, y;
      if l <= x <= ir { x' := CameFrom(s, t, l, ir + 1, x); }
      if l <= y <= ir { y' := CameFrom(s, t, l, ir + 1, y); }
      assert s[x'] >= s[y'];
    }
  }

  // A cut within a segment between two cuts is a cut.
  lemma CutInside(s: Ids, lo: nat, hi: int, l: nat, ir: int, p: int)
    requires lo <= l < p <= ir <= hi < |s| && Cut(s, lo, hi, l) && Cut(s, lo, hi, ir + 1) && Cut(s, l, ir, p)
    ensures Cut(s, lo, hi, p)
  {
  }

  // --- Pending segments -------------------------------------------------

  datatype Seg = Seg(l: nat, ir: int) {
    function Size(): int { ir - l + 1 }
    predicate Inside(p: int) { l < p <= ir }
  }

  ghost predicate Apart(a: Seg, b: Seg) { a.ir < b.l || b.ir < a.l }

  // Segment g lies between cuts.
  ghost predicate Bounded(s: Ids, lo: nat, hi: int, g: Seg)
    requires hi < |s|
  {
    lo <= g.l <= g.ir + 1 && g.ir <= hi && Cut(s, lo, hi, g.l) && Cut(s, lo, hi, g.ir + 1)
  }

  ghost predicate InSome(segs: seq<Seg>, p: int) {
    exists u :: 0 <= u < |segs| && segs[u].Inside(p)
  }

  // What is left to sort are the segments, which do not overlap.
  ghost predicate Pending(s: Ids, lo: nat, hi: int, segs: seq<Seg>)
    requires hi < |s|
  {
    && (forall u :: 0 <= u < |segs| ==> Bounded(s, lo, hi, segs[u]))
    && (forall u, v :: 0 <= u < v < |segs| ==> Apart(segs[u], segs[v]))
    && (forall p :: lo < p <= hi ==> Cut(s, lo, hi, p) || InSome(segs, p))
  }

  lemma Finished(s: Ids, lo: nat, hi: int)
    requires hi < |s| && Pending(s, lo, hi, [])
    ensures Descending(s, lo, hi)
  {
    forall x, y | lo <= x < y <= hi ensures s[x] >= s[y] {
      assert Cut(s, lo, hi, y) || InSome([], y);
    }
  }

  // The rearrangement of segment g leaves those apart from it bounded.
  lemma OthersBounded(s: Ids, t: Ids, lo: nat, hi: int, g: Seg, h: Seg)
    requires hi < |s| && Bounded(s, lo, hi, g) && Bounded(s, lo, hi, h) && Apart(h, g) && Permuted(s, t, g.l, g.ir + 1)
    ensures Bounded(t, lo, hi, h)
  {
    CutKept(s, t, lo, hi, g.l, g.ir, h.l);
    CutKept(s, t, lo, hi, g.l, g.ir, h.ir + 1);
  }

  // Replace the last segment by parts of it between which all is cut.
  ghost predicate SplitUp(t: Ids, g: Seg, parts: seq<Seg>)
    requires g.l <= g.ir + 1 && g.ir < |t|
  {
    && (forall u :: 0 <= u < |parts| ==> PartOf(t, g, parts[u]))
    && (forall u, v :: 0 <= u < v < |parts| ==> Apart(parts[u], parts[v]))
    && (forall p :: g.Inside(p) ==> Cut(t, g.l, g.ir, p) || InSome(parts, p))
  }

  ghost predicate PartOf(t: Ids, g: Seg, h: Seg)
    requires g.l <= g.ir + 1 && g.ir < |t|
  {
    g.l <= h.l <= h.ir <= g.ir && Cut(t, g.l, g.ir, h.l) && Cut(t, g.l, g.ir, h.ir + 1)
  }

  lemma CutOfPart(t: Ids, lo: nat, hi: int, g: Seg, p: int)
    requires hi < |t| && Bounded(t, lo, hi, g) && Cut(t, g.l, g.ir, p) && g.l <= p <= g.ir + 1
    ensures Cut(t, lo, hi, p)
  {
    if g.Inside(p) { CutInside(t, lo, hi, g.l, g.ir, p); }
  }

  lemma StaysPending(s: Ids, t: Ids, lo: nat, hi: int, rest: seq<Seg>, g: Seg, parts: seq<Seg>)
    requires hi < |s| && Pending(s, lo, hi, rest + [g])
    requires Permuted(s, t, g.l, g.ir + 1) && lo <= g.l <= g.ir + 1 && g.ir <= hi && SplitUp(t, g, parts)
    ensures Pending(t, lo, hi, rest + parts)
  {
    var was, now := rest + [g], rest + parts;
    assert was[|rest|] == g;
    CutKept(s, t, lo, hi, g.l, g.ir, g.l);
    CutKept(s, t, lo, hi, g.l, g.ir, g.ir + 1);
    forall u | 0 <= u < |now| ensures Bounded(t, lo, hi, now[u]) {
      if u < |rest| {
        assert was[u] == rest[u] && Apart(was[u], was[|rest|]);
        OthersBounded(s, t, lo, hi, g, rest[u]);
      } else {
        var h := parts[u - |rest|];
        CutOfPart(t, lo, hi, g, h.l);
        CutOfPart(t, lo, hi, g, h.ir + 1);
      }
    }
    forall u, v | 0 <= u < v < |now| ensures Apart(now[u], now[v]) {
      if v < |rest| {
        assert Apart(was[u], was[v]);
      } else if u < |rest| {
        assert Apart(was[u], was[|rest|]) && PartOf(t, g, parts[v - |rest|]);
      } else {
        assert Apart(parts[u - |rest|], parts[v - |rest|]);
      }
    }
    forall p | lo < p <= hi ensures Cut(t, lo, hi, p) || InSome(now, p) {
      StillCut(s, t, lo, hi, rest, g, parts, p);
    }
  }

  lemma StillCut(s: Ids, t: Ids, lo: nat, hi: int, rest: seq<Seg>, g: Seg, parts: seq<Seg>, p: int)
    requires hi < |s| && Pending(s, lo, hi, rest + [g]) && lo < p <= hi
    requires Permuted(s, t, g.l, g.ir + 1) && Bounded(t, lo, hi, g) && SplitUp(t, g, parts)
    ensures Cut(t, lo, hi, p) || InSome(rest + parts, p)
  {
    var was, now := rest + [g], rest + parts;
    if g.Inside(p) {
      if InSome(parts, p) {
        var u :| 0 <= u < |parts| && parts[u].Inside(p);
        assert now[|rest| + u].Inside(p);
      } else {
        CutOfPart(t, lo, hi, g, p);
      }
    } else if InSome(was, p) {
      var u :| 0 <= u < |was| && was[u].Inside(p);
      assert now[u].Inside(p);
    } else {
      CutKept(s, t, lo, hi, g.l, g.ir, p);
    }
  }

  // --- Partition --------------------------------------------------------

  method Swap(a: array<nat>, i: nat, j: nat, l: nat, r: nat)
    requires l <= i < r <= a.Length && l <= j < r
    modifies a
    ensures a[..] == old(a[..])[i := old(a[j])][j := old(a[i])]
    ensures Permuted(old(a[..]), a[..], l, r)
  {
    a[i], a[j] := a[j], a[i];
    SwapPermutes(old(a[..]), a[..], i, j, l, r);
  }

  // Choose the median of left, center, right as the pivot, in a[l + 1].
  method ChoosePivot(a: array<nat>, l: nat, ir: nat)
    requires l + 2 <= ir < a.Length
    modifies a
    ensures Permuted(old(a[..]), a[..], l, ir + 1)
    ensures a[l] >= a[l + 1] >= a[ir]
  {
    ghost var s := a[..];
    Swap(a, (l + ir) / 2, l + 1, l, ir + 1);
    SwapIfLess(a, s, l, ir, l, ir + 1);
    SwapIfLess(a, s, l + 1, ir, l, ir + 1);
    SwapIfLess(a, s, l, l + 1, l, ir + 1);
  }

  // Put the larger of two IDs first.
  method SwapIfLess(a: array<nat>, ghost s: Ids, i: nat, j: nat, l: nat, r: nat)
    requires l <= i < j < r <= a.Length && Permuted(s, a[..], l, r)
    modifies a
    ensures Permuted(s, a[..], l, r) && a[i] >= a[j]
    ensures a[i] == if old(a[i]) < old(a[j]) then old(a[j]) else old(a[i])
    ensures a[j] == if old(a[i]) < old(a[j]) then old(a[i]) else old(a[j])
    ensures forall k :: 0 <= k < a.Length && k != i && k != j ==> a[k] == old(a[k])
  {
    if a[i] < a[j] {
      ghost var t := a[..];
      Swap(a, i, j, l, r);
      PermutedTrans(s, t, a[..], l, r);
    }
  }

  // do i++; while (ids[i] > a). The pivot's neighbours stop the scans.
  method ScanUp(a: array<nat>, i0: nat, ghost end: nat, pivot: nat) returns (i: nat)
    requires i0 < end < a.Length && a[end] <= pivot
    ensures i0 < i <= end && a[i] <= pivot && forall x :: i0 < x < i ==> a[x] > pivot
  {
    i := i0 + 1;
    while a[i] > pivot
      invariant i0 < i <= end && forall x :: i0 < x < i ==> a[x] > pivot
      decreases end - i
    {
      i := i + 1;
    }
  }

  // do j--; while (ids[j] < a).
  method ScanDown(a: array<nat>, j0: nat, ghost end: nat, pivot: nat) returns (j: nat)
    requires end < j0 <= a.Length && a[end] >= pivot
    ensures end <= j < j0 && a[j] >= pivot && forall x :: j < x < j0 ==> a[x] < pivot
  {
    j := j0 - 1;
    while a[j] < pivot
      invariant end <= j < j0 && forall x :: j < x < j0 ==> a[x] < pivot
      decreases j - end
    {
      j := j - 1;
    }
  }

  // The IDs up to i belong left of the pivot and those from j on right of it.
  ghost predicate Scanned(s: Ids, l: nat, ir: nat, i: nat, j: nat, pivot: nat) {
    && ir < |s| && l < i && (i == j ==> l + 1 < j < ir) && i <= j <= ir
    && s[l + 1] == pivot && s[ir] <= pivot
    && (forall x :: l <= x <= i ==> s[x] >= pivot)
    && (forall y :: j <= y <= ir ==> s[y] <= pivot)
  }

  lemma ScannedSwap(s: Ids, l: nat, ir: nat, i0: nat, j0: nat, i: nat, j: nat, pivot: nat)
    requires Scanned(s, l, ir, i0, j0, pivot)
    requires i0 < i <= j < j0 && s[i] <= pivot && s[j] >= pivot
    requires (forall x :: i0 < x < i ==> s[x] > pivot) && (forall x :: j < x < j0 ==> s[x] < pivot)
    ensures Scanned(s[i := s[j]][j := s[i]], l, ir, i, j, pivot)
  {
  }

  ghost predicate Parted(t: Ids, l: nat, ir: int, i: int, j: int) {
    ir < |t| && forall x, y :: l <= x < i && j <= y <= ir && 0 <= y && x < |t| ==> t[x] >= t[y]
  }

  lemma ScannedEnd(s: Ids, l: nat, ir: nat, i0: nat, j0: nat, i: nat, j: nat, pivot: nat)
    requires Scanned(s, l, ir, i0, j0, pivot) && l < j < j0 && i0 < i <= ir && j < i
    requires s[i] <= pivot && s[j] >= pivot
    requires (forall x :: i0 < x < i ==> s[x] > pivot) && (forall x :: j < x < j0 ==> s[x] < pivot)
    ensures Parted(s[l + 1 := s[j]][j := s[l + 1]], l, ir, i, j)
  {
    var t := s[l + 1 := s[j]][j := s[l + 1]];
    assert forall x :: l <= x < i ==> t[x] >= pivot;
    assert forall y :: j <= y <= ir ==> t[y] <= pivot;
  }

  method Partition(a: array<nat>, l: nat, ir: nat) returns (i: nat, j: nat)
    requires l + 2 <= ir < a.Length
    modifies a
    ensures Permuted(old(a[..]), a[..], l, ir + 1)
    ensures l < j < i <= ir
    ensures Parted(a[..], l, ir, i, j)
  {
    ChoosePivot(a, l, ir);
    i, j := Exchange(a, l, ir);
    ghost var s := a[..];
    Swap(a, l + 1, j, l, ir + 1);
    PermutedTrans(old(a[..]), s, a[..], l, ir + 1);
  }

  // The scans and exchanges up to where they meet.
  method Exchange(a: array<nat>, l: nat, ir: nat) returns (i: nat, j: nat)
    requires l + 2 <= ir < a.Length && a[l] >= a[l + 1] >= a[ir]
    modifies a
    ensures Permuted(old(a[..]), a[..], l, ir + 1) && l < j < i <= ir
    ensures Parted(a[..][l + 1 := a[j]][j := a[l + 1]], l, ir, i, j)
  {
    i, j := l + 1, ir;
    var pivot := a[l + 1];
    while true
      invariant Scanned(a[..], l, ir, i, j, pivot) && Permuted(old(a[..]), a[..], l, ir + 1)
      decreases j - i
    {
      ghost var i0, j0, s := i, j, a[..];
      i := ScanUp(a, i, if i < j then j else ir, pivot);
      j := ScanDown(a, j, if i0 < j then i0 else l + 1, pivot);
      if j < i {
        ScannedEnd(s, l, ir, i0, j0, i, j, pivot);
        break;
      }
      Swap(a, i, j, l, ir + 1);
      ScannedSwap(s, l, ir, i0, j0, i, j, pivot);
      PermutedTrans(old(a[..]), s, a[..], l, ir + 1);
    }
  }

  // --- Insertion --------------------------------------------------------

  // Insertion sort of l..ir. The inner loop tests for the start of the whole
  // list only, but never passes l.
  method InsertionSort(a: array<nat>, lo: nat, hi: int, l: nat, ir: int)
    requires lo <= l <= ir + 1 && ir <= hi < a.Length && Cut(a[..], lo, hi, l)
    modifies a
    ensures Permuted(old(a[..]), a[..], l, ir + 1) && Descending(a[..], l, ir)
  {
    var j := l + 1;
    while j <= ir
      invariant l < j && (j <= ir + 1 || ir < l)
      invariant Permuted(old(a[..]), a[..], l, ir + 1)
      invariant Descending(a[..], l, if j <= ir + 1 then j - 1 else ir)
      decreases ir - j
    {
      ghost var s := a[..];
      CutKept(old(a[..]), s, lo, hi, l, ir, l);
      Insert(a, lo, hi, l, j);
      j := j + 1;
    }
  }

  // The IDs from i + 2 to j of t were one place before; position i + 1 is free.
  ghost predicate Hole(s: Ids, t: Ids, l: nat, i: int, j: nat, id: nat) {
    && |s| == |t| && l - 1 <= i < j < |s| && s[j] == id
    && (forall k :: 0 <= k <= i + 1 ==> t[k] == s[k])
    && (forall k :: j < k < |s| ==> t[k] == s[k])
    && (forall k :: i + 2 <= k <= j ==> t[k] == s[k - 1] && s[k - 1] < id)
    && Permuted(s, t[i + 1 := id], l, j + 1)
  }

  lemma HoleMoves(s: Ids, t: Ids, l: nat, i: nat, j: nat, id: nat)
    requires Hole(s, t, l, i, j, id) && l <= i && t[i] < id
    ensures Hole(s, t[i + 1 := t[i]], l, i - 1, j, id)
  {
    var t' := t[i + 1 := t[i]];
    forall k | i + 1 <= k <= j ensures t'[k] == s[k - 1] && s[k - 1] < id {
      if k == i + 1 { assert t'[k] == t[i] == s[i]; } else { assert t'[k] == t[k]; }
    }
    assert forall k :: 0 <= k <= i ==> t'[k] == s[k];
    assert forall k :: j < k < |s| ==> t'[k] == s[k];
    HoleSwaps(s, t, l, i, j, id);
  }

  lemma HoleSwaps(s: Ids, t: Ids, l: nat, i: nat, j: nat, id: nat)
    requires l <= i < j < |t| && Permuted(s, t[i + 1 := id], l, j + 1)
    ensures Permuted(s, t[i + 1 := t[i]][i := id], l, j + 1)
  {
    var u, u' := t[i + 1 := id], t[i + 1 := t[i]][i := id];
    assert u' == u[i + 1 := u[i]][i := u[i + 1]];
    SwapPermutes(u, u', i + 1, i, l, j + 1);
    PermutedTrans(s, u, u', l, j + 1);
  }

  lemma HoleFilled(s: Ids, t: Ids, l: nat, i: int, j: nat, id: nat)
    requires Hole(s, t, l, i, j, id) && Descending(s, l, j - 1) && (i >= l ==> t[i] >= id)
    ensures Descending(t[i + 1 := id], l, j)
  {
    var u := t[i + 1 := id];
    assert forall k :: l <= k <= i ==> u[k] == s[k] && s[k] >= id;
    assert forall k :: i + 2 <= k <= j ==> u[k] == s[k - 1] && u[k] < id;
    forall x, y | l <= x <= y <= j ensures u[x] >= u[y] {
      if i + 2 <= x < y {
        assert s[x - 1] >= s[y - 1];
      } else if x <= i < i + 2 <= y {
        assert u[x] >= id > u[y];
      } else if y <= i {
        assert u[x] == s[x] && u[y] == s[y];
      }
    }
  }

  // Move the ID at j to its place among the descending ones before it.
  method Insert(a: array<nat>, lo: nat, hi: int, l: nat, j: nat)
    requires lo <= l < j <= hi < a.Length && Cut(a[..], lo, hi, l) && Descending(a[..], l, j - 1)
    modifies a
    ensures Permuted(old(a[..]), a[..], l, j + 1) && Descending(a[..], l, j)
  {
    var id := a[j];
    ghost var s := a[..];
    assert forall k :: lo <= k < l ==> s[k] >= s[j];
    var i := MakeHole(a, lo, l, j, id);
    HoleFilled(s, a[..], l, i, j, id);
    ghost var t := a[..];
    a[i + 1] := id;
    assert a[..] == t[i + 1 := id];
  }

  lemma HoleStart(s: Ids, l: nat, j: nat, id: nat)
    requires l < j < |s| && s[j] == id
    ensures Hole(s, s, l, j - 1, j, id)
  {
    assert s[j - 1 + 1 := id] == s;
  }

  // The inner loop: smaller IDs move up one place.
  method MakeHole(a: array<nat>, lo: nat, ghost l: nat, j: nat, id: nat) returns (i: int)
    requires lo <= l < j < a.Length && id == a[j] && forall k :: lo <= k < l ==> a[..][k] >= a[..][j]
    modifies a
    ensures Hole(old(a[..]), a[..], l, i, j, id) && (i >= l ==> a[i] >= id)
  {
    ghost var s := a[..];
    HoleStart(s, l, j, id);
    i := j - 1;
    while i >= lo && a[i] < id
      invariant Hole(s, a[..], l, i, j, id)
    {
      assert a[..][i] == s[i];
      ghost var t := a[..];
      a[i + 1] := a[i];
      assert a[..] == t[i + 1 := t[i]];
      HoleMoves(s, t, l, i, j, id);
      i := i - 1;
    }
  }

  // --- The sort ---------------------------------------------------------

  function Pow2(n: nat): (p: nat)
    ensures p > 0
  {
    if n == 0 then 1 else 2 * Pow2(n - 1)
  }

  lemma {:induction false} Pow2Monotone(m: nat, n: nat)
    requires m <= n
    ensures Pow2(m) <= Pow2(n)
  {
    if m < n { Pow2Monotone(m, n - 1); }
  }

  lemma {:induction false} Pow2Sum(m: nat, n: nat)
    ensures Pow2(m + n) == Pow2(m) * Pow2(n)
  {
    if n > 0 { Pow2Sum(m, n - 1); }
  }

  // The segment stacked at depth d is no longer than n / 2^d.
  ghost predicate Shallow(segs: seq<Seg>, n: nat) {
    forall d :: 0 <= d < |segs| ==> Fits(segs[d], d, n)
  }

  ghost predicate Fits(g: Seg, d: nat, n: nat) {
    g.Size() * Pow2(d) <= n
  }

  lemma PowBound(d: nat)
    ensures 9 * Pow2(d) <= INT_MAX ==> d < 28
  {
    if d >= 28 {
      Pow2Monotone(28, d);
      assert Pow2(7) == 128;
      Pow2Sum(7, 7);
      Pow2Sum(14, 14);
    }
  }

  lemma AtLeastTimes(a: int, b: int, p: nat)
    requires a <= b
    ensures a * p <= b * p
  {
    assert (b - a) * p >= 0;
  }

  // A segment of nine IDs or more is split at a depth below 28.
  lemma DepthBound(g: Seg, d: nat, n: nat)
    requires Fits(g, d, n) && n <= INT_MAX && g.Size() > SMALL
    ensures d < 28
  {
    AtLeastTimes(9, g.Size(), Pow2(d));
    PowBound(d);
  }

  // The larger part goes on the stack, so the other one is at most half.
  lemma PartsFit(g: Seg, larger: Seg, smaller: Seg, d: nat, n: nat)
    requires Fits(g, d, n) && 0 <= smaller.Size() <= larger.Size() && larger.Size() + smaller.Size() < g.Size()
    ensures Fits(larger, d, n) && Fits(smaller, d + 1, n)
  {
    Halves(larger.Size(), smaller.Size(), g.Size(), Pow2(d));
  }

  lemma Halves(a: int, b: int, c: int, p: nat)
    requires 0 <= b <= a && a + b < c
    ensures a * p <= c * p && b * (2 * p) <= c * p
  {
    assert (c - a) * p >= 0 && (c - 2 * b) * p >= 0;
    assert b * (2 * p) == 2 * b * p;
  }

  // What bounds the number of rounds.
  function Weight(segs: seq<Seg>): (w: nat)
    decreases |segs|
  {
    if segs == [] then 0
    else Weight(segs[..|segs| - 1]) + (if segs[|segs| - 1].Size() < 0 then 0 else 2 * segs[|segs| - 1].Size() + 1)
  }

  lemma WeightOf(segs: seq<Seg>, g: Seg)
    ensures Weight(segs + [g]) == Weight(segs) + (if g.Size() < 0 then 0 else 2 * g.Size() + 1)
  {
    assert (segs + [g])[..|segs|] == segs;
  }

  // The stack in istack[1..jstack] holds these segments.
  ghost predicate Stacked(st: seq<int>, jstack: int, segs: seq<Seg>) {
    && |st| == ISTACK && jstack == 2 * |segs| < ISTACK
    && forall d :: 0 <= d < |segs| ==> StackedAt(st, d, segs[d])
  }

  ghost predicate StackedAt(st: seq<int>, d: nat, g: Seg) {
    2 * d + 2 < |st| && st[2 * d + 1] == g.l && st[2 * d + 2] == g.ir
  }

  lemma Push(st: seq<int>, jstack: int, segs: seq<Seg>, g: Seg)
    requires Stacked(st, jstack, segs) && jstack + 2 < ISTACK
    ensures Stacked(st[jstack + 2 := g.ir][jstack + 1 := g.l], jstack + 2, segs + [g])
  {
    var st', segs' := st[jstack + 2 := g.ir][jstack + 1 := g.l], segs + [g];
    forall d | 0 <= d < |segs'| ensures StackedAt(st', d, segs'[d]) {
      if d < |segs| { assert StackedAt(st, d, segs[d]); }
    }
  }

  // The stack and the segment at hand, as far as their lengths go.
  ghost predicate Depth(n: nat, st: seq<int>, jstack: int, segs: seq<Seg>, g: Seg) {
    n <= INT_MAX && Stacked(st, jstack, segs) && Shallow(segs, n) && Fits(g, |segs|, n)
  }

  // What holds at the start of every round: l..ir is the segment at hand.
  ghost predicate Round(s: Ids, lo: nat, n: nat, st: seq<int>, jstack: int, segs: seq<Seg>, g: Seg) {
    lo + n <= |s| && Depth(n, st, jstack, segs, g) && Pending(s, lo, lo + n - 1, segs + [g])
  }

  lemma AtHand(s: Ids, lo: nat, n: nat, segs: seq<Seg>, g: Seg)
    requires lo + n <= |s| && Pending(s, lo, lo + n - 1, segs + [g])
    ensures Bounded(s, lo, lo + n - 1, g)
  {
    assert (segs + [g])[|segs|] == g;
  }

  // A small segment has been sorted, and others are on the stack.
  lemma PopRound(s: Ids, t: Ids, lo: nat, n: nat, st: seq<int>, jstack: int, segs: seq<Seg>, g: Seg)
    requires Round(s, lo, n, st, jstack, segs, g) && Permuted(s, t, g.l, g.ir + 1)
    requires Bounded(s, lo, lo + n - 1, g) && Descending(t, g.l, g.ir) && segs != []
    ensures 2 <= jstack < ISTACK == |st| && st[jstack - 1] >= 0
    ensures Round(t, lo, n, st, jstack - 2, segs[..|segs| - 1], Seg(st[jstack - 1], st[jstack]))
  {
    PopDepth(n, st, jstack, segs, g);
    PopPending(s, t, lo, lo + n - 1, segs, g, segs[..|segs| - 1] + [Seg(st[jstack - 1], st[jstack])]);
  }

  lemma PopWeight(n: nat, st: seq<int>, jstack: int, segs: seq<Seg>, g: Seg)
    requires Depth(n, st, jstack, segs, g) && segs != [] && 0 <= g.Size()
    ensures 2 <= jstack < |st| && st[jstack - 1] >= 0
    ensures Weight(segs[..|segs| - 1] + [Seg(st[jstack - 1], st[jstack])]) < Weight(segs + [g])
  {
    PopDepth(n, st, jstack, segs, g);
    WeightOf(segs, g);
  }

  lemma PopDepth(n: nat, st: seq<int>, jstack: int, segs: seq<Seg>, g: Seg)
    requires Depth(n, st, jstack, segs, g) && segs != []
    ensures 2 <= jstack < ISTACK == |st| && st[jstack - 1] >= 0
    ensures Depth(n, st, jstack - 2, segs[..|segs| - 1], Seg(st[jstack - 1], st[jstack]))
    ensures segs[..|segs| - 1] + [Seg(st[jstack - 1], st[jstack])] == segs
  {
    PopStack(st, jstack, segs, n);
  }

  lemma PopPending(s: Ids, t: Ids, lo: nat, hi: int, segs: seq<Seg>, g: Seg, segs': seq<Seg>)
    requires segs' == segs
    requires hi < |s| && Pending(s, lo, hi, segs + [g]) && Permuted(s, t, g.l, g.ir + 1)
    requires Bounded(s, lo, hi, g) && Descending(t, g.l, g.ir)
    ensures Pending(t, lo, hi, segs')
  {
    StaysPending(s, t, lo, hi, segs, g, []);
    assert segs + [] == segs';
  }

  // The last segment has been sorted.
  lemma LastRound(s: Ids, t: Ids, lo: nat, n: nat, st: seq<int>, segs: seq<Seg>, g: Seg)
    requires Round(s, lo, n, st, 0, segs, g) && Permuted(s, t, g.l, g.ir + 1)
    requires Bounded(s, lo, lo + n - 1, g) && Descending(t, g.l, g.ir)
    ensures Descending(t, lo, lo + n - 1)
  {
    PopPending(s, t, lo, lo + n - 1, segs, g, []);
    Finished(t, lo, lo + n - 1);
  }

  lemma PopStack(st: seq<int>, jstack: int, segs: seq<Seg>, n: nat)
    requires Stacked(st, jstack, segs) && Shallow(segs, n) && segs != []
    ensures Stacked(st, jstack - 2, segs[..|segs| - 1]) && Shallow(segs[..|segs| - 1], n)
    ensures var top := segs[|segs| - 1];
      jstack >= 2 && st[jstack - 1] == top.l && st[jstack] == top.ir && Fits(top, |segs| - 1, n)
  {
    assert StackedAt(st, |segs| - 1, segs[|segs| - 1]);
  }

  // A large segment has been partitioned; the larger part is stacked.
  lemma PushRound(s: Ids, t: Ids, lo: nat, n: nat, st: seq<int>, jstack: int, segs: seq<Seg>, g: Seg, larger: Seg, smaller: Seg)
    requires Round(s, lo, n, st, jstack, segs, g) && Permuted(s, t, g.l, g.ir + 1) && Bounded(s, lo, lo + n - 1, g)
    requires g.Size() > SMALL && SplitUp(t, g, [larger, smaller])
    requires 0 <= smaller.Size() <= larger.Size() && larger.Size() + smaller.Size() < g.Size()
    ensures jstack + 2 < ISTACK == |st| && jstack >= 0
    ensures Round(t, lo, n, st[jstack + 2 := larger.ir][jstack + 1 := larger.l], jstack + 2, segs + [larger], smaller)
    ensures Weight(segs + [larger] + [smaller]) < Weight(segs + [g])
  {
    PushDepth(n, st, jstack, segs, g, larger, smaller);
    StaysPending(s, t, lo, lo + n - 1, segs, g, [larger, smaller]);
    assert segs + [larger, smaller] == segs + [larger] + [smaller];
    PushWeight(segs, g, larger, smaller);
  }

  lemma PushDepth(n: nat, st: seq<int>, jstack: int, segs: seq<Seg>, g: Seg, larger: Seg, smaller: Seg)
    requires Depth(n, st, jstack, segs, g) && g.Size() > SMALL
    requires 0 <= smaller.Size() <= larger.Size() && larger.Size() + smaller.Size() < g.Size()
    ensures jstack + 2 < ISTACK == |st| && jstack >= 0
    ensures Depth(n, st[jstack + 2 := larger.ir][jstack + 1 := larger.l], jstack + 2, segs + [larger], smaller)
  {
    DepthBound(g, |segs|, n);
    Push(st, jstack, segs, larger);
    PartsFit(g, larger, smaller, |segs|, n);
  }

  lemma PushWeight(segs: seq<Seg>, g: Seg, larger: Seg, smaller: Seg)
    requires 0 <= smaller.Size() <= larger.Size() && larger.Size() + smaller.Size() < g.Size()
    ensures Weight(segs + [larger] + [smaller]) < Weight(segs + [g])
  {
    WeightOf(segs, g);
    WeightOf(segs, larger);
    WeightOf(segs + [larger], smaller);
  }

  lemma PartitionSplits(t: Ids, g: Seg, i: nat, j: nat)
    requires g.ir < |t| && g.l < j < i <= g.ir
    requires Parted(t, g.l, g.ir, i, j)
    ensures SplitUp(t, g, [Seg(i, g.ir), Seg(g.l, j - 1)]) && SplitUp(t, g, [Seg(g.l, j - 1), Seg(i, g.ir)])
  {
    var left, right := Seg(g.l, j - 1), Seg(i, g.ir);
    assert PartOf(t, g, left) && PartOf(t, g, right);
    forall p | g.Inside(p) ensures Cut(t, g.l, g.ir, p) || (InSome([right, left], p) && InSome([left, right], p)) {
      if p < j {
        assert [left, right][0].Inside(p) && [right, left][1].Inside(p);
      } else if i < p {
        assert [left, right][1].Inside(p) && [right, left][0].Inside(p);
      }
    }
  }

  // Partition l..ir, stack the larger part and go on with the other one.
  method Split(a: array<nat>, ghost lo: nat, ghost n: nat, l: nat, ir: int, istack: array<int>, jstack: int, ghost segs: seq<Seg>)
    returns (l': nat, ir': int, jstack': int, larger: Seg)
    requires a != istack as object && Round(a[..], lo, n, istack[..], jstack, segs, Seg(l, ir)) && ir - l >= SMALL
    modifies a, istack
    ensures Permuted(old(a[..]), a[..], l, ir + 1)
    ensures Round(a[..], lo, n, istack[..], jstack', segs + [larger], Seg(l', ir'))
    ensures Weight(segs + [larger] + [Seg(l', ir')]) < Weight(segs + [Seg(l, ir)])
  {
    ghost var g, s, st := Seg(l, ir), a[..], istack[..];
    AtHand(s, lo, n, segs, g);
    var i, j := Partition(a, l, ir);
    PartitionSplits(a[..], g, i, j);
    jstack' := jstack + 2;
    var right := ir - i + 1 >= j - l;
    larger := if right then Seg(i, ir) else Seg(l, j - 1);
    l', ir' := if right then l else i, if right then j - 1 else ir;
    PushRound(s, a[..], lo, n, st, jstack, segs, g, larger, Seg(l', ir'));
    istack[jstack'], istack[jstack' - 1] := larger.ir, larger.l;
    assert istack[..] == st[jstack' := larger.ir][jstack' - 1 := larger.l];
  }

  // mdb_midl_sort of the n IDs from lo on.
  method Sort(a: array<nat>, lo: nat, n: nat)
    requires lo + n <= a.Length && n <= INT_MAX
    modifies a
    ensures Descending(a[..], lo, lo + n - 1)
    ensures Permuted(old(a[..]), a[..], lo, lo + n)
  {
    var istack := new int[ISTACK];
    var l: nat, ir: int, jstack: int := lo, lo + n - 1, 0;
    ghost var segs: seq<Seg> := [];
    assert Fits(Seg(l, ir), 0, n);
    assert Pending(a[..], lo, ir, [] + [Seg(l, ir)]) by {
      assert forall p :: lo < p <= ir ==> [Seg(l, ir)][0].Inside(p);
    }
    while true
      invariant istack.Length == ISTACK && fresh(istack)
      invariant Round(a[..], lo, n, istack[..], jstack, segs, Seg(l, ir))
      invariant Permuted(old(a[..]), a[..], lo, lo + n)
      decreases Weight(segs + [Seg(l, ir)])
    {
      ghost var s := a[..];
      AtHand(s, lo, n, segs, Seg(l, ir));
      if ir - l < SMALL {
        InsertionSort(a, lo, lo + n - 1, l, ir);
        Widen(old(a[..]), s, a[..], lo, lo + n, l, ir + 1);
        if jstack == 0 {
          LastRound(s, a[..], lo, n, istack[..], segs, Seg(l, ir));
          break;
        }
        PopRound(s, a[..], lo, n, istack[..], jstack, segs, Seg(l, ir));
        PopWeight(n, istack[..], jstack, segs, Seg(l, ir));
        l, ir, jstack, segs := istack[jstack - 1], istack[jstack], jstack - 2, segs[..|segs| - 1];
      } else {
        ghost var g := Seg(l, ir);
        var larger;
        l, ir, jstack, larger := Split(a, lo, n, l, ir, istack, jstack, segs);
        Widen(old(a[..]), s, a[..], lo, lo + n, g.l, g.ir + 1);
        segs := segs + [larger];
      }
    }
  }
}
