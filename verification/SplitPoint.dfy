// Where mdb_page_split divides a page (liblmdb/src/mdb.c). The nodes of the
// page and the new node, in order, have sizes `sz`; the new node is number
// `newindx`; every size includes the node's slot.

module SplitPoint {
  import opened PageFormat
  import opened BTree

  function Midpoint(nkeys: nat): nat { (nkeys + 1) / 2 }

  // The test that decides whether a split point is searched for at all.
  predicate Searches(psize: PageSize, nkeys: nat, newindx: nat, nsize: nat) {
    nkeys < psize / 128 || nsize > PMax(psize) / 16 || newindx >= nkeys
  }

  // First index, from i up to k, at which the running size passes pmax; k - 1 if none.
  function ScanUp(sz: seq<nat>, i: nat, k: nat, used: nat, pmax: nat): (s: nat)
    requires i < k <= |sz|
    ensures i <= s < k
    decreases k - i
  {
    if used + sz[i] > pmax || i == k - 1 then i else ScanUp(sz, i + 1, k, used + sz[i], pmax)
  }

  // The same downward from i to k, one past the index where it stops.
  function ScanDown(sz: seq<nat>, i: nat, k: nat, used: nat, pmax: nat): (s: nat)
    requires k <= i < |sz|
    ensures k < s <= i + 1
    decreases i
  {
    if used + sz[i] > pmax || i == k then i + 1 else ScanDown(sz, i - 1, k, used + sz[i], pmax)
  }

  function SplitIndex(psize: PageSize, sz: seq<nat>, newindx: nat, leaf: bool): (s: nat)
    requires 3 <= |sz| && newindx < |sz|
    ensures s <= |sz|
  {
    var nkeys, mid := |sz| - 1, Midpoint(|sz| - 1);
    if !Searches(psize, nkeys, newindx, sz[newindx]) then mid
    else if newindx >= nkeys then ScanUp(sz, 0, nkeys, 0, PMax(psize))
    else if newindx <= mid then ScanUp(sz, 0, if leaf then mid + 2 else mid + 1, 0, PMax(psize))
    else ScanDown(sz, nkeys, mid, 0, PMax(psize))
  }

  // Sizes of all nodes once the new one is in place. `raw` are the old nodes'
  // header, slot, key and data bytes before rounding.
  function FullSizes(raw: seq<nat>, newindx: nat, nsize: nat): (sz: seq<nat>)
    requires newindx <= |raw|
    ensures |sz| == |raw| + 1
  {
    seq(|raw| + 1, i requires 0 <= i <= |raw| => FullSize(raw, newindx, nsize, i))
  }

  function FullSize(raw: seq<nat>, newindx: nat, nsize: nat, i: nat): nat
    requires newindx <= |raw| && i <= |raw|
  {
    if i == newindx then nsize else Even(raw[if i < newindx then i else i - 1])
  }

  lemma EvenAdd(a: nat, b: nat)
    requires a % 2 == 0
    ensures Even(a + b) == a + Even(b)
  {
  }

  method AddNode(raw: seq<nat>, newindx: nat, nsize: nat, i: nat, used: nat) returns (size: nat)
    requires newindx <= |raw| && i <= |raw| && nsize % 2 == 0 && used % 2 == 0
    ensures size == used + FullSize(raw, newindx, nsize, i) && size % 2 == 0
  {
    if i == newindx {
      size := used + nsize;
    } else {
      var node := raw[if i < newindx then i else i - 1];
      EvenAdd(used, node);
      size := Even(used + node);
    }
  }

  // The search itself, walking up (step 1) or down (step -1) from one end.
  method Search(raw: seq<nat>, newindx: nat, nsize: nat, pmax: nat, from: nat, step: int, stop: int)
    returns (split: nat)
    requires newindx <= |raw| && nsize % 2 == 0
    requires (step == 1 && from == 0 < stop <= |raw| + 1) || (step == -1 && -1 <= stop < from == |raw|)
    ensures step == 1 ==> split == ScanUp(FullSizes(raw, newindx, nsize), 0, stop, 0, pmax)
    ensures step == -1 ==> split == ScanDown(FullSizes(raw, newindx, nsize), from, stop + 1, 0, pmax)
  {
    ghost var sz := FullSizes(raw, newindx, nsize);
    var i, size: nat := from, 0;
    while i != stop
      invariant size % 2 == 0
      invariant step == 1 ==> 0 <= i < stop && ScanUp(sz, 0, stop, 0, pmax) == ScanUp(sz, i, stop, size, pmax)
      invariant step == -1 ==> stop < i <= from
      invariant step == -1 ==> ScanDown(sz, from, stop + 1, 0, pmax) == ScanDown(sz, i, stop + 1, size, pmax)
      decreases if step == 1 then stop - i else i - stop
    {
      size := AddNode(raw, newindx, nsize, i, size);
      if size > pmax || i == stop - step {
        return i + (if step < 0 then 1 else 0);
      }
      i := i + step;
    }
    split := from;
  }

  method ChooseSplit(psize: PageSize, raw: seq<nat>, newindx: nat, nsize: nat, leaf: bool) returns (split: nat)
    requires 2 <= |raw| && newindx <= |raw| && nsize % 2 == 0
    ensures split == SplitIndex(psize, FullSizes(raw, newindx, nsize), newindx, leaf)
  {
    var nkeys, pmax := |raw|, PMax(psize);
    split := Midpoint(nkeys);
    if nkeys < psize / 128 || nsize > pmax / 16 || newindx >= nkeys {
      if newindx <= split || newindx >= nkeys {
        var stop := if newindx >= nkeys then nkeys else split + 1 + (if leaf then 1 else 0);
        split := Search(raw, newindx, nsize, pmax, 0, 1, stop);
      } else {
        split := Search(raw, newindx, nsize, pmax, nkeys, -1, split - 1);
      }
    }
  }

  // --- Running sums -----------------------------------------------------

  function Pre(sz: seq<nat>, i: nat): nat
    requires i <= |sz|
  {
    Sum(sz[..i])
  }

  lemma PreNext(sz: seq<nat>, i: nat)
    requires i < |sz|
    ensures Pre(sz, i + 1) == Pre(sz, i) + sz[i]
  {
    assert sz[..i + 1] == sz[..i] + [sz[i]];
    SumConcat(sz[..i], [sz[i]]);
  }

  lemma SumFrom(sz: seq<nat>, i: nat)
    requires i < |sz|
    ensures Sum(sz[i..]) == sz[i] + Sum(sz[i + 1..])
    ensures i + 1 == |sz| ==> Sum(sz[i + 1..]) == 0
    ensures i == 0 ==> sz[i..] == sz
  {
    assert sz[i..][1..] == sz[i + 1..];
  }

  lemma PreRest(sz: seq<nat>, i: nat)
    requires i <= |sz|
    ensures Sum(sz[i..]) == Sum(sz) - Pre(sz, i)
  {
    assert sz == sz[..i] + sz[i..];
    SumConcat(sz[..i], sz[i..]);
  }

  lemma {:induction false} PreMonotone(sz: seq<nat>, i: nat, j: nat)
    requires i <= j <= |sz|
    ensures Pre(sz, i) <= Pre(sz, j)
    decreases j - i
  {
    if i < j {
      PreNext(sz, i);
      PreMonotone(sz, i + 1, j);
    }
  }

  lemma {:induction false} ScanUpStops(sz: seq<nat>, i: nat, k: nat, pmax: nat)
    requires i < k <= |sz| && Pre(sz, i) <= pmax
    ensures var s := ScanUp(sz, i, k, Pre(sz, i), pmax);
      Pre(sz, s) <= pmax && (Pre(sz, s + 1) > pmax || s == k - 1)
    decreases k - i
  {
    PreNext(sz, i);
    if Pre(sz, i + 1) <= pmax && i < k - 1 { ScanUpStops(sz, i + 1, k, pmax); }
  }

  lemma {:induction false} ScanDownStops(sz: seq<nat>, i: nat, k: nat, pmax: nat)
    requires k <= i < |sz| && Sum(sz[i + 1..]) <= pmax
    ensures var s := ScanDown(sz, i, k, Sum(sz[i + 1..]), pmax);
      Sum(sz[s..]) <= pmax && (Sum(sz[s - 1..]) > pmax || s == k + 1)
    decreases i
  {
    assert sz[i..][1..] == sz[i + 1..];
    if Sum(sz[i..]) <= pmax && k < i { ScanDownStops(sz, i - 1, k, pmax); }
  }

  // --- Both halves fit --------------------------------------------------

  // What callers of mdb_page_split guarantee: the old nodes fitted the page,
  // with the new one they do not, and no node passes me_nodemax.
  ghost predicate MustSplit(psize: PageSize, sz: seq<nat>, newindx: nat) {
    && newindx < |sz|
    && Sum(sz) - sz[newindx] <= PMax(psize) < Sum(sz)
    && forall i :: 0 <= i < |sz| ==> BARE_NODE <= sz[i] <= PMax(psize) / 2
  }

  // The right half of a branch page drops the key of its first node.
  function RightSize(sz: seq<nat>, s: nat, leaf: bool): int
    requires s < |sz|
  {
    Sum(sz[s..]) - (if leaf then 0 else sz[s] - BARE_NODE)
  }

  lemma MustSplitLength(psize: PageSize, sz: seq<nat>, newindx: nat)
    requires MustSplit(psize, sz, newindx)
    ensures 3 <= |sz|
  {
    SumFrom(sz, 0);
    if 2 <= |sz| { SumFrom(sz, 1); }
  }

  // The upward search: the new node goes to the left half or is the last one.
  lemma SearchUpFits(psize: PageSize, sz: seq<nat>, newindx: nat, k: nat, leaf: bool)
    requires MustSplit(psize, sz, newindx) && 2 <= k < |sz| + (if newindx == |sz| - 1 then 0 else 1)
    requires newindx == |sz| - 1 || newindx < k
    requires newindx == k - 1 ==> !leaf
    requires newindx == |sz| - 1 ==> k == |sz| - 1
    ensures var s := ScanUp(sz, 0, k, 0, PMax(psize));
      1 <= s && Sum(sz[..s]) <= PMax(psize) && RightSize(sz, s, leaf) <= PMax(psize)
  {
    var pmax := PMax(psize);
    assert sz[..0] == [];
    ScanUpStops(sz, 0, k, pmax);
    var s := ScanUp(sz, 0, k, 0, pmax);
    PreNext(sz, s);
    PreRest(sz, s);
    PreNext(sz, 0);
    assert Pre(sz, 1) == sz[0];
    if Pre(sz, s + 1) <= pmax {
      // stopped at the last index of the range
      if newindx == |sz| - 1 {
        SumFrom(sz, s);
        SumFrom(sz, s + 1);
      } else if newindx < s {
        PreNext(sz, newindx);
        PreMonotone(sz, newindx + 1, s);
      } else {
        PreMonotone(sz, 1, s);
      }
    }
  }

  // The downward search: the new node goes to the right half.
  lemma SearchDownFits(psize: PageSize, sz: seq<nat>, newindx: nat, k: nat, leaf: bool)
    requires MustSplit(psize, sz, newindx) && 1 <= k < newindx < |sz| - 1
    ensures var s := ScanDown(sz, |sz| - 1, k, 0, PMax(psize));
      k < s < |sz| && Sum(sz[..s]) <= PMax(psize) && RightSize(sz, s, leaf) <= PMax(psize)
  {
    var pmax, n := PMax(psize), |sz| - 1;
    assert sz[n + 1..] == [];
    ScanDownStops(sz, n, k, pmax);
    var s := ScanDown(sz, n, k, 0, pmax);
    LastFits(psize, sz, newindx, s);
    PreRest(sz, s);
    if Sum(sz[s - 1..]) > pmax {
      SumFrom(sz, s - 1);
    } else {
      OldOnly(psize, sz, newindx, s);
    }
  }

  // A left half that ends before the new node holds old nodes only.
  lemma OldOnly(psize: PageSize, sz: seq<nat>, newindx: nat, s: nat)
    requires MustSplit(psize, sz, newindx) && s <= newindx
    ensures Pre(sz, s) <= PMax(psize)
  {
    PreNext(sz, newindx);
    PreMonotone(sz, s, newindx);
    PreMonotone(sz, newindx + 1, |sz|);
    assert sz[..|sz|] == sz;
  }

  lemma LastFits(psize: PageSize, sz: seq<nat>, newindx: nat, s: nat)
    requires MustSplit(psize, sz, newindx) && 1 <= s <= |sz|
    requires Sum(sz[s - 1..]) > PMax(psize) || s < |sz|
    ensures s < |sz|
  {
    SumFrom(sz, s - 1);
  }

  // When the split point is searched for, neither half is empty and both fit.
  lemma SearchedSplitFits(psize: PageSize, sz: seq<nat>, newindx: nat, leaf: bool)
    requires MustSplit(psize, sz, newindx)
    requires Searches(psize, |sz| - 1, newindx, sz[newindx])
    ensures 3 <= |sz|
    ensures var s := SplitIndex(psize, sz, newindx, leaf);
      && 1 <= s < |sz|
      && Sum(sz[..s]) <= PMax(psize) && RightSize(sz, s, leaf) <= PMax(psize)
  {
    MustSplitLength(psize, sz, newindx);
    var nkeys := |sz| - 1;
    var mid := Midpoint(nkeys);
    if newindx >= nkeys {
      SearchUpFits(psize, sz, newindx, nkeys, leaf);
    } else if newindx <= mid {
      SearchUpFits(psize, sz, newindx, if leaf then mid + 2 else mid + 1, leaf);
    } else {
      SearchDownFits(psize, sz, newindx, mid, leaf);
    }
  }

  // --- When the halves fit, in numbers ----------------------------------

  // The page has few nodes, or the new node is large, or it is the last one.
  predicate FewOrLarge(psize: PageSize, sz: seq<nat>, newindx: nat)
    requires newindx < |sz|
  {
    |sz| - 1 < psize / 128 || sz[newindx] > PMax(psize) / 16 || newindx == |sz| - 1
  }

  // The split point is searched for on just these pages.
  lemma FewOrLargeFits(psize: PageSize, sz: seq<nat>, newindx: nat, leaf: bool)
    requires MustSplit(psize, sz, newindx) && FewOrLarge(psize, sz, newindx)
    ensures 3 <= |sz|
    ensures var s := SplitIndex(psize, sz, newindx, leaf);
      && 1 <= s < |sz|
      && Sum(sz[..s]) <= PMax(psize) && RightSize(sz, s, leaf) <= PMax(psize)
  {
    SearchedSplitFits(psize, sz, newindx, leaf);
  }

  // The longest left half that fits, ending at `last` at most.
  ghost predicate LongestLeft(sz: seq<nat>, s: nat, last: nat, pmax: nat) {
    s <= last < |sz| && Sum(sz[..s]) <= pmax && (s == last || Sum(sz[..s + 1]) > pmax)
  }

  // The longest right half that fits, starting at `first` at the earliest.
  ghost predicate LongestRight(sz: seq<nat>, s: nat, first: nat, pmax: nat) {
    1 <= first <= s <= |sz| && Sum(sz[s..]) <= pmax && (s == first || Sum(sz[s - 1..]) > pmax)
  }

  // Where a page is cut: in the middle, unless it has few nodes or the new one
  // is large or last; then where the bytes run out, counted from the side the
  // new node is on, but not beyond the middle (one node further on a leaf).
  lemma SplitIndexIs(psize: PageSize, sz: seq<nat>, newindx: nat, leaf: bool)
    requires MustSplit(psize, sz, newindx)
    ensures 3 <= |sz|
    ensures var s, half := SplitIndex(psize, sz, newindx, leaf), |sz| / 2;
      if !FewOrLarge(psize, sz, newindx) then s == half
      else if newindx == |sz| - 1 then LongestLeft(sz, s, |sz| - 2, PMax(psize))
      else if newindx <= half then LongestLeft(sz, s, if leaf then half + 1 else half, PMax(psize))
      else LongestRight(sz, s, half + 1, PMax(psize))
  {
    MustSplitLength(psize, sz, newindx);
    var nkeys, half := |sz| - 1, |sz| / 2;
    if FewOrLarge(psize, sz, newindx) {
      if newindx == nkeys {
        UpIsLongest(psize, sz, nkeys);
      } else if newindx <= half {
        UpIsLongest(psize, sz, if leaf then half + 2 else half + 1);
      } else {
        DownIsLongest(psize, sz, half);
      }
    }
  }

  lemma UpIsLongest(psize: PageSize, sz: seq<nat>, k: nat)
    requires 0 < k <= |sz|
    ensures LongestLeft(sz, ScanUp(sz, 0, k, 0, PMax(psize)), k - 1, PMax(psize))
  {
    assert sz[..0] == [];
    ScanUpStops(sz, 0, k, PMax(psize));
  }

  lemma DownIsLongest(psize: PageSize, sz: seq<nat>, k: nat)
    requires k < |sz|
    ensures LongestRight(sz, ScanDown(sz, |sz| - 1, k, 0, PMax(psize)), k + 1, PMax(psize))
  {
    assert sz[|sz|..] == [];
    ScanDownStops(sz, |sz| - 1, k, PMax(psize));
  }

  // The half of the plain midpoint split that takes the new node has room.
  predicate MidpointFits(psize: PageSize, sz: seq<nat>, newindx: nat, leaf: bool)
    requires 3 <= |sz| && newindx < |sz|
  {
    var s := |sz| / 2;
    if newindx < s then Sum(sz[..s]) <= PMax(psize) else RightSize(sz, s, leaf) <= PMax(psize)
  }

  predicate SplitFits(psize: PageSize, sz: seq<nat>, newindx: nat, leaf: bool)
    requires 3 <= |sz| && newindx < |sz|
  {
    FewOrLarge(psize, sz, newindx) || MidpointFits(psize, sz, newindx, leaf)
  }

  // A right half that starts after the new node holds old nodes only.
  lemma OldOnlyRight(psize: PageSize, sz: seq<nat>, newindx: nat, s: nat, leaf: bool)
    requires MustSplit(psize, sz, newindx) && newindx < s < |sz|
    ensures RightSize(sz, s, leaf) <= PMax(psize)
  {
    PreNext(sz, newindx);
    PreMonotone(sz, newindx + 1, s);
    PreRest(sz, s);
  }

  // A split leaves halves that fit exactly when the page has few nodes or the
  // new one is large or last, or the half that takes it has room at the midpoint.
  lemma SplitFitsIff(psize: PageSize, sz: seq<nat>, newindx: nat, leaf: bool)
    requires MustSplit(psize, sz, newindx)
    ensures 3 <= |sz|
    ensures var s := SplitIndex(psize, sz, newindx, leaf);
      && 1 <= s < |sz|
      && (Sum(sz[..s]) <= PMax(psize) && RightSize(sz, s, leaf) <= PMax(psize) <==> SplitFits(psize, sz, newindx, leaf))
  {
    MustSplitLength(psize, sz, newindx);
    if FewOrLarge(psize, sz, newindx) {
      FewOrLargeFits(psize, sz, newindx, leaf);
    } else {
      var s := |sz| / 2;
      if newindx < s {
        OldOnlyRight(psize, sz, newindx, s, leaf);
      } else {
        OldOnly(psize, sz, newindx, s);
      }
    }
  }

  lemma {:induction false} SumConst(n: nat, c: nat)
    ensures Sum(seq(n, i => c)) == n * c
  {
    if n > 0 {
      assert seq(n, i => c)[1..] == seq(n - 1, i => c);
      SumConst(n - 1, c);
    }
  }

  // Without the search nothing guarantees that the halves fit: on a 4096 byte
  // page, 16 small nodes followed by 16 of 240 bytes and a new node of 254
  // bytes among the large ones leave a right half of 4094 > 4080 bytes.
  lemma MidpointCanOverflow()
    ensures exists psize: PageSize, sz: seq<nat>, newindx: nat ::
      && MustSplit(psize, sz, newindx) && 3 <= |sz|
      && !FewOrLarge(psize, sz, newindx)
      && SplitIndex(psize, sz, newindx, true) < |sz|
      && RightSize(sz, SplitIndex(psize, sz, newindx, true), true) > PMax(psize)
  {
    var small, large := seq(16, i => 12), seq(15, i => 240);
    var sz: seq<nat> := small + ([240, 254] + large);
    SumConst(16, 12);
    SumConst(15, 240);
    SumConcat([240, 254], large);
    SumConcat(small, [240, 254] + large);
    assert [240, 254][1..] == [254] && [254][1..] == [];
    assert Sum([240, 254]) == 494;
    assert sz[16..] == [240, 254] + large;
    assert sz[17] == 254 && |sz| == 33;
    assert MustSplit(4096, sz, 17);
    assert RightSize(sz, SplitIndex(4096, sz, 17, true), true) > PMax(4096);
  }
}
