// Searching a page and inserting into the tree (liblmdb/src/mdb.c):
// mdb_node_search, mdb_page_search_root, mdb_cursor_put, mdb_page_split.

module BTreePut {
  import opened PageFormat
  import opened BTree
  import opened SplitPoint

  // --- Searching one page -----------------------------------------------

  // Smallest index, from `low` on, whose key is not below r.
  function FirstAtLeast(keys: seq<real>, low: nat, r: real): (i: nat)
    requires low <= |keys|
    ensures low <= i <= |keys|
    ensures forall j :: low <= j < i ==> keys[j] < r
    ensures i < |keys| ==> r <= keys[i]
    decreases |keys| - low
  {
    if low == |keys| || r <= keys[low] then low else FirstAtLeast(keys, low + 1, r)
  }

  lemma {:induction false} FirstUnique(keys: seq<real>, low: nat, r: real, i: nat)
    requires low <= i <= |keys|
    requires forall j :: low <= j < i ==> keys[j] < r
    requires i < |keys| ==> r <= keys[i]
    ensures i == FirstAtLeast(keys, low, r)
  {
  }

  ghost predicate Ascending(keys: seq<real>, low: nat) {
    forall i, j :: low <= i < j < |keys| ==> keys[i] < keys[j]
  }

  // mdb_node_search. On a branch page key 0 is minus infinity and is skipped;
  // with no key left to compare, the result of the last comparison is still 0
  // and index 0 counts as exact.
  method NodeSearch(keys: seq<real>, leaf: bool, key: real) returns (i: nat, exact: bool)
    requires Ascending(keys, if leaf then 0 else 1) && (leaf || 1 <= |keys|)
    ensures leaf || 2 <= |keys| ==>
      && i == FirstAtLeast(keys, if leaf then 0 else 1, key)
      && exact == (i < |keys| && keys[i] == key)
    ensures !leaf && |keys| == 1 ==> i == 0 && exact
  {
    var nkeys := |keys|;
    var low, high := if leaf then 0 else 1, nkeys - 1;
    ghost var first := low;
    var rc := 0.0;
    i := 0;
    while low <= high
      invariant first <= low <= high + 1 <= nkeys
      invariant forall j :: first <= j < low ==> keys[j] < key
      invariant forall j :: high < j < nkeys ==> key < keys[j]
      invariant rc == 0.0 ==> i == 0 && low == first && high == nkeys - 1
      invariant rc != 0.0 ==> first <= i < nkeys
      invariant rc > 0.0 ==> low == i + 1
      invariant rc < 0.0 ==> low <= i && high == i - 1
      decreases high - low
    {
      i := (low + high) / 2;
      rc := key - keys[i];
      if rc == 0.0 {
        break;
      }
      if rc > 0.0 {
        low := i + 1;
      } else {
        high := i - 1;
      }
    }
    if rc > 0.0 {
      i := i + 1;
    }
    exact := rc == 0.0 && nkeys > 0;
    if leaf || 2 <= nkeys {
      FirstUnique(keys, first, key, i);
    }
  }

  function Ranks(es: seq<Entry>): (keys: seq<real>)
    ensures |keys| == |es|
  {
    seq(|es|, i requires 0 <= i < |es| => es[i].key.rank)
  }

  function LowerBound(es: seq<Entry>, r: real): (i: nat)
    ensures i <= |es|
    ensures forall j :: 0 <= j < i ==> es[j].key.rank < r
    ensures i < |es| ==> r <= es[i].key.rank
  {
    var i := FirstAtLeast(Ranks(es), 0, r);
    assert forall j :: 0 <= j < i ==> es[j].key.rank == Ranks(es)[j];
    i
  }

  lemma LowerBoundUnique(es: seq<Entry>, r: real, i: nat)
    requires i <= |es|
    requires forall j :: 0 <= j < i ==> es[j].key.rank < r
    requires i < |es| ==> r <= es[i].key.rank
    ensures i == LowerBound(es, r)
  {
  }

  // The child a descent follows: the last one whose separator is not above r.
  function ChildIndex(kids: seq<Kid>, r: real): (i: nat)
    requires 1 <= |kids|
    ensures i < |kids|
    ensures 0 < i ==> kids[i].sep.rank <= r
    ensures i + 1 < |kids| ==> r < kids[i + 1].sep.rank
  {
    if |kids| == 1 || r < kids[1].sep.rank then 0 else 1 + ChildIndex(kids[1..], r)
  }

  function Seps(kids: seq<Kid>): (keys: seq<real>)
    ensures |keys| == |kids|
  {
    seq(|kids|, i requires 0 <= i < |kids| => kids[i].sep.rank)
  }

  lemma {:induction false} SepsAscending(psize: PageSize, kids: seq<Kid>, d: nat, lo: Bound, hi: Bound)
    requires 1 <= |kids| && KidsWF(psize, kids, d, lo, hi)
    ensures Ascending(Seps(kids), 1)
    ensures forall i :: 1 <= i < |kids| ==> Above(lo, kids[i].sep.rank)
  {
    if 2 <= |kids| {
      SepsAscending(psize, kids[1..], d, Some(kids[1].sep.rank), hi);
      forall i, j | 1 <= i < j < |kids| ensures Seps(kids)[i] < Seps(kids)[j] {
        assert kids[i] == kids[1..][i - 1] && kids[j] == kids[1..][j - 1];
        if 2 <= i { assert Seps(kids[1..])[i - 1] < Seps(kids[1..])[j - 1]; }
      }
      assert forall i :: 2 <= i < |kids| ==> kids[i] == kids[1..][i - 1];
    }
  }

  lemma {:induction false} ChildIndexUnique(kids: seq<Kid>, r: real, i: nat)
    requires 1 <= |kids| && i < |kids| && Ascending(Seps(kids), 1)
    requires 0 < i ==> kids[i].sep.rank <= r
    requires i + 1 < |kids| ==> r < kids[i + 1].sep.rank
    ensures i == ChildIndex(kids, r)
  {
    if 0 < i {
      assert Seps(kids)[1] <= Seps(kids)[i];
      assert forall j :: 0 <= j < |kids[1..]| ==> Seps(kids[1..])[j] == Seps(kids)[j + 1];
      ChildIndexUnique(kids[1..], r, i - 1);
    } else if 1 < |kids| {
      assert r < kids[1].sep.rank;
    }
  }

  // One turn of the loop of mdb_page_search_root.
  method FollowKey(ghost psize: PageSize, kids: seq<Kid>, ghost d: nat, ghost lo: Bound, ghost hi: Bound, key: real)
    returns (i: nat)
    requires 2 <= |kids| && KidsWF(psize, kids, d, lo, hi)
    ensures i == ChildIndex(kids, key)
  {
    SepsAscending(psize, kids, d, lo, hi);
    var exact;
    i, exact := NodeSearch(Seps(kids), false, key);
    ghost var first := i;
    if i == |kids| {
      i := |kids| - 1;
    } else if !exact {
      i := i - 1;
    }
    assert forall j :: 1 <= j < first ==> kids[j].sep.rank == Seps(kids)[j] < key;
    assert exact && first + 1 < |kids| ==> Seps(kids)[first] < Seps(kids)[first + 1];
    ChildIndexUnique(kids, key, i);
  }

  // --- The sorted list with one entry stored ----------------------------

  // Overwriting a value by one of the same length keeps the node and its key.
  predicate InPlace(psize: PageSize, was: Entry, e: Entry) {
    |was.val| == |e.val| && NODESIZE + was.key.len + |was.val| <= NodeMax(psize)
  }

  function Stored(psize: PageSize, was: Entry, e: Entry): Entry {
    if InPlace(psize, was, e) then Entry(was.key, e.val) else e
  }

  predicate Hits(es: seq<Entry>, e: Entry) {
    var i := LowerBound(es, e.key.rank);
    i < |es| && es[i].key.rank == e.key.rank
  }

  function Splice(es: seq<Entry>, i: nat, skip: nat, e: Entry): (r: seq<Entry>)
    requires i + skip <= |es|
  {
    es[..i] + [e] + es[i + skip..]
  }

  function Upsert(psize: PageSize, es: seq<Entry>, e: Entry): seq<Entry> {
    var i := LowerBound(es, e.key.rank);
    if Hits(es, e) then Splice(es, i, 1, Stored(psize, es[i], e)) else Splice(es, i, 0, e)
  }

  lemma SpliceMiddle(a: seq<Entry>, b: seq<Entry>, c: seq<Entry>, i: nat, skip: nat, e: Entry)
    requires i + skip <= |b|
    ensures Splice(a + b + c, |a| + i, skip, e) == a + Splice(b, i, skip, e) + c
  {
    var abc := a + b + c;
    assert abc[..|a| + i] == a + b[..i];
    assert abc[|a| + i + skip..] == b[i + skip..] + c;
  }

  lemma LowerBoundMiddle(a: seq<Entry>, b: seq<Entry>, c: seq<Entry>, r: real)
    requires forall j :: 0 <= j < |a| ==> a[j].key.rank < r
    requires forall j :: 0 <= j < |c| ==> r < c[j].key.rank
    ensures LowerBound(a + b + c, r) == |a| + LowerBound(b, r)
  {
    LowerBoundUnique(a + b + c, r, |a| + LowerBound(b, r));
  }

  // Storing happens inside the part whose neighbours are below and above it.
  lemma UpsertMiddle(psize: PageSize, a: seq<Entry>, b: seq<Entry>, c: seq<Entry>, e: Entry)
    requires forall j :: 0 <= j < |a| ==> a[j].key.rank < e.key.rank
    requires forall j :: 0 <= j < |c| ==> e.key.rank < c[j].key.rank
    ensures Upsert(psize, a + b + c, e) == a + Upsert(psize, b, e) + c
  {
    var i := LowerBound(b, e.key.rank);
    LowerBoundMiddle(a, b, c, e.key.rank);
    if Hits(b, e) {
      SpliceMiddle(a, b, c, i, 1, Stored(psize, b[i], e));
    } else {
      SpliceMiddle(a, b, c, i, 0, e);
    }
  }

  lemma SpliceSorted(es: seq<Entry>, i: nat, skip: nat, e: Entry, lo: Bound, hi: Bound)
    requires Sorted(es) && Within(es, lo, hi) && KeySizes(es) && i + skip <= |es|
    requires AboveOrAt(lo, e.key.rank) && Below(e.key.rank, hi) && e.key.len <= MAXKEYSIZE
    requires forall j :: 0 <= j < i ==> es[j].key.rank < e.key.rank
    requires forall j :: i + skip <= j < |es| ==> e.key.rank < es[j].key.rank
    ensures Sorted(Splice(es, i, skip, e)) && Within(Splice(es, i, skip, e), lo, hi)
    ensures KeySizes(Splice(es, i, skip, e))
  {
    var after := Splice(es, i, skip, e);
    forall j | 0 <= j < |after|
      ensures AboveOrAt(lo, after[j].key.rank) && Below(after[j].key.rank, hi) && after[j].key.len <= MAXKEYSIZE
    {
      SpliceAt(es, i, skip, e, j);
    }
    forall j, k | 0 <= j < k < |after| ensures after[j].key.rank < after[k].key.rank {
      SpliceAt(es, i, skip, e, j);
      SpliceAt(es, i, skip, e, k);
    }
  }

  lemma SpliceAt(es: seq<Entry>, i: nat, skip: nat, e: Entry, j: nat)
    requires i + skip <= |es| && j < |Splice(es, i, skip, e)|
    ensures j > i ==> j - 1 + skip < |es|
    ensures Splice(es, i, skip, e)[j] == if j < i then es[j] else if j == i then e else es[j - 1 + skip]
  {
  }

  // As a map: e is stored and every key outside the spliced-out part is kept.
  lemma SpliceMeaning(es: seq<Entry>, i: nat, skip: nat, e: Entry)
    requires Sorted(es) && i + skip <= |es| && Sorted(Splice(es, i, skip, e))
    requires forall j :: i <= j < i + skip ==> es[j].key.rank == e.key.rank
    ensures var before, after := ToMap(es), ToMap(Splice(es, i, skip, e));
      && after.Keys == before.Keys + {e.key.rank}
      && after[e.key.rank] == e
      && forall r :: r in before && r != e.key.rank ==> after[r] == before[r]
  {
    var after := Splice(es, i, skip, e);
    SpliceMembers(es, i, skip, e);
    MapHas(after, e);
    forall r | r != e.key.rank
      ensures (r in ToMap(after) <==> r in ToMap(es)) && (r in ToMap(es) ==> ToMap(after)[r] == ToMap(es)[r])
    {
      SpliceAtKey(es, after, e, r);
    }
  }

  lemma SpliceAtKey(es: seq<Entry>, after: seq<Entry>, e: Entry, r: real)
    requires Sorted(es) && Sorted(after) && r != e.key.rank
    requires forall x :: x in after && x.key.rank == r ==> x in es
    requires forall x :: x in es && x.key.rank == r ==> x in after
    ensures (r in ToMap(after) <==> r in ToMap(es)) && (r in ToMap(es) ==> ToMap(after)[r] == ToMap(es)[r])
  {
    if r in ToMap(after) {
      MapGet(after, r);
      MapHas(es, ToMap(after)[r]);
    }
    if r in ToMap(es) {
      MapGet(es, r);
      MapHas(after, ToMap(es)[r]);
    }
  }

  lemma SpliceMembers(es: seq<Entry>, i: nat, skip: nat, e: Entry)
    requires i + skip <= |es|
    requires forall j :: i <= j < i + skip ==> es[j].key.rank == e.key.rank
    ensures e in Splice(es, i, skip, e)
    ensures forall x :: x in Splice(es, i, skip, e) ==> x == e || x in es
    ensures forall x :: x in es && x.key.rank != e.key.rank ==> x in Splice(es, i, skip, e)
  {
    var pre, mid, post := es[..i], es[i..i + skip], es[i + skip..];
    assert es == pre + mid + post;
    assert forall x :: x in mid ==> x.key.rank == e.key.rank;
  }

  lemma UpsertSorted(psize: PageSize, es: seq<Entry>, e: Entry, lo: Bound, hi: Bound)
    requires Sorted(es) && Within(es, lo, hi) && KeySizes(es)
    requires AboveOrAt(lo, e.key.rank) && Below(e.key.rank, hi) && e.key.len <= MAXKEYSIZE
    ensures Sorted(Upsert(psize, es, e)) && Within(Upsert(psize, es, e), lo, hi)
    ensures KeySizes(Upsert(psize, es, e)) && 1 <= |Upsert(psize, es, e)|
  {
    var i := LowerBound(es, e.key.rank);
    if Hits(es, e) {
      SpliceSorted(es, i, 1, Stored(psize, es[i], e), lo, hi);
    } else {
      SpliceSorted(es, i, 0, e, lo, hi);
    }
  }

  // As a map: the key's value is the new one, every other key keeps its entry.
  lemma UpsertMeaning(psize: PageSize, es: seq<Entry>, e: Entry)
    requires Sorted(es) && KeySizes(es) && e.key.len <= MAXKEYSIZE
    ensures var before, after := ToMap(es), ToMap(Upsert(psize, es, e));
      && after.Keys == before.Keys + {e.key.rank}
      && after[e.key.rank].val == e.val
      && forall r :: r in before && r != e.key.rank ==> after[r] == before[r]
  {
    var i := LowerBound(es, e.key.rank);
    UpsertSorted(psize, es, e, None, None);
    if Hits(es, e) {
      SpliceMeaning(es, i, 1, Stored(psize, es[i], e));
    } else {
      SpliceMeaning(es, i, 0, e);
    }
  }

  // Which key is stored: a value of the same length on the page itself is
  // overwritten and leaves the old key; any other value brings its own key.
  lemma UpsertKey(psize: PageSize, es: seq<Entry>, e: Entry)
    requires Sorted(es) && KeySizes(es) && e.key.len <= MAXKEYSIZE
    ensures var before, after, r := ToMap(es), ToMap(Upsert(psize, es, e)), e.key.rank;
      && r in after && after[r].val == e.val
      && after[r].key ==
           if r in before && |before[r].val| == |e.val| && NODESIZE + before[r].key.len + |e.val| <= NodeMax(psize)
           then before[r].key else e.key
  {
    if Hits(es, e) {
      HitStored(psize, es, e);
    } else {
      UpsertSorted(psize, es, e, None, None);
      SpliceMembers(es, LowerBound(es, e.key.rank), 0, e);
      MapHas(Upsert(psize, es, e), e);
      if e.key.rank in ToMap(es) { NotHit(es, e); }
    }
  }

  lemma HitStored(psize: PageSize, es: seq<Entry>, e: Entry)
    requires Sorted(es) && KeySizes(es) && e.key.len <= MAXKEYSIZE && Hits(es, e)
    ensures var i, r := LowerBound(es, e.key.rank), e.key.rank;
      && r in ToMap(es) && ToMap(es)[r] == es[i]
      && r in ToMap(Upsert(psize, es, e)) && ToMap(Upsert(psize, es, e))[r] == Stored(psize, es[i], e)
  {
    var i := LowerBound(es, e.key.rank);
    var now := Stored(psize, es[i], e);
    UpsertSorted(psize, es, e, None, None);
    MapHas(es, es[i]);
    SpliceMembers(es, i, 1, now);
    MapHas(Splice(es, i, 1, now), now);
  }

  lemma NotHit(es: seq<Entry>, e: Entry)
    requires Sorted(es) && e.key.rank in ToMap(es)
    ensures Hits(es, e)
  {
    MapGet(es, e.key.rank);
    var x := ToMap(es)[e.key.rank];
    var j :| 0 <= j < |es| && es[j] == x;
    var i := LowerBound(es, e.key.rank);
    if i < |es| && es[i].key.rank != e.key.rank { assert i <= j; }
  }

  // --- Inserting --------------------------------------------------------

  // A page after an insertion: it fitted, it was split, or the new node did
  // not fit its half and the transaction fails with MDB_PAGE_FULL. `sz`,
  // `newindx` and `leaf` then describe the page that could not be split.
  datatype Up =
    | Fit(t: Tree)
    | Broke(left: Tree, sep: Key, right: Tree)
    | Full(sz: seq<nat>, newindx: nat, leaf: bool)

  // mdb_page_split of a leaf whose nodes with the new one are `full`. With
  // MDB_APPEND the new node goes to a page of its own.
  ghost function SplitLeaf(psize: PageSize, full: seq<Entry>, newindx: nat, append: bool): Up
    requires 3 <= |full| && newindx < |full|
  {
    var sz := EntrySizes(psize, full);
    var s := if append then newindx else SplitIndex(psize, sz, newindx, true);
    if s == |full| || Sum(sz[..s]) > PMax(psize) || Sum(sz[s..]) > PMax(psize) then Full(sz, newindx, true)
    else Broke(Leaf(full[..s]), full[s].key, Leaf(full[s..]))
  }

  // The same for a branch page: the first right node loses its key.
  ghost function SplitBranch(psize: PageSize, full: seq<Kid>, newindx: nat): Up
    requires 3 <= |full| && newindx < |full|
  {
    var sz := KidSizes(full);
    var s := SplitIndex(psize, sz, newindx, false);
    if s == |full| || Sum(sz[..s]) > PMax(psize) || RightSize(sz, s, false) > PMax(psize) then Full(sz, newindx, false)
    else Broke(Branch(full[..s]), full[s].sep, Branch(DropKey(full[s..])))
  }

  function DropKey(kids: seq<Kid>): seq<Kid>
    requires 1 <= |kids|
  {
    kids[0 := Kid(NullKey, kids[0].sub)]
  }

  lemma EntrySizeBound(psize: PageSize, e: Entry)
    requires e.key.len <= MAXKEYSIZE
    ensures BARE_NODE <= EntrySize(psize, e) <= PMax(psize) / 2
  {
  }

  lemma KidSizeBound(psize: PageSize, kid: Kid)
    requires kid.sep.len <= MAXKEYSIZE
    ensures BARE_NODE <= KidSize(kid) <= BARE_NODE + 512
  {
  }

  // A new node that does not fit leaves a page that has to be split.
  lemma LeafMustSplit(psize: PageSize, es: seq<Entry>, i: nat, e: Entry)
    requires i <= |es| && KeySizes(es) && e.key.len <= MAXKEYSIZE
    requires Sum(EntrySizes(psize, es)) <= PMax(psize) < Sum(EntrySizes(psize, es)) + EntrySize(psize, e)
    ensures MustSplit(psize, EntrySizes(psize, Splice(es, i, 0, e)), i)
    ensures 3 <= |es| + 1
  {
    var full := Splice(es, i, 0, e);
    SpliceSizes(psize, es, i, e);
    forall j | 0 <= j < |full| ensures BARE_NODE <= EntrySize(psize, full[j]) <= PMax(psize) / 2 {
      assert full[j] == if j < i then es[j] else if j == i then e else es[j - 1];
      EntrySizeBound(psize, full[j]);
    }
    MustSplitLength(psize, EntrySizes(psize, full), i);
  }

  lemma SpliceSizes(psize: PageSize, es: seq<Entry>, i: nat, e: Entry)
    requires i <= |es|
    ensures Sum(EntrySizes(psize, Splice(es, i, 0, e))) == Sum(EntrySizes(psize, es)) + EntrySize(psize, e)
    ensures EntrySizes(psize, Splice(es, i, 0, e))[i] == EntrySize(psize, e)
  {
    assert es == es[..i] + es[i..] && es[i + 0..] == es[i..];
    EntrySizesConcat(psize, es[..i], es[i..]);
    EntrySizesConcat(psize, es[..i] + [e], es[i..]);
    EntrySizesConcat(psize, es[..i], [e]);
    OneEntrySize(psize, e);
  }

  // What an insertion into a tree in [lo, hi) has to deliver.
  ghost predicate PutOk(psize: PageSize, up: Up, d: nat, lo: Bound, hi: Bound, content: seq<Entry>) {
    match up
    case Fit(t) => WF(psize, t, d, lo, hi, false) && Contents(t) == content
    case Broke(left, sep, right) =>
      && WF(psize, left, d, lo, Some(sep.rank), false) && WF(psize, right, d, Some(sep.rank), hi, false)
      && Above(lo, sep.rank) && Below(sep.rank, hi) && sep.len <= MAXKEYSIZE
      && Contents(left) + Contents(right) == content
    case Full(sz, newindx, leaf) => FailsAtMidpoint(psize, sz, newindx, leaf)
  }

  // The only way to fail: a page of many nodes, a new node that is neither
  // large nor the last, and no room at the midpoint for the half that takes it.
  ghost predicate FailsAtMidpoint(psize: PageSize, sz: seq<nat>, newindx: nat, leaf: bool) {
    MustSplit(psize, sz, newindx) && 3 <= |sz| && !SplitFits(psize, sz, newindx, leaf)
  }

  lemma LeafHalvesOk(psize: PageSize, full: seq<Entry>, s: nat, lo: Bound, hi: Bound)
    requires 1 <= s < |full| && Sorted(full) && Within(full, lo, hi) && KeySizes(full)
    requires Sum(EntrySizes(psize, full)[..s]) <= PMax(psize) && Sum(EntrySizes(psize, full)[s..]) <= PMax(psize)
    ensures PutOk(psize, Broke(Leaf(full[..s]), full[s].key, Leaf(full[s..])), 1, lo, hi, full)
  {
    var r := Some(full[s].key.rank);
    assert full == full[..s] + full[s..];
    assert full[0].key.rank < full[s].key.rank;
    assert WF(psize, Leaf(full[..s]), 1, lo, r, false) by {
      assert EntrySizes(psize, full[..s]) == EntrySizes(psize, full)[..s];
    }
    assert WF(psize, Leaf(full[s..]), 1, r, hi, false) by {
      assert EntrySizes(psize, full[s..]) == EntrySizes(psize, full)[s..];
      var rest := full[s..];
      assert forall i :: 0 < i < |rest| ==> full[s].key.rank < rest[i].key.rank;
    }
  }

  // With MDB_APPEND the old page is the left half.
  lemma AppendFits(psize: PageSize, sz: seq<nat>)
    requires sz != [] && MustSplit(psize, sz, |sz| - 1)
    ensures Sum(sz[..|sz| - 1]) <= PMax(psize) && Sum(sz[|sz| - 1..]) <= PMax(psize)
  {
    SumFrom(sz, |sz| - 1);
    PreRest(sz, |sz| - 1);
  }

  // Exactly when a leaf cannot be split.
  lemma SplitLeafFull(psize: PageSize, full: seq<Entry>, newindx: nat, append: bool)
    requires newindx < |full| && MustSplit(psize, EntrySizes(psize, full), newindx)
    requires append ==> newindx == |full| - 1
    ensures 3 <= |full|
    ensures SplitLeaf(psize, full, newindx, append).Full? <==>
      !append && !SplitFits(psize, EntrySizes(psize, full), newindx, true)
  {
    var sz := EntrySizes(psize, full);
    SplitFitsIff(psize, sz, newindx, true);
    if append { AppendFits(psize, sz); }
  }

  // Exactly when a branch page cannot be split.
  lemma SplitBranchFull(psize: PageSize, full: seq<Kid>, newindx: nat)
    requires newindx < |full| && MustSplit(psize, KidSizes(full), newindx)
    ensures 3 <= |full|
    ensures SplitBranch(psize, full, newindx).Full? <==> !SplitFits(psize, KidSizes(full), newindx, false)
  {
    SplitFitsIff(psize, KidSizes(full), newindx, false);
  }

  lemma SplitLeafOk(psize: PageSize, full: seq<Entry>, newindx: nat, append: bool, lo: Bound, hi: Bound)
    requires newindx < |full| && Sorted(full) && Within(full, lo, hi) && KeySizes(full)
    requires MustSplit(psize, EntrySizes(psize, full), newindx)
    requires append ==> newindx == |full| - 1
    ensures 3 <= |full| && PutOk(psize, SplitLeaf(psize, full, newindx, append), 1, lo, hi, full)
  {
    var sz := EntrySizes(psize, full);
    SplitFitsIff(psize, sz, newindx, true);
    SplitLeafFull(psize, full, newindx, append);
    if SplitLeaf(psize, full, newindx, append).Broke? {
      LeafHalvesOk(psize, full, if append then newindx else SplitIndex(psize, sz, newindx, true), lo, hi);
    }
  }

  lemma {:induction false} SumAtMost(sz: seq<nat>, c: nat)
    requires forall i :: 0 <= i < |sz| ==> sz[i] <= c
    ensures Sum(sz) <= c * |sz|
  {
    if sz != [] { SumAtMost(sz[1..], c); }
  }

  // Branch nodes are small, so both halves of a split branch page keep at
  // least two children.
  lemma BranchSplitCount(psize: PageSize, sz: seq<nat>, newindx: nat)
    requires MustSplit(psize, sz, newindx)
    requires forall i :: 0 <= i < |sz| ==> sz[i] <= BARE_NODE + 512
    ensures 3 <= |sz|
    ensures 2 <= SplitIndex(psize, sz, newindx, false) <= |sz| - 2
  {
    MustSplitLength(psize, sz, newindx);
    SumAtMost(sz, BARE_NODE + 512);
    var nkeys, mid := |sz| - 1, Midpoint(|sz| - 1);
    if Searches(psize, nkeys, newindx, sz[newindx]) {
      if newindx >= nkeys || newindx <= mid {
        UpSplitCount(psize, sz, newindx);
      } else {
        DownSplitCount(psize, sz, newindx);
      }
    }
  }

  lemma UpSplitCount(psize: PageSize, sz: seq<nat>, newindx: nat)
    requires MustSplit(psize, sz, newindx) && 3 <= |sz| && Sum(sz) <= (BARE_NODE + 512) * |sz|
    requires forall i :: 0 <= i < |sz| ==> sz[i] <= BARE_NODE + 512
    requires Searches(psize, |sz| - 1, newindx, sz[newindx]) && (newindx >= |sz| - 1 || newindx <= Midpoint(|sz| - 1))
    ensures 2 <= SplitIndex(psize, sz, newindx, false) <= |sz| - 2
  {
    var nkeys, s := |sz| - 1, SplitIndex(psize, sz, newindx, false);
    assert sz[..0] == [];
    ScanUpStops(sz, 0, if newindx >= nkeys then nkeys else Midpoint(nkeys) + 1, PMax(psize));
    SumAtMost(sz[..s + 1], BARE_NODE + 512);
  }

  lemma DownSplitCount(psize: PageSize, sz: seq<nat>, newindx: nat)
    requires MustSplit(psize, sz, newindx) && 3 <= |sz| && Sum(sz) <= (BARE_NODE + 512) * |sz|
    requires forall i :: 0 <= i < |sz| ==> sz[i] <= BARE_NODE + 512
    requires Searches(psize, |sz| - 1, newindx, sz[newindx]) && Midpoint(|sz| - 1) < newindx < |sz| - 1
    ensures 2 <= SplitIndex(psize, sz, newindx, false) <= |sz| - 2
  {
    var nkeys, s := |sz| - 1, SplitIndex(psize, sz, newindx, false);
    assert sz[nkeys + 1..] == [];
    ScanDownStops(sz, nkeys, Midpoint(nkeys), PMax(psize));
    SumAtMost(sz[s - 1..], BARE_NODE + 512);
  }

  lemma DropKeySize(kids: seq<Kid>)
    requires 1 <= |kids|
    ensures Sum(KidSizes(DropKey(kids))) == Sum(KidSizes(kids)) - KidSize(kids[0]) + BARE_NODE
  {
    assert KidSizes(DropKey(kids))[1..] == KidSizes(kids)[1..];
  }

  lemma BranchHalvesOk(psize: PageSize, full: seq<Kid>, s: nat, d: nat, lo: Bound, hi: Bound)
    requires 2 <= s <= |full| - 2 && 2 <= d && KidsWF(psize, full, d - 1, lo, hi) && full[0].sep.len == 0
    requires Sum(KidSizes(full)[..s]) <= PMax(psize)
    requires RightSize(KidSizes(full), s, false) <= PMax(psize)
    ensures PutOk(psize, Broke(Branch(full[..s]), full[s].sep, Branch(DropKey(full[s..]))), d, lo, hi, Cat(full))
  {
    var left, right := full[..s], full[s..];
    assert full == left + right;
    assert KidSizes(left) == KidSizes(full)[..s] && KidSizes(right) == KidSizes(full)[s..];
    KidsSplit(psize, left, right, d - 1, lo, hi);
    KidsHead(psize, right, NullKey, d - 1, Some(full[s].sep.rank), hi);
    DropKeySize(right);
    CatConcat(left, right);
  }

  lemma SplitBranchOk(psize: PageSize, full: seq<Kid>, newindx: nat, d: nat, lo: Bound, hi: Bound)
    requires newindx < |full| && 2 <= d && KidsWF(psize, full, d - 1, lo, hi) && full[0].sep.len == 0
    requires MustSplit(psize, KidSizes(full), newindx)
    requires forall i :: 0 <= i < |full| ==> full[i].sep.len <= MAXKEYSIZE
    ensures 3 <= |full| && PutOk(psize, SplitBranch(psize, full, newindx), d, lo, hi, Cat(full))
  {
    var sz := KidSizes(full);
    forall i | 0 <= i < |sz| ensures sz[i] <= BARE_NODE + 512 { KidSizeBound(psize, full[i]); }
    BranchSplitCount(psize, sz, newindx);
    SplitBranchFull(psize, full, newindx);
    if SplitBranch(psize, full, newindx).Broke? {
      BranchHalvesOk(psize, full, SplitIndex(psize, sz, newindx, false), d, lo, hi);
    }
  }

  // mdb_node_add of a branch node at index j, or mdb_page_split without room.
  // Two branch nodes always fit a page.
  ghost function BranchPut(psize: PageSize, full: seq<Kid>, j: nat): Up
    requires j < |full|
  {
    if Sum(KidSizes(full)) <= PMax(psize) || |full| < 3 then Fit(Branch(full)) else SplitBranch(psize, full, j)
  }

  lemma {:induction false} KidKeySizes(psize: PageSize, kids: seq<Kid>, d: nat, lo: Bound, hi: Bound)
    requires 1 <= |kids| && KidsWF(psize, kids, d, lo, hi)
    ensures forall i :: 1 <= i < |kids| ==> kids[i].sep.len <= MAXKEYSIZE
  {
    if 2 <= |kids| {
      KidKeySizes(psize, kids[1..], d, Some(kids[1].sep.rank), hi);
      assert forall i :: 1 <= i < |kids| ==> kids[i] == kids[1..][i - 1];
    }
  }

  lemma BranchPutOk(psize: PageSize, full: seq<Kid>, j: nat, d: nat, lo: Bound, hi: Bound)
    requires j < |full| && 2 <= |full| && 2 <= d && full[0].sep.len == 0
    requires KidsWF(psize, full, d - 1, lo, hi)
    requires Sum(KidSizes(full)) - KidSize(full[j]) <= PMax(psize)
    ensures PutOk(psize, BranchPut(psize, full, j), d, lo, hi, Cat(full))
  {
    KidKeySizes(psize, full, d - 1, lo, hi);
    forall i | 0 <= i < |full| ensures BARE_NODE <= KidSizes(full)[i] <= PMax(psize) / 2 {
      KidSizeBound(psize, full[i]);
    }
    if Sum(KidSizes(full)) > PMax(psize) {
      SplitBranchOk(psize, full, j, d, lo, hi);
    }
  }

  lemma RemoveSizes(psize: PageSize, es: seq<Entry>, i: nat)
    requires i < |es|
    ensures Sum(EntrySizes(psize, es[..i] + es[i + 1..])) == Sum(EntrySizes(psize, es)) - EntrySize(psize, es[i])
  {
    var rest := es[..i] + es[i + 1..];
    assert Splice(rest, i, 0, es[i]) == es;
    SpliceSizes(psize, rest, i, es[i]);
  }

  lemma LeafPutInPlace(psize: PageSize, es: seq<Entry>, e: Entry, lo: Bound, hi: Bound)
    requires Sorted(es) && Within(es, lo, hi) && KeySizes(es)
    requires Hits(es, e) && InPlace(psize, es[LowerBound(es, e.key.rank)], e)
    ensures var i := LowerBound(es, e.key.rank); var es' := es[i := Entry(es[i].key, e.val)];
      es' == Upsert(psize, es, e) && EntrySizes(psize, es') == EntrySizes(psize, es)
  {
    var i := LowerBound(es, e.key.rank);
    var es' := es[i := Entry(es[i].key, e.val)];
    assert es' == es[..i] + [Entry(es[i].key, e.val)] + es[i + 1..];
    assert EntrySize(psize, es'[i]) == EntrySize(psize, es[i]);
  }

  // The other nodes of the page: what mdb_node_del leaves of an overwritten one.
  function OtherNodes(es: seq<Entry>, e: Entry): seq<Entry> {
    var i := LowerBound(es, e.key.rank);
    if Hits(es, e) then es[..i] + es[i + 1..] else es
  }

  lemma OtherNodesOk(psize: PageSize, es: seq<Entry>, e: Entry)
    requires Sorted(es) && KeySizes(es) && Sum(EntrySizes(psize, es)) <= PMax(psize)
    ensures var rest, i := OtherNodes(es, e), LowerBound(es, e.key.rank);
      && Sum(EntrySizes(psize, rest)) <= PMax(psize) && KeySizes(rest) && i <= |rest|
      && (LowerBound(es, e.key.rank) == |es| ==> rest == es)
  {
    if Hits(es, e) { RemoveSizes(psize, es, LowerBound(es, e.key.rank)); }
  }

  // mdb_cursor_put on the leaf page the descent ended on. `append` is
  // MDB_APPEND: the key is above every other.
  ghost function LeafPut(psize: PageSize, es: seq<Entry>, e: Entry, append: bool): Up
    requires Sorted(es) && KeySizes(es) && e.key.len <= MAXKEYSIZE
    requires Sum(EntrySizes(psize, es)) <= PMax(psize)
  {
    var i := LowerBound(es, e.key.rank);
    if Hits(es, e) && InPlace(psize, es[i], e) then
      Fit(Leaf(es[i := Entry(es[i].key, e.val)]))
    else
      OtherNodesOk(psize, es, e);
      LeafAdd(psize, OtherNodes(es, e), i, e, append)
  }

  // mdb_node_add at index i, or mdb_page_split without room.
  ghost function LeafAdd(psize: PageSize, rest: seq<Entry>, i: nat, e: Entry, append: bool): Up
    requires i <= |rest| && KeySizes(rest) && e.key.len <= MAXKEYSIZE
    requires Sum(EntrySizes(psize, rest)) <= PMax(psize)
  {
    if PMax(psize) - Sum(EntrySizes(psize, rest)) < EntrySize(psize, e) then
      LeafMustSplit(psize, rest, i, e);
      SplitLeaf(psize, Splice(rest, i, 0, e), i, append)
    else
      Fit(Leaf(Splice(rest, i, 0, e)))
  }

  // With MDB_APPEND a full page stays as it is, and the new node starts the next.
  lemma AppendKeepsPage(psize: PageSize, es: seq<Entry>, e: Entry)
    requires Sorted(es) && KeySizes(es) && e.key.len <= MAXKEYSIZE && LowerBound(es, e.key.rank) == |es|
    requires Sum(EntrySizes(psize, es)) <= PMax(psize)
    ensures LeafPut(psize, es, e, true) ==
      if Sum(EntrySizes(psize, es)) + EntrySize(psize, e) <= PMax(psize) then Fit(Leaf(es + [e]))
      else Broke(Leaf(es), e.key, Leaf([e]))
  {
    var full := es + [e];
    assert Splice(es, |es|, 0, e) == full && full[..|es|] == es && full[|es|..] == [e];
    if Sum(EntrySizes(psize, es)) + EntrySize(psize, e) > PMax(psize) {
      LeafMustSplit(psize, es, |es|, e);
      AppendFits(psize, EntrySizes(psize, full));
    }
  }

  lemma LeafAddOk(psize: PageSize, rest: seq<Entry>, i: nat, e: Entry, append: bool, lo: Bound, hi: Bound)
    requires i <= |rest| && KeySizes(rest) && e.key.len <= MAXKEYSIZE
    requires Sum(EntrySizes(psize, rest)) <= PMax(psize)
    requires append ==> i == |rest|
    requires var full := Splice(rest, i, 0, e); Sorted(full) && Within(full, lo, hi) && KeySizes(full)
    ensures PutOk(psize, LeafAdd(psize, rest, i, e, append), 1, lo, hi, Splice(rest, i, 0, e))
  {
    SpliceSizes(psize, rest, i, e);
    if PMax(psize) - Sum(EntrySizes(psize, rest)) < EntrySize(psize, e) {
      LeafMustSplit(psize, rest, i, e);
      SplitLeafOk(psize, Splice(rest, i, 0, e), i, append, lo, hi);
    }
  }

  lemma LeafPutOk(psize: PageSize, es: seq<Entry>, e: Entry, append: bool, lo: Bound, hi: Bound)
    requires Sorted(es) && Within(es, lo, hi) && KeySizes(es)
    requires Sum(EntrySizes(psize, es)) <= PMax(psize)
    requires AboveOrAt(lo, e.key.rank) && Below(e.key.rank, hi) && e.key.len <= MAXKEYSIZE
    requires append ==> LowerBound(es, e.key.rank) == |es|
    ensures PutOk(psize, LeafPut(psize, es, e, append), 1, lo, hi, Upsert(psize, es, e))
  {
    var i := LowerBound(es, e.key.rank);
    UpsertSorted(psize, es, e, lo, hi);
    if Hits(es, e) && InPlace(psize, es[i], e) {
      LeafPutInPlace(psize, es, e, lo, hi);
    } else {
      OtherNodesOk(psize, es, e);
      assert Splice(OtherNodes(es, e), i, 0, e) == Upsert(psize, es, e);
      LeafAddOk(psize, OtherNodes(es, e), i, e, append, lo, hi);
    }
  }

  // A branch page a + [k] + c takes in what became of its child k.
  ghost function Absorb(psize: PageSize, a: seq<Kid>, k: Kid, c: seq<Kid>, up: Up): Up
  {
    match up
    case Fit(t) => Fit(Branch(a + [Kid(k.sep, t)] + c))
    case Broke(left, sep, right) => BranchPut(psize, a + [Kid(k.sep, left), Kid(sep, right)] + c, |a| + 1)
    case Full(sz, newindx, leaf) => Full(sz, newindx, leaf)
  }

  lemma AbsorbOk(psize: PageSize, a: seq<Kid>, k: Kid, c: seq<Kid>, up: Up, d: nat, lo: Bound, hi: Bound, content: seq<Entry>)
    requires WF(psize, Branch(a + [k] + c), d, lo, hi, false)
    requires PutOk(psize, up, d - 1, LowOf(a, [k], lo), HighOf(c, hi), content)
    ensures PutOk(psize, Absorb(psize, a, k, c, up), d, lo, hi, Cat(a) + content + Cat(c))
  {
    match up
    case Fit(t) => ReplaceOne(psize, a, k, c, t, d, lo, hi);
    case Broke(left, sep, right) => ReplaceTwo(psize, a, k, c, left, sep, right, d, lo, hi);
    case Full(_, _, _) =>
  }

  lemma OneKid(psize: PageSize, x: Kid, d: nat, lo: Bound, hi: Bound)
    requires WF(psize, x.sub, d, lo, hi, false)
    ensures KidsWF(psize, [x], d, lo, hi) && Cat([x]) == Contents(x.sub)
  {
    CatOne(x);
  }

  lemma ReplaceOne(psize: PageSize, a: seq<Kid>, k: Kid, c: seq<Kid>, t: Tree, d: nat, lo: Bound, hi: Bound)
    requires WF(psize, Branch(a + [k] + c), d, lo, hi, false)
    requires WF(psize, t, d - 1, LowOf(a, [k], lo), HighOf(c, hi), false)
    ensures WF(psize, Branch(a + [Kid(k.sep, t)] + c), d, lo, hi, false)
    ensures Cat(a + [Kid(k.sep, t)] + c) == Cat(a) + Contents(t) + Cat(c)
  {
    var x := Kid(k.sep, t);
    OneKid(psize, x, d - 1, LowOf(a, [k], lo), HighOf(c, hi));
    Refocus(psize, a, [k], [x], c, d - 1, lo, hi);
    SameSeps(a, k, x, c);
  }

  lemma SameSeps(a: seq<Kid>, k: Kid, x: Kid, c: seq<Kid>)
    requires x.sep == k.sep
    ensures KidSizes(a + [x] + c) == KidSizes(a + [k] + c) && (a + [x] + c)[0].sep == (a + [k] + c)[0].sep
  {
  }

  lemma ReplaceTwo(psize: PageSize, a: seq<Kid>, k: Kid, c: seq<Kid>, left: Tree, sep: Key, right: Tree, d: nat, lo: Bound, hi: Bound)
    requires WF(psize, Branch(a + [k] + c), d, lo, hi, false)
    requires WF(psize, left, d - 1, LowOf(a, [k], lo), Some(sep.rank), false)
    requires WF(psize, right, d - 1, Some(sep.rank), HighOf(c, hi), false)
    requires Above(LowOf(a, [k], lo), sep.rank) && Below(sep.rank, HighOf(c, hi)) && sep.len <= MAXKEYSIZE
    ensures var full := a + [Kid(k.sep, left), Kid(sep, right)] + c;
      PutOk(psize, BranchPut(psize, full, |a| + 1), d, lo, hi, Cat(a) + (Contents(left) + Contents(right)) + Cat(c))
  {
    var x, y := Kid(k.sep, left), Kid(sep, right);
    TwoKids(psize, x, y, d - 1, LowOf(a, [k], lo), HighOf(c, hi));
    Refocus(psize, a, [k], [x, y], c, d - 1, lo, hi);
    PairSizes(a, k, x, y, c);
    assert (a + [x, y] + c)[0].sep == (a + [k] + c)[0].sep;
    BranchPutOk(psize, a + [x, y] + c, |a| + 1, d, lo, hi);
  }

  // mdb_put below page t: descend, store, and let each parent take in the
  // right sibling of a child that was split.
  ghost function PutIn(psize: PageSize, t: Tree, d: nat, lo: Bound, hi: Bound, e: Entry, append: bool): Up
    requires WF(psize, t, d, lo, hi, false)
    requires AboveOrAt(lo, e.key.rank) && Below(e.key.rank, hi) && e.key.len <= MAXKEYSIZE
    decreases d
  {
    match t
    case Leaf(es) => LeafPut(psize, es, e, append)
    case Branch(kids) =>
      var i := ChildIndex(kids, e.key.rank);
      var a, k, c := kids[..i], kids[i], kids[i + 1..];
      assert kids == a + [k] + c;
      ChildBounds(psize, a, k, c, d - 1, lo, hi, e);
      Absorb(psize, a, k, c, PutIn(psize, k.sub, d - 1, LowOf(a, [k], lo), HighOf(c, hi), e, append))
  }

  // The child k a descent follows, its bounds, and what lies on both sides.
  lemma ChildBounds(psize: PageSize, a: seq<Kid>, k: Kid, c: seq<Kid>, d: nat, lo: Bound, hi: Bound, e: Entry)
    requires KidsWF(psize, a + [k] + c, d, lo, hi)
    requires |a| == ChildIndex(a + [k] + c, e.key.rank)
    requires AboveOrAt(lo, e.key.rank) && Below(e.key.rank, hi)
    ensures WF(psize, k.sub, d, LowOf(a, [k], lo), HighOf(c, hi), false)
    ensures AboveOrAt(LowOf(a, [k], lo), e.key.rank) && Below(e.key.rank, HighOf(c, hi))
    ensures Cat(a + [k] + c) == Cat(a) + Contents(k.sub) + Cat(c)
    ensures Upsert(psize, Cat(a + [k] + c), e) == Cat(a) + Upsert(psize, Contents(k.sub), e) + Cat(c)
    ensures LowerBound(Cat(a + [k] + c), e.key.rank) == |Cat(a)| + LowerBound(Contents(k.sub), e.key.rank)
  {
    Focus(psize, a, [k], c, d, lo, hi);
    CatConcat(a + [k], c);
    CatConcat(a, [k]);
    CatOne(k);
    if a != [] { CatSorted(psize, a, d, lo, Some(k.sep.rank)); }
    if c != [] { CatSorted(psize, c, d, Some(c[0].sep.rank), hi); }
    UpsertMiddle(psize, Cat(a), Contents(k.sub), Cat(c), e);
    LowerBoundMiddle(Cat(a), Contents(k.sub), Cat(c), e.key.rank);
  }

  // What becomes of the child a put descends into.
  ghost function ChildUp(psize: PageSize, a: seq<Kid>, k: Kid, c: seq<Kid>, d: nat, lo: Bound, hi: Bound, e: Entry, append: bool): Up
    requires WF(psize, Branch(a + [k] + c), d, lo, hi, false) && |a| == ChildIndex(a + [k] + c, e.key.rank)
    requires AboveOrAt(lo, e.key.rank) && Below(e.key.rank, hi) && e.key.len <= MAXKEYSIZE
  {
    ChildBounds(psize, a, k, c, d - 1, lo, hi, e);
    PutIn(psize, k.sub, d - 1, LowOf(a, [k], lo), HighOf(c, hi), e, append)
  }

  lemma PutIsChildUp(psize: PageSize, a: seq<Kid>, k: Kid, c: seq<Kid>, d: nat, lo: Bound, hi: Bound, e: Entry, append: bool)
    requires WF(psize, Branch(a + [k] + c), d, lo, hi, false) && |a| == ChildIndex(a + [k] + c, e.key.rank)
    requires AboveOrAt(lo, e.key.rank) && Below(e.key.rank, hi) && e.key.len <= MAXKEYSIZE
    ensures PutIn(psize, Branch(a + [k] + c), d, lo, hi, e, append) == Absorb(psize, a, k, c, ChildUp(psize, a, k, c, d, lo, hi, e, append))
  {
    PutIsAbsorb(psize, Branch(a + [k] + c), a, k, c, d, lo, hi, e, append);
  }

  lemma {:induction false} PutInOk(psize: PageSize, t: Tree, d: nat, lo: Bound, hi: Bound, e: Entry, append: bool)
    requires WF(psize, t, d, lo, hi, false)
    requires AboveOrAt(lo, e.key.rank) && Below(e.key.rank, hi) && e.key.len <= MAXKEYSIZE
    requires append ==> LowerBound(Contents(t), e.key.rank) == |Contents(t)|
    ensures PutOk(psize, PutIn(psize, t, d, lo, hi, e, append), d, lo, hi, Upsert(psize, Contents(t), e))
    decreases d, 1
  {
    if t.Leaf? {
      LeafPutOk(psize, t.es, e, append, lo, hi);
    } else {
      var i := ChildIndex(t.kids, e.key.rank);
      assert t.kids == t.kids[..i] + [t.kids[i]] + t.kids[i + 1..];
      KidPutOk(psize, t.kids[..i], t.kids[i], t.kids[i + 1..], d, lo, hi, e, append);
    }
  }

  lemma KidPutOk(psize: PageSize, a: seq<Kid>, k: Kid, c: seq<Kid>, d: nat, lo: Bound, hi: Bound, e: Entry, append: bool)
    requires WF(psize, Branch(a + [k] + c), d, lo, hi, false) && |a| == ChildIndex(a + [k] + c, e.key.rank)
    requires AboveOrAt(lo, e.key.rank) && Below(e.key.rank, hi) && e.key.len <= MAXKEYSIZE
    requires append ==> LowerBound(Cat(a + [k] + c), e.key.rank) == |Cat(a + [k] + c)|
    ensures PutOk(psize, PutIn(psize, Branch(a + [k] + c), d, lo, hi, e, append), d, lo, hi, Upsert(psize, Cat(a + [k] + c), e))
    decreases d, 0
  {
    ChildBounds(psize, a, k, c, d - 1, lo, hi, e);
    PutInOk(psize, k.sub, d - 1, LowOf(a, [k], lo), HighOf(c, hi), e, append);
    ChildTakenIn(psize, Branch(a + [k] + c), a, k, c, d, lo, hi, e, append);
  }

  lemma ChildTakenIn(psize: PageSize, t: Tree, a: seq<Kid>, k: Kid, c: seq<Kid>, d: nat, lo: Bound, hi: Bound, e: Entry, append: bool)
    requires WF(psize, t, d, lo, hi, false) && t == Branch(a + [k] + c) && |a| == ChildIndex(t.kids, e.key.rank)
    requires AboveOrAt(lo, e.key.rank) && Below(e.key.rank, hi) && e.key.len <= MAXKEYSIZE
    requires var loi, hii := LowOf(a, [k], lo), HighOf(c, hi);
      WF(psize, k.sub, d - 1, loi, hii, false) && AboveOrAt(loi, e.key.rank) && Below(e.key.rank, hii) &&
      PutOk(psize, PutIn(psize, k.sub, d - 1, loi, hii, e, append), d - 1, loi, hii, Upsert(psize, Contents(k.sub), e))
    ensures PutOk(psize, PutIn(psize, t, d, lo, hi, e, append), d, lo, hi, Upsert(psize, Contents(t), e))
  {
    var up := PutIn(psize, k.sub, d - 1, LowOf(a, [k], lo), HighOf(c, hi), e, append);
    PutIsAbsorb(psize, t, a, k, c, d, lo, hi, e, append);
    ChildBounds(psize, a, k, c, d - 1, lo, hi, e);
    AbsorbOk(psize, a, k, c, up, d, lo, hi, Upsert(psize, Contents(k.sub), e));
  }

  // --- When an insertion fails ------------------------------------------

  // The new node does not fit the leaf, and the leaf cannot be split for it.
  ghost predicate LeafStuck(psize: PageSize, es: seq<Entry>, e: Entry, append: bool)
    requires Sorted(es) && KeySizes(es) && e.key.len <= MAXKEYSIZE && Sum(EntrySizes(psize, es)) <= PMax(psize)
  {
    var i := LowerBound(es, e.key.rank);
    && !(Hits(es, e) && InPlace(psize, es[i], e))
    && (OtherNodesOk(psize, es, e);
        var rest := OtherNodes(es, e);
        && PMax(psize) - Sum(EntrySizes(psize, rest)) < EntrySize(psize, e)
        && (LeafMustSplit(psize, rest, i, e);
            !append && !SplitFits(psize, EntrySizes(psize, Splice(rest, i, 0, e)), i, true)))
  }

  // The same for a branch page that is to hold the nodes `full`.
  ghost predicate BranchStuck(psize: PageSize, full: seq<Kid>, j: nat)
    requires j < |full|
  {
    Sum(KidSizes(full)) > PMax(psize) && 3 <= |full| && !SplitFits(psize, KidSizes(full), j, false)
  }

  // Some page on the way back up is stuck.
  ghost predicate PutStuck(psize: PageSize, t: Tree, d: nat, lo: Bound, hi: Bound, e: Entry, append: bool)
    requires WF(psize, t, d, lo, hi, false)
    requires AboveOrAt(lo, e.key.rank) && Below(e.key.rank, hi) && e.key.len <= MAXKEYSIZE
    decreases d, 2
  {
    match t
    case Leaf(es) => LeafStuck(psize, es, e, append)
    case Branch(kids) =>
      var i := ChildIndex(kids, e.key.rank);
      assert kids == kids[..i] + [kids[i]] + kids[i + 1..];
      KidPutStuck(psize, kids[..i], kids[i], kids[i + 1..], d, lo, hi, e, append)
  }

  ghost predicate KidPutStuck(psize: PageSize, a: seq<Kid>, k: Kid, c: seq<Kid>, d: nat, lo: Bound, hi: Bound, e: Entry, append: bool)
    requires WF(psize, Branch(a + [k] + c), d, lo, hi, false) && |a| == ChildIndex(a + [k] + c, e.key.rank)
    requires AboveOrAt(lo, e.key.rank) && Below(e.key.rank, hi) && e.key.len <= MAXKEYSIZE
    decreases d, 1
  {
    ChildPutStuck(psize, a, k, c, d, lo, hi, e, append) || AbsorbStuck(psize, a, k, c, ChildUp(psize, a, k, c, d, lo, hi, e, append))
  }

  ghost predicate ChildPutStuck(psize: PageSize, a: seq<Kid>, k: Kid, c: seq<Kid>, d: nat, lo: Bound, hi: Bound, e: Entry, append: bool)
    requires WF(psize, Branch(a + [k] + c), d, lo, hi, false) && |a| == ChildIndex(a + [k] + c, e.key.rank)
    requires AboveOrAt(lo, e.key.rank) && Below(e.key.rank, hi) && e.key.len <= MAXKEYSIZE
    decreases d, 0
  {
    ChildBounds(psize, a, k, c, d - 1, lo, hi, e);
    PutStuck(psize, k.sub, d - 1, LowOf(a, [k], lo), HighOf(c, hi), e, append)
  }

  // The parent of a split page is stuck.
  ghost predicate AbsorbStuck(psize: PageSize, a: seq<Kid>, k: Kid, c: seq<Kid>, up: Up) {
    up.Broke? && BranchStuck(psize, a + [Kid(k.sep, up.left), Kid(up.sep, up.right)] + c, |a| + 1)
  }

  lemma LeafFullIff(psize: PageSize, es: seq<Entry>, e: Entry, append: bool)
    requires Sorted(es) && KeySizes(es) && e.key.len <= MAXKEYSIZE && Sum(EntrySizes(psize, es)) <= PMax(psize)
    requires append ==> LowerBound(es, e.key.rank) == |es|
    ensures LeafPut(psize, es, e, append).Full? <==> LeafStuck(psize, es, e, append)
  {
    var i := LowerBound(es, e.key.rank);
    if !(Hits(es, e) && InPlace(psize, es[i], e)) {
      OtherNodesOk(psize, es, e);
      var rest := OtherNodes(es, e);
      if PMax(psize) - Sum(EntrySizes(psize, rest)) < EntrySize(psize, e) {
        LeafMustSplit(psize, rest, i, e);
        SplitLeafFull(psize, Splice(rest, i, 0, e), i, append);
      }
    }
  }

  lemma BranchFullIff(psize: PageSize, full: seq<Kid>, j: nat, d: nat, lo: Bound, hi: Bound)
    requires j < |full| && 2 <= |full| && 2 <= d && full[0].sep.len == 0 && KidsWF(psize, full, d - 1, lo, hi)
    requires Sum(KidSizes(full)) - KidSize(full[j]) <= PMax(psize)
    ensures BranchPut(psize, full, j).Full? <==> BranchStuck(psize, full, j)
  {
    if Sum(KidSizes(full)) > PMax(psize) && 3 <= |full| {
      KidKeySizes(psize, full, d - 1, lo, hi);
      forall i | 0 <= i < |full| ensures BARE_NODE <= KidSizes(full)[i] <= PMax(psize) / 2 {
        KidSizeBound(psize, full[i]);
      }
      SplitBranchFull(psize, full, j);
    }
  }

  lemma AbsorbFullIff(psize: PageSize, a: seq<Kid>, k: Kid, c: seq<Kid>, up: Up, d: nat, lo: Bound, hi: Bound, content: seq<Entry>)
    requires WF(psize, Branch(a + [k] + c), d, lo, hi, false)
    requires PutOk(psize, up, d - 1, LowOf(a, [k], lo), HighOf(c, hi), content)
    ensures Absorb(psize, a, k, c, up).Full? <==> up.Full? || AbsorbStuck(psize, a, k, c, up)
  {
    if up.Broke? {
      var x, y := Kid(k.sep, up.left), Kid(up.sep, up.right);
      TwoKids(psize, x, y, d - 1, LowOf(a, [k], lo), HighOf(c, hi));
      Refocus(psize, a, [k], [x, y], c, d - 1, lo, hi);
      PairSizes(a, k, x, y, c);
      assert (a + [x, y] + c)[0].sep == (a + [k] + c)[0].sep;
      BranchFullIff(psize, a + [x, y] + c, |a| + 1, d, lo, hi);
    }
  }

  // An insertion fails exactly when some page is stuck.
  lemma {:induction false} PutFullIff(psize: PageSize, t: Tree, d: nat, lo: Bound, hi: Bound, e: Entry, append: bool)
    requires WF(psize, t, d, lo, hi, false)
    requires AboveOrAt(lo, e.key.rank) && Below(e.key.rank, hi) && e.key.len <= MAXKEYSIZE
    requires append ==> LowerBound(Contents(t), e.key.rank) == |Contents(t)|
    ensures PutIn(psize, t, d, lo, hi, e, append).Full? <==> PutStuck(psize, t, d, lo, hi, e, append)
    decreases d, 2
  {
    if t.Leaf? {
      LeafFullIff(psize, t.es, e, append);
    } else {
      var i := ChildIndex(t.kids, e.key.rank);
      assert t.kids == t.kids[..i] + [t.kids[i]] + t.kids[i + 1..];
      KidPutFullIff(psize, t.kids[..i], t.kids[i], t.kids[i + 1..], d, lo, hi, e, append);
    }
  }

  lemma KidPutFullIff(psize: PageSize, a: seq<Kid>, k: Kid, c: seq<Kid>, d: nat, lo: Bound, hi: Bound, e: Entry, append: bool)
    requires WF(psize, Branch(a + [k] + c), d, lo, hi, false) && |a| == ChildIndex(a + [k] + c, e.key.rank)
    requires AboveOrAt(lo, e.key.rank) && Below(e.key.rank, hi) && e.key.len <= MAXKEYSIZE
    requires append ==> LowerBound(Cat(a + [k] + c), e.key.rank) == |Cat(a + [k] + c)|
    ensures PutIn(psize, Branch(a + [k] + c), d, lo, hi, e, append).Full? <==>
            KidPutStuck(psize, a, k, c, d, lo, hi, e, append)
    decreases d, 1
  {
    PutIsChildUp(psize, a, k, c, d, lo, hi, e, append);
    ChildPutFullIff(psize, a, k, c, d, lo, hi, e, append);
    AbsorbChildFull(psize, a, k, c, d, lo, hi, e, append);
  }

  lemma ChildPutFullIff(psize: PageSize, a: seq<Kid>, k: Kid, c: seq<Kid>, d: nat, lo: Bound, hi: Bound, e: Entry, append: bool)
    requires WF(psize, Branch(a + [k] + c), d, lo, hi, false) && |a| == ChildIndex(a + [k] + c, e.key.rank)
    requires AboveOrAt(lo, e.key.rank) && Below(e.key.rank, hi) && e.key.len <= MAXKEYSIZE
    requires append ==> LowerBound(Cat(a + [k] + c), e.key.rank) == |Cat(a + [k] + c)|
    ensures ChildUp(psize, a, k, c, d, lo, hi, e, append).Full? <==> ChildPutStuck(psize, a, k, c, d, lo, hi, e, append)
    decreases d, 0
  {
    ChildBounds(psize, a, k, c, d - 1, lo, hi, e);
    ChildNotLast(psize, a, k, c, d - 1, lo, hi, e, append);
    PutFullIff(psize, k.sub, d - 1, LowOf(a, [k], lo), HighOf(c, hi), e, append);
  }

  lemma AbsorbChildFull(psize: PageSize, a: seq<Kid>, k: Kid, c: seq<Kid>, d: nat, lo: Bound, hi: Bound, e: Entry, append: bool)
    requires WF(psize, Branch(a + [k] + c), d, lo, hi, false) && |a| == ChildIndex(a + [k] + c, e.key.rank)
    requires AboveOrAt(lo, e.key.rank) && Below(e.key.rank, hi) && e.key.len <= MAXKEYSIZE
    requires append ==> LowerBound(Cat(a + [k] + c), e.key.rank) == |Cat(a + [k] + c)|
    ensures var up := ChildUp(psize, a, k, c, d, lo, hi, e, append);
      Absorb(psize, a, k, c, up).Full? <==> up.Full? || AbsorbStuck(psize, a, k, c, up)
  {
    ChildPutOk(psize, a, k, c, d, lo, hi, e, append);
    AbsorbFullIff(psize, a, k, c, ChildUp(psize, a, k, c, d, lo, hi, e, append), d, lo, hi, Upsert(psize, Contents(k.sub), e));
  }

  // What becomes of the child is well formed between its bounds.
  lemma ChildPutOk(psize: PageSize, a: seq<Kid>, k: Kid, c: seq<Kid>, d: nat, lo: Bound, hi: Bound, e: Entry, append: bool)
    requires WF(psize, Branch(a + [k] + c), d, lo, hi, false) && |a| == ChildIndex(a + [k] + c, e.key.rank)
    requires AboveOrAt(lo, e.key.rank) && Below(e.key.rank, hi) && e.key.len <= MAXKEYSIZE
    requires append ==> LowerBound(Cat(a + [k] + c), e.key.rank) == |Cat(a + [k] + c)|
    ensures PutOk(psize, ChildUp(psize, a, k, c, d, lo, hi, e, append), d - 1, LowOf(a, [k], lo), HighOf(c, hi),
                  Upsert(psize, Contents(k.sub), e))
  {
    ChildBounds(psize, a, k, c, d - 1, lo, hi, e);
    ChildNotLast(psize, a, k, c, d - 1, lo, hi, e, append);
    PutInOk(psize, k.sub, d - 1, LowOf(a, [k], lo), HighOf(c, hi), e, append);
  }

  lemma ChildNotLast(psize: PageSize, a: seq<Kid>, k: Kid, c: seq<Kid>, d: nat, lo: Bound, hi: Bound, e: Entry, append: bool)
    requires KidsWF(psize, a + [k] + c, d, lo, hi) && |a| == ChildIndex(a + [k] + c, e.key.rank)
    requires AboveOrAt(lo, e.key.rank) && Below(e.key.rank, hi)
    requires append ==> LowerBound(Cat(a + [k] + c), e.key.rank) == |Cat(a + [k] + c)|
    ensures append ==> LowerBound(Contents(k.sub), e.key.rank) == |Contents(k.sub)|
  {
    ChildBounds(psize, a, k, c, d, lo, hi, e);
  }

  lemma PutIsAbsorb(psize: PageSize, t: Tree, a: seq<Kid>, k: Kid, c: seq<Kid>, d: nat, lo: Bound, hi: Bound, e: Entry,
                    append: bool)
    requires WF(psize, t, d, lo, hi, false) && t == Branch(a + [k] + c) && |a| == ChildIndex(t.kids, e.key.rank)
    requires AboveOrAt(lo, e.key.rank) && Below(e.key.rank, hi) && e.key.len <= MAXKEYSIZE
    ensures var loi, hii := LowOf(a, [k], lo), HighOf(c, hi);
      0 < d && WF(psize, k.sub, d - 1, loi, hii, false) && AboveOrAt(loi, e.key.rank) && Below(e.key.rank, hii) &&
      PutIn(psize, t, d, lo, hi, e, append) == Absorb(psize, a, k, c, PutIn(psize, k.sub, d - 1, loi, hii, e, append))
  {
    ChildBounds(psize, a, k, c, d - 1, lo, hi, e);
    assert t.kids[..|a|] == a && t.kids[|a|] == k && t.kids[|a| + 1..] == c;
  }

  // --- When an insertion splits a page ----------------------------------

  // The new node does not fit the leaf, and the leaf is split for it.
  ghost predicate LeafBreaks(psize: PageSize, es: seq<Entry>, e: Entry, append: bool)
    requires Sorted(es) && KeySizes(es) && e.key.len <= MAXKEYSIZE && Sum(EntrySizes(psize, es)) <= PMax(psize)
  {
    var i := LowerBound(es, e.key.rank);
    && !(Hits(es, e) && InPlace(psize, es[i], e))
    && (OtherNodesOk(psize, es, e);
        var rest := OtherNodes(es, e);
        && PMax(psize) - Sum(EntrySizes(psize, rest)) < EntrySize(psize, e)
        && (LeafMustSplit(psize, rest, i, e);
            append || SplitFits(psize, EntrySizes(psize, Splice(rest, i, 0, e)), i, true)))
  }

  // The same for a branch page that is to hold the nodes `full`.
  ghost predicate BranchBreaks(psize: PageSize, full: seq<Kid>, j: nat)
    requires j < |full|
  {
    Sum(KidSizes(full)) > PMax(psize) && 3 <= |full| && SplitFits(psize, KidSizes(full), j, false)
  }

  // A split child makes the parent split as well.
  ghost predicate AbsorbBreaks(psize: PageSize, a: seq<Kid>, k: Kid, c: seq<Kid>, up: Up) {
    up.Broke? && BranchBreaks(psize, a + [Kid(k.sep, up.left), Kid(up.sep, up.right)] + c, |a| + 1)
  }

  // Every page from the leaf up to this one has to be split, and can be.
  ghost predicate PutBreaks(psize: PageSize, t: Tree, d: nat, lo: Bound, hi: Bound, e: Entry, append: bool)
    requires WF(psize, t, d, lo, hi, false)
    requires AboveOrAt(lo, e.key.rank) && Below(e.key.rank, hi) && e.key.len <= MAXKEYSIZE
    decreases d, 2
  {
    match t
    case Leaf(es) => LeafBreaks(psize, es, e, append)
    case Branch(kids) =>
      var i := ChildIndex(kids, e.key.rank);
      assert kids == kids[..i] + [kids[i]] + kids[i + 1..];
      KidPutBreaks(psize, kids[..i], kids[i], kids[i + 1..], d, lo, hi, e, append)
  }

  ghost predicate KidPutBreaks(psize: PageSize, a: seq<Kid>, k: Kid, c: seq<Kid>, d: nat, lo: Bound, hi: Bound, e: Entry, append: bool)
    requires WF(psize, Branch(a + [k] + c), d, lo, hi, false) && |a| == ChildIndex(a + [k] + c, e.key.rank)
    requires AboveOrAt(lo, e.key.rank) && Below(e.key.rank, hi) && e.key.len <= MAXKEYSIZE
    decreases d, 1
  {
    ChildPutBreaks(psize, a, k, c, d, lo, hi, e, append) && AbsorbBreaks(psize, a, k, c, ChildUp(psize, a, k, c, d, lo, hi, e, append))
  }

  ghost predicate ChildPutBreaks(psize: PageSize, a: seq<Kid>, k: Kid, c: seq<Kid>, d: nat, lo: Bound, hi: Bound, e: Entry, append: bool)
    requires WF(psize, Branch(a + [k] + c), d, lo, hi, false) && |a| == ChildIndex(a + [k] + c, e.key.rank)
    requires AboveOrAt(lo, e.key.rank) && Below(e.key.rank, hi) && e.key.len <= MAXKEYSIZE
    decreases d, 0
  {
    ChildBounds(psize, a, k, c, d - 1, lo, hi, e);
    PutBreaks(psize, k.sub, d - 1, LowOf(a, [k], lo), HighOf(c, hi), e, append)
  }

  lemma LeafBreaksIff(psize: PageSize, es: seq<Entry>, e: Entry, append: bool)
    requires Sorted(es) && KeySizes(es) && e.key.len <= MAXKEYSIZE && Sum(EntrySizes(psize, es)) <= PMax(psize)
    requires append ==> LowerBound(es, e.key.rank) == |es|
    ensures LeafPut(psize, es, e, append).Broke? <==> LeafBreaks(psize, es, e, append)
  {
    LeafFullIff(psize, es, e, append);
    LeafNoFit(psize, es, e, append);
  }

  // A leaf is left whole exactly when the node fits.
  lemma LeafNoFit(psize: PageSize, es: seq<Entry>, e: Entry, append: bool)
    requires Sorted(es) && KeySizes(es) && e.key.len <= MAXKEYSIZE && Sum(EntrySizes(psize, es)) <= PMax(psize)
    ensures LeafPut(psize, es, e, append).Fit? <==>
      (Hits(es, e) && InPlace(psize, es[LowerBound(es, e.key.rank)], e)) ||
      EntrySize(psize, e) <= PMax(psize) - Sum(EntrySizes(psize, OtherNodes(es, e)))
  {
  }

  lemma BranchBreaksIff(psize: PageSize, full: seq<Kid>, j: nat)
    requires j < |full| && (BranchPut(psize, full, j).Full? <==> BranchStuck(psize, full, j))
    ensures BranchPut(psize, full, j).Broke? <==> BranchBreaks(psize, full, j)
  {
  }

  lemma AbsorbBreaksIff(psize: PageSize, a: seq<Kid>, k: Kid, c: seq<Kid>, up: Up)
    requires Absorb(psize, a, k, c, up).Full? <==> up.Full? || AbsorbStuck(psize, a, k, c, up)
    ensures Absorb(psize, a, k, c, up).Broke? <==> AbsorbBreaks(psize, a, k, c, up)
  {
    if up.Broke? { BranchBreaksIff(psize, a + [Kid(k.sep, up.left), Kid(up.sep, up.right)] + c, |a| + 1); }
  }

  // An insertion splits a page exactly when the sizes on the way say so.
  lemma {:induction false} PutBreaksIff(psize: PageSize, t: Tree, d: nat, lo: Bound, hi: Bound, e: Entry, append: bool)
    requires WF(psize, t, d, lo, hi, false)
    requires AboveOrAt(lo, e.key.rank) && Below(e.key.rank, hi) && e.key.len <= MAXKEYSIZE
    requires append ==> LowerBound(Contents(t), e.key.rank) == |Contents(t)|
    ensures PutIn(psize, t, d, lo, hi, e, append).Broke? <==> PutBreaks(psize, t, d, lo, hi, e, append)
    decreases d, 2
  {
    if t.Leaf? {
      LeafBreaksIff(psize, t.es, e, append);
    } else {
      var i := ChildIndex(t.kids, e.key.rank);
      assert t.kids == t.kids[..i] + [t.kids[i]] + t.kids[i + 1..];
      KidPutBreaksIff(psize, t.kids[..i], t.kids[i], t.kids[i + 1..], d, lo, hi, e, append);
    }
  }

  lemma KidPutBreaksIff(psize: PageSize, a: seq<Kid>, k: Kid, c: seq<Kid>, d: nat, lo: Bound, hi: Bound, e: Entry, append: bool)
    requires WF(psize, Branch(a + [k] + c), d, lo, hi, false) && |a| == ChildIndex(a + [k] + c, e.key.rank)
    requires AboveOrAt(lo, e.key.rank) && Below(e.key.rank, hi) && e.key.len <= MAXKEYSIZE
    requires append ==> LowerBound(Cat(a + [k] + c), e.key.rank) == |Cat(a + [k] + c)|
    ensures PutIn(psize, Branch(a + [k] + c), d, lo, hi, e, append).Broke? <==>
            KidPutBreaks(psize, a, k, c, d, lo, hi, e, append)
    decreases d, 1
  {
    PutIsChildUp(psize, a, k, c, d, lo, hi, e, append);
    ChildPutBreaksIff(psize, a, k, c, d, lo, hi, e, append);
    AbsorbChildBroke(psize, a, k, c, d, lo, hi, e, append);
  }

  lemma ChildPutBreaksIff(psize: PageSize, a: seq<Kid>, k: Kid, c: seq<Kid>, d: nat, lo: Bound, hi: Bound, e: Entry, append: bool)
    requires WF(psize, Branch(a + [k] + c), d, lo, hi, false) && |a| == ChildIndex(a + [k] + c, e.key.rank)
    requires AboveOrAt(lo, e.key.rank) && Below(e.key.rank, hi) && e.key.len <= MAXKEYSIZE
    requires append ==> LowerBound(Cat(a + [k] + c), e.key.rank) == |Cat(a + [k] + c)|
    ensures ChildUp(psize, a, k, c, d, lo, hi, e, append).Broke? <==> ChildPutBreaks(psize, a, k, c, d, lo, hi, e, append)
    decreases d, 0
  {
    ChildBounds(psize, a, k, c, d - 1, lo, hi, e);
    ChildNotLast(psize, a, k, c, d - 1, lo, hi, e, append);
    PutBreaksIff(psize, k.sub, d - 1, LowOf(a, [k], lo), HighOf(c, hi), e, append);
  }

  lemma AbsorbChildBroke(psize: PageSize, a: seq<Kid>, k: Kid, c: seq<Kid>, d: nat, lo: Bound, hi: Bound, e: Entry, append: bool)
    requires WF(psize, Branch(a + [k] + c), d, lo, hi, false) && |a| == ChildIndex(a + [k] + c, e.key.rank)
    requires AboveOrAt(lo, e.key.rank) && Below(e.key.rank, hi) && e.key.len <= MAXKEYSIZE
    requires append ==> LowerBound(Cat(a + [k] + c), e.key.rank) == |Cat(a + [k] + c)|
    ensures var up := ChildUp(psize, a, k, c, d, lo, hi, e, append);
      Absorb(psize, a, k, c, up).Broke? <==> AbsorbBreaks(psize, a, k, c, up)
  {
    AbsorbChildFull(psize, a, k, c, d, lo, hi, e, append);
    AbsorbBreaksIff(psize, a, k, c, ChildUp(psize, a, k, c, d, lo, hi, e, append));
  }

  // --- mdb_put ----------------------------------------------------------

  datatype PutResult = Put(db: Db) | PageFull(sz: seq<nat>, newindx: nat, leaf: bool)

  // The root page takes in what became of it; a split root gets a new parent.
  ghost function AtRoot(up: Up, depth: nat): PutResult {
    match up
    case Fit(t) => Put(Root(t, depth))
    case Broke(left, sep, right) => Put(Root(Branch([Kid(NullKey, left), Kid(sep, right)]), depth + 1))
    case Full(sz, newindx, leaf) => PageFull(sz, newindx, leaf)
  }

  ghost predicate ResultOk(psize: PageSize, r: PutResult, items: seq<Entry>) {
    match r
    case Put(db) => ValidDb(psize, db) && Items(db) == items
    case PageFull(sz, newindx, leaf) => FailsAtMidpoint(psize, sz, newindx, leaf)
  }

  lemma NewRoot(psize: PageSize, left: Tree, sep: Key, right: Tree, d: nat)
    requires WF(psize, left, d, None, Some(sep.rank), false) && WF(psize, right, d, Some(sep.rank), None, false)
    requires sep.len <= MAXKEYSIZE && 1 <= d
    ensures WF(psize, Branch([Kid(NullKey, left), Kid(sep, right)]), d + 1, None, None, false)
    ensures Cat([Kid(NullKey, left), Kid(sep, right)]) == Contents(left) + Contents(right)
  {
    var x, y := Kid(NullKey, left), Kid(sep, right);
    TwoKids(psize, x, y, d, None, None);
    PairSizes([], x, x, y, []);
    assert [] + [x, y] + [] == [x, y] && [] + [x] + [] == [x];
    OneKidSize(x);
    KidSizeBound(psize, y);
  }

  lemma AtRootOk(psize: PageSize, up: Up, d: nat, items: seq<Entry>)
    requires PutOk(psize, up, d, None, None, items) && 1 <= d
    ensures ResultOk(psize, AtRoot(up, d), items)
  {
    match up
    case Broke(left, sep, right) => NewRoot(psize, left, sep, right, d);
    case _ =>
  }

  ghost function DbPut(psize: PageSize, db: Db, e: Entry, append: bool): PutResult
    requires ValidDb(psize, db) && e.key.len <= MAXKEYSIZE
  {
    if db.Empty? then Put(Root(Leaf([e]), 1))
    else AtRoot(PutIn(psize, db.tree, db.depth, None, None, e, append), db.depth)
  }

  // Depth of a database; an empty one has md_depth 0.
  function DepthOf(db: Db): nat {
    if db.Empty? then 0 else db.depth
  }

  // Storing an entry keeps the tree well formed, through leaf splits,
  // recursive parent splits and a new root; it fails exactly when a page on
  // the way is stuck. The depth grows by one when there was no root page, or
  // every page from the leaf up to the root has to be split.
  lemma PutCorrect(psize: PageSize, db: Db, e: Entry, append: bool)
    requires ValidDb(psize, db) && e.key.len <= MAXKEYSIZE
    requires append ==> LowerBound(Items(db), e.key.rank) == |Items(db)|
    ensures var r := DbPut(psize, db, e, append);
      && ResultOk(psize, r, Upsert(psize, Items(db), e))
      && (r.PageFull? <==> db.Root? && PutStuck(psize, db.tree, db.depth, None, None, e, append))
      && (r.Put? ==>
           DepthOf(r.db) == DepthOf(db) +
             if db.Empty? || PutBreaks(psize, db.tree, db.depth, None, None, e, append) then 1 else 0)
  {
    if db.Empty? {
      OneEntrySize(psize, e);
      EntrySizeBound(psize, e);
    } else {
      PutInOk(psize, db.tree, db.depth, None, None, e, append);
      PutFullIff(psize, db.tree, db.depth, None, None, e, append);
      PutBreaksIff(psize, db.tree, db.depth, None, None, e, append);
      AtRootOk(psize, PutIn(psize, db.tree, db.depth, None, None, e, append), db.depth, Upsert(psize, Items(db), e));
    }
  }

  // A put that fails leaves a page of many nodes that was to take a small one
  // before its last.
  lemma PutFullCrowded(psize: PageSize, db: Db, e: Entry, append: bool)
    requires ValidDb(psize, db) && e.key.len <= MAXKEYSIZE
    requires append ==> LowerBound(Items(db), e.key.rank) == |Items(db)|
    ensures match DbPut(psize, db, e, append)
      case Put(_) => true
      case PageFull(sz, newindx, _) => newindx < |sz| - 1 && psize / 128 <= |sz| - 1 && sz[newindx] <= PMax(psize) / 16
  {
    PutCorrect(psize, db, e, append);
  }

  // The map a database stands for changes at the stored key only.
  lemma PutMeaning(psize: PageSize, db: Db, e: Entry, append: bool)
    requires ValidDb(psize, db) && e.key.len <= MAXKEYSIZE
    requires append ==> LowerBound(Items(db), e.key.rank) == |Items(db)|
    ensures var r := DbPut(psize, db, e, append);
      r.Put? ==>
        var before, after := ToMap(Items(db)), ToMap(Items(r.db));
        && after.Keys == before.Keys + {e.key.rank} && after[e.key.rank].val == e.val
        && forall k :: k in before && k != e.key.rank ==> after[k] == before[k]
  {
    PutCorrect(psize, db, e, append);
    if db.Root? { ContentsSorted(psize, db.tree, db.depth, None, None, false); }
    UpsertMeaning(psize, Items(db), e);
  }

  lemma TwoKids(psize: PageSize, x: Kid, y: Kid, d: nat, lo: Bound, hi: Bound)
    requires Above(lo, y.sep.rank) && Below(y.sep.rank, hi) && y.sep.len <= MAXKEYSIZE
    requires WF(psize, x.sub, d, lo, Some(y.sep.rank), false) && WF(psize, y.sub, d, Some(y.sep.rank), hi, false)
    ensures KidsWF(psize, [x, y], d, lo, hi) && Cat([x, y]) == Contents(x.sub) + Contents(y.sub)
  {
    assert [x, y][1..] == [y];
    CatOne(y);
  }

  // Page bytes when one child is followed by a new sibling.
  lemma PairSizes(a: seq<Kid>, was: Kid, x: Kid, y: Kid, c: seq<Kid>)
    requires x.sep == was.sep
    ensures Sum(KidSizes(a + [x, y] + c)) == Sum(KidSizes(a + [was] + c)) + KidSize(y)
    ensures (a + [x, y] + c)[|a| + 1] == y
  {
    KidSizesConcat(a + [x, y], c);
    KidSizesConcat(a, [x, y]);
    KidSizesConcat(a + [was], c);
    KidSizesConcat(a, [was]);
    assert [x, y] == [x] + [y];
    KidSizesConcat([x], [y]);
    OneKidSize(x);
    OneKidSize(y);
    OneKidSize(was);
  }
}
