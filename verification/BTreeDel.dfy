// Deleting a key and rebalancing (liblmdb/src/mdb.c): mdb_cursor_del0,
// mdb_rebalance, mdb_node_move, mdb_page_merge, mdb_update_key.

module BTreeDel {
  import opened PageFormat
  import opened BTree
  import opened SplitPoint
  import opened BTreePut

  // --- Thresholds -------------------------------------------------------

  const FILL_THRESHOLD: nat := 250

  // PAGEFILL, in tenths of a percent.
  function PageFill(psize: PageSize, t: Tree): int { 1000 * Used(psize, t) / PMax(psize) }

  function Thresh(t: Tree): nat { if t.Branch? then 1 else FILL_THRESHOLD }

  function MinKeys(t: Tree): nat { if t.Branch? then 2 else 1 }

  lemma DivLess(n: nat, p: nat, k: nat)
    requires 0 < p
    ensures n / p < k <==> n < k * p
  {
    var q, r := n / p, n % p;
    assert n == q * p + r;
    if q < k {
      assert (q + 1) * p <= k * p;
    } else {
      assert k * p <= q * p;
    }
  }

  predicate Underfull(psize: PageSize, t: Tree) {
    PageFill(psize, t) < Thresh(t) || NumKeys(t) < MinKeys(t)
  }

  // The neighbour can spare a node; otherwise the two pages are merged.
  predicate CanSpare(psize: PageSize, t: Tree) {
    PageFill(psize, t) >= Thresh(t) && NumKeys(t) > MinKeys(t)
  }

  // The same in bytes: a leaf less than a quarter full, a branch page less than
  // a thousandth full, or with a single child.
  predicate Thin(psize: PageSize, t: Tree) {
    match t
    case Leaf(es) => 4 * Sum(EntrySizes(psize, es)) < psize - PAGEHDRSZ || es == []
    case Branch(kids) => 1000 * Sum(KidSizes(kids)) < psize - PAGEHDRSZ || |kids| < 2
  }

  // At least a quarter or a thousandth full, with a node to give away.
  predicate Spares(psize: PageSize, t: Tree) {
    match t
    case Leaf(es) => 4 * Sum(EntrySizes(psize, es)) >= psize - PAGEHDRSZ && 2 <= |es|
    case Branch(kids) => 1000 * Sum(KidSizes(kids)) >= psize - PAGEHDRSZ && 3 <= |kids|
  }

  lemma FillIsBytes(psize: PageSize, t: Tree)
    ensures Underfull(psize, t) <==> Thin(psize, t)
    ensures CanSpare(psize, t) <==> Spares(psize, t)
  {
    DivLess(1000 * Used(psize, t), PMax(psize), Thresh(t));
  }

  // mdb_page_search_lowest: the first key of the leftmost leaf.
  function Lowest(t: Tree): Key {
    match t
    case Leaf(es) => if es == [] then NullKey else es[0].key
    case Branch(kids) => if kids == [] then NullKey else Lowest(kids[0].sub)
  }

  lemma {:induction false} LowestIsFirst(psize: PageSize, t: Tree, d: nat, lo: Bound, hi: Bound)
    requires WF(psize, t, d, lo, hi, false)
    ensures 1 <= |Contents(t)| && Lowest(t) == Contents(t)[0].key && Lowest(t).len <= MAXKEYSIZE
    ensures AboveOrAt(lo, Lowest(t).rank) && Below(Lowest(t).rank, hi)
    decreases d
  {
    ContentsSorted(psize, t, d, lo, hi, false);
    if t.Branch? {
      var kids := t.kids;
      LowestIsFirst(psize, kids[0].sub, d - 1, lo, if |kids| == 1 then hi else Some(kids[1].sep.rank));
    }
  }

  // Children that become inner nodes of their page need a real key.
  function WithKey(kids: seq<Kid>): seq<Kid>
    requires 1 <= |kids|
  {
    kids[0 := Kid(Lowest(kids[0].sub), kids[0].sub)]
  }

  // --- Two neighbouring pages -------------------------------------------

  // mdb_node_move of the last node of x to the front of y; new separator of y.
  function MoveRight(x: Tree, y: Tree): (Tree, Key, Tree)
    requires NumKeys(x) > MinKeys(x) && x.Leaf? == y.Leaf? && NumKeys(y) + 1 >= MinKeys(y)
  {
    if x.Leaf? then
      var n := |x.es| - 1;
      (Leaf(x.es[..n]), x.es[n].key, Leaf([x.es[n]] + y.es))
    else
      var n := |x.kids| - 1;
      (Branch(x.kids[..n]), x.kids[n].sep, Branch([Kid(NullKey, x.kids[n].sub)] + WithKey(y.kids)))
  }

  // mdb_node_move of the first node of y to the end of x.
  function MoveLeft(x: Tree, y: Tree): (Tree, Key, Tree)
    requires NumKeys(y) > MinKeys(y) && x.Leaf? == y.Leaf?
  {
    if x.Leaf? then
      (Leaf(x.es + [y.es[0]]), y.es[1].key, Leaf(y.es[1..]))
    else
      (Branch(x.kids + WithKey(y.kids)[..1]), y.kids[1].sep, Branch(DropKey(y.kids[1..])))
  }

  // mdb_page_merge of y into its left neighbour x.
  function Merge(x: Tree, y: Tree): Tree
    requires x.Leaf? == y.Leaf? && (y.Branch? ==> 1 <= |y.kids|)
  {
    if x.Leaf? then Leaf(x.es + y.es) else Branch(x.kids + WithKey(y.kids))
  }

  // Neighbours x and y around separator s, in [lo, hi).
  ghost predicate Pair(psize: PageSize, x: Tree, s: real, y: Tree, d: nat, lo: Bound, hi: Bound, thinX: bool, thinY: bool) {
    && WF(psize, x, d, lo, Some(s), thinX) && WF(psize, y, d, Some(s), hi, thinY)
    && Above(lo, s) && Below(s, hi)
  }

  // What a move leaves: a pair with the same contents around its new separator.
  ghost predicate Moved(psize: PageSize, x: Tree, y: Tree, m: (Tree, Key, Tree), d: nat, lo: Bound, hi: Bound) {
    && Pair(psize, m.0, m.1.rank, m.2, d, lo, hi, false, false) && m.1.len <= MAXKEYSIZE
    && Contents(m.0) + Contents(m.2) == Contents(x) + Contents(y)
  }

  // --- Room: why the node_add calls of a move or merge cannot fail -------

  // A thin leaf uses less than a quarter of the page, a thin branch at most 32 bytes.
  lemma UnderfullSize(psize: PageSize, t: Tree, d: nat, lo: Bound, hi: Bound)
    requires WF(psize, t, d, lo, hi, true) && Underfull(psize, t)
    ensures t.Leaf? ==> 4 * Used(psize, t) < PMax(psize)
    ensures t.Branch? ==> Used(psize, t) <= 32
  {
    FillIsBytes(psize, t);
    if t.Branch? && |t.kids| == 1 {
      assert t.kids == [t.kids[0]];
      OneKidSize(t.kids[0]);
    }
    if t.Leaf? && t.es == [] {
      assert EntrySizes(psize, t.es) == [];
    }
  }

  // A page that cannot spare a node leaves room for a thin neighbour.
  lemma NeighbourSize(psize: PageSize, t: Tree, d: nat, lo: Bound, hi: Bound)
    requires WF(psize, t, d, lo, hi, false) && !CanSpare(psize, t)
    ensures t.Leaf? ==> 2 * Used(psize, t) <= PMax(psize)
    ensures t.Branch? ==> Used(psize, t) <= 2 * BARE_NODE + 512
  {
    FillIsBytes(psize, t);
    if t.Leaf? && |t.es| == 1 {
      assert t.es == [t.es[0]];
      OneEntrySize(psize, t.es[0]);
      EntrySizeBound(psize, t.es[0]);
    }
    if t.Branch? && |t.kids| == 2 {
      KidKeySizes(psize, t.kids, d - 1, lo, hi);
      assert t.kids == [t.kids[0]] + [t.kids[1]];
      KidSizesConcat([t.kids[0]], [t.kids[1]]);
      OneKidSize(t.kids[0]);
      OneKidSize(t.kids[1]);
      KidSizeBound(psize, t.kids[1]);
    }
  }

  // Giving the first child a real key costs at most a full-size key.
  lemma WithKeyOk(psize: PageSize, kids: seq<Kid>, d: nat, lo: Bound, hi: Bound)
    requires 1 <= |kids| && KidsWF(psize, kids, d, lo, hi) && kids[0].sep.len == 0
    ensures var k := WithKey(kids);
      && k[0].sep.len <= MAXKEYSIZE && AboveOrAt(lo, k[0].sep.rank) && Below(k[0].sep.rank, hi)
      && KidsWF(psize, k, d, Some(k[0].sep.rank), hi) && Cat(k) == Cat(kids)
      && Sum(KidSizes(k)) <= Sum(KidSizes(kids)) + 512
  {
    var k := WithKey(kids);
    var hi0 := if |kids| == 1 then hi else Some(kids[1].sep.rank);
    LowestIsFirst(psize, kids[0].sub, d, lo, hi0);
    KidsHead(psize, kids, k[0].sep, d, lo, hi);
    CatSorted(psize, kids, d, lo, hi);
    TightenKids(psize, k, d, lo, hi, Some(k[0].sep.rank));
    assert KidSizes(k)[1..] == KidSizes(kids)[1..];
    KidSizeBound(psize, k[0]);
  }

  ghost predicate MergedOk(psize: PageSize, x: Tree, y: Tree, d: nat, lo: Bound, hi: Bound)
    requires x.Leaf? == y.Leaf? && (y.Branch? ==> 1 <= |y.kids|)
  {
    WF(psize, Merge(x, y), d, lo, hi, false) && Contents(Merge(x, y)) == Contents(x) + Contents(y)
  }

  lemma MergeLeaves(psize: PageSize, x: Tree, s: real, y: Tree, d: nat, lo: Bound, hi: Bound)
    requires Pair(psize, x, s, y, d, lo, hi, true, true) && x.Leaf? && y.Leaf?
    requires Used(psize, x) + Used(psize, y) <= PMax(psize) && 1 <= |x.es| + |y.es|
    ensures MergedOk(psize, x, y, d, lo, hi)
  {
    EntrySizesConcat(psize, x.es, y.es);
  }

  lemma MergeBranches(psize: PageSize, x: Tree, s: real, y: Tree, d: nat, lo: Bound, hi: Bound)
    requires Pair(psize, x, s, y, d, lo, hi, true, true) && x.Branch? && y.Branch?
    requires Used(psize, x) + Used(psize, y) + 512 <= PMax(psize)
    ensures MergedOk(psize, x, y, d, lo, hi)
  {
    var k := WithKey(y.kids);
    WithKeyOk(psize, y.kids, d - 1, Some(s), hi);
    KidSizesConcat(x.kids, k);
    WidenKids(psize, x.kids, d - 1, lo, Some(s), lo, Some(k[0].sep.rank));
    KidsJoin(psize, x.kids, k, d - 1, lo, hi);
    CatConcat(x.kids, k);
  }

  // A merge fits one page: one of the two is thin, the other cannot spare a node.
  lemma MergeOk(psize: PageSize, x: Tree, s: real, y: Tree, d: nat, lo: Bound, hi: Bound, fromLeft: bool)
    requires Pair(psize, x, s, y, d, lo, hi, !fromLeft, fromLeft)
    requires Underfull(psize, if fromLeft then y else x) && !CanSpare(psize, if fromLeft then x else y)
    ensures x.Leaf? == y.Leaf? && MergedOk(psize, x, y, d, lo, hi)
  {
    if fromLeft {
      UnderfullSize(psize, y, d, Some(s), hi);
      NeighbourSize(psize, x, d, lo, Some(s));
    } else {
      UnderfullSize(psize, x, d, lo, Some(s));
      NeighbourSize(psize, y, d, Some(s), hi);
    }
    if x.Leaf? {
      MergeLeaves(psize, x, s, y, d, lo, hi);
    } else {
      MergeBranches(psize, x, s, y, d, lo, hi);
    }
  }

  // --- Moves ------------------------------------------------------------

  // A leaf without its last entry.
  lemma LeafInit(psize: PageSize, es: seq<Entry>, d: nat, lo: Bound, hi: Bound)
    requires WF(psize, Leaf(es), d, lo, hi, false) && 2 <= |es|
    ensures WF(psize, Leaf(es[..|es| - 1]), d, lo, Some(es[|es| - 1].key.rank), false)
    ensures Above(lo, es[|es| - 1].key.rank)
  {
    var n := |es| - 1;
    assert es == es[..n] + [es[n]];
    EntrySizesConcat(psize, es[..n], [es[n]]);
    assert es[0].key.rank < es[n].key.rank;
  }

  // A thin leaf with one more entry before its own.
  lemma LeafPrepend(psize: PageSize, es: seq<Entry>, e: Entry, d: nat, s: real, hi: Bound)
    requires WF(psize, Leaf(es), d, Some(s), hi, true) && 4 * Used(psize, Leaf(es)) < PMax(psize)
    requires e.key.rank < s && Below(e.key.rank, hi) && e.key.len <= MAXKEYSIZE
    ensures WF(psize, Leaf([e] + es), d, Some(e.key.rank), hi, false)
  {
    EntrySizesConcat(psize, [e], es);
    OneEntrySize(psize, e);
    EntrySizeBound(psize, e);
    var all := [e] + es;
    assert forall i :: 0 < i < |all| ==> all[i] == es[i - 1] && e.key.rank < all[i].key.rank;
  }

  lemma MoveRightLeaves(psize: PageSize, x: Tree, s: real, y: Tree, d: nat, lo: Bound, hi: Bound)
    requires Pair(psize, x, s, y, d, lo, hi, false, true) && x.Leaf? && y.Leaf? && 2 <= |x.es|
    requires 4 * Used(psize, y) < PMax(psize)
    ensures Moved(psize, x, y, MoveRight(x, y), d, lo, hi)
  {
    var n := |x.es| - 1;
    assert x.es == x.es[..n] + [x.es[n]];
    LeafInit(psize, x.es, d, lo, Some(s));
    LeafPrepend(psize, y.es, x.es[n], d, s, hi);
  }

  // A leaf without its first entry.
  lemma LeafTail(psize: PageSize, es: seq<Entry>, d: nat, lo: Bound, hi: Bound)
    requires WF(psize, Leaf(es), d, lo, hi, false) && 2 <= |es|
    ensures WF(psize, Leaf(es[1..]), d, Some(es[1].key.rank), hi, false)
  {
    TailEntries(es, lo, hi);
    TailSize(psize, es);
  }

  lemma TailEntries(es: seq<Entry>, lo: Bound, hi: Bound)
    requires Sorted(es) && Within(es, lo, hi) && KeySizes(es) && 2 <= |es|
    ensures Sorted(es[1..]) && Within(es[1..], Some(es[1].key.rank), hi) && KeySizes(es[1..])
  {
    var rest := es[1..];
    forall i | 0 <= i < |rest| ensures rest[i] == es[i + 1] && (i > 0 ==> es[1].key.rank < rest[i].key.rank) {}
  }

  lemma TailSize(psize: PageSize, es: seq<Entry>)
    requires es != []
    ensures Sum(EntrySizes(psize, es[1..])) <= Sum(EntrySizes(psize, es))
  {
    assert EntrySizes(psize, es)[1..] == EntrySizes(psize, es[1..]);
  }

  // A thin leaf with one more entry after its own.
  lemma LeafAppend(psize: PageSize, es: seq<Entry>, e: Entry, d: nat, lo: Bound, s: real, hi: Bound)
    requires WF(psize, Leaf(es), d, lo, Some(s), true) && 4 * Used(psize, Leaf(es)) < PMax(psize)
    requires s <= e.key.rank && Above(lo, s) && Below(e.key.rank, hi) && e.key.len <= MAXKEYSIZE
    ensures WF(psize, Leaf(es + [e]), d, lo, hi, false)
  {
    EntrySizesConcat(psize, es, [e]);
    OneEntrySize(psize, e);
    EntrySizeBound(psize, e);
    var all := es + [e];
    assert forall i :: 0 <= i < |es| ==> all[i] == es[i] && es[i].key.rank < s;
  }

  lemma MoveLeftLeaves(psize: PageSize, x: Tree, s: real, y: Tree, d: nat, lo: Bound, hi: Bound)
    requires Pair(psize, x, s, y, d, lo, hi, true, false) && x.Leaf? && y.Leaf? && 2 <= |y.es|
    requires 4 * Used(psize, x) < PMax(psize)
    ensures Moved(psize, x, y, MoveLeft(x, y), d, lo, hi)
  {
    var e, rest := y.es[0], y.es[1..];
    assert y.es == [e] + rest && rest[0] == y.es[1];
    LeafTail(psize, y.es, d, Some(s), hi);
    LeafAppend(psize, x.es, e, d, lo, s, Some(rest[0].key.rank));
  }

  // A branch page without its last child, and that child.
  lemma LastKid(psize: PageSize, kids: seq<Kid>, d: nat, lo: Bound, s: real)
    requires WF(psize, Branch(kids), d, lo, Some(s), false) && 3 <= |kids|
    ensures var n := |kids| - 1; var m := kids[n];
      WF(psize, Branch(kids[..n]), d, lo, Some(m.sep.rank), false) &&
      WF(psize, m.sub, d - 1, Some(m.sep.rank), Some(s), false) &&
      Above(lo, m.sep.rank) && m.sep.rank < s && m.sep.len <= MAXKEYSIZE &&
      Cat(kids) == Cat(kids[..n]) + Contents(m.sub)
  {
    var n := |kids| - 1;
    var pre, m := kids[..n], kids[n];
    assert kids == pre + [m];
    KidsSplit(psize, pre, [m], d - 1, lo, Some(s));
    KidSizesConcat(pre, [m]);
    CatConcat(pre, [m]);
    CatOne(m);
  }

  // A thin branch page with m as its new first child.
  lemma FrontKid(psize: PageSize, m: Kid, kids: seq<Kid>, d: nat, s: real, hi: Bound)
    requires 2 <= d && WF(psize, m.sub, d - 1, Some(m.sep.rank), Some(s), false) && m.sep.rank < s
    requires WF(psize, Branch(kids), d, Some(s), hi, true) && Used(psize, Branch(kids)) <= 32 && Below(s, hi)
    ensures var all := [Kid(NullKey, m.sub)] + WithKey(kids);
      WF(psize, Branch(all), d, Some(m.sep.rank), hi, false) && Cat(all) == Contents(m.sub) + Cat(kids)
  {
    var head, k := [Kid(NullKey, m.sub)], WithKey(kids);
    CatOne(head[0]);
    WithKeyOk(psize, kids, d - 1, Some(s), hi);
    Widen(psize, m.sub, d - 1, Some(m.sep.rank), Some(s), Some(m.sep.rank), Some(k[0].sep.rank), false);
    KidsJoin(psize, head, k, d - 1, Some(m.sep.rank), hi);
    KidSizesConcat(head, k);
    OneKidSize(head[0]);
    CatConcat(head, k);
  }

  lemma MoveRightBranches(psize: PageSize, x: Tree, s: real, y: Tree, d: nat, lo: Bound, hi: Bound)
    requires Pair(psize, x, s, y, d, lo, hi, false, true) && x.Branch? && y.Branch? && 3 <= |x.kids|
    requires Used(psize, y) <= 32
    ensures Moved(psize, x, y, MoveRight(x, y), d, lo, hi)
  {
    LastKid(psize, x.kids, d, lo, s);
    FrontKid(psize, x.kids[|x.kids| - 1], y.kids, d, s, hi);
  }

  lemma MoveLeftBranches(psize: PageSize, x: Tree, s: real, y: Tree, d: nat, lo: Bound, hi: Bound)
    requires Pair(psize, x, s, y, d, lo, hi, true, false) && x.Branch? && y.Branch? && 3 <= |y.kids|
    requires Used(psize, x) <= 32
    ensures Moved(psize, x, y, MoveLeft(x, y), d, lo, hi)
  {
    var k := WithKey(y.kids);
    var m, rest := k[..1], y.kids[1..];
    WithKeyOk(psize, y.kids, d - 1, Some(s), hi);
    assert k == m + rest && y.kids == [y.kids[0]] + rest && m == [k[0]];
    KidsSplit(psize, m, rest, d - 1, Some(k[0].sep.rank), hi);
    var r := Some(rest[0].sep.rank);
    TakeFirst(psize, x.kids, s, k[0], d, lo, r);
    DropFirst(psize, y.kids, d, Some(s), hi);
    KidsHead(psize, rest, NullKey, d - 1, r, hi);
    CatConcat(x.kids, m);
    CatConcat(m, rest);
  }

  lemma TakeFirst(psize: PageSize, kids: seq<Kid>, s: real, k: Kid, d: nat, lo: Bound, hi: Bound)
    requires WF(psize, Branch(kids), d, lo, Some(s), true) && Used(psize, Branch(kids)) <= 32
    requires KidsWF(psize, [k], d - 1, Some(k.sep.rank), hi) && k.sep.len <= MAXKEYSIZE
    requires s <= k.sep.rank && Above(lo, s) && Below(k.sep.rank, hi)
    ensures WF(psize, Branch(kids + [k]), d, lo, hi, false)
  {
    WidenKids(psize, kids, d - 1, lo, Some(s), lo, Some(k.sep.rank));
    KidsJoin(psize, kids, [k], d - 1, lo, hi);
    KidSizesConcat(kids, [k]);
    OneKidSize(k);
    KidSizeBound(psize, k);
  }

  lemma DropFirst(psize: PageSize, kids: seq<Kid>, d: nat, lo: Bound, hi: Bound)
    requires WF(psize, Branch(kids), d, lo, hi, false) && 3 <= |kids|
    ensures WF(psize, Branch(DropKey(kids[1..])), d, Some(kids[1].sep.rank), hi, false)
  {
    var rest := kids[1..];
    assert kids == [kids[0]] + rest;
    KidSizesConcat([kids[0]], rest);
    DropKeySize(rest);
    KidsHead(psize, rest, NullKey, d - 1, Some(kids[1].sep.rank), hi);
  }

  // mdb_node_move adds the moved node with its key, on a branch page after
  // giving the old first node of y its own; the page is largest then, and
  // still fits.
  lemma MoveAddFits(psize: PageSize, x: Tree, s: real, y: Tree, d: nat, lo: Bound, hi: Bound, fromLeft: bool)
    requires Pair(psize, x, s, y, d, lo, hi, !fromLeft, fromLeft) && x.Leaf? == y.Leaf?
    requires Underfull(psize, if fromLeft then y else x) && CanSpare(psize, if fromLeft then x else y)
    ensures 1 <= NumKeys(if fromLeft then x else y)
    ensures x.Leaf? ==>
      var rest, moved := if fromLeft then y.es else x.es, if fromLeft then x.es[|x.es| - 1] else y.es[0];
      Sum(EntrySizes(psize, rest)) + EntrySize(psize, moved) <= PMax(psize)
    ensures x.Branch? ==>
      1 <= |y.kids| &&
      var rest := if fromLeft then WithKey(y.kids) else x.kids;
      var moved := if fromLeft then x.kids[|x.kids| - 1] else WithKey(y.kids)[0];
      Sum(KidSizes(rest)) + KidSize(moved) <= PMax(psize)
  {
    if fromLeft { UnderfullSize(psize, y, d, Some(s), hi); } else { UnderfullSize(psize, x, d, lo, Some(s)); }
    if x.Leaf? {
      EntrySizeBound(psize, if fromLeft then x.es[|x.es| - 1] else y.es[0]);
    } else {
      WithKeyOk(psize, y.kids, d - 1, Some(s), hi);
      KidKeySizes(psize, x.kids, d - 1, lo, Some(s));
      KidSizeBound(psize, if fromLeft then x.kids[|x.kids| - 1] else WithKey(y.kids)[0]);
    }
  }

  lemma MoveOk(psize: PageSize, x: Tree, s: real, y: Tree, d: nat, lo: Bound, hi: Bound, fromLeft: bool)
    requires Pair(psize, x, s, y, d, lo, hi, !fromLeft, fromLeft)
    requires Underfull(psize, if fromLeft then y else x) && CanSpare(psize, if fromLeft then x else y)
    ensures x.Leaf? == y.Leaf? && NumKeys(y) + 1 >= MinKeys(y)
    ensures Moved(psize, x, y, if fromLeft then MoveRight(x, y) else MoveLeft(x, y), d, lo, hi)
  {
    if fromLeft {
      UnderfullSize(psize, y, d, Some(s), hi);
      if x.Leaf? { MoveRightLeaves(psize, x, s, y, d, lo, hi); } else { MoveRightBranches(psize, x, s, y, d, lo, hi); }
    } else {
      UnderfullSize(psize, x, d, lo, Some(s));
      if x.Leaf? { MoveLeftLeaves(psize, x, s, y, d, lo, hi); } else { MoveLeftBranches(psize, x, s, y, d, lo, hi); }
    }
  }

  // --- Rebalancing within the parent ------------------------------------

  // After a deletion below: finished, or the page itself has to be looked at
  // by mdb_rebalance next.
  datatype Out = Done(up: Up) | Check(t: Tree)

  ghost predicate OutOk(psize: PageSize, out: Out, d: nat, lo: Bound, hi: Bound, content: seq<Entry>) {
    match out
    case Done(up) => PutOk(psize, up, d, lo, hi, content)
    case Check(t) => WF(psize, t, d, lo, hi, true) && Contents(t) == content
  }

  // mdb_rebalance of the page of child k = (sep, t) of a + [k] + c: leave it,
  // move a node from a neighbour and update the separator (which may split the
  // parent), or merge with a neighbour and look at the parent next.
  ghost function Rebalance(psize: PageSize, a: seq<Kid>, k: Kid, c: seq<Kid>): Out
    requires a == [] ==> c != [] && Beside(psize, c[0].sub, k.sub)
    requires a != [] ==> Beside(psize, a[|a| - 1].sub, k.sub)
  {
    if !Underfull(psize, k.sub) then Done(Fit(Branch(a + [k] + c)))
    else if a == [] then RebalanceRight(psize, k, c[0], c[1..])
    else RebalanceLeft(psize, a[..|a| - 1], a[|a| - 1], k, c)
  }

  // The leftmost child uses its right neighbour n ...
  ghost function RebalanceRight(psize: PageSize, k: Kid, n: Kid, rest: seq<Kid>): Out
    requires Beside(psize, n.sub, k.sub)
  {
    if CanSpare(psize, n.sub) then
      var m := MoveLeft(k.sub, n.sub);
      Done(BranchPut(psize, [] + [Kid(k.sep, m.0), Kid(m.1, m.2)] + rest, 1))
    else
      Check(Branch([] + [Kid(k.sep, Merge(k.sub, n.sub))] + rest))
  }

  // ... and any other child its left neighbour.
  ghost function RebalanceLeft(psize: PageSize, rest: seq<Kid>, n: Kid, k: Kid, c: seq<Kid>): Out
    requires Beside(psize, n.sub, k.sub)
  {
    if CanSpare(psize, n.sub) then
      var m := MoveRight(n.sub, k.sub);
      Done(BranchPut(psize, rest + [Kid(n.sep, m.0), Kid(m.1, m.2)] + c, |rest| + 1))
    else
      Check(Branch(rest + [Kid(n.sep, Merge(n.sub, k.sub))] + c))
  }

  // A sibling on the same level.
  ghost predicate Beside(psize: PageSize, n: Tree, t: Tree) {
    n.Leaf? == t.Leaf? && MinKeys(n) <= NumKeys(n) && MinKeys(t) <= NumKeys(t) + 1
  }

  // Splitting a two-child window out of a well-formed parent.
  lemma Window(psize: PageSize, a: seq<Kid>, x: Kid, y: Kid, c: seq<Kid>, d: nat, lo: Bound, hi: Bound)
    requires KidsWF(psize, a + [x, y] + c, d, lo, hi)
    ensures Pair(psize, x.sub, y.sep.rank, y.sub, d, LowOf(a, [x], lo), HighOf(c, hi), false, false)
    ensures y.sep.len <= MAXKEYSIZE
  {
    Focus(psize, a, [x, y], c, d, lo, hi);
    assert [x, y][1..] == [y];
  }

  lemma AfterMove(psize: PageSize, a: seq<Kid>, x: Kid, y: Kid, c: seq<Kid>, m: (Tree, Key, Tree), x0: Tree, y0: Tree,
                  d: nat, lo: Bound, hi: Bound)
    requires WF(psize, Branch(a + [x, y] + c), d, lo, hi, false)
    requires Moved(psize, x0, y0, m, d - 1, LowOf(a, [x], lo), HighOf(c, hi))
    ensures var full := a + [Kid(x.sep, m.0), Kid(m.1, m.2)] + c;
      PutOk(psize, BranchPut(psize, full, |a| + 1), d, lo, hi, Cat(a) + (Contents(x0) + Contents(y0)) + Cat(c))
  {
    var x', y' := Kid(x.sep, m.0), Kid(m.1, m.2);
    var full := a + [x', y'] + c;
    TwoKids(psize, x', y', d - 1, LowOf(a, [x], lo), HighOf(c, hi));
    Refocus(psize, a, [x, y], [x', y'], c, d - 1, lo, hi);
    PairSizes(a, x, x, y, c);
    PairSizes(a, x, x', y', c);
    assert full[0].sep == (a + [x, y] + c)[0].sep;
    BranchPutOk(psize, full, |a| + 1, d, lo, hi);
  }

  lemma AfterMerge(psize: PageSize, a: seq<Kid>, x: Kid, y: Kid, c: seq<Kid>, m: Tree, d: nat, lo: Bound, hi: Bound)
    requires WF(psize, Branch(a + [x, y] + c), d, lo, hi, false)
    requires WF(psize, m, d - 1, LowOf(a, [x], lo), HighOf(c, hi), false)
    ensures WF(psize, Branch(a + [Kid(x.sep, m)] + c), d, lo, hi, true)
    ensures Contents(Branch(a + [Kid(x.sep, m)] + c)) == Cat(a) + Contents(m) + Cat(c)
  {
    var k := Kid(x.sep, m);
    OneKid(psize, k, d - 1, LowOf(a, [x], lo), HighOf(c, hi));
    Refocus(psize, a, [x, y], [k], c, d - 1, lo, hi);
    PairSizes(a, k, x, y, c);
    assert (a + [k] + c)[0].sep == (a + [x, y] + c)[0].sep;
  }

  lemma {:induction false} KidLevels(psize: PageSize, kids: seq<Kid>, d: nat, lo: Bound, hi: Bound)
    requires 1 <= |kids| && KidsWF(psize, kids, d, lo, hi)
    ensures forall i :: 0 <= i < |kids| ==>
      (kids[i].sub.Leaf? <==> d == 1) && MinKeys(kids[i].sub) <= NumKeys(kids[i].sub)
  {
    if 2 <= |kids| {
      KidLevels(psize, kids[1..], d, Some(kids[1].sep.rank), hi);
      assert forall i :: 1 <= i < |kids| ==> kids[i] == kids[1..][i - 1];
    }
  }

  lemma Siblings(psize: PageSize, kids: seq<Kid>, i: nat, j: nat, t: Tree, d: nat, lo: Bound, hi: Bound, lo': Bound, hi': Bound)
    requires 1 <= |kids| && KidsWF(psize, kids, d, lo, hi) && j < |kids|
    requires WF(psize, t, d, lo', hi', true)
    ensures Beside(psize, kids[j].sub, t)
  {
    KidLevels(psize, kids, d, lo, hi);
  }

  lemma RebalanceRightOk(psize: PageSize, k: Kid, n: Kid, rest: seq<Kid>, t: Tree, d: nat, lo: Bound, hi: Bound)
    requires WF(psize, Branch([] + [k, n] + rest), d, lo, hi, false)
    requires WF(psize, t, d - 1, lo, Some(n.sep.rank), true) && Underfull(psize, t) && Beside(psize, n.sub, t)
    ensures OutOk(psize, RebalanceRight(psize, Kid(k.sep, t), n, rest), d, lo, hi,
      [] + (Contents(t) + Contents(n.sub)) + Cat(rest))
  {
    Window(psize, [], k, n, rest, d - 1, lo, hi);
    if CanSpare(psize, n.sub) {
      MoveOk(psize, t, n.sep.rank, n.sub, d - 1, lo, HighOf(rest, hi), false);
      AfterMove(psize, [], k, n, rest, MoveLeft(t, n.sub), t, n.sub, d, lo, hi);
    } else {
      MergeOk(psize, t, n.sep.rank, n.sub, d - 1, lo, HighOf(rest, hi), false);
      AfterMerge(psize, [], k, n, rest, Merge(t, n.sub), d, lo, hi);
    }
  }

  lemma RebalanceLeftOk(psize: PageSize, rest: seq<Kid>, n: Kid, k: Kid, c: seq<Kid>, t: Tree, d: nat, lo: Bound, hi: Bound)
    requires WF(psize, Branch(rest + [n, k] + c), d, lo, hi, false)
    requires WF(psize, t, d - 1, Some(k.sep.rank), HighOf(c, hi), true) && Underfull(psize, t) && Beside(psize, n.sub, t)
    ensures OutOk(psize, RebalanceLeft(psize, rest, n, Kid(k.sep, t), c), d, lo, hi,
      Cat(rest) + (Contents(n.sub) + Contents(t)) + Cat(c))
  {
    Window(psize, rest, n, k, c, d - 1, lo, hi);
    var loi := LowOf(rest, [n], lo);
    if CanSpare(psize, n.sub) {
      MoveOk(psize, n.sub, k.sep.rank, t, d - 1, loi, HighOf(c, hi), true);
      AfterMove(psize, rest, n, k, c, MoveRight(n.sub, t), n.sub, t, d, lo, hi);
    } else {
      MergeOk(psize, n.sub, k.sep.rank, t, d - 1, loi, HighOf(c, hi), true);
      AfterMerge(psize, rest, n, k, c, Merge(n.sub, t), d, lo, hi);
    }
  }

  lemma Neighbours(psize: PageSize, a: seq<Kid>, k: Kid, c: seq<Kid>, t: Tree, d: nat, lo: Bound, hi: Bound)
    requires 2 <= |a + [k] + c| && KidsWF(psize, a + [k] + c, d, lo, hi)
    requires WF(psize, t, d, LowOf(a, [k], lo), HighOf(c, hi), true)
    ensures a == [] ==> c != [] && Beside(psize, c[0].sub, t)
    ensures a != [] ==> Beside(psize, a[|a| - 1].sub, t)
  {
    var kids, loi, hii := a + [k] + c, LowOf(a, [k], lo), HighOf(c, hi);
    if a == [] {
      assert c[0] == kids[1];
      Siblings(psize, kids, 0, 1, t, d, lo, hi, loi, hii);
    } else {
      assert a[|a| - 1] == kids[|a| - 1];
      Siblings(psize, kids, |a|, |a| - 1, t, d, lo, hi, loi, hii);
    }
  }

  lemma Regroup(a: seq<Entry>, b: seq<Entry>, c: seq<Entry>, d: seq<Entry>)
    ensures a + (b + c) + d == a + b + (c + d)
  {
  }

  lemma RebalanceFirstOk(psize: PageSize, k: Kid, c: seq<Kid>, t: Tree, d: nat, lo: Bound, hi: Bound)
    requires WF(psize, Branch([] + [k] + c), d, lo, hi, false) && c != [] && Beside(psize, c[0].sub, t)
    requires WF(psize, t, d - 1, lo, HighOf(c, hi), true) && Underfull(psize, t)
    ensures OutOk(psize, RebalanceRight(psize, Kid(k.sep, t), c[0], c[1..]), d, lo, hi, [] + Contents(t) + Cat(c))
  {
    assert [] + [k] + c == [] + [k, c[0]] + c[1..];
    RebalanceRightOk(psize, k, c[0], c[1..], t, d, lo, hi);
    Regroup([], Contents(t), Contents(c[0].sub), Cat(c[1..]));
  }

  lemma Reassociate(a: seq<Entry>, b: seq<Entry>, c: seq<Entry>, d: seq<Entry>)
    ensures a + (b + c) + d == (a + b) + c + d
  {
  }

  lemma RebalanceLaterOk(psize: PageSize, a: seq<Kid>, k: Kid, c: seq<Kid>, t: Tree, d: nat, lo: Bound, hi: Bound)
    requires WF(psize, Branch(a + [k] + c), d, lo, hi, false) && a != [] && Beside(psize, a[|a| - 1].sub, t)
    requires WF(psize, t, d - 1, Some(k.sep.rank), HighOf(c, hi), true) && Underfull(psize, t)
    ensures OutOk(psize, RebalanceLeft(psize, a[..|a| - 1], a[|a| - 1], Kid(k.sep, t), c), d, lo, hi,
      Cat(a) + Contents(t) + Cat(c))
  {
    var rest, n := a[..|a| - 1], a[|a| - 1];
    assert a == rest + [n];
    assert a + [k] + c == rest + [n, k] + c;
    CatConcat(rest, [n]);
    CatOne(n);
    RebalanceLeftOk(psize, rest, n, k, c, t, d, lo, hi);
    Reassociate(Cat(rest), Contents(n.sub), Contents(t), Cat(c));
  }

  // Rebalancing keeps the parent well formed and its entries, whichever of the
  // repairs it takes.
  lemma RebalanceOk(psize: PageSize, a: seq<Kid>, k: Kid, c: seq<Kid>, t: Tree, d: nat, lo: Bound, hi: Bound)
    requires WF(psize, Branch(a + [k] + c), d, lo, hi, false)
    requires WF(psize, t, d - 1, LowOf(a, [k], lo), HighOf(c, hi), true)
    requires a == [] ==> c != [] && Beside(psize, c[0].sub, t)
    requires a != [] ==> Beside(psize, a[|a| - 1].sub, t)
    ensures OutOk(psize, Rebalance(psize, a, Kid(k.sep, t), c), d, lo, hi, Cat(a) + Contents(t) + Cat(c))
  {
    if !Underfull(psize, t) {
      ReplaceOne(psize, a, k, c, t, d, lo, hi);
    } else if a == [] {
      RebalanceFirstOk(psize, k, c, t, d, lo, hi);
    } else {
      RebalanceLaterOk(psize, a, k, c, t, d, lo, hi);
    }
  }

  // --- mdb_del ----------------------------------------------------------

  function Cut(es: seq<Entry>, i: nat): seq<Entry>
    requires i < |es|
  {
    es[..i] + es[i + 1..]
  }

  ghost function Remove(es: seq<Entry>, r: real): seq<Entry> {
    var i := LowerBound(es, r);
    if i < |es| && es[i].key.rank == r then Cut(es, i) else es
  }

  ghost predicate Present(es: seq<Entry>, r: real) {
    var i := LowerBound(es, r);
    i < |es| && es[i].key.rank == r
  }

  // mdb_cursor_del0 below page t: delete from the leaf, then rebalance each
  // page for as long as the level below it merged.
  ghost function DelIn(psize: PageSize, t: Tree, d: nat, lo: Bound, hi: Bound, r: real): (out: Out)
    requires WF(psize, t, d, lo, hi, false)
    requires AboveOrAt(lo, r) && Below(r, hi)
    ensures OutOk(psize, out, d, lo, hi, Remove(Contents(t), r))
    decreases d
  {
    match t
    case Leaf(es) =>
      LeafRemoveOk(psize, es, r, lo, hi);
      Check(Leaf(Remove(es, r)))
    case Branch(kids) =>
      var i := ChildIndex(kids, r);
      var a, k, c := kids[..i], kids[i], kids[i + 1..];
      assert kids == a + [k] + c;
      var loi, hii := LowOf(a, [k], lo), HighOf(c, hi);
      ChildRemove(psize, a, k, c, d - 1, lo, hi, r);
      var out' := DelIn(psize, k.sub, d - 1, loi, hii, r);
      OnUp(psize, a, k, c, out', d, lo, hi, Remove(Contents(k.sub), r))
  }

  // The parent's part: take in what became of child k, or rebalance it.
  ghost function OnUp(psize: PageSize, a: seq<Kid>, k: Kid, c: seq<Kid>, out': Out, d: nat, lo: Bound, hi: Bound,
                      content: seq<Entry>): (out: Out)
    requires WF(psize, Branch(a + [k] + c), d, lo, hi, false)
    requires OutOk(psize, out', d - 1, LowOf(a, [k], lo), HighOf(c, hi), content)
    ensures OutOk(psize, out, d, lo, hi, Cat(a) + content + Cat(c))
  {
    match out'
    case Done(up) =>
      AbsorbOk(psize, a, k, c, up, d, lo, hi, content);
      Done(Absorb(psize, a, k, c, up))
    case Check(t') =>
      Neighbours(psize, a, k, c, t', d - 1, lo, hi);
      RebalanceOk(psize, a, k, c, t', d, lo, hi);
      Rebalance(psize, a, Kid(k.sep, t'), c)
  }

  lemma LeafRemoveOk(psize: PageSize, es: seq<Entry>, r: real, lo: Bound, hi: Bound)
    requires WF(psize, Leaf(es), 1, lo, hi, false)
    ensures WF(psize, Leaf(Remove(es, r)), 1, lo, hi, true)
  {
    if Present(es, r) { LeafCutOk(psize, es, LowerBound(es, r), lo, hi); }
  }

  lemma LeafCutOk(psize: PageSize, es: seq<Entry>, i: nat, lo: Bound, hi: Bound)
    requires WF(psize, Leaf(es), 1, lo, hi, false) && i < |es|
    ensures WF(psize, Leaf(Cut(es, i)), 1, lo, hi, true)
  {
    RemoveSizes(psize, es, i);
    var cut := Cut(es, i);
    assert forall j :: 0 <= j < |cut| ==> cut[j] == es[if j < i then j else j + 1];
  }

  lemma CutMiddle(a: seq<Entry>, b: seq<Entry>, c: seq<Entry>, i: nat)
    requires i < |b|
    ensures Cut(a + b + c, |a| + i) == a + Cut(b, i) + c
  {
    assert (a + b + c)[..|a| + i] == a + b[..i];
    assert (a + b + c)[|a| + i + 1..] == b[i + 1..] + c;
  }

  lemma RemoveMiddle(a: seq<Entry>, b: seq<Entry>, c: seq<Entry>, r: real)
    requires forall j :: 0 <= j < |a| ==> a[j].key.rank < r
    requires forall j :: 0 <= j < |c| ==> r < c[j].key.rank
    ensures Remove(a + b + c, r) == a + Remove(b, r) + c
  {
    var i := LowerBound(b, r);
    LowerBoundMiddle(a, b, c, r);
    if i < |b| {
      assert (a + b + c)[|a| + i] == b[i];
      CutMiddle(a, b, c, i);
    }
  }

  lemma ChildRemove(psize: PageSize, a: seq<Kid>, k: Kid, c: seq<Kid>, d: nat, lo: Bound, hi: Bound, r: real)
    requires KidsWF(psize, a + [k] + c, d, lo, hi)
    requires |a| == ChildIndex(a + [k] + c, r)
    requires AboveOrAt(lo, r) && Below(r, hi)
    ensures WF(psize, k.sub, d, LowOf(a, [k], lo), HighOf(c, hi), false)
    ensures AboveOrAt(LowOf(a, [k], lo), r) && Below(r, HighOf(c, hi))
    ensures Remove(Cat(a + [k] + c), r) == Cat(a) + Remove(Contents(k.sub), r) + Cat(c)
  {
    Focus(psize, a, [k], c, d, lo, hi);
    CatConcat(a + [k], c);
    CatConcat(a, [k]);
    CatOne(k);
    if a != [] { CatSorted(psize, a, d, lo, Some(k.sep.rank)); }
    if c != [] { CatSorted(psize, c, d, Some(c[0].sep.rank), hi); }
    RemoveMiddle(Cat(a), Contents(k.sub), Cat(c), r);
  }

  datatype DelResult = Deleted(result: PutResult) | NotFound

  // mdb_rebalance with one page on the cursor stack: an empty root leaf leaves
  // an empty tree, a root branch with one child is collapsed.
  ghost function RebalanceRoot(t: Tree, d: nat): PutResult {
    match t
    case Leaf(es) => Put(if es == [] then Empty else Root(t, d))
    case Branch(kids) => Put(if |kids| == 1 && 0 < d then Root(kids[0].sub, d - 1) else Root(t, d))
  }

  ghost function DbDel(psize: PageSize, db: Db, r: real): DelResult
    requires ValidDb(psize, db)
  {
    if !Present(Items(db), r) then NotFound
    else
      match DelIn(psize, db.tree, db.depth, None, None, r)
      case Done(up) => Deleted(AtRoot(up, db.depth))
      case Check(t) => Deleted(RebalanceRoot(t, db.depth))
  }

  lemma RebalanceRootOk(psize: PageSize, t: Tree, d: nat)
    requires WF(psize, t, d, None, None, true)
    ensures ResultOk(psize, RebalanceRoot(t, d), Contents(t))
  {
    if t.Branch? && |t.kids| == 1 {
      assert t.kids == [t.kids[0]];
      CatOne(t.kids[0]);
    }
  }

  // Deleting removes exactly the given key: uniform depth, at least two
  // children per non-root branch, correct separators and page sizes all
  // survive the moves, the merges, the splits a longer separator causes and
  // the collapse of the root. The one failure is the same as for mdb_put.
  lemma DelCorrect(psize: PageSize, db: Db, r: real)
    requires ValidDb(psize, db)
    ensures var res := DbDel(psize, db, r);
      && (res.NotFound? <==> !Present(Items(db), r))
      && (res.Deleted? ==> ResultOk(psize, res.result, Remove(Items(db), r)))
  {
    if Present(Items(db), r) {
      match DelIn(psize, db.tree, db.depth, None, None, r)
      case Done(up) => AtRootOk(psize, up, db.depth, Remove(Items(db), r));
      case Check(t) => RebalanceRootOk(psize, t, db.depth);
    }
  }

  lemma PresentMember(es: seq<Entry>, r: real)
    requires Sorted(es)
    ensures Present(es, r) <==> r in ToMap(es)
  {
    ToMapSound(es);
    if i :| 0 <= i < |es| && es[i].key.rank == r {
      LowerBoundUnique(es, r, i);
    }
  }

  lemma CutMembers(es: seq<Entry>, i: nat)
    requires Sorted(es) && i < |es|
    ensures Sorted(Cut(es, i))
    ensures forall x :: x in Cut(es, i) <==> x in es && x.key.rank != es[i].key.rank
  {
    var cut := Cut(es, i);
    assert forall j :: 0 <= j < |cut| ==> cut[j] == es[if j < i then j else j + 1];
    forall x | x in es && x.key.rank != es[i].key.rank ensures x in cut {
      var j :| 0 <= j < |es| && es[j] == x;
      assert cut[if j < i then j else j - 1] == x;
    }
  }

  lemma RemoveAtKey(es: seq<Entry>, r: real, k: real)
    requires Sorted(es) && Present(es, r) && Sorted(Remove(es, r))
    ensures k in ToMap(Remove(es, r)) <==> k in ToMap(es) && k != r
    ensures k in ToMap(Remove(es, r)) ==> ToMap(Remove(es, r))[k] == ToMap(es)[k]
  {
    CutMembers(es, LowerBound(es, r));
    if k in ToMap(Remove(es, r)) {
      MapGet(Remove(es, r), k);
      MapHas(es, ToMap(Remove(es, r))[k]);
    }
    if k in ToMap(es) && k != r {
      MapGet(es, k);
      MapHas(Remove(es, r), ToMap(es)[k]);
    }
  }

  lemma RemoveMeaning(es: seq<Entry>, r: real)
    requires Sorted(es) && Present(es, r)
    ensures ToMap(Remove(es, r)) == ToMap(es) - {r} && |Remove(es, r)| == |es| - 1
  {
    var m, m' := ToMap(es), ToMap(Remove(es, r));
    CutMembers(es, LowerBound(es, r));
    forall k ensures LosesKey(m, m', r, k) { RemoveAtKey(es, r, k); }
    MapWithout(m, m', r);
  }

  // As far as key k goes, m' is m without r.
  ghost predicate LosesKey(m: map<real, Entry>, m': map<real, Entry>, r: real, k: real) {
    (k in m' <==> k in m && k != r) && (k in m' ==> m'[k] == m[k])
  }

  lemma MapWithout(m: map<real, Entry>, m': map<real, Entry>, r: real)
    requires forall k :: LosesKey(m, m', r, k)
    ensures m' == m - {r}
  {
    var d := m - {r};
    forall k ensures (k in d <==> k in m') && (k in d ==> d[k] == m'[k]) {
      assert LosesKey(m, m', r, k);
    }
  }

  // The map loses that key, keeps every other entry, and one item is gone.
  lemma DelMeaning(psize: PageSize, db: Db, r: real)
    requires ValidDb(psize, db)
    ensures var res := DbDel(psize, db, r);
      && (res.NotFound? <==> r !in ToMap(Items(db)))
      && (res.Deleted? && res.result.Put? ==>
           ToMap(Items(res.result.db)) == ToMap(Items(db)) - {r} && |Items(res.result.db)| == |Items(db)| - 1)
  {
    if db.Root? { ContentsSorted(psize, db.tree, db.depth, None, None, false); }
    DelCorrect(psize, db, r);
    PresentMember(Items(db), r);
    if Present(Items(db), r) { RemoveMeaning(Items(db), r); }
  }
}
