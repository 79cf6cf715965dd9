// The fix-ups of other cursors in liblmdb/src/mdb.c: when mdb_page_split,
// mdb_node_move, mdb_page_merge, mdb_rebalance and mdb_cursor_del0 rearrange
// pages, they adjust the indices of every cursor that is on one of them, so
// that it stays on its entry.

module BTreeTrack {
  import opened PageFormat
  import opened BTree
  import opened SplitPoint
  import opened BTreePut
  import opened BTreeDel
  import opened BTreeLimits

  // mc_ki of a cursor, from some page down to the leaf.
  type Trail = seq<nat>

  ghost predicate OnEntry(t: Tree, p: Trail)
    decreases |p|
  {
    match t
    case Leaf(es) => |p| == 1 && p[0] < |es|
    case Branch(kids) => |p| >= 1 && p[0] < |kids| && OnEntry(kids[p[0]].sub, p[1..])
  }

  ghost function EntryAt(t: Tree, p: Trail): Entry
    requires OnEntry(t, p)
    decreases |p|
  {
    match t
    case Leaf(es) => es[p[0]]
    case Branch(kids) => EntryAt(kids[p[0]].sub, p[1..])
  }

  // The cursor is on entry x of page t.
  ghost predicate At(t: Tree, p: Trail, x: Entry) { OnEntry(t, p) && EntryAt(t, p) == x }

  // The cursor is on entry x of child m of these.
  ghost predicate AtKid(kids: seq<Kid>, m: nat, p: Trail, x: Entry) { m < |kids| && At(kids[m].sub, p, x) }

  lemma AtBranch(kids: seq<Kid>, m: nat, p: Trail, x: Entry)
    ensures At(Branch(kids), [m] + p, x) <==> AtKid(kids, m, p, x)
  {
    assert ([m] + p)[1..] == p;
  }

  // --- After a split ----------------------------------------------------

  // A cursor below a page that may have been split: in which half, and how.
  datatype Spot = Spot(right: bool, trail: Trail)

  ghost predicate SpotAt(up: Up, s: Spot, x: Entry) {
    match up
    case Fit(t) => !s.right && At(t, s.trail, x)
    case Broke(left, _, right) => At(if s.right then right else left, s.trail, x)
    case Full(_, _, _) => true
  }

  // A page with all its nodes becomes `up`; the cursor is at node i of it.
  function Half(up: Up, i: nat, p: Trail): (s: Spot)
    ensures |s.trail| == |p| + 1
  {
    if up.Broke? && i >= NumKeys(up.left) then Spot(true, [i - NumKeys(up.left)] + p) else Spot(false, [i] + p)
  }

  lemma HalfOfBranch(psize: PageSize, full: seq<Kid>, j: nat, m: nat, p: Trail, x: Entry)
    requires j < |full| && AtKid(full, m, p, x)
    ensures SpotAt(BranchPut(psize, full, j), Half(BranchPut(psize, full, j), m, p), x)
  {
    var up := BranchPut(psize, full, j);
    match up
    case Fit(t) => AtBranch(full, m, p, x);
    case Broke(left, _, right) =>
      var s := |left.kids|;
      if m >= s {
        assert full[s..][m - s] == full[m];
        AtBranch(right.kids, m - s, p, x);
      } else {
        AtBranch(left.kids, m, p, x);
      }
    case Full(_, _, _) =>
  }

  // --- mdb_put ----------------------------------------------------------

  // On the leaf: nodes from the new one on move up by one, unless an old node
  // is replaced.
  ghost function LeafTrack(psize: PageSize, es: seq<Entry>, e: Entry, append: bool, j: nat): Spot
    requires Sorted(es) && KeySizes(es) && e.key.len <= MAXKEYSIZE && Sum(EntrySizes(psize, es)) <= PMax(psize)
  {
    var at := if !Hits(es, e) && j >= LowerBound(es, e.key.rank) then j + 1 else j;
    Half(LeafPut(psize, es, e, append), at, [])
  }

  // On a parent: children after a split one move up by one.
  ghost function AbsorbTrack(psize: PageSize, a: seq<Kid>, k: Kid, c: seq<Kid>, up: Up, m: nat, s: Spot): (r: Spot)
    ensures |r.trail| == |s.trail| + 1
  {
    var at := if m == |a| then (if s.right then m + 1 else m) else if m > |a| && up.Broke? then m + 1 else m;
    Half(Absorb(psize, a, k, c, up), at, s.trail)
  }

  ghost function PutTrack(psize: PageSize, t: Tree, d: nat, lo: Bound, hi: Bound, e: Entry, append: bool, p: Trail): Spot
    requires WF(psize, t, d, lo, hi, false) && OnEntry(t, p)
    requires AboveOrAt(lo, e.key.rank) && Below(e.key.rank, hi) && e.key.len <= MAXKEYSIZE
    decreases d, 2
  {
    match t
    case Leaf(es) => LeafTrack(psize, es, e, append, p[0])
    case Branch(kids) =>
      var i := ChildIndex(kids, e.key.rank);
      assert kids == kids[..i] + [kids[i]] + kids[i + 1..];
      BranchPutTrack(psize, kids[..i], kids[i], kids[i + 1..], d, lo, hi, e, append, p)
  }

  ghost function BranchPutTrack(psize: PageSize, a: seq<Kid>, k: Kid, c: seq<Kid>, d: nat, lo: Bound, hi: Bound, e: Entry,
                                append: bool, p: Trail): Spot
    requires WF(psize, Branch(a + [k] + c), d, lo, hi, false) && |a| == ChildIndex(a + [k] + c, e.key.rank)
    requires AboveOrAt(lo, e.key.rank) && Below(e.key.rank, hi) && e.key.len <= MAXKEYSIZE
    requires OnEntry(Branch(a + [k] + c), p)
    decreases d, 1
  {
    AbsorbTrack(psize, a, k, c, ChildUp(psize, a, k, c, d, lo, hi, e, append), p[0],
      ChildPutTrack(psize, a, k, c, d, lo, hi, e, append, p))
  }

  ghost function ChildPutTrack(psize: PageSize, a: seq<Kid>, k: Kid, c: seq<Kid>, d: nat, lo: Bound, hi: Bound, e: Entry,
                               append: bool, p: Trail): Spot
    requires WF(psize, Branch(a + [k] + c), d, lo, hi, false) && |a| == ChildIndex(a + [k] + c, e.key.rank)
    requires AboveOrAt(lo, e.key.rank) && Below(e.key.rank, hi) && e.key.len <= MAXKEYSIZE
    requires OnEntry(Branch(a + [k] + c), p)
    decreases d, 0
  {
    ChildBounds(psize, a, k, c, d - 1, lo, hi, e);
    if p[0] == |a| then PutTrack(psize, k.sub, d - 1, LowOf(a, [k], lo), HighOf(c, hi), e, append, p[1..])
    else Spot(false, p[1..])
  }

  // The entry a cursor was on, with its new value if it is the stored one.
  function Now(psize: PageSize, was: Entry, e: Entry): Entry {
    if was.key.rank == e.key.rank then Stored(psize, was, e) else was
  }

  lemma AbsorbTracks(psize: PageSize, a: seq<Kid>, k: Kid, c: seq<Kid>, up: Up, m: nat, s: Spot, x: Entry)
    requires !up.Full?
    requires if m == |a| then SpotAt(up, s, x) else AtKid(a + [k] + c, m, s.trail, x) && !s.right
    ensures SpotAt(Absorb(psize, a, k, c, up), AbsorbTrack(psize, a, k, c, up, m, s), x)
  {
    match up
    case Fit(t) =>
      var kids := a + [Kid(k.sep, t)] + c;
      assert AtKid(kids, m, s.trail, x);
      AtBranch(kids, m, s.trail, x);
    case Broke(left, sep, right) =>
      var full := a + [Kid(k.sep, left), Kid(sep, right)] + c;
      var at := if m == |a| then (if s.right then m + 1 else m) else if m > |a| then m + 1 else m;
      assert AtKid(full, at, s.trail, x);
      HalfOfBranch(psize, full, |a| + 1, at, s.trail, x);
  }

  // The entries of a leaf after a put, page by page.
  ghost predicate LeafUp(up: Up, es: seq<Entry>) {
    match up
    case Fit(t) => t == Leaf(es)
    case Broke(left, _, right) => left.Leaf? && right.Leaf? && left.es + right.es == es
    case Full(_, _, _) => true
  }

  lemma LeafPutUp(psize: PageSize, es: seq<Entry>, e: Entry, append: bool)
    requires Sorted(es) && KeySizes(es) && e.key.len <= MAXKEYSIZE && Sum(EntrySizes(psize, es)) <= PMax(psize)
    requires append ==> LowerBound(es, e.key.rank) == |es|
    ensures LeafUp(LeafPut(psize, es, e, append), Upsert(psize, es, e))
  {
    LeafPutOk(psize, es, e, append, None, None);
  }

  lemma LeafTracks(psize: PageSize, es: seq<Entry>, e: Entry, append: bool, j: nat)
    requires Sorted(es) && KeySizes(es) && e.key.len <= MAXKEYSIZE && Sum(EntrySizes(psize, es)) <= PMax(psize)
    requires append ==> LowerBound(es, e.key.rank) == |es|
    requires j < |es|
    ensures SpotAt(LeafPut(psize, es, e, append), LeafTrack(psize, es, e, append, j), Now(psize, es[j], e))
  {
    var i := LowerBound(es, e.key.rank);
    var at := if !Hits(es, e) && j >= i then j + 1 else j;
    LeafPutUp(psize, es, e, append);
    UpsertAt(psize, es, e, j);
    LeafHalf(LeafPut(psize, es, e, append), Upsert(psize, es, e), at);
  }

  lemma UpsertAt(psize: PageSize, es: seq<Entry>, e: Entry, j: nat)
    requires Sorted(es) && j < |es|
    ensures var at := if !Hits(es, e) && j >= LowerBound(es, e.key.rank) then j + 1 else j;
      at < |Upsert(psize, es, e)| && Upsert(psize, es, e)[at] == Now(psize, es[j], e)
  {
    var i := LowerBound(es, e.key.rank);
    if j != i { assert es[j].key.rank != e.key.rank; }
  }

  lemma LeafHalf(up: Up, es: seq<Entry>, at: nat)
    requires LeafUp(up, es) && at < |es|
    ensures SpotAt(up, Half(up, at, []), es[at])
  {
  }

  ghost predicate PutTracked(psize: PageSize, t: Tree, d: nat, lo: Bound, hi: Bound, e: Entry, append: bool, p: Trail)
    requires WF(psize, t, d, lo, hi, false) && OnEntry(t, p)
    requires AboveOrAt(lo, e.key.rank) && Below(e.key.rank, hi) && e.key.len <= MAXKEYSIZE
  {
    SpotAt(PutIn(psize, t, d, lo, hi, e, append), PutTrack(psize, t, d, lo, hi, e, append, p), Now(psize, EntryAt(t, p), e))
  }

  // However the pages are split, the cursor stays on its entry.
  lemma {:induction false} PutTracks(psize: PageSize, t: Tree, d: nat, lo: Bound, hi: Bound, e: Entry, append: bool, p: Trail)
    requires WF(psize, t, d, lo, hi, false) && OnEntry(t, p)
    requires AboveOrAt(lo, e.key.rank) && Below(e.key.rank, hi) && e.key.len <= MAXKEYSIZE
    requires append ==> LowerBound(Contents(t), e.key.rank) == |Contents(t)|
    ensures PutTracked(psize, t, d, lo, hi, e, append, p)
    decreases d, 3
  {
    if t.Leaf? {
      LeafTracks(psize, t.es, e, append, p[0]);
    } else {
      var i := ChildIndex(t.kids, e.key.rank);
      var a, k, c := t.kids[..i], t.kids[i], t.kids[i + 1..];
      assert t.kids == a + [k] + c;
      BranchPutTracks(psize, a, k, c, d, lo, hi, e, append, p);
    }
  }

  lemma BranchPutTracks(psize: PageSize, a: seq<Kid>, k: Kid, c: seq<Kid>, d: nat, lo: Bound, hi: Bound, e: Entry, append: bool,
                        p: Trail)
    requires WF(psize, Branch(a + [k] + c), d, lo, hi, false) && |a| == ChildIndex(a + [k] + c, e.key.rank)
    requires AboveOrAt(lo, e.key.rank) && Below(e.key.rank, hi) && e.key.len <= MAXKEYSIZE
    requires OnEntry(Branch(a + [k] + c), p)
    requires append ==> LowerBound(Cat(a + [k] + c), e.key.rank) == |Cat(a + [k] + c)|
    ensures SpotAt(PutIn(psize, Branch(a + [k] + c), d, lo, hi, e, append),
                   BranchPutTrack(psize, a, k, c, d, lo, hi, e, append, p), Now(psize, EntryAt(Branch(a + [k] + c), p), e))
    decreases d, 2
  {
    ChildTracks(psize, a, k, c, d, lo, hi, e, append, p);
    PutIsChildUp(psize, a, k, c, d, lo, hi, e, append);
    AbsorbFrom(psize, a, k, c, ChildUp(psize, a, k, c, d, lo, hi, e, append), p,
      ChildPutTrack(psize, a, k, c, d, lo, hi, e, append, p), Now(psize, EntryAt(Branch(a + [k] + c), p), e));
  }

  lemma ChildTracks(psize: PageSize, a: seq<Kid>, k: Kid, c: seq<Kid>, d: nat, lo: Bound, hi: Bound, e: Entry, append: bool, p: Trail)
    requires WF(psize, Branch(a + [k] + c), d, lo, hi, false) && |a| == ChildIndex(a + [k] + c, e.key.rank)
    requires AboveOrAt(lo, e.key.rank) && Below(e.key.rank, hi) && e.key.len <= MAXKEYSIZE
    requires OnEntry(Branch(a + [k] + c), p)
    requires append ==> LowerBound(Cat(a + [k] + c), e.key.rank) == |Cat(a + [k] + c)|
    ensures var x, s := Now(psize, EntryAt(Branch(a + [k] + c), p), e), ChildPutTrack(psize, a, k, c, d, lo, hi, e, append, p);
      if p[0] == |a| then SpotAt(ChildUp(psize, a, k, c, d, lo, hi, e, append), s, x)
      else s == Spot(false, p[1..]) && x == EntryAt(Branch(a + [k] + c), p)
    decreases d, 1
  {
    if p[0] == |a| {
      ChildOnPath(psize, a, k, c, d, lo, hi, e, append, p);
    } else {
      ChildOffPath(psize, a, k, c, d, lo, hi, e, append, p);
    }
  }

  lemma ChildOnPath(psize: PageSize, a: seq<Kid>, k: Kid, c: seq<Kid>, d: nat, lo: Bound, hi: Bound, e: Entry, append: bool, p: Trail)
    requires WF(psize, Branch(a + [k] + c), d, lo, hi, false) && |a| == ChildIndex(a + [k] + c, e.key.rank)
    requires AboveOrAt(lo, e.key.rank) && Below(e.key.rank, hi) && e.key.len <= MAXKEYSIZE
    requires OnEntry(Branch(a + [k] + c), p)
    requires append ==> LowerBound(Cat(a + [k] + c), e.key.rank) == |Cat(a + [k] + c)|
    requires p[0] == |a|
    ensures SpotAt(ChildUp(psize, a, k, c, d, lo, hi, e, append), ChildPutTrack(psize, a, k, c, d, lo, hi, e, append, p),
                   Now(psize, EntryAt(Branch(a + [k] + c), p), e))
    decreases d, 0
  {
    ChildBounds(psize, a, k, c, d - 1, lo, hi, e);
    ChildNotLast(psize, a, k, c, d - 1, lo, hi, e, append);
    PutTracks(psize, k.sub, d - 1, LowOf(a, [k], lo), HighOf(c, hi), e, append, p[1..]);
  }

  lemma ChildOffPath(psize: PageSize, a: seq<Kid>, k: Kid, c: seq<Kid>, d: nat, lo: Bound, hi: Bound, e: Entry, append: bool, p: Trail)
    requires WF(psize, Branch(a + [k] + c), d, lo, hi, false) && |a| == ChildIndex(a + [k] + c, e.key.rank)
    requires AboveOrAt(lo, e.key.rank) && Below(e.key.rank, hi) && e.key.len <= MAXKEYSIZE
    requires OnEntry(Branch(a + [k] + c), p)
    requires append ==> LowerBound(Cat(a + [k] + c), e.key.rank) == |Cat(a + [k] + c)|
    requires p[0] != |a|
    ensures ChildPutTrack(psize, a, k, c, d, lo, hi, e, append, p) == Spot(false, p[1..])
    ensures EntryAt(Branch(a + [k] + c), p).key.rank != e.key.rank
  {
    ChildBounds(psize, a, k, c, d - 1, lo, hi, e);
    OtherKid(psize, a, k, c, d - 1, lo, hi, e.key.rank, p);
  }

  // The parent's part, for a cursor at entry x below it.
  lemma AbsorbFrom(psize: PageSize, a: seq<Kid>, k: Kid, c: seq<Kid>, up: Up, p: Trail, s: Spot, x: Entry)
    requires OnEntry(Branch(a + [k] + c), p)
    requires if p[0] == |a| then SpotAt(up, s, x) else s == Spot(false, p[1..]) && x == EntryAt(Branch(a + [k] + c), p)
    ensures SpotAt(Absorb(psize, a, k, c, up), AbsorbTrack(psize, a, k, c, up, p[0], s), x)
  {
    if !up.Full? { AbsorbTracks(psize, a, k, c, up, p[0], s, x); }
  }

  lemma {:induction false} AtInContents(t: Tree, p: Trail)
    requires OnEntry(t, p)
    ensures EntryAt(t, p) in Contents(t)
    decreases |p|
  {
    if t.Branch? {
      AtInContents(t.kids[p[0]].sub, p[1..]);
      KidInCat(t.kids, p[0], EntryAt(t, p));
    }
  }

  lemma KidInCat(kids: seq<Kid>, m: nat, x: Entry)
    requires m < |kids| && x in Contents(kids[m].sub)
    ensures x in Cat(kids)
  {
    var a, k, c := kids[..m], kids[m], kids[m + 1..];
    assert kids == a + [k] + c;
    CatConcat(a + [k], c);
    CatConcat(a, [k]);
    CatOne(k);
  }

  // The key is in the range of child |a|, so no entry of another child has it.
  lemma OtherKid(psize: PageSize, a: seq<Kid>, k: Kid, c: seq<Kid>, d: nat, lo: Bound, hi: Bound, r: real, p: Trail)
    requires KidsWF(psize, a + [k] + c, d, lo, hi)
    requires AboveOrAt(LowOf(a, [k], lo), r) && Below(r, HighOf(c, hi))
    requires OnEntry(Branch(a + [k] + c), p) && p[0] != |a|
    ensures EntryAt(Branch(a + [k] + c), p).key.rank != r
  {
    var kids, m := a + [k] + c, p[0];
    AtInContents(kids[m].sub, p[1..]);
    Focus(psize, a, [k], c, d, lo, hi);
    if m < |a| {
      assert kids[m] == a[m];
      KidBelow(psize, a, m, d, lo, k.sep.rank, EntryAt(kids[m].sub, p[1..]));
    } else {
      assert kids[m] == c[m - |a| - 1];
      KidAbove(psize, c, m - |a| - 1, d, hi, EntryAt(kids[m].sub, p[1..]));
    }
  }

  lemma KidBelow(psize: PageSize, a: seq<Kid>, m: nat, d: nat, lo: Bound, r: real, x: Entry)
    requires m < |a| && KidsWF(psize, a, d, lo, Some(r)) && x in Contents(a[m].sub)
    ensures x.key.rank < r
  {
    KidInCat(a, m, x);
    CatSorted(psize, a, d, lo, Some(r));
  }

  lemma KidAbove(psize: PageSize, c: seq<Kid>, m: nat, d: nat, hi: Bound, x: Entry)
    requires m < |c| && KidsWF(psize, c, d, Some(c[0].sep.rank), hi) && x in Contents(c[m].sub)
    ensures c[0].sep.rank <= x.key.rank
  {
    KidInCat(c, m, x);
    CatSorted(psize, c, d, Some(c[0].sep.rank), hi);
  }

  // --- Two neighbouring pages -------------------------------------------

  // A cursor in one of two neighbours: in the right one or not.
  ghost predicate PairAt(x: Tree, y: Tree, s: Spot, e: Entry) { At(if s.right then y else x, s.trail, e) }

  // mdb_node_move from x to its right neighbour y: cursors on y move up by one
  // node, and one on the moved node goes with it.
  function MoveRightTrack(x: Tree, s: Spot): Spot
    requires s.trail != [] && 0 < NumKeys(x)
  {
    if s.right then Spot(true, [s.trail[0] + 1] + s.trail[1..])
    else if s.trail[0] == NumKeys(x) - 1 then Spot(true, [0] + s.trail[1..])
    else s
  }

  // mdb_node_move from y to its left neighbour x.
  function MoveLeftTrack(x: Tree, s: Spot): Spot
    requires s.trail != []
  {
    if !s.right then s
    else if s.trail[0] == 0 then Spot(false, [NumKeys(x)] + s.trail[1..])
    else Spot(true, [s.trail[0] - 1] + s.trail[1..])
  }

  // mdb_page_merge of y into x.
  function MergeTrack(x: Tree, s: Spot): Trail
    requires s.trail != []
  {
    if s.right then [s.trail[0] + NumKeys(x)] + s.trail[1..] else s.trail
  }

  // Node i of a page.
  ghost predicate AtNode(t: Tree, i: nat, p: Trail, e: Entry) {
    match t
    case Leaf(es) => i < |es| && p == [] && es[i] == e
    case Branch(kids) => AtKid(kids, i, p, e)
  }

  lemma AtIsNode(t: Tree, i: nat, p: Trail, e: Entry)
    ensures At(t, [i] + p, e) <==> AtNode(t, i, p, e)
  {
    if t.Branch? { AtBranch(t.kids, i, p, e); }
  }

  lemma SplitTrail(p: Trail)
    requires p != []
    ensures p == [p[0]] + p[1..]
  {
  }

  lemma MoveRightTracks(x: Tree, y: Tree, s: Spot, e: Entry)
    requires NumKeys(x) > MinKeys(x) && x.Leaf? == y.Leaf? && NumKeys(y) + 1 >= MinKeys(y) && PairAt(x, y, s, e)
    ensures s.trail != []
    ensures var m := MoveRight(x, y); PairAt(m.0, m.2, MoveRightTrack(x, s), e)
  {
    var m, i, p := MoveRight(x, y), s.trail[0], s.trail[1..];
    SplitTrail(s.trail);
    AtIsNode(if s.right then y else x, i, p, e);
    if s.right {
      AtIsNode(m.2, i + 1, p, e);
    } else if i == NumKeys(x) - 1 {
      AtIsNode(m.2, 0, p, e);
    } else {
      AtIsNode(m.0, i, p, e);
    }
  }

  lemma MoveLeftTracks(x: Tree, y: Tree, s: Spot, e: Entry)
    requires NumKeys(y) > MinKeys(y) && x.Leaf? == y.Leaf? && PairAt(x, y, s, e)
    ensures s.trail != []
    ensures var m := MoveLeft(x, y); PairAt(m.0, m.2, MoveLeftTrack(x, s), e)
  {
    var m, i, p := MoveLeft(x, y), s.trail[0], s.trail[1..];
    SplitTrail(s.trail);
    AtIsNode(if s.right then y else x, i, p, e);
    if !s.right {
      AtIsNode(m.0, i, p, e);
    } else if i == 0 {
      AtIsNode(m.0, NumKeys(x), p, e);
    } else {
      AtIsNode(m.2, i - 1, p, e);
    }
  }

  lemma MergeTracks(x: Tree, y: Tree, s: Spot, e: Entry)
    requires x.Leaf? == y.Leaf? && (y.Branch? ==> 1 <= |y.kids|) && PairAt(x, y, s, e)
    ensures s.trail != [] && At(Merge(x, y), MergeTrack(x, s), e)
  {
    var i, p := s.trail[0], s.trail[1..];
    SplitTrail(s.trail);
    AtIsNode(if s.right then y else x, i, p, e);
    AtIsNode(Merge(x, y), if s.right then i + NumKeys(x) else i, p, e);
  }

  // --- mdb_rebalance ----------------------------------------------------

  ghost predicate OutAt(out: Out, s: Spot, e: Entry) {
    match out
    case Done(up) => SpotAt(up, s, e)
    case Check(t) => !s.right && At(t, s.trail, e)
  }

  // The neighbours are children n and n + 1 of their parent, and the cursor is
  // at child m. Seen from the pair, and back.
  function InPair(n: nat, m: nat, p: Trail): Spot { Spot(m == n + 1, p) }

  predicate OfPair(n: nat, m: nat) { m == n || m == n + 1 }

  // After a move; the new separator may split the parent.
  ghost function MoveTrack(up: Up, n: nat, m: nat, p: Trail, moved: Spot): (s: Spot)
    ensures s.trail != []
  {
    if OfPair(n, m) then Half(up, if moved.right then n + 1 else n, moved.trail) else Half(up, m, p)
  }

  // After a merge; the right page is gone, and the children after it move down.
  function MergedTrack(x: Tree, n: nat, m: nat, p: Trail): (s: Spot)
    requires OfPair(n, m) ==> p != []
    ensures s.trail != []
  {
    if OfPair(n, m) then Spot(false, [n] + MergeTrack(x, InPair(n, m, p)))
    else Spot(false, [if m > n then m - 1 else m] + p)
  }

  // The parent of x and y, children |a| and |a| + 1, after a move between them.
  lemma MoveStays(psize: PageSize, a: seq<Kid>, x: Kid, y: Kid, x': Kid, y': Kid, c: seq<Kid>, m: nat, p: Trail, moved: Spot,
                  e: Entry)
    requires AtKid(a + [x, y] + c, m, p, e) && (OfPair(|a|, m) ==> PairAt(x'.sub, y'.sub, moved, e))
    ensures var up := BranchPut(psize, a + [x', y'] + c, |a| + 1); SpotAt(up, MoveTrack(up, |a|, m, p, moved), e)
  {
    var full := a + [x', y'] + c;
    if OfPair(|a|, m) {
      HalfOfBranch(psize, full, |a| + 1, if moved.right then |a| + 1 else |a|, moved.trail, e);
    } else {
      assert full[m] == (a + [x, y] + c)[m];
      HalfOfBranch(psize, full, |a| + 1, m, p, e);
    }
  }

  lemma MergeStays(a: seq<Kid>, x: Kid, y: Kid, c: seq<Kid>, m: nat, p: Trail, e: Entry)
    requires x.sub.Leaf? == y.sub.Leaf? && (y.sub.Branch? ==> 1 <= |y.sub.kids|) && AtKid(a + [x, y] + c, m, p, e)
    ensures OfPair(|a|, m) ==> p != []
    ensures At(Branch(a + [Kid(x.sep, Merge(x.sub, y.sub))] + c), MergedTrack(x.sub, |a|, m, p).trail, e)
  {
    var kids := a + [Kid(x.sep, Merge(x.sub, y.sub))] + c;
    if OfPair(|a|, m) {
      MergeTracks(x.sub, y.sub, InPair(|a|, m, p), e);
      AtBranch(kids, |a|, MergeTrack(x.sub, InPair(|a|, m, p)), e);
    } else {
      var at := if m > |a| then m - 1 else m;
      assert kids[at] == (a + [x, y] + c)[m];
      AtBranch(kids, at, p, e);
    }
  }

  // mdb_rebalance of child |a|; the cursor is at child m.
  ghost function RebalanceTrack(psize: PageSize, a: seq<Kid>, k: Kid, c: seq<Kid>, m: nat, p: Trail): (s: Spot)
    requires a == [] ==> c != [] && Beside(psize, c[0].sub, k.sub)
    requires a != [] ==> Beside(psize, a[|a| - 1].sub, k.sub)
    requires p != []
    ensures s.trail != []
  {
    if !Underfull(psize, k.sub) then Spot(false, [m] + p)
    else if a == [] then
      var up := Rebalance(psize, a, k, c);
      if up.Done? then MoveTrack(up.up, 0, m, p, MoveLeftTrack(k.sub, InPair(0, m, p)))
      else MergedTrack(k.sub, 0, m, p)
    else
      var up, n := Rebalance(psize, a, k, c), a[|a| - 1].sub;
      if up.Done? then MoveTrack(up.up, |a| - 1, m, p, MoveRightTrack(n, InPair(|a| - 1, m, p)))
      else MergedTrack(n, |a| - 1, m, p)
  }

  lemma RebalanceTracks(psize: PageSize, a: seq<Kid>, k: Kid, c: seq<Kid>, m: nat, p: Trail, e: Entry)
    requires a == [] ==> c != [] && Beside(psize, c[0].sub, k.sub)
    requires a != [] ==> Beside(psize, a[|a| - 1].sub, k.sub)
    requires AtKid(a + [k] + c, m, p, e)
    ensures p != [] && OutAt(Rebalance(psize, a, k, c), RebalanceTrack(psize, a, k, c, m, p), e)
  {
    AtBranch(a + [k] + c, m, p, e);
    if Underfull(psize, k.sub) {
      if a == [] {
        assert a + [k] + c == [] + [k, c[0]] + c[1..];
        RightTracks(psize, k, c[0], c[1..], m, p, e);
      } else {
        assert a + [k] + c == a[..|a| - 1] + [a[|a| - 1], k] + c;
        LeftTracks(psize, a[..|a| - 1], a[|a| - 1], k, c, m, p, e);
      }
    }
  }

  lemma RightTracks(psize: PageSize, k: Kid, n: Kid, rest: seq<Kid>, m: nat, p: Trail, e: Entry)
    requires Beside(psize, n.sub, k.sub) && AtKid([] + [k, n] + rest, m, p, e)
    ensures p != []
    ensures var out := RebalanceRight(psize, k, n, rest);
      OutAt(out, if out.Done? then MoveTrack(out.up, 0, m, p, MoveLeftTrack(k.sub, InPair(0, m, p)))
                 else MergedTrack(k.sub, 0, m, p), e)
  {
    if CanSpare(psize, n.sub) {
      var v := MoveLeft(k.sub, n.sub);
      if OfPair(0, m) { MoveLeftTracks(k.sub, n.sub, InPair(0, m, p), e); }
      MoveStays(psize, [], k, n, Kid(k.sep, v.0), Kid(v.1, v.2), rest, m, p, MoveLeftTrack(k.sub, InPair(0, m, p)), e);
    } else {
      MergeStays([], k, n, rest, m, p, e);
    }
  }

  lemma LeftTracks(psize: PageSize, rest: seq<Kid>, n: Kid, k: Kid, c: seq<Kid>, m: nat, p: Trail, e: Entry)
    requires Beside(psize, n.sub, k.sub) && AtKid(rest + [n, k] + c, m, p, e)
    ensures p != []
    ensures var out := RebalanceLeft(psize, rest, n, k, c);
      OutAt(out, if out.Done? then MoveTrack(out.up, |rest|, m, p, MoveRightTrack(n.sub, InPair(|rest|, m, p)))
                 else MergedTrack(n.sub, |rest|, m, p), e)
  {
    if CanSpare(psize, n.sub) {
      var v := MoveRight(n.sub, k.sub);
      if OfPair(|rest|, m) { MoveRightTracks(n.sub, k.sub, InPair(|rest|, m, p), e); }
      MoveStays(psize, rest, n, k, Kid(n.sep, v.0), Kid(v.1, v.2), c, m, p, MoveRightTrack(n.sub, InPair(|rest|, m, p)), e);
    } else {
      MergeStays(rest, n, k, c, m, p, e);
    }
  }

  // --- mdb_del ----------------------------------------------------------

  // mdb_cursor_del0 on the leaf: cursors beyond the deleted node move down.
  ghost function LeafDelTrack(es: seq<Entry>, r: real, j: nat): Spot {
    Spot(false, [if Present(es, r) && j > LowerBound(es, r) then j - 1 else j])
  }

  // The parent's part, for a cursor at child m.
  ghost function OnUpTrack(psize: PageSize, a: seq<Kid>, k: Kid, c: seq<Kid>, out: Out, d: nat, lo: Bound, hi: Bound,
                           content: seq<Entry>, m: nat, s: Spot): (r: Spot)
    requires WF(psize, Branch(a + [k] + c), d, lo, hi, false)
    requires OutOk(psize, out, d - 1, LowOf(a, [k], lo), HighOf(c, hi), content) && s.trail != []
    ensures r.trail != []
  {
    match out
    case Done(up) => AbsorbTrack(psize, a, k, c, up, m, s)
    case Check(t) =>
      Neighbours(psize, a, k, c, t, d - 1, lo, hi);
      RebalanceTrack(psize, a, Kid(k.sep, t), c, m, s.trail)
  }

  ghost function DelTrack(psize: PageSize, t: Tree, d: nat, lo: Bound, hi: Bound, r: real, p: Trail): (s: Spot)
    requires WF(psize, t, d, lo, hi, false) && AboveOrAt(lo, r) && Below(r, hi) && OnEntry(t, p)
    ensures s.trail != []
    decreases d, 2
  {
    match t
    case Leaf(es) => LeafDelTrack(es, r, p[0])
    case Branch(kids) =>
      var i := ChildIndex(kids, r);
      assert kids == kids[..i] + [kids[i]] + kids[i + 1..];
      BranchDelTrack(psize, kids[..i], kids[i], kids[i + 1..], d, lo, hi, r, p)
  }

  ghost function BranchDelTrack(psize: PageSize, a: seq<Kid>, k: Kid, c: seq<Kid>, d: nat, lo: Bound, hi: Bound, r: real,
                                p: Trail): (s: Spot)
    requires WF(psize, Branch(a + [k] + c), d, lo, hi, false) && |a| == ChildIndex(a + [k] + c, r)
    requires AboveOrAt(lo, r) && Below(r, hi) && OnEntry(Branch(a + [k] + c), p)
    ensures s.trail != []
    decreases d, 1
  {
    OnUpTrack(psize, a, k, c, ChildOut(psize, a, k, c, d, lo, hi, r), d, lo, hi, Remove(Contents(k.sub), r), p[0],
      ChildDelTrack(psize, a, k, c, d, lo, hi, r, p))
  }

  ghost function ChildDelTrack(psize: PageSize, a: seq<Kid>, k: Kid, c: seq<Kid>, d: nat, lo: Bound, hi: Bound, r: real,
                                p: Trail): (s: Spot)
    requires WF(psize, Branch(a + [k] + c), d, lo, hi, false) && |a| == ChildIndex(a + [k] + c, r)
    requires AboveOrAt(lo, r) && Below(r, hi) && OnEntry(Branch(a + [k] + c), p)
    ensures s.trail != []
    decreases d, 0
  {
    ChildFacts(psize, a, k, c, d, lo, hi, r);
    assert OnEntry((a + [k] + c)[p[0]].sub, p[1..]);
    if p[0] == |a| then DelTrack(psize, k.sub, d - 1, LowOf(a, [k], lo), HighOf(c, hi), r, p[1..]) else Spot(false, p[1..])
  }

  lemma LeafDelTracks(es: seq<Entry>, r: real, j: nat)
    requires Sorted(es) && j < |es| && es[j].key.rank != r
    ensures At(Leaf(Remove(es, r)), LeafDelTrack(es, r, j).trail, es[j])
  {
  }

  // The parent's part leaves a cursor on its entry.
  lemma OnUpTracks(psize: PageSize, a: seq<Kid>, k: Kid, c: seq<Kid>, out: Out, d: nat, lo: Bound, hi: Bound,
                   content: seq<Entry>, p: Trail, s: Spot, x: Entry)
    requires WF(psize, Branch(a + [k] + c), d, lo, hi, false) && OnEntry(Branch(a + [k] + c), p) && s.trail != []
    requires OutOk(psize, out, d - 1, LowOf(a, [k], lo), HighOf(c, hi), content)
    requires if p[0] == |a| then OutAt(out, s, x) else s == Spot(false, p[1..]) && x == EntryAt(Branch(a + [k] + c), p)
    ensures OutAt(OnUp(psize, a, k, c, out, d, lo, hi, content), OnUpTrack(psize, a, k, c, out, d, lo, hi, content, p[0], s), x)
  {
    match out
    case Done(up) => AbsorbFrom(psize, a, k, c, up, p, s, x);
    case Check(t) =>
      Neighbours(psize, a, k, c, t, d - 1, lo, hi);
      assert AtKid(a + [Kid(k.sep, t)] + c, p[0], s.trail, x);
      RebalanceTracks(psize, a, Kid(k.sep, t), c, p[0], s.trail, x);
  }

  // However the pages are merged, refilled and split, a cursor on another entry
  // stays on it.
  lemma {:induction false} DelTracks(psize: PageSize, t: Tree, d: nat, lo: Bound, hi: Bound, r: real, p: Trail)
    requires WF(psize, t, d, lo, hi, false) && AboveOrAt(lo, r) && Below(r, hi) && OnEntry(t, p)
    requires EntryAt(t, p).key.rank != r
    ensures OutAt(DelIn(psize, t, d, lo, hi, r), DelTrack(psize, t, d, lo, hi, r, p), EntryAt(t, p))
    decreases d, 2
  {
    if t.Leaf? {
      LeafDelTracks(t.es, r, p[0]);
    } else {
      var i := ChildIndex(t.kids, r);
      assert t.kids == t.kids[..i] + [t.kids[i]] + t.kids[i + 1..];
      BranchDelTracks(psize, t.kids[..i], t.kids[i], t.kids[i + 1..], d, lo, hi, r, p);
    }
  }

  lemma BranchDelTracks(psize: PageSize, a: seq<Kid>, k: Kid, c: seq<Kid>, d: nat, lo: Bound, hi: Bound, r: real, p: Trail)
    requires WF(psize, Branch(a + [k] + c), d, lo, hi, false) && |a| == ChildIndex(a + [k] + c, r)
    requires AboveOrAt(lo, r) && Below(r, hi) && OnEntry(Branch(a + [k] + c), p)
    requires EntryAt(Branch(a + [k] + c), p).key.rank != r
    ensures OutAt(DelIn(psize, Branch(a + [k] + c), d, lo, hi, r), BranchDelTrack(psize, a, k, c, d, lo, hi, r, p),
                  EntryAt(Branch(a + [k] + c), p))
    decreases d, 1
  {
    ChildDelTracks(psize, a, k, c, d, lo, hi, r, p);
    DelIsChildOut(psize, a, k, c, d, lo, hi, r);
    OnUpTracks(psize, a, k, c, ChildOut(psize, a, k, c, d, lo, hi, r), d, lo, hi, Remove(Contents(k.sub), r), p,
      ChildDelTrack(psize, a, k, c, d, lo, hi, r, p), EntryAt(Branch(a + [k] + c), p));
  }

  lemma ChildDelTracks(psize: PageSize, a: seq<Kid>, k: Kid, c: seq<Kid>, d: nat, lo: Bound, hi: Bound, r: real, p: Trail)
    requires WF(psize, Branch(a + [k] + c), d, lo, hi, false) && |a| == ChildIndex(a + [k] + c, r)
    requires AboveOrAt(lo, r) && Below(r, hi) && OnEntry(Branch(a + [k] + c), p)
    requires EntryAt(Branch(a + [k] + c), p).key.rank != r
    ensures var x, s := EntryAt(Branch(a + [k] + c), p), ChildDelTrack(psize, a, k, c, d, lo, hi, r, p);
      if p[0] == |a| then OutAt(ChildOut(psize, a, k, c, d, lo, hi, r), s, x) else s == Spot(false, p[1..])
    decreases d, 0
  {
    ChildFacts(psize, a, k, c, d, lo, hi, r);
    if p[0] == |a| { DelTracks(psize, k.sub, d - 1, LowOf(a, [k], lo), HighOf(c, hi), r, p[1..]); }
  }

  // --- The whole tree ---------------------------------------------------

  // A new root above the halves of the old one.
  function AboveRoot(up: Up, s: Spot): Trail {
    if up.Broke? then [if s.right then 1 else 0] + s.trail else s.trail
  }

  // A root that makes way for its only child.
  function BelowRoot(t: Tree, p: Trail): Trail
    requires p != []
  {
    if t.Branch? && |t.kids| == 1 then p[1..] else p
  }

  lemma AboveRootAt(up: Up, s: Spot, d: nat, x: Entry)
    requires SpotAt(up, s, x) && !up.Full?
    ensures AtRoot(up, d).Put? && AtRoot(up, d).db.Root? && At(AtRoot(up, d).db.tree, AboveRoot(up, s), x)
  {
    if up.Broke? {
      AtBranch([Kid(NullKey, up.left), Kid(up.sep, up.right)], if s.right then 1 else 0, s.trail, x);
    }
  }

  lemma BelowRootAt(t: Tree, p: Trail, d: nat, x: Entry)
    requires At(t, p, x) && 0 < d
    ensures p != [] && RebalanceRoot(t, d).Put? && RebalanceRoot(t, d).db.Root?
    ensures At(RebalanceRoot(t, d).db.tree, BelowRoot(t, p), x)
  {
  }

  // Where a cursor on the entry of trail p is after mdb_put.
  ghost function PutCursor(psize: PageSize, db: Db, e: Entry, append: bool, p: Trail): Trail
    requires ValidDb(psize, db) && db.Root? && e.key.len <= MAXKEYSIZE && OnEntry(db.tree, p)
  {
    AboveRoot(PutIn(psize, db.tree, db.depth, None, None, e, append), PutTrack(psize, db.tree, db.depth, None, None, e, append, p))
  }

  // After mdb_put every cursor is on the entry it was on, which has its new
  // value if it is the stored one.
  lemma PutKeepsCursor(psize: PageSize, db: Db, e: Entry, append: bool, p: Trail)
    requires ValidDb(psize, db) && db.Root? && e.key.len <= MAXKEYSIZE && OnEntry(db.tree, p)
    requires append ==> LowerBound(Items(db), e.key.rank) == |Items(db)|
    ensures var r := DbPut(psize, db, e, append);
      r.Put? ==> r.db.Root? && At(r.db.tree, PutCursor(psize, db, e, append, p), Now(psize, EntryAt(db.tree, p), e))
  {
    var up, s := PutIn(psize, db.tree, db.depth, None, None, e, append),
      PutTrack(psize, db.tree, db.depth, None, None, e, append, p);
    PutTracks(psize, db.tree, db.depth, None, None, e, append, p);
    if !up.Full? { AboveRootAt(up, s, db.depth, Now(psize, EntryAt(db.tree, p), e)); }
  }

  ghost function DelCursor(psize: PageSize, db: Db, r: real, p: Trail): Trail
    requires ValidDb(psize, db) && db.Root? && OnEntry(db.tree, p)
  {
    var s := DelTrack(psize, db.tree, db.depth, None, None, r, p);
    match DelIn(psize, db.tree, db.depth, None, None, r)
    case Done(up) => AboveRoot(up, s)
    case Check(t) => BelowRoot(t, s.trail)
  }

  // After mdb_del every cursor on another entry is still on it.
  lemma DelKeepsCursor(psize: PageSize, db: Db, r: real, p: Trail)
    requires ValidDb(psize, db) && db.Root? && Present(Items(db), r) && OnEntry(db.tree, p)
    requires EntryAt(db.tree, p).key.rank != r
    ensures DbDel(psize, db, r).Deleted?
    ensures var res := DbDel(psize, db, r).result;
      res.Put? ==> res.db.Root? && At(res.db.tree, DelCursor(psize, db, r, p), EntryAt(db.tree, p))
  {
    DelIsAtTop(psize, db, r);
    DelTracks(psize, db.tree, db.depth, None, None, r, p);
    TopTracks(DelIn(psize, db.tree, db.depth, None, None, r), DelTrack(psize, db.tree, db.depth, None, None, r, p), db.depth,
      EntryAt(db.tree, p));
  }

  lemma TopTracks(out: Out, s: Spot, d: nat, x: Entry)
    requires OutAt(out, s, x) && s.trail != [] && 0 < d
    ensures var res := AtTop(out, d);
      !res.Put? || (res.db.Root? && At(res.db.tree, if out.Done? then AboveRoot(out.up, s) else BelowRoot(out.t, s.trail), x))
  {
    match out
    case Done(up) => if !up.Full? { AboveRootAt(up, s, d, x); }
    case Check(t) => BelowRootAt(t, s.trail, d, x);
  }
}
