// The counters of a database record (struct MDB_db in liblmdb/src/mdb.c):
// md_depth, md_branch_pages, md_leaf_pages and md_entries are never computed
// from the tree. mdb_page_new, mdb_page_merge, mdb_rebalance and the put and
// delete operations adjust them, and they always describe the tree.

module BTreeStat {
  import opened PageFormat
  import opened BTree
  import opened SplitPoint
  import opened BTreePut
  import opened BTreeDel
  import opened BTreeLimits

  datatype Counters = Counters(depth: int, branch: int, leaf: int, entries: int)

  // --- What the tree has ------------------------------------------------

  // Leaf pages of a tree, or its branch pages.
  function Pages(t: Tree, leaf: bool): nat
    decreases t, 1
  {
    match t
    case Leaf(_) => if leaf then 1 else 0
    case Branch(kids) => (if leaf then 0 else 1) + KidPages(kids, leaf)
  }

  function KidPages(kids: seq<Kid>, leaf: bool): nat
    decreases kids, 0
  {
    if kids == [] then 0 else assert kids[0].sub < kids[0]; Pages(kids[0].sub, leaf) + KidPages(kids[1..], leaf)
  }

  ghost predicate PagesRight(n: Counters, db: Db) {
    match db
    case Empty => n.depth == 0 && n.branch == 0 && n.leaf == 0
    case Root(t, d) => n.depth == d && n.branch == Pages(t, false) && n.leaf == Pages(t, true)
  }

  ghost predicate Describes(n: Counters, db: Db) {
    PagesRight(n, db) && n.entries == |Items(db)|
  }

  lemma {:induction false} PagesConcat(a: seq<Kid>, b: seq<Kid>, leaf: bool)
    ensures KidPages(a + b, leaf) == KidPages(a, leaf) + KidPages(b, leaf)
  {
    if a == [] {
      assert a + b == b;
    } else {
      assert (a + b)[1..] == a[1..] + b;
      PagesConcat(a[1..], b, leaf);
    }
  }

  lemma PagesOne(k: Kid, leaf: bool)
    ensures KidPages([k], leaf) == Pages(k.sub, leaf)
  {
    assert [k][1..] == [];
  }

  lemma PagesTwo(x: Kid, y: Kid, leaf: bool)
    ensures KidPages([x, y], leaf) == Pages(x.sub, leaf) + Pages(y.sub, leaf)
  {
    assert [x, y][1..] == [y];
    PagesOne(y, leaf);
  }

  lemma PagesAround(a: seq<Kid>, mid: seq<Kid>, c: seq<Kid>, leaf: bool)
    ensures KidPages(a + mid + c, leaf) == KidPages(a, leaf) + KidPages(mid, leaf) + KidPages(c, leaf)
  {
    PagesConcat(a + mid, c, leaf);
    PagesConcat(a, mid, leaf);
  }

  // Keys play no part.
  lemma PagesHead(kids: seq<Kid>, sep: Key, leaf: bool)
    requires 1 <= |kids|
    ensures KidPages(kids[0 := Kid(sep, kids[0].sub)], leaf) == KidPages(kids, leaf)
  {
    assert kids[0 := Kid(sep, kids[0].sub)][1..] == kids[1..];
  }

  // --- How the counters move --------------------------------------------

  // mdb_page_new for the new right page, if a page has been split.
  function AfterSplit(n: Counters, leaf: bool, up: Up): Counters {
    if !up.Broke? then n
    else if leaf then n.(leaf := n.leaf + 1)
    else n.(branch := n.branch + 1)
  }

  // mdb_page_merge gives one page up.
  function AfterMerge(n: Counters, leaf: bool): Counters {
    if leaf then n.(leaf := n.leaf - 1) else n.(branch := n.branch - 1)
  }

  // A put below page t, split by split on the way up.
  ghost function PutCount(psize: PageSize, n: Counters, t: Tree, d: nat, lo: Bound, hi: Bound, e: Entry, append: bool): Counters
    requires WF(psize, t, d, lo, hi, false)
    requires AboveOrAt(lo, e.key.rank) && Below(e.key.rank, hi) && e.key.len <= MAXKEYSIZE
    decreases d
  {
    var up := PutIn(psize, t, d, lo, hi, e, append);
    match t
    case Leaf(_) => AfterSplit(n, true, up)
    case Branch(kids) =>
      var i := ChildIndex(kids, e.key.rank);
      var a, k, c := kids[..i], kids[i], kids[i + 1..];
      assert kids == a + [k] + c;
      ChildBounds(psize, a, k, c, d - 1, lo, hi, e);
      AfterSplit(PutCount(psize, n, k.sub, d - 1, LowOf(a, [k], lo), HighOf(c, hi), e, append), false, up)
  }

  // mdb_rebalance of child k: a move may split the parent, a merge gives up a
  // page.
  ghost function RebalanceCount(psize: PageSize, n: Counters, a: seq<Kid>, k: Kid, c: seq<Kid>): Counters
    requires a == [] ==> c != [] && Beside(psize, c[0].sub, k.sub)
    requires a != [] ==> Beside(psize, a[|a| - 1].sub, k.sub)
  {
    match Rebalance(psize, a, k, c)
    case Done(up) => AfterSplit(n, false, up)
    case Check(_) => AfterMerge(n, k.sub.Leaf?)
  }

  ghost function OnUpCount(psize: PageSize, n: Counters, a: seq<Kid>, k: Kid, c: seq<Kid>, out: Out, d: nat, lo: Bound, hi: Bound,
                           content: seq<Entry>): Counters
    requires WF(psize, Branch(a + [k] + c), d, lo, hi, false)
    requires OutOk(psize, out, d - 1, LowOf(a, [k], lo), HighOf(c, hi), content)
  {
    match out
    case Done(up) => AfterSplit(n, false, Absorb(psize, a, k, c, up))
    case Check(t) =>
      Neighbours(psize, a, k, c, t, d - 1, lo, hi);
      RebalanceCount(psize, n, a, Kid(k.sep, t), c)
  }

  // A delete below page t.
  ghost function DelCount(psize: PageSize, n: Counters, t: Tree, d: nat, lo: Bound, hi: Bound, r: real): Counters
    requires WF(psize, t, d, lo, hi, false) && AboveOrAt(lo, r) && Below(r, hi)
    decreases d, 2
  {
    match t
    case Leaf(_) => n
    case Branch(kids) =>
      var i := ChildIndex(kids, r);
      assert kids == kids[..i] + [kids[i]] + kids[i + 1..];
      BranchDelCount(psize, n, kids[..i], kids[i], kids[i + 1..], d, lo, hi, r)
  }

  ghost function BranchDelCount(psize: PageSize, n: Counters, a: seq<Kid>, k: Kid, c: seq<Kid>, d: nat, lo: Bound, hi: Bound,
                                r: real): Counters
    requires WF(psize, Branch(a + [k] + c), d, lo, hi, false) && |a| == ChildIndex(a + [k] + c, r)
    requires AboveOrAt(lo, r) && Below(r, hi)
    decreases d, 1
  {
    OnUpCount(psize, ChildCount(psize, n, a, k, c, d, lo, hi, r), a, k, c, ChildOut(psize, a, k, c, d, lo, hi, r), d, lo, hi,
      Remove(Contents(k.sub), r))
  }

  ghost function ChildCount(psize: PageSize, n: Counters, a: seq<Kid>, k: Kid, c: seq<Kid>, d: nat, lo: Bound, hi: Bound,
                            r: real): Counters
    requires WF(psize, Branch(a + [k] + c), d, lo, hi, false) && |a| == ChildIndex(a + [k] + c, r)
    requires AboveOrAt(lo, r) && Below(r, hi)
    decreases d, 0
  {
    ChildFacts(psize, a, k, c, d, lo, hi, r);
    DelCount(psize, n, k.sub, d - 1, LowOf(a, [k], lo), HighOf(c, hi), r)
  }

  // A split root page: a new branch page above it.
  function AfterRoot(n: Counters, up: Up): Counters {
    if up.Broke? then n.(branch := n.branch + 1, depth := n.depth + 1) else n
  }

  // mdb_put: an empty database gets a root leaf page, and only a new key is
  // one more entry.
  ghost function DbPutCount(psize: PageSize, n: Counters, db: Db, e: Entry, append: bool): Counters
    requires ValidDb(psize, db) && e.key.len <= MAXKEYSIZE
  {
    if db.Empty? then Counters(n.depth + 1, n.branch, n.leaf + 1, n.entries + 1)
    else
      var up := PutIn(psize, db.tree, db.depth, None, None, e, append);
      var n' := AfterRoot(PutCount(psize, n, db.tree, db.depth, None, None, e, append), up);
      if Hits(Items(db), e) then n' else n'.(entries := n'.entries + 1)
  }

  // mdb_rebalance at the root: an empty leaf is given up with the whole tree,
  // and a branch page with one child makes way for that child.
  function RootCount(n: Counters, t: Tree): Counters {
    match t
    case Leaf(es) => if es == [] then n.(depth := 0, leaf := 0) else n
    case Branch(kids) => if |kids| == 1 then n.(depth := n.depth - 1, branch := n.branch - 1) else n
  }

  // mdb_cursor_del0, which first counts one entry less.
  function OneLess(n: Counters): Counters { n.(entries := n.entries - 1) }

  ghost function TreeDelCount(psize: PageSize, n: Counters, t: Tree, d: nat, r: real): Counters
    requires WF(psize, t, d, None, None, false)
  {
    TopCount(DelCount(psize, n, t, d, None, None, r), DelIn(psize, t, d, None, None, r))
  }

  ghost function TopCount(n: Counters, out: Out): Counters {
    match out
    case Done(up) => AfterRoot(n, up)
    case Check(t) => RootCount(n, t)
  }

  // --- They agree -------------------------------------------------------

  function UpPages(up: Up, leaf: bool): nat {
    match up
    case Fit(t) => Pages(t, leaf)
    case Broke(left, _, right) => Pages(left, leaf) + Pages(right, leaf)
    case Full(_, _, _) => 0
  }

  function OutPages(out: Out, leaf: bool): nat {
    match out case Done(up) => UpPages(up, leaf) case Check(t) => Pages(t, leaf)
  }

  function Counted(n: Counters, leaf: bool): int { if leaf then n.leaf else n.branch }

  // From n to n' the counter has moved by the pages gained since `was`.
  ghost predicate Moves(n: Counters, n': Counters, out: Out, was: nat, leaf: bool) {
    && n'.depth == n.depth && n'.entries == n.entries
    && (!Fails(out) ==> Counted(n', leaf) - Counted(n, leaf) == OutPages(out, leaf) - was)
  }

  lemma SplitPages(psize: PageSize, full: seq<Kid>, j: nat, leaf: bool)
    requires j < |full|
    ensures var up := BranchPut(psize, full, j);
      !up.Full? ==> UpPages(up, leaf) == KidPages(full, leaf) + if leaf then 0 else if up.Broke? then 2 else 1
  {
    var up := BranchPut(psize, full, j);
    if up.Broke? {
      var s := |up.left.kids|;
      assert full == full[..s] + full[s..];
      PagesConcat(full[..s], full[s..], leaf);
      PagesHead(full[s..], NullKey, leaf);
    }
  }

  lemma AbsorbPages(psize: PageSize, a: seq<Kid>, k: Kid, c: seq<Kid>, up: Up, leaf: bool)
    requires !up.Full?
    ensures var res := Absorb(psize, a, k, c, up);
      res.Full? || UpPages(res, leaf) ==
        KidPages(a, leaf) + UpPages(up, leaf) + KidPages(c, leaf) + if leaf then 0 else if res.Broke? then 2 else 1
  {
    match up
    case Fit(t) =>
      PagesAround(a, [Kid(k.sep, t)], c, leaf);
      PagesOne(Kid(k.sep, t), leaf);
    case Broke(left, sep, right) =>
      var mid := [Kid(k.sep, left), Kid(sep, right)];
      PagesAround(a, mid, c, leaf);
      PagesTwo(mid[0], mid[1], leaf);
      SplitPages(psize, a + mid + c, |a| + 1, leaf);
  }

  lemma LeafSplitPages(psize: PageSize, full: seq<Entry>, j: nat, append: bool, leaf: bool)
    requires 3 <= |full| && j < |full|
    ensures var up := SplitLeaf(psize, full, j, append);
      !up.Full? ==> up.Broke? && UpPages(up, leaf) == if leaf then 2 else 0
  {
  }

  lemma LeafPages(psize: PageSize, es: seq<Entry>, e: Entry, append: bool, leaf: bool)
    requires Sorted(es) && KeySizes(es) && e.key.len <= MAXKEYSIZE && Sum(EntrySizes(psize, es)) <= PMax(psize)
    ensures var up := LeafPut(psize, es, e, append);
      !up.Full? ==> UpPages(up, leaf) == if !leaf then 0 else if up.Broke? then 2 else 1
  {
    var i := LowerBound(es, e.key.rank);
    OtherNodesOk(psize, es, e);
    var rest := OtherNodes(es, e);
    if PMax(psize) - Sum(EntrySizes(psize, rest)) < EntrySize(psize, e) {
      LeafMustSplit(psize, rest, i, e);
      LeafSplitPages(psize, Splice(rest, i, 0, e), i, append, leaf);
    }
  }

  // However the pages were split, the counters moved by what the tree gained.
  lemma {:induction false} PutCounts(psize: PageSize, n: Counters, t: Tree, d: nat, lo: Bound, hi: Bound, e: Entry, append: bool,
                                     leaf: bool)
    requires WF(psize, t, d, lo, hi, false)
    requires AboveOrAt(lo, e.key.rank) && Below(e.key.rank, hi) && e.key.len <= MAXKEYSIZE
    ensures Moves(n, PutCount(psize, n, t, d, lo, hi, e, append), Done(PutIn(psize, t, d, lo, hi, e, append)), Pages(t, leaf), leaf)
    decreases d
  {
    if t.Leaf? {
      LeafPages(psize, t.es, e, append, leaf);
    } else {
      var i := ChildIndex(t.kids, e.key.rank);
      var a, k, c := t.kids[..i], t.kids[i], t.kids[i + 1..];
      assert t.kids == a + [k] + c;
      ChildBounds(psize, a, k, c, d - 1, lo, hi, e);
      PutCounts(psize, n, k.sub, d - 1, LowOf(a, [k], lo), HighOf(c, hi), e, append, leaf);
      ParentPutCounts(psize, n, t, a, k, c, d, lo, hi, e, append, leaf);
    }
  }

  lemma ParentPutCounts(psize: PageSize, n: Counters, t: Tree, a: seq<Kid>, k: Kid, c: seq<Kid>, d: nat, lo: Bound, hi: Bound,
                        e: Entry, append: bool, leaf: bool)
    requires WF(psize, t, d, lo, hi, false) && t == Branch(a + [k] + c) && |a| == ChildIndex(t.kids, e.key.rank)
    requires AboveOrAt(lo, e.key.rank) && Below(e.key.rank, hi) && e.key.len <= MAXKEYSIZE
    requires var loi, hii := LowOf(a, [k], lo), HighOf(c, hi);
      WF(psize, k.sub, d - 1, loi, hii, false) && AboveOrAt(loi, e.key.rank) && Below(e.key.rank, hii) &&
      Moves(n, PutCount(psize, n, k.sub, d - 1, loi, hii, e, append), Done(PutIn(psize, k.sub, d - 1, loi, hii, e, append)),
            Pages(k.sub, leaf), leaf)
    ensures Moves(n, PutCount(psize, n, t, d, lo, hi, e, append), Done(PutIn(psize, t, d, lo, hi, e, append)), Pages(t, leaf), leaf)
  {
    var loi, hii := LowOf(a, [k], lo), HighOf(c, hi);
    PutIsAbsorb(psize, t, a, k, c, d, lo, hi, e, append);
    CountIsAbsorb(psize, n, t, a, k, c, d, lo, hi, e, append);
    AbsorbCounts(psize, n, PutCount(psize, n, k.sub, d - 1, loi, hii, e, append), a, k, c,
      PutIn(psize, k.sub, d - 1, loi, hii, e, append), leaf);
  }

  lemma CountIsAbsorb(psize: PageSize, n: Counters, t: Tree, a: seq<Kid>, k: Kid, c: seq<Kid>, d: nat, lo: Bound, hi: Bound,
                      e: Entry, append: bool)
    requires WF(psize, t, d, lo, hi, false) && t == Branch(a + [k] + c) && |a| == ChildIndex(t.kids, e.key.rank)
    requires AboveOrAt(lo, e.key.rank) && Below(e.key.rank, hi) && e.key.len <= MAXKEYSIZE
    ensures var loi, hii := LowOf(a, [k], lo), HighOf(c, hi);
      0 < d && WF(psize, k.sub, d - 1, loi, hii, false) && AboveOrAt(loi, e.key.rank) && Below(e.key.rank, hii) &&
      PutCount(psize, n, t, d, lo, hi, e, append) ==
        AfterSplit(PutCount(psize, n, k.sub, d - 1, loi, hii, e, append), false, PutIn(psize, t, d, lo, hi, e, append))
  {
    ChildBounds(psize, a, k, c, d - 1, lo, hi, e);
    assert t.kids[..|a|] == a && t.kids[|a|] == k && t.kids[|a| + 1..] == c;
  }

  lemma AbsorbCounts(psize: PageSize, n: Counters, below: Counters, a: seq<Kid>, k: Kid, c: seq<Kid>, up: Up, leaf: bool)
    requires Moves(n, below, Done(up), Pages(k.sub, leaf), leaf)
    ensures Moves(n, AfterSplit(below, false, Absorb(psize, a, k, c, up)), Done(Absorb(psize, a, k, c, up)),
                  Pages(Branch(a + [k] + c), leaf), leaf)
  {
    if !up.Full? { AbsorbPages(psize, a, k, c, up, leaf); }
    PagesAround(a, [k], c, leaf);
    PagesOne(k, leaf);
  }

  lemma MergePages(x: Tree, y: Tree, leaf: bool)
    requires x.Leaf? == y.Leaf? && (y.Branch? ==> 1 <= |y.kids|)
    ensures Pages(Merge(x, y), leaf) == Pages(x, leaf) + Pages(y, leaf) - if x.Leaf? == leaf then 1 else 0
  {
    if x.Branch? {
      PagesConcat(x.kids, WithKey(y.kids), leaf);
      PagesHead(y.kids, Lowest(y.kids[0].sub), leaf);
    }
  }

  lemma MoveRightPages(x: Tree, y: Tree, leaf: bool)
    requires NumKeys(x) > MinKeys(x) && x.Leaf? == y.Leaf? && NumKeys(y) + 1 >= MinKeys(y)
    ensures var m := MoveRight(x, y); Pages(m.0, leaf) + Pages(m.2, leaf) == Pages(x, leaf) + Pages(y, leaf)
  {
    if x.Branch? {
      var j := |x.kids| - 1;
      assert x.kids == x.kids[..j] + [x.kids[j]];
      PagesConcat(x.kids[..j], [x.kids[j]], leaf);
      PagesOne(x.kids[j], leaf);
      PagesOne(Kid(NullKey, x.kids[j].sub), leaf);
      PagesConcat([Kid(NullKey, x.kids[j].sub)], WithKey(y.kids), leaf);
      PagesHead(y.kids, Lowest(y.kids[0].sub), leaf);
    }
  }

  lemma MoveLeftPages(x: Tree, y: Tree, leaf: bool)
    requires NumKeys(y) > MinKeys(y) && x.Leaf? == y.Leaf?
    ensures var m := MoveLeft(x, y); Pages(m.0, leaf) + Pages(m.2, leaf) == Pages(x, leaf) + Pages(y, leaf)
  {
    if x.Branch? {
      assert WithKey(y.kids)[..1] == [WithKey(y.kids)[0]] && y.kids == [y.kids[0]] + y.kids[1..];
      PagesConcat([y.kids[0]], y.kids[1..], leaf);
      PagesOne(y.kids[0], leaf);
      PagesOne(WithKey(y.kids)[0], leaf);
      PagesConcat(x.kids, WithKey(y.kids)[..1], leaf);
      PagesHead(y.kids[1..], NullKey, leaf);
    }
  }

  // The parent of two neighbours x and y after a move has left x' and y'.
  lemma PairPages(psize: PageSize, a: seq<Kid>, x: Kid, y: Kid, x': Kid, y': Kid, c: seq<Kid>, leaf: bool)
    requires Pages(x'.sub, leaf) + Pages(y'.sub, leaf) == Pages(x.sub, leaf) + Pages(y.sub, leaf)
    ensures var up := BranchPut(psize, a + [x', y'] + c, |a| + 1);
      !up.Full? ==> UpPages(up, leaf) == KidPages(a + [x, y] + c, leaf) + if leaf then 0 else if up.Broke? then 2 else 1
  {
    PagesAround(a, [x, y], c, leaf);
    PagesAround(a, [x', y'], c, leaf);
    PagesTwo(x, y, leaf);
    PagesTwo(x', y', leaf);
    SplitPages(psize, a + [x', y'] + c, |a| + 1, leaf);
  }

  // The parent after a merge of x and y.
  lemma MergedPages(a: seq<Kid>, x: Kid, y: Kid, c: seq<Kid>, leaf: bool)
    requires x.sub.Leaf? == y.sub.Leaf? && (y.sub.Branch? ==> 1 <= |y.sub.kids|)
    ensures KidPages(a + [Kid(x.sep, Merge(x.sub, y.sub))] + c, leaf) ==
      KidPages(a + [x, y] + c, leaf) - if x.sub.Leaf? == leaf then 1 else 0
  {
    var m := Kid(x.sep, Merge(x.sub, y.sub));
    PagesAround(a, [x, y], c, leaf);
    PagesAround(a, [m], c, leaf);
    PagesTwo(x, y, leaf);
    PagesOne(m, leaf);
    MergePages(x.sub, y.sub, leaf);
  }

  lemma RebalanceCounts(psize: PageSize, n: Counters, a: seq<Kid>, k: Kid, c: seq<Kid>, leaf: bool)
    requires a == [] ==> c != [] && Beside(psize, c[0].sub, k.sub)
    requires a != [] ==> Beside(psize, a[|a| - 1].sub, k.sub)
    ensures Moves(n, RebalanceCount(psize, n, a, k, c), Rebalance(psize, a, k, c), Pages(Branch(a + [k] + c), leaf), leaf)
  {
    if Underfull(psize, k.sub) { RebalanceGains(psize, a, k, c, leaf); }
  }

  lemma RebalanceGains(psize: PageSize, a: seq<Kid>, k: Kid, c: seq<Kid>, leaf: bool)
    requires a == [] ==> c != [] && Beside(psize, c[0].sub, k.sub)
    requires a != [] ==> Beside(psize, a[|a| - 1].sub, k.sub)
    requires Underfull(psize, k.sub)
    ensures var out, was := Rebalance(psize, a, k, c), Pages(Branch(a + [k] + c), leaf);
      Fails(out) || OutPages(out, leaf) == was + Gained(out, k.sub.Leaf?, leaf)
  {
    if a == [] {
      assert a + [k] + c == [] + [k, c[0]] + c[1..];
      RightCounts(psize, k, c[0], c[1..], leaf);
    } else {
      assert a + [k] + c == a[..|a| - 1] + [a[|a| - 1], k] + c;
      LeftCounts(psize, a[..|a| - 1], a[|a| - 1], k, c, leaf);
    }
  }

  // Pages gained at a rebalance of a leaf (or branch) page.
  function Gained(out: Out, ofLeaf: bool, leaf: bool): int {
    match out
    case Done(up) => if up.Broke? && !leaf then 1 else 0
    case Check(_) => if ofLeaf == leaf then -1 else 0
  }

  lemma RightCounts(psize: PageSize, k: Kid, y: Kid, rest: seq<Kid>, leaf: bool)
    requires Beside(psize, y.sub, k.sub)
    ensures var out, was := RebalanceRight(psize, k, y, rest), KidPages([] + [k, y] + rest, leaf) + if leaf then 0 else 1;
      Fails(out) || OutPages(out, leaf) == was + Gained(out, k.sub.Leaf?, leaf)
  {
    if CanSpare(psize, y.sub) {
      var m := MoveLeft(k.sub, y.sub);
      MoveLeftPages(k.sub, y.sub, leaf);
      PairPages(psize, [], k, y, Kid(k.sep, m.0), Kid(m.1, m.2), rest, leaf);
    } else {
      MergedPages([], k, y, rest, leaf);
    }
  }

  lemma LeftCounts(psize: PageSize, rest: seq<Kid>, x: Kid, k: Kid, c: seq<Kid>, leaf: bool)
    requires Beside(psize, x.sub, k.sub)
    ensures var out, was := RebalanceLeft(psize, rest, x, k, c), KidPages(rest + [x, k] + c, leaf) + if leaf then 0 else 1;
      Fails(out) || OutPages(out, leaf) == was + Gained(out, k.sub.Leaf?, leaf)
  {
    if CanSpare(psize, x.sub) {
      var m := MoveRight(x.sub, k.sub);
      MoveRightPages(x.sub, k.sub, leaf);
      PairPages(psize, rest, x, k, Kid(x.sep, m.0), Kid(m.1, m.2), c, leaf);
    } else {
      MergedPages(rest, x, k, c, leaf);
    }
  }

  lemma OnUpCounts(psize: PageSize, n: Counters, a: seq<Kid>, k: Kid, c: seq<Kid>, out: Out, d: nat, lo: Bound, hi: Bound,
                   content: seq<Entry>, leaf: bool)
    requires WF(psize, Branch(a + [k] + c), d, lo, hi, false)
    requires OutOk(psize, out, d - 1, LowOf(a, [k], lo), HighOf(c, hi), content)
    ensures var res, n' := OnUp(psize, a, k, c, out, d, lo, hi, content), OnUpCount(psize, n, a, k, c, out, d, lo, hi, content);
      && n'.depth == n.depth && n'.entries == n.entries
      && (Fails(res) || Counted(n', leaf) - Counted(n, leaf) ==
           OutPages(res, leaf) - KidPages(a, leaf) - OutPages(out, leaf) - KidPages(c, leaf) - if leaf then 0 else 1)
  {
    match out
    case Done(up) =>
      if !up.Full? { AbsorbPages(psize, a, k, c, up, leaf); }
    case Check(t) =>
      Neighbours(psize, a, k, c, t, d - 1, lo, hi);
      RebalanceCounts(psize, n, a, Kid(k.sep, t), c, leaf);
      PagesAround(a, [Kid(k.sep, t)], c, leaf);
      PagesOne(Kid(k.sep, t), leaf);
  }

  // However the pages were merged, moved and split, the counters moved by what
  // the tree lost or gained.
  lemma {:induction false} DelCounts(psize: PageSize, n: Counters, t: Tree, d: nat, lo: Bound, hi: Bound, r: real, leaf: bool)
    requires WF(psize, t, d, lo, hi, false) && AboveOrAt(lo, r) && Below(r, hi)
    ensures Moves(n, DelCount(psize, n, t, d, lo, hi, r), DelIn(psize, t, d, lo, hi, r), Pages(t, leaf), leaf)
    decreases d, 2
  {
    if t.Branch? {
      var i := ChildIndex(t.kids, r);
      assert t.kids == t.kids[..i] + [t.kids[i]] + t.kids[i + 1..];
      BranchDelCounts(psize, n, t.kids[..i], t.kids[i], t.kids[i + 1..], d, lo, hi, r, leaf);
    }
  }

  lemma BranchDelCounts(psize: PageSize, n: Counters, a: seq<Kid>, k: Kid, c: seq<Kid>, d: nat, lo: Bound, hi: Bound, r: real,
                        leaf: bool)
    requires WF(psize, Branch(a + [k] + c), d, lo, hi, false) && |a| == ChildIndex(a + [k] + c, r)
    requires AboveOrAt(lo, r) && Below(r, hi)
    ensures Moves(n, BranchDelCount(psize, n, a, k, c, d, lo, hi, r), DelIn(psize, Branch(a + [k] + c), d, lo, hi, r),
                  Pages(Branch(a + [k] + c), leaf), leaf)
    decreases d, 1
  {
    ChildCounts(psize, n, a, k, c, d, lo, hi, r, leaf);
    DelIsChildOut(psize, a, k, c, d, lo, hi, r);
    ParentCounts(psize, n, ChildCount(psize, n, a, k, c, d, lo, hi, r), a, k, c, ChildOut(psize, a, k, c, d, lo, hi, r), d, lo, hi,
      Remove(Contents(k.sub), r), leaf);
  }

  lemma ChildCounts(psize: PageSize, n: Counters, a: seq<Kid>, k: Kid, c: seq<Kid>, d: nat, lo: Bound, hi: Bound, r: real,
                    leaf: bool)
    requires WF(psize, Branch(a + [k] + c), d, lo, hi, false) && |a| == ChildIndex(a + [k] + c, r)
    requires AboveOrAt(lo, r) && Below(r, hi)
    ensures Moves(n, ChildCount(psize, n, a, k, c, d, lo, hi, r), ChildOut(psize, a, k, c, d, lo, hi, r), Pages(k.sub, leaf), leaf)
    decreases d, 0
  {
    ChildFacts(psize, a, k, c, d, lo, hi, r);
    DelCounts(psize, n, k.sub, d - 1, LowOf(a, [k], lo), HighOf(c, hi), r, leaf);
  }

  lemma ParentCounts(psize: PageSize, n: Counters, below: Counters, a: seq<Kid>, k: Kid, c: seq<Kid>, out: Out, d: nat, lo: Bound,
                     hi: Bound, content: seq<Entry>, leaf: bool)
    requires WF(psize, Branch(a + [k] + c), d, lo, hi, false)
    requires OutOk(psize, out, d - 1, LowOf(a, [k], lo), HighOf(c, hi), content)
    requires Moves(n, below, out, Pages(k.sub, leaf), leaf)
    ensures Moves(n, OnUpCount(psize, below, a, k, c, out, d, lo, hi, content), OnUp(psize, a, k, c, out, d, lo, hi, content),
                  Pages(Branch(a + [k] + c), leaf), leaf)
  {
    OnUpFullIff(psize, a, k, c, out, d, lo, hi, content);
    OnUpCounts(psize, below, a, k, c, out, d, lo, hi, content, leaf);
    PagesAround(a, [k], c, leaf);
    PagesOne(k, leaf);
  }

  // --- mdb_put and mdb_del ----------------------------------------------

  lemma EntryCount(psize: PageSize, es: seq<Entry>, e: Entry)
    ensures |Upsert(psize, es, e)| == |es| + if Hits(es, e) then 0 else 1
  {
  }

  lemma RootSplitPages(n: Counters, up: Up, d: nat)
    requires !up.Full? && n.depth == d && n.branch == UpPages(up, false) && n.leaf == UpPages(up, true)
    ensures AtRoot(up, d).Put? && PagesRight(AfterRoot(n, up), AtRoot(up, d).db)
  {
    if up.Broke? {
      PagesTwo(Kid(NullKey, up.left), Kid(up.sep, up.right), false);
      PagesTwo(Kid(NullKey, up.left), Kid(up.sep, up.right), true);
    }
  }

  lemma RootShrinkPages(n: Counters, t: Tree, d: nat)
    requires n.depth == d && n.branch == Pages(t, false) && n.leaf == Pages(t, true) && 0 < d
    ensures RebalanceRoot(t, d).Put? && PagesRight(RootCount(n, t), RebalanceRoot(t, d).db)
  {
    if t.Branch? && |t.kids| == 1 {
      assert t.kids == [t.kids[0]];
      PagesOne(t.kids[0], false);
      PagesOne(t.kids[0], true);
    }
  }

  lemma PutDescribes(psize: PageSize, n: Counters, db: Db, e: Entry, append: bool)
    requires ValidDb(psize, db) && db.Root? && e.key.len <= MAXKEYSIZE && PagesRight(n, db)
    ensures var r, n' := DbPut(psize, db, e, append), DbPutCount(psize, n, db, e, append);
      r.Put? ==> (PagesRight(n', r.db) && n'.entries == n.entries + if Hits(Items(db), e) then 0 else 1)
  {
    PutCounts(psize, n, db.tree, db.depth, None, None, e, append, false);
    PutCounts(psize, n, db.tree, db.depth, None, None, e, append, true);
    var up := PutIn(psize, db.tree, db.depth, None, None, e, append);
    if !up.Full? { RootSplitPages(PutCount(psize, n, db.tree, db.depth, None, None, e, append), up, db.depth); }
  }

  // The counters describe the tree after mdb_put as they did before.
  lemma PutKeepsCounters(psize: PageSize, n: Counters, db: Db, e: Entry, append: bool)
    requires ValidDb(psize, db) && e.key.len <= MAXKEYSIZE && Describes(n, db)
    requires append ==> LowerBound(Items(db), e.key.rank) == |Items(db)|
    ensures var r := DbPut(psize, db, e, append);
      r.Put? ==> Describes(DbPutCount(psize, n, db, e, append), r.db)
  {
    if db.Root? {
      PutCorrect(psize, db, e, append);
      PutDescribes(psize, n, db, e, append);
      EntryCount(psize, Items(db), e);
    }
  }

  lemma TreeDelDescribes(psize: PageSize, n: Counters, t: Tree, d: nat, r: real)
    requires WF(psize, t, d, None, None, false) && 0 < d && PagesRight(n, Root(t, d))
    ensures var res, n' := AtTop(DelIn(psize, t, d, None, None, r), d), TreeDelCount(psize, n, t, d, r);
      n'.entries == n.entries && (res.Put? ==> PagesRight(n', res.db))
  {
    DelCounts(psize, n, t, d, None, None, r, false);
    DelCounts(psize, n, t, d, None, None, r, true);
    TopPages(n, DelCount(psize, n, t, d, None, None, r), DelIn(psize, t, d, None, None, r), Root(t, d));
  }

  lemma TopPages(n: Counters, n': Counters, out: Out, db: Db)
    requires db.Root? && 0 < db.depth && PagesRight(n, db)
    requires Moves(n, n', out, Pages(db.tree, false), false) && Moves(n, n', out, Pages(db.tree, true), true)
    ensures TopCount(n', out).entries == n.entries
    ensures AtTop(out, db.depth).Put? ==> PagesRight(TopCount(n', out), AtTop(out, db.depth).db)
  {
    if !Fails(out) {
      if out.Done? { RootSplitPages(n', out.up, db.depth); } else { RootShrinkPages(n', out.t, db.depth); }
    }
  }

  lemma RemoveCount(psize: PageSize, es: seq<Entry>, r: real)
    requires Present(es, r)
    ensures |Remove(es, r)| == |es| - 1
  {
  }

  lemma DelCountKept(psize: PageSize, db: Db, r: real)
    requires ValidDb(psize, db) && db.Root? && Present(Items(db), r)
    ensures var res := AtTop(DelIn(psize, db.tree, db.depth, None, None, r), db.depth);
      res.Put? ==> |Items(res.db)| == |Items(db)| - 1
  {
    DelIsAtTop(psize, db, r);
    DelCorrect(psize, db, r);
    RemoveCount(psize, Items(db), r);
  }

  lemma TopDescribes(psize: PageSize, n: Counters, db: Db, r: real)
    requires ValidDb(psize, db) && db.Root? && Present(Items(db), r) && Describes(n, db)
    ensures var res := AtTop(DelIn(psize, db.tree, db.depth, None, None, r), db.depth);
      res.Put? ==> Describes(TreeDelCount(psize, OneLess(n), db.tree, db.depth, r), res.db)
  {
    TreeDelDescribes(psize, OneLess(n), db.tree, db.depth, r);
    DelCountKept(psize, db, r);
  }

  // And after mdb_del.
  lemma DelKeepsCounters(psize: PageSize, n: Counters, db: Db, r: real)
    requires ValidDb(psize, db) && db.Root? && Present(Items(db), r) && Describes(n, db)
    ensures DbDel(psize, db, r).Deleted?
    ensures var res := DbDel(psize, db, r).result;
      res.Put? ==> Describes(TreeDelCount(psize, OneLess(n), db.tree, db.depth, r), res.db)
  {
    TopDescribes(psize, n, db, r);
    DelIsAtTop(psize, db, r);
  }
}
