// mdb_env_copyfd1 in liblmdb/src/mdb.c: the meta pages are written first, with
// a root page number that is computed in advance.

module CopyEnv {
  import opened CompactCopy
  import opened CompactWalk
  import BTree
  import BTreeStat
  import BTreeOver

  // --- Which pages a database uses --------------------------------------

  function RunPages(p: Pgno, n: nat): (r: seq<Pgno>)
    ensures |r| == n
  {
    seq(n, k requires 0 <= k < n => p + k)
  }

  ghost function Used(file: seq<Unit>, p: Pgno, t: Tree): (r: seq<Pgno>)
    requires Stored(file, p, t)
    ensures |r| == Count(t)
    decreases t
  {
    match t
    case Leaf(items) => UsedByItems(file, file[p].page.items, items) + [p]
    case Branch(kids) => UsedByKids(file, file[p].page.kids, kids) + [p]
  }

  ghost function UsedByItem(file: seq<Unit>, p: PItem, it: Item): (r: seq<Pgno>)
    requires StoredItem(file, p, it)
    ensures |r| == CountItem(it)
    decreases it
  {
    match it
    case Plain(_, _) => []
    case Big(_, chunks) => RunPages(p.pg, |chunks|)
    case Sub(_, None) => []
    case Sub(_, Some(t)) => Used(file, p.root.value, t)
  }

  ghost function UsedByItems(file: seq<Unit>, ps: seq<PItem>, items: seq<Item>): (r: seq<Pgno>)
    requires StoredItems(file, ps, items)
    ensures |r| == CountItems(items)
    decreases items
  {
    if items == [] then [] else UsedByItem(file, ps[0], items[0]) + UsedByItems(file, ps[1..], items[1..])
  }

  ghost function UsedByKids(file: seq<Unit>, ps: seq<PKid>, kids: seq<Kid>): (r: seq<Pgno>)
    requires StoredKids(file, ps, kids)
    ensures |r| == CountKids(kids)
    decreases kids
  {
    if kids == [] then []
    else
      assert kids[0].sub < kids[0];
      Used(file, ps[0].pg, kids[0].sub) + UsedByKids(file, ps[1..], kids[1..])
  }

  // Each page up to nextPgno is in exactly one place: the main database's
  // trees, the free list's own tree, or a free list record.
  ghost predicate PagesConserved(file: seq<Unit>, root: Pgno, t: Tree, freeTree: seq<Pgno>, listed: seq<Pgno>, nextPgno: Pgno)
    requires Stored(file, root, t)
  {
    && nextPgno >= NUM_METAS
    && multiset(Used(file, root, t)) + multiset(freeTree) + multiset(listed) ==
       multiset(RunPages(NUM_METAS, nextPgno - NUM_METAS))
  }

  // --- What the counters of a database say of its pages -----------------

  // t lays out tree b: the same pages, overflow runs as long as `runs` says,
  // and no sub-databases.
  ghost predicate LaysOut(psize: BTree.PageSize, runs: map<real, int>, t: Tree, b: BTree.Tree)
    decreases t
  {
    match t
    case Leaf(items) =>
      b.Leaf? && |items| == |b.es| && forall i :: 0 <= i < |items| ==> LaysOutItem(psize, runs, items[i], b.es[i])
    case Branch(kids) => b.Branch? && LaysOutKids(psize, runs, kids, b.kids)
  }

  ghost predicate LaysOutItem(psize: BTree.PageSize, runs: map<real, int>, it: Item, e: BTree.Entry) {
    && !it.Sub? && (it.Big? <==> BTreeOver.Big(psize, e))
    && (it.Big? ==> e.key.rank in runs && |it.chunks| == runs[e.key.rank])
  }

  ghost predicate LaysOutKids(psize: BTree.PageSize, runs: map<real, int>, kids: seq<Kid>, bs: seq<BTree.Kid>)
    decreases kids
  {
    && |kids| == |bs|
    && (kids != [] ==>
          assert kids[0].sub < kids[0];
          LaysOut(psize, runs, kids[0].sub, bs[0].sub) && LaysOutKids(psize, runs, kids[1..], bs[1..]))
  }

  lemma {:induction false} ItemsCount(psize: BTree.PageSize, runs: map<real, int>, items: seq<Item>, es: seq<BTree.Entry>)
    requires |items| == |es| && forall i :: 0 <= i < |items| ==> LaysOutItem(psize, runs, items[i], es[i])
    ensures CountItems(items) == BTreeOver.RunPages(psize, es, runs)
  {
    if items != [] {
      assert LaysOutItem(psize, runs, items[0], es[0]);
      ItemsCount(psize, runs, items[1..], es[1..]);
    }
  }

  // The pages of a tree are its branch, leaf and overflow pages.
  lemma {:induction false} CountIsPages(psize: BTree.PageSize, runs: map<real, int>, t: Tree, b: BTree.Tree)
    requires LaysOut(psize, runs, t, b)
    ensures Count(t) ==
      BTreeStat.Pages(b, false) + BTreeStat.Pages(b, true) + BTreeOver.RunPages(psize, BTree.Contents(b), runs)
    decreases t
  {
    match t
    case Leaf(items) => ItemsCount(psize, runs, items, b.es);
    case Branch(kids) => KidsCountIsPages(psize, runs, kids, b.kids);
  }

  lemma {:induction false} KidsCountIsPages(psize: BTree.PageSize, runs: map<real, int>, kids: seq<Kid>, bs: seq<BTree.Kid>)
    requires LaysOutKids(psize, runs, kids, bs)
    ensures CountKids(kids) ==
      BTreeStat.KidPages(bs, false) + BTreeStat.KidPages(bs, true) + BTreeOver.RunPages(psize, BTree.Cat(bs), runs)
    decreases kids
  {
    if kids != [] {
      assert kids[0].sub < kids[0];
      CountIsPages(psize, runs, kids[0].sub, bs[0].sub);
      KidsCountIsPages(psize, runs, kids[1..], bs[1..]);
      BTreeOver.RunPagesConcat(psize, BTree.Contents(bs[0].sub), BTree.Cat(bs[1..]), runs);
    }
  }

  // The free list's database: empty, or a stored tree.
  datatype FreeDb = NoTree | FreeTree(root: Pgno, t: Tree)

  ghost predicate StoredFree(psize: BTree.PageSize, file: seq<Unit>, f: FreeDb, db: BTree.Db, runs: map<real, int>) {
    match f
    case NoTree => db.Empty?
    case FreeTree(root, t) => db.Root? && Stored(file, root, t) && LaysOut(psize, runs, t, db.tree)
  }

  ghost function FreeUsed(file: seq<Unit>, f: FreeDb): seq<Pgno>
    requires f.FreeTree? ==> Stored(file, f.root, f.t)
  {
    if f.NoTree? then [] else Used(file, f.root, f.t)
  }

  // With counters n and o that describe the free list's database, the root
  // computed in advance from them is the number the walk ends with.
  lemma RootPredicted(psize: BTree.PageSize, file: seq<Unit>, root: Pgno, t: Tree, f: FreeDb, db: BTree.Db,
                      n: BTreeStat.Counters, o: BTreeOver.Over, listed: seq<Pgno>, nextPgno: Pgno)
    requires Stored(file, root, t) && StoredFree(psize, file, f, db, o.runs)
    requires BTreeStat.Describes(n, db) && BTreeOver.OverRight(psize, o, BTree.Items(db))
    requires PagesConserved(file, root, t, FreeUsed(file, f), listed, nextPgno)
    ensures nextPgno - 1 - (|listed| + n.branch + n.leaf + o.pages) == NUM_METAS + Count(t) - 1
  {
    var freeTree := FreeUsed(file, f);
    if f.FreeTree? { CountIsPages(psize, o.runs, f.t, db.tree); }
    PageTotal(file, root, t, freeTree, listed, nextPgno);
  }

  lemma PageTotal(file: seq<Unit>, root: Pgno, t: Tree, freeTree: seq<Pgno>, listed: seq<Pgno>, nextPgno: Pgno)
    requires Stored(file, root, t) && PagesConserved(file, root, t, freeTree, listed, nextPgno)
    ensures nextPgno == NUM_METAS + Count(t) + |freeTree| + |listed|
  {
    var r := RunPages(NUM_METAS, nextPgno - NUM_METAS);
    assert |multiset(r)| == |r|;
    assert |multiset(Used(file, root, t)) + multiset(freeTree) + multiset(listed)| ==
      Count(t) + |freeTree| + |listed|;
  }

  // --- The copy ---------------------------------------------------------

  // Incompatible: "page leak or corrupt DB".
  datatype Result = Copied(file: seq<Unit>) | Incompatible(file: seq<Unit>)

  // The copy is a file in which every page is where its number says, meta page
  // 1 refers to the last page, and that page is the root of the same data.
  ghost predicate FaithfulCopy(file: seq<Unit>, t: Tree) {
    && |file| == NUM_METAS + Count(t)
    && InPlace(file, 0)
    && file[1] == Meta1(1, Some(|file| - 1), |file| - 1)
    && Stored(file, |file| - 1, t)
  }

  lemma CopyIsFaithful(metas: seq<Unit>, t: Tree, newRoot: Pgno)
    requires Sound(t) && newRoot == NUM_METAS + Count(t) - 1
    requires metas == [Meta0, Meta1(1, Some(newRoot), newRoot)]
    ensures FaithfulCopy(metas + Emit(t, NUM_METAS), t)
  {
    var file := metas + Emit(t, NUM_METAS);
    assert file[NUM_METAS..NUM_METAS + Count(t)] == Emit(t, NUM_METAS);
    EmitStores(file, t, NUM_METAS);
    EmitInPlace(t, NUM_METAS);
  }

  // `freeCount` is the number of listed pages and of the free list's own pages.
  method CopyFd(src: seq<Unit>, main: Option<Pgno>, mainFlags: bool, nextPgno: Pgno, freeCount: nat, ghost t: Tree)
    returns (r: Result)
    requires main.Some? ==> Stored(src, main.value, t)
    requires freeCount < nextPgno
    ensures main.None? ==> r == Copied([Meta0, Meta1(if mainFlags then 1 else 0, None, NUM_METAS - 1)])
    ensures main.Some? ==> (r.Copied? <==> nextPgno - 1 - freeCount == NUM_METAS + Count(t) - 1)
    ensures main.Some? && r.Copied? ==> FaithfulCopy(r.file, t)
  {
    var meta0, meta1 := Meta0, Meta1(if mainFlags then 1 else 0, None, NUM_METAS - 1);
    if main.None? {
      return Copied([meta0, meta1]);
    }
    var newRoot := nextPgno - 1 - freeCount;
    meta1 := Meta1(1, Some(newRoot), newRoot);
    var my := new Copy(src, [meta0, meta1]);
    StoredSound(src, main.value, t);
    var root := my.Walk(main.value, t);
    if root != newRoot {
      return Incompatible(my.out);
    }
    CopyIsFaithful([meta0, meta1], t, newRoot);
    r := Copied(my.out);
  }
}
