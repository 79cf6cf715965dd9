// Compacting copy of an environment (mdb_env_cwalk and mdb_env_copyfd1 in
// liblmdb/src/mdb.c): pages are renumbered in the order they are written, so
// that a page's number is its place in the file.

module CompactCopy {

  type Pgno = nat
  type Key(==)
  type Value(==)
  type Chunk(==)   // the bytes of one page of an overflow run

  datatype Option<T> = None | Some(value: T)

  const NUM_METAS: nat := 2

  // --- Pages as stored --------------------------------------------------

  datatype PItem =
    | PPlain(key: Key, val: Value)
    | PBig(key: Key, pg: Pgno)             // F_BIGDATA
    | PSub(key: Key, root: Option<Pgno>)   // F_SUBDATA; None is P_INVALID

  datatype PKid = PKid(key: Key, pg: Pgno)

  datatype Page =
    | LeafPage(items: seq<PItem>)
    | BranchPage(kids: seq<PKid>)
    | OverFirst(pages: nat, chunk: Chunk)

  // What one page's worth of the file holds.
  datatype Unit =
    | Meta0
    | Meta1(txnid: nat, main: Option<Pgno>, lastPg: Pgno)
    | Paged(pgno: Pgno, page: Page)
    | Tail(chunk: Chunk)

  // --- The data they stand for ------------------------------------------

  datatype Tree = Leaf(items: seq<Item>) | Branch(kids: seq<Kid>)
  datatype Kid = Kid(key: Key, sub: Tree)
  datatype Item =
    | Plain(key: Key, val: Value)
    | Big(key: Key, chunks: seq<Chunk>)
    | Sub(key: Key, root: Option<Tree>)

  // Page p of the file is the root of a tree that stands for t.
  ghost predicate Stored(file: seq<Unit>, p: Pgno, t: Tree)
    decreases t
  {
    && p < |file| && file[p].Paged? && file[p].pgno == p
    && match t
       case Leaf(items) => file[p].page.LeafPage? && StoredItems(file, file[p].page.items, items)
       case Branch(kids) => file[p].page.BranchPage? && kids != [] && StoredKids(file, file[p].page.kids, kids)
  }

  ghost predicate StoredItems(file: seq<Unit>, ps: seq<PItem>, items: seq<Item>)
    decreases items
  {
    && |ps| == |items|
    && (items != [] ==> StoredItem(file, ps[0], items[0]) && StoredItems(file, ps[1..], items[1..]))
  }

  ghost predicate StoredKids(file: seq<Unit>, ps: seq<PKid>, kids: seq<Kid>)
    decreases kids
  {
    && |ps| == |kids|
    && (kids != [] ==>
          assert kids[0].sub < kids[0];
          ps[0].key == kids[0].key && Stored(file, ps[0].pg, kids[0].sub) && StoredKids(file, ps[1..], kids[1..]))
  }

  ghost predicate StoredItem(file: seq<Unit>, p: PItem, it: Item)
    decreases it
  {
    match it
    case Plain(key, val) => p == PPlain(key, val)
    case Big(key, chunks) => p.PBig? && p.key == key && StoredRun(file, p.pg, chunks)
    case Sub(key, None) => p == PSub(key, None)
    case Sub(key, Some(t)) => p.PSub? && p.key == key && p.root.Some? && Stored(file, p.root.value, t)
  }

  // An overflow run: its first page has the header.
  ghost predicate StoredRun(file: seq<Unit>, p: Pgno, chunks: seq<Chunk>) {
    && chunks != [] && p + |chunks| <= |file|
    && file[p] == Paged(p, OverFirst(|chunks|, chunks[0]))
    && forall k :: p < k < p + |chunks| ==> file[k] == Tail(chunks[k - p])
  }

  // --- How much is written ----------------------------------------------

  function Count(t: Tree): (n: nat)
    ensures n > 0
    decreases t
  {
    match t
    case Leaf(items) => CountItems(items) + 1
    case Branch(kids) => CountKids(kids) + 1
  }

  function CountItem(it: Item): nat
    decreases it
  {
    match it
    case Plain(_, _) => 0
    case Big(_, chunks) => |chunks|
    case Sub(_, None) => 0
    case Sub(_, Some(t)) => Count(t)
  }

  function CountItems(items: seq<Item>): nat
    decreases items
  {
    if items == [] then 0 else CountItem(items[0]) + CountItems(items[1..])
  }

  function CountKids(kids: seq<Kid>): nat
    decreases kids
  {
    if kids == [] then 0
    else
      assert kids[0].sub < kids[0];
      Count(kids[0].sub) + CountKids(kids[1..])
  }

  // --- What is written --------------------------------------------------

  // The pages of t in the order they are written, the first as number next.
  function Emit(t: Tree, next: Pgno): (out: seq<Unit>)
    ensures |out| == Count(t)
    decreases t
  {
    match t
    case Leaf(items) => EmitItems(items, next) + [Paged(next + CountItems(items), LeafPage(RefItems(items, next)))]
    case Branch(kids) => EmitKids(kids, next) + [Paged(next + CountKids(kids), BranchPage(RefKids(kids, next)))]
  }

  function EmitRun(chunks: seq<Chunk>, next: Pgno): (out: seq<Unit>)
    ensures |out| == |chunks|
  {
    if chunks == [] then []
    else [Paged(next, OverFirst(|chunks|, chunks[0]))] +
         seq(|chunks| - 1, k requires 0 <= k < |chunks| - 1 => Tail(chunks[k + 1]))
  }

  function EmitItem(it: Item, next: Pgno): (out: seq<Unit>)
    ensures |out| == CountItem(it)
    decreases it
  {
    match it
    case Plain(_, _) => []
    case Big(_, chunks) => EmitRun(chunks, next)
    case Sub(_, None) => []
    case Sub(_, Some(t)) => Emit(t, next)
  }

  function EmitItems(items: seq<Item>, next: Pgno): (out: seq<Unit>)
    ensures |out| == CountItems(items)
    decreases items
  {
    if items == [] then [] else EmitItem(items[0], next) + EmitItems(items[1..], next + CountItem(items[0]))
  }

  function EmitKids(kids: seq<Kid>, next: Pgno): (out: seq<Unit>)
    ensures |out| == CountKids(kids)
    decreases kids
  {
    if kids == [] then []
    else
      assert kids[0].sub < kids[0];
      Emit(kids[0].sub, next) + EmitKids(kids[1..], next + Count(kids[0].sub))
  }

  // References to what is written from number next on.
  function RefItem(it: Item, next: Pgno): PItem {
    match it
    case Plain(key, val) => PPlain(key, val)
    case Big(key, _) => PBig(key, next)
    case Sub(key, None) => PSub(key, None)
    case Sub(key, Some(t)) => PSub(key, Some(next + Count(t) - 1))
  }

  function RefItems(items: seq<Item>, next: Pgno): (r: seq<PItem>)
    ensures |r| == |items|
  {
    if items == [] then [] else [RefItem(items[0], next)] + RefItems(items[1..], next + CountItem(items[0]))
  }

  function RefKids(kids: seq<Kid>, next: Pgno): (r: seq<PKid>)
    ensures |r| == |kids|
  {
    if kids == [] then []
    else [PKid(kids[0].key, next + Count(kids[0].sub) - 1)] + RefKids(kids[1..], next + Count(kids[0].sub))
  }

  // --- The copy stands for the same data --------------------------------

  // Overflow items have at least one page.
  ghost predicate Sound(t: Tree)
    decreases t
  {
    match t
    case Leaf(items) => SoundItems(items)
    case Branch(kids) => kids != [] && SoundKids(kids)
  }

  ghost predicate SoundItem(it: Item)
    decreases it
  {
    match it
    case Big(_, chunks) => chunks != []
    case Sub(_, Some(t)) => Sound(t)
    case _ => true
  }

  ghost predicate SoundItems(items: seq<Item>)
    decreases items
  {
    items != [] ==> SoundItem(items[0]) && SoundItems(items[1..])
  }

  ghost predicate SoundKids(kids: seq<Kid>)
    decreases kids
  {
    kids != [] ==>
      assert kids[0].sub < kids[0];
      Sound(kids[0].sub) && SoundKids(kids[1..])
  }

  // The file has out from place next on.
  ghost predicate At(file: seq<Unit>, next: Pgno, out: seq<Unit>) {
    next + |out| <= |file| && file[next..next + |out|] == out
  }

  lemma AtParts(file: seq<Unit>, next: Pgno, a: seq<Unit>, b: seq<Unit>)
    requires At(file, next, a + b)
    ensures At(file, next, a) && At(file, next + |a|, b)
  {
    var s := file[next..next + |a + b|];
    assert s[..|a|] == a && s[|a|..] == b;
    assert file[next..next + |a|] == s[..|a|];
    assert file[next + |a|..next + |a| + |b|] == s[|a|..];
  }

  lemma AtOne(file: seq<Unit>, next: Pgno, u: Unit)
    requires At(file, next, [u])
    ensures file[next] == u
  {
    assert file[next..next + 1][0] == u;
  }

  lemma {:induction false} EmitStores(file: seq<Unit>, t: Tree, next: Pgno)
    requires At(file, next, Emit(t, next)) && Sound(t)
    ensures Stored(file, next + Count(t) - 1, t)
    decreases t
  {
    match t
    case Leaf(items) =>
      var u := Paged(next + CountItems(items), LeafPage(RefItems(items, next)));
      AtParts(file, next, EmitItems(items, next), [u]);
      AtOne(file, next + CountItems(items), u);
      ItemsStore(file, items, next);
    case Branch(kids) =>
      var u := Paged(next + CountKids(kids), BranchPage(RefKids(kids, next)));
      AtParts(file, next, EmitKids(kids, next), [u]);
      AtOne(file, next + CountKids(kids), u);
      KidsStore(file, kids, next);
  }

  lemma {:induction false} ItemsStore(file: seq<Unit>, items: seq<Item>, next: Pgno)
    requires At(file, next, EmitItems(items, next)) && SoundItems(items)
    ensures StoredItems(file, RefItems(items, next), items)
    decreases items
  {
    if items != [] {
      var n := next + CountItem(items[0]);
      AtParts(file, next, EmitItem(items[0], next), EmitItems(items[1..], n));
      ItemsStore(file, items[1..], n);
      ItemStores(file, items[0], next);
      RefItemsSplit(items, next);
    }
  }

  lemma RefItemsSplit(items: seq<Item>, next: Pgno)
    requires items != []
    ensures RefItems(items, next)[0] == RefItem(items[0], next)
    ensures RefItems(items, next)[1..] == RefItems(items[1..], next + CountItem(items[0]))
  {
  }

  lemma ItemStores(file: seq<Unit>, it: Item, next: Pgno)
    requires At(file, next, EmitItem(it, next)) && SoundItem(it)
    ensures StoredItem(file, RefItem(it, next), it)
    decreases it
  {
    match it
    case Plain(_, _) =>
    case Big(_, chunks) => RunStores(file, chunks, next);
    case Sub(_, None) =>
    case Sub(_, Some(t)) => EmitStores(file, t, next);
  }

  lemma RunStores(file: seq<Unit>, chunks: seq<Chunk>, next: Pgno)
    requires At(file, next, EmitRun(chunks, next)) && chunks != []
    ensures StoredRun(file, next, chunks)
  {
    var r := EmitRun(chunks, next);
    forall k | next <= k < next + |chunks| ensures file[k] == r[k - next] {
      assert file[next..next + |r|][k - next] == file[k];
    }
  }

  lemma {:induction false} KidsStore(file: seq<Unit>, kids: seq<Kid>, next: Pgno)
    requires At(file, next, EmitKids(kids, next)) && SoundKids(kids)
    ensures StoredKids(file, RefKids(kids, next), kids)
    decreases kids
  {
    if kids != [] {
      assert kids[0].sub < kids[0];
      var n := next + Count(kids[0].sub);
      AtParts(file, next, Emit(kids[0].sub, next), EmitKids(kids[1..], n));
      EmitStores(file, kids[0].sub, next);
      KidsStore(file, kids[1..], n);
      assert RefKids(kids, next)[1..] == RefKids(kids[1..], n);
    }
  }

  lemma {:induction false} StoredSound(file: seq<Unit>, p: Pgno, t: Tree)
    requires Stored(file, p, t)
    ensures Sound(t)
    decreases t
  {
    match t
    case Leaf(items) => StoredItemsSound(file, file[p].page.items, items);
    case Branch(kids) => StoredKidsSound(file, file[p].page.kids, kids);
  }

  lemma {:induction false} StoredItemsSound(file: seq<Unit>, ps: seq<PItem>, items: seq<Item>)
    requires StoredItems(file, ps, items)
    ensures SoundItems(items)
    decreases items
  {
    if items != [] {
      StoredItemsSound(file, ps[1..], items[1..]);
      StoredItemSound(file, ps[0], items[0]);
    }
  }

  lemma StoredItemSound(file: seq<Unit>, p: PItem, it: Item)
    requires StoredItem(file, p, it)
    ensures SoundItem(it)
    decreases it
  {
    if it.Sub? && it.root.Some? { StoredSound(file, p.root.value, it.root.value); }
  }

  lemma {:induction false} StoredKidsSound(file: seq<Unit>, ps: seq<PKid>, kids: seq<Kid>)
    requires StoredKids(file, ps, kids)
    ensures SoundKids(kids)
    decreases kids
  {
    if kids != [] {
      assert kids[0].sub < kids[0];
      StoredSound(file, ps[0].pg, kids[0].sub);
      StoredKidsSound(file, ps[1..], kids[1..]);
    }
  }

  // Every header page is written at the place its number says.
  ghost predicate InPlace(out: seq<Unit>, next: Pgno) {
    forall k :: 0 <= k < |out| && out[k].Paged? ==> out[k].pgno == next + k
  }

  lemma {:induction false} EmitInPlace(t: Tree, next: Pgno)
    ensures InPlace(Emit(t, next), next)
    decreases t
  {
    match t
    case Leaf(items) => ItemsInPlace(items, next);
    case Branch(kids) => KidsInPlace(kids, next);
  }

  lemma {:induction false} ItemsInPlace(items: seq<Item>, next: Pgno)
    ensures InPlace(EmitItems(items, next), next)
    decreases items
  {
    if items != [] {
      ItemsInPlace(items[1..], next + CountItem(items[0]));
      ItemInPlace(items[0], next);
    }
  }

  lemma ItemInPlace(it: Item, next: Pgno)
    ensures InPlace(EmitItem(it, next), next)
    decreases it
  {
    if it.Sub? && it.root.Some? { EmitInPlace(it.root.value, next); }
  }

  lemma {:induction false} KidsInPlace(kids: seq<Kid>, next: Pgno)
    ensures InPlace(EmitKids(kids, next), next)
    decreases kids
  {
    if kids != [] {
      assert kids[0].sub < kids[0];
      EmitInPlace(kids[0].sub, next);
      KidsInPlace(kids[1..], next + Count(kids[0].sub));
    }
  }
}
