// The bytes of a page and the node list of the tree: what a page of nodes has
// left is what the tree counts, so that mdb_node_add and mdb_update_key fail on
// the page exactly where the tree has its page split (liblmdb/src/mdb.c).

module PageTree {
  import opened PageFormat
  import opened SlottedPage
  import opened PageOps
  import BTree
  import BTreePut

  // --- Nodes and entries ------------------------------------------------

  // Where md_cmp puts a key's bytes in its order.
  type Order = Bytes -> real

  // The key of a node.
  function KeyOf(b: Bytes): Bytes
    requires NODESIZE <= |b| && NODESIZE + KeySize(b, 0) <= |b|
  {
    b[NODESIZE..NODESIZE + KeySize(b, 0)]
  }

  // Node b of a leaf page holds entry e; a value too big for the page is
  // elsewhere.
  ghost predicate HoldsEntry(psize: BTree.PageSize, rk: Order, b: Bytes, e: BTree.Entry) {
    var ksize := e.key.len;
    && NODESIZE <= |b| && |b| == NodeSize(true, b, 0) && KeySize(b, 0) == ksize && DataSize(b, 0) == |e.val|
    && rk(KeyOf(b)) == e.key.rank
    && (Flags(b, 0) % 2 == F_BIGDATA <==> NODESIZE + ksize + |e.val| > BTree.NodeMax(psize))
    && (Flags(b, 0) % 2 != F_BIGDATA ==>
          forall k :: 0 <= k < |e.val| ==> b[NODESIZE + ksize..][k] == e.val[k] as int)
  }

  // Node b of a branch page has the separator of kid; an empty one stands for
  // minus infinity.
  ghost predicate HoldsKid(rk: Order, b: Bytes, kid: BTree.Kid) {
    && NODESIZE <= |b| && |b| == NodeSize(false, b, 0) && KeySize(b, 0) == kid.sep.len
    && (0 < kid.sep.len ==> rk(KeyOf(b)) == kid.sep.rank)
  }

  // A leaf page with the entries es ...
  ghost predicate HoldsEntries(psize: BTree.PageSize, rk: Order, ns: seq<Bytes>, es: seq<BTree.Entry>) {
    |ns| == |es| && forall i :: 0 <= i < |ns| ==> HoldsEntry(psize, rk, ns[i], es[i])
  }

  // ... and a branch page with the children kids.
  ghost predicate HoldsKids(rk: Order, ns: seq<Bytes>, kids: seq<BTree.Kid>) {
    |ns| == |kids| && forall i :: 0 <= i < |ns| ==> HoldsKid(rk, ns[i], kids[i])
  }

  // --- Sizes ------------------------------------------------------------

  lemma EntryNode(psize: BTree.PageSize, rk: Order, b: Bytes, e: BTree.Entry)
    requires HoldsEntry(psize, rk, b, e)
    ensures 2 + |b| == BTree.EntrySize(psize, e)
  {
  }

  // The nodes and their slots take the bytes the tree reckons with.
  lemma {:induction false} EntriesTake(psize: BTree.PageSize, rk: Order, ns: seq<Bytes>, es: seq<BTree.Entry>)
    requires HoldsEntries(psize, rk, ns, es)
    ensures 2 * |ns| + TotalSize(ns) == BTree.Sum(BTree.EntrySizes(psize, es))
  {
    if ns != [] {
      assert HoldsEntries(psize, rk, ns[1..], es[1..]);
      EntriesTake(psize, rk, ns[1..], es[1..]);
      EntryNode(psize, rk, ns[0], es[0]);
      assert BTree.EntrySizes(psize, es)[1..] == BTree.EntrySizes(psize, es[1..]);
    }
  }

  lemma {:induction false} KidsTake(rk: Order, ns: seq<Bytes>, kids: seq<BTree.Kid>)
    requires HoldsKids(rk, ns, kids)
    ensures 2 * |ns| + TotalSize(ns) == BTree.Sum(BTree.KidSizes(kids))
  {
    if ns != [] {
      assert HoldsKids(rk, ns[1..], kids[1..]);
      KidsTake(rk, ns[1..], kids[1..]);
      assert HoldsKid(rk, ns[0], kids[0]);
      assert BTree.KidSizes(kids)[1..] == BTree.KidSizes(kids[1..]);
    }
  }

  // SIZELEFT of a page.
  lemma RoomLeft(g: Image)
    requires g.Valid() && Accounted(g)
    ensures g.upper - g.Lower() == |g.m| - PAGEHDRSZ - (2 * |Nodes(g)| + TotalSize(Nodes(g)))
  {
  }

  // --- Adding a node ----------------------------------------------------

  function ToBytes(v: BTree.Value): (b: Bytes)
    ensures |b| == |v|
  {
    seq(|v|, i requires 0 <= i < |v| => v[i] as int)
  }

  lemma NewEntryNode(psize: BTree.PageSize, rk: Order, e: BTree.Entry, key: Bytes, ovpg: Bytes, b: Bytes)
    requires rk(key) == e.key.rank && |key| == e.key.len <= BTree.MAXKEYSIZE && |e.val| < 0x1_0000_0000 && |ovpg| == PGNO_SIZE
    requires var node := NewNode(true, BTree.NodeMax(psize), key, ToBytes(e.val), |e.val|, 0, ovpg);
      |b| == Even(|node|) && node <= b
    ensures HoldsEntry(psize, rk, b, e)
    ensures 2 + Even(|NewNode(true, BTree.NodeMax(psize), key, ToBytes(e.val), |e.val|, 0, ovpg)|) == BTree.EntrySize(psize, e)
  {
    var big := NODESIZE + |key| + |e.val| > BTree.NodeMax(psize);
    var payload := if big then ovpg else ToBytes(e.val);
    var node := NodeBytes(|e.val|, if big then 1 else 0, key, payload);
    assert b[0..|node|] == node;
    ReadBack(true, b, 0, |e.val|, if big then 1 else 0, key, payload);
  }

  lemma EntryInserted(psize: BTree.PageSize, rk: Order, before: seq<Bytes>, after: seq<Bytes>, es: seq<BTree.Entry>, i: nat, e: BTree.Entry,
                      node: Bytes)
    requires HoldsEntries(psize, rk, before, es) && NodeInserted(before, after, i, node) && HoldsEntry(psize, rk, after[i], e)
    ensures HoldsEntries(psize, rk, after, BTreePut.Splice(es, i, 0, e))
  {
    var es' := BTreePut.Splice(es, i, 0, e);
    forall j | 0 <= j < |after| ensures HoldsEntry(psize, rk, after[j], es'[j]) {
      if j < i {
        assert after[j] == before[j] && es'[j] == es[j];
      } else if j > i {
        assert after[j] == before[j - 1] && es'[j] == es[j - 1];
      }
    }
  }

  lemma KidInserted(rk: Order, before: seq<Bytes>, after: seq<Bytes>, kids: seq<BTree.Kid>, i: nat, kid: BTree.Kid, node: Bytes)
    requires HoldsKids(rk, before, kids) && NodeInserted(before, after, i, node) && HoldsKid(rk, after[i], kid)
    ensures HoldsKids(rk, after, kids[..i] + [kid] + kids[i..])
  {
    var kids' := kids[..i] + [kid] + kids[i..];
    forall j | 0 <= j < |after| ensures HoldsKid(rk, after[j], kids'[j]) {
      if j < i {
        assert after[j] == before[j] && kids'[j] == kids[j];
      } else if j > i {
        assert after[j] == before[j - 1] && kids'[j] == kids[j - 1];
      }
    }
  }

  lemma NewKidNode(rk: Order, kid: BTree.Kid, key: Bytes, pgno: nat, hi: nat, ovpg: Bytes, b: Bytes)
    requires rk(key) == kid.sep.rank && |key| == kid.sep.len < 0x10000 && pgno < 0x1_0000_0000 && hi < 0xffff && |ovpg| == PGNO_SIZE
    requires var node := NewNode(false, 0, key, [], pgno, hi, ovpg); |b| == Even(|node|) && node <= b
    ensures HoldsKid(rk, b, kid)
    ensures 2 + Even(|NewNode(false, 0, key, [], pgno, hi, ovpg)|) == BTree.KidSize(kid)
  {
    var node := NodeBytes(pgno, hi, key, []);
    assert b[0..|node|] == node;
    ReadBack(false, b, 0, pgno, hi, key, []);
  }

  lemma KidsAround(kids: seq<BTree.Kid>, i: nat, kid: BTree.Kid)
    requires i <= |kids|
    ensures BTree.Sum(BTree.KidSizes(kids[..i] + [kid] + kids[i..])) == BTree.Sum(BTree.KidSizes(kids)) + BTree.KidSize(kid)
  {
    assert kids == kids[..i] + kids[i..];
    BTree.KidSizesConcat(kids[..i], kids[i..]);
    BTree.KidSizesConcat(kids[..i] + [kid], kids[i..]);
    BTree.KidSizesConcat(kids[..i], [kid]);
    BTree.OneKidSize(kid);
  }

  lemma KidReplaced(kids: seq<BTree.Kid>, i: nat, kid: BTree.Kid)
    requires i < |kids|
    ensures BTree.Sum(BTree.KidSizes(kids[i := kid])) == BTree.Sum(BTree.KidSizes(kids)) - BTree.KidSize(kids[i]) + BTree.KidSize(kid)
  {
    var rest := kids[..i] + kids[i + 1..];
    assert rest[..i] == kids[..i] && rest[i..] == kids[i + 1..];
    assert kids == rest[..i] + [kids[i]] + rest[i..];
    assert kids[i := kid] == rest[..i] + [kid] + rest[i..];
    KidsAround(rest, i, kids[i]);
    KidsAround(rest, i, kid);
  }

  // mdb_node_add of an entry: there is room on the page exactly when the tree
  // does not have its leaf split, and then the page holds the longer list.
  method AddEntry(psize: BTree.PageSize, rk: Order, p: Page, i: nat, e: BTree.Entry, key: Bytes, ovpg: Bytes, ghost es: seq<BTree.Entry>)
    returns (ok: bool)
    requires p.Valid() && p.leaf && p.mem.Length == psize && HoldsEntries(psize, rk, Nodes(p.Img()), es) && i <= |es|
    requires rk(key) == e.key.rank && |key| == e.key.len <= BTree.MAXKEYSIZE && |e.val| < 0x1_0000_0000 && |ovpg| == PGNO_SIZE
    modifies p`lower, p`upper, p.mem
    ensures p.Valid()
    ensures ok <==> BTree.EntrySize(psize, e) <= BTree.PMax(psize) - BTree.Sum(BTree.EntrySizes(psize, es))
    ensures ok ==> HoldsEntries(psize, rk, Nodes(p.Img()), BTreePut.Splice(es, i, 0, e))
    ensures !ok ==> p.mem[..] == old(p.mem[..]) && p.lower == old(p.lower) && p.upper == old(p.upper)
  {
    ghost var before := Nodes(p.Img());
    RoomLeft(p.Img());
    EntriesTake(psize, rk, before, es);
    ghost var node := NewNode(true, BTree.NodeMax(psize), key, ToBytes(e.val), |e.val|, 0, ovpg);
    NewEntryNode(psize, rk, e, key, ovpg, node + seq(Even(|node|) - |node|, k => 0));
    ok := p.NodeAdd(BTree.NodeMax(psize), i, key, ToBytes(e.val), |e.val|, 0, ovpg);
    if ok {
      NewEntryNode(psize, rk, e, key, ovpg, Nodes(p.Img())[i]);
      EntryInserted(psize, rk, before, Nodes(p.Img()), es, i, e, node);
    }
  }

  // mdb_node_del of an entry.
  method RemoveEntry(psize: BTree.PageSize, rk: Order, p: Page, i: nat, ghost es: seq<BTree.Entry>)
    requires p.Valid() && p.leaf && HoldsEntries(psize, rk, Nodes(p.Img()), es) && i < |es|
    modifies p`lower, p`upper, p.mem
    ensures p.Valid() && HoldsEntries(psize, rk, Nodes(p.Img()), es[..i] + es[i + 1..])
  {
    p.NodeDel(i);
  }

  // mdb_node_add of a child, with its page number.
  method AddKid(psize: BTree.PageSize, rk: Order, p: Page, i: nat, kid: BTree.Kid, key: Bytes, pgno: nat, hi: nat, ovpg: Bytes,
                ghost kids: seq<BTree.Kid>)
    returns (ok: bool)
    requires p.Valid() && !p.leaf && p.mem.Length == psize && HoldsKids(rk, Nodes(p.Img()), kids) && i <= |kids|
    requires rk(key) == kid.sep.rank && |key| == kid.sep.len < 0x10000 && pgno < 0x1_0000_0000 && hi < 0xffff && |ovpg| == PGNO_SIZE
    modifies p`lower, p`upper, p.mem
    ensures p.Valid()
    ensures ok <==> BTree.Sum(BTree.KidSizes(kids[..i] + [kid] + kids[i..])) <= BTree.PMax(psize)
    ensures ok ==> HoldsKids(rk, Nodes(p.Img()), kids[..i] + [kid] + kids[i..])
    ensures !ok ==> p.mem[..] == old(p.mem[..]) && p.lower == old(p.lower) && p.upper == old(p.upper)
  {
    ghost var before := Nodes(p.Img());
    RoomLeft(p.Img());
    KidsTake(rk, before, kids);
    KidsAround(kids, i, kid);
    ghost var node := NewNode(false, 0, key, [], pgno, hi, ovpg);
    NewKidNode(rk, kid, key, pgno, hi, ovpg, node + seq(Even(|node|) - |node|, k => 0));
    ok := p.NodeAdd(0, i, key, [], pgno, hi, ovpg);
    if ok {
      NewKidNode(rk, kid, key, pgno, hi, ovpg, Nodes(p.Img())[i]);
      KidInserted(rk, before, Nodes(p.Img()), kids, i, kid, node);
    }
  }

  // mdb_update_key: it fails exactly when the page with the new separator
  // would be too large, and the tree has the page split.
  method SetKey(psize: BTree.PageSize, rk: Order, p: Page, i: nat, sep: BTree.Key, key: Bytes, ghost kids: seq<BTree.Kid>)
    returns (ok: bool)
    requires p.Valid() && !p.leaf && p.mem.Length == psize && HoldsKids(rk, Nodes(p.Img()), kids) && i < |kids|
    requires rk(key) == sep.rank && |key| == sep.len < 0x10000
    modifies p`upper, p.mem
    ensures p.Valid()
    ensures ok <==> BTree.Sum(BTree.KidSizes(kids[i := BTree.Kid(sep, kids[i].sub)])) <= BTree.PMax(psize)
    ensures ok ==> HoldsKids(rk, Nodes(p.Img()), kids[i := BTree.Kid(sep, kids[i].sub)])
    ensures !ok ==> p.mem[..] == old(p.mem[..]) && p.upper == old(p.upper)
  {
    ghost var before, kid := Nodes(p.Img()), BTree.Kid(sep, kids[i].sub);
    RoomLeft(p.Img());
    KidsTake(rk, before, kids);
    RekeyRoom(psize, rk, before, p.upper - p.lower, kids, i, kid, key);
    ok := p.UpdateKey(i, key);
    if ok { KidRekeyed(rk, before, Nodes(p.Img()), kids, i, kid, key); }
  }

  lemma RekeyRoom(psize: BTree.PageSize, rk: Order, ns: seq<Bytes>, left: int, kids: seq<BTree.Kid>, i: nat, kid: BTree.Kid, key: Bytes)
    requires HoldsKids(rk, ns, kids) && i < |kids| && |key| == kid.sep.len
    requires left == BTree.PMax(psize) - (2 * |ns| + TotalSize(ns))
    requires BTree.Sum(BTree.KidSizes(kids)) <= BTree.PMax(psize)
    ensures BTree.Sum(BTree.KidSizes(kids[i := kid])) <= BTree.PMax(psize) <==>
      Even(NODESIZE + |key|) <= |ns[i]| || Even(NODESIZE + |key|) - |ns[i]| <= left
  {
    KidsTake(rk, ns, kids);
    KidReplaced(kids, i, kid);
    KidNode(rk, ns[i], kids[i]);
    Compare(BTree.Sum(BTree.KidSizes(kids)), BTree.KidSize(kids[i]), BTree.KidSize(kid), BTree.PMax(psize), left);
  }

  lemma KidNode(rk: Order, b: Bytes, kid: BTree.Kid)
    requires HoldsKid(rk, b, kid)
    ensures 2 + |b| == BTree.KidSize(kid)
  {
  }

  lemma Compare(sum: int, was: int, now: int, max: int, left: int)
    requires left == max - sum && sum <= max
    ensures sum - was + now <= max <==> now <= was || now - was <= left
  {
  }

  lemma KidRekeyed(rk: Order, before: seq<Bytes>, after: seq<Bytes>, kids: seq<BTree.Kid>, i: nat, kid: BTree.Kid, key: Bytes)
    requires HoldsKids(rk, before, kids) && i < |kids| && |after| == |before| && after == before[i := after[i]]
    requires rk(key) == kid.sep.rank && |key| == kid.sep.len && Rekeyed(before[i], after[i], key)
    ensures HoldsKids(rk, after, kids[i := kid])
  {
    assert HoldsKid(rk, after[i], kid);
  }

  // What AddEntry's outcome means for the tree: no room is a split page.
  lemma NoRoomSplits(psize: BTree.PageSize, es: seq<BTree.Entry>, i: nat, e: BTree.Entry, append: bool)
    requires i <= |es| && BTree.KeySizes(es) && e.key.len <= BTree.MAXKEYSIZE
    requires BTree.Sum(BTree.EntrySizes(psize, es)) <= BTree.PMax(psize)
    ensures BTreePut.LeafAdd(psize, es, i, e, append).Fit? <==>
      BTree.EntrySize(psize, e) <= BTree.PMax(psize) - BTree.Sum(BTree.EntrySizes(psize, es))
    ensures BTreePut.LeafAdd(psize, es, i, e, append).Fit? ==>
      BTreePut.LeafAdd(psize, es, i, e, append).t == BTree.Leaf(BTreePut.Splice(es, i, 0, e))
  {
  }

  // --- Searching a page -------------------------------------------------

  // The keys of a page that holds a sorted list are in order, and the binary
  // search over the list's keys is one over the bytes of the page.
  lemma KeysInOrder(psize: BTree.PageSize, rk: Order, ns: seq<Bytes>, es: seq<BTree.Entry>)
    requires HoldsEntries(psize, rk, ns, es) && BTree.Sorted(es)
    ensures forall i :: 0 <= i < |ns| ==> NODESIZE <= |ns[i]| && NODESIZE + KeySize(ns[i], 0) <= |ns[i]|
    ensures forall i :: 0 <= i < |ns| ==> BTreePut.Ranks(es)[i] == rk(KeyOf(ns[i]))
    ensures forall i, j :: 0 <= i < j < |ns| ==> rk(KeyOf(ns[i])) < rk(KeyOf(ns[j]))
  {
    forall i | 0 <= i < |ns|
      ensures NODESIZE <= |ns[i]| && NODESIZE + KeySize(ns[i], 0) <= |ns[i]| && es[i].key.rank == rk(KeyOf(ns[i]))
    {
      assert HoldsEntry(psize, rk, ns[i], es[i]);
    }
  }
}
