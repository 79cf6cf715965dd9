// The bytes of a branch or leaf page (liblmdb/src/mdb.c): mdb_node_add,
// mdb_node_del and mdb_update_key on an offset table that grows up and a node
// heap that grows down.

module SlottedPage {
  import opened PageFormat

  type Byte = b: int | 0 <= b < 256
  type Bytes = seq<Byte>

  const F_BIGDATA: nat := 1

  // --- Little-endian words ----------------------------------------------

  function Word(m: Bytes, off: nat): nat
    requires off + 2 <= |m|
  {
    m[off] as int + 256 * (m[off + 1] as int)
  }

  function WordBytes(v: nat): (w: Bytes)
    requires v < 0x10000
    ensures |w| == 2 && Word(w, 0) == v
  {
    [v % 256, v / 256]
  }

  // --- Nodes ------------------------------------------------------------

  // A node starts with mn_lo, mn_hi, mn_flags, mn_ksize; key and data follow.
  function KeySize(m: Bytes, off: nat): nat
    requires off + NODESIZE <= |m|
  {
    Word(m, off + 6)
  }

  function Flags(m: Bytes, off: nat): nat
    requires off + NODESIZE <= |m|
  {
    Word(m, off + 4)
  }

  function DataSize(m: Bytes, off: nat): nat
    requires off + NODESIZE <= |m|
  {
    Word(m, off) + 0x10000 * Word(m, off + 2)
  }

  function PayloadSize(leaf: bool, m: Bytes, off: nat): nat
    requires off + NODESIZE <= |m|
  {
    if !leaf then 0 else if Flags(m, off) % 2 == F_BIGDATA then PGNO_SIZE else DataSize(m, off)
  }

  function NodeSize(leaf: bool, m: Bytes, off: nat): (size: nat)
    requires off + NODESIZE <= |m|
    ensures NODESIZE <= size
  {
    Even(NODESIZE + KeySize(m, off) + PayloadSize(leaf, m, off))
  }

  // --- Page layout ------------------------------------------------------

  function Slot(m: Bytes, i: nat): nat
    requires PAGEHDRSZ + 2 * i + 2 <= |m|
  {
    Word(m, PAGEHDRSZ + 2 * i)
  }

  // The first n entries of the offset table.
  function Table(m: Bytes, n: nat): (t: seq<nat>)
    requires PAGEHDRSZ + 2 * n <= |m|
    ensures |t| == n && forall i: nat :: i < n ==> t[i] == Slot(m, i)
  {
    seq(n, i requires 0 <= i < n => Slot(m, i))
  }

  // A page: its bytes, the offsets in its table, mp_upper and the page kind.
  datatype Image = Image(m: Bytes, ptrs: seq<nat>, upper: nat, leaf: bool) {
    // mp_lower
    function Lower(): nat { PAGEHDRSZ + 2 * |ptrs| }

    function NumKeys(): nat { |ptrs| }

    ghost predicate Framed() {
      Lower() <= upper <= |m| <= MAX_PAGESIZE
    }

    function At(i: nat): nat
      requires Framed() && i < NumKeys()
    {
      ptrs[i]
    }

    ghost predicate InHeap(i: nat)
      requires Framed() && i < NumKeys()
    {
      upper <= At(i) && At(i) + NODESIZE <= |m| && At(i) + NodeSize(leaf, m, At(i)) <= |m|
    }

    function Size(i: nat): nat
      requires Framed() && i < NumKeys() && InHeap(i)
    {
      NodeSize(leaf, m, At(i))
    }

    // Node extents are disjoint and exactly tile [upper, page end).
    ghost predicate Tiled()
      requires Framed() && forall i :: 0 <= i < NumKeys() ==> InHeap(i)
    {
      && (forall i, j :: 0 <= i < NumKeys() && 0 <= j < NumKeys() && i != j ==> NodesApart(this, i, j))
      && forall b :: upper <= b < |m| ==> Covered(b)
    }

    ghost predicate Covered(b: int)
      requires Framed() && forall i :: 0 <= i < NumKeys() ==> InHeap(i)
    {
      exists i :: 0 <= i < NumKeys() && Covers(i, b)
    }

    ghost predicate Covers(i: nat, b: int)
      requires Framed() && i < NumKeys() && InHeap(i)
    {
      At(i) <= b < At(i) + Size(i)
    }

    ghost predicate Valid() {
      Framed() && (forall i :: 0 <= i < NumKeys() ==> InHeap(i)) && Tiled()
    }

    // The bytes of node i.
    function Node(i: nat): Bytes
      requires Framed() && i < NumKeys() && InHeap(i)
    {
      m[At(i)..At(i) + Size(i)]
    }
  }

  // The nodes of a page in key order.
  function Nodes(g: Image): (ns: seq<Bytes>)
    requires g.Valid()
    ensures |ns| == g.NumKeys()
  {
    seq(g.NumKeys(), i requires 0 <= i < g.NumKeys() => g.Node(i))
  }

  // --- Adding a node ----------------------------------------------------

  // g' is g with a node at offset g.upper - size filed under index indx.
  ghost predicate Added(g: Image, g': Image, indx: nat, size: nat) {
    g.Valid() && AddedBytes(g, g', indx, size)
  }

  ghost predicate AddedBytes(g: Image, g': Image, indx: nat, size: nat) {
    && g.Framed() && indx <= g.NumKeys() && g.Lower() + 2 + size <= g.upper
    && g'.leaf == g.leaf && |g'.m| == |g.m| && g'.NumKeys() == g.NumKeys() + 1 && g'.upper == g.upper - size
    && (forall i :: 0 <= i < indx ==> g'.ptrs[i] == g.ptrs[i])
    && g'.ptrs[indx] == g'.upper
    && (forall i :: indx < i <= g.NumKeys() ==> g'.ptrs[i] == g.ptrs[i - 1])
    && (forall b :: g.upper <= b < |g.m| ==> g'.m[b] == g.m[b])
    && NODESIZE <= size && NodeSize(g.leaf, g'.m, g'.upper) == size
  }

  // Where node i of the new page was before.
  function Before(indx: nat, i: nat): nat { if i < indx || i == 0 then i else i - 1 }

  lemma AddedAt(g: Image, g': Image, indx: nat, size: nat, i: nat)
    requires AddedBytes(g, g', indx, size) && i < g.NumKeys() + 1
    ensures g'.Framed() && g'.NumKeys() == g.NumKeys() + 1
    ensures i != indx ==> Before(indx, i) < g.NumKeys() && g'.At(i) == g.At(Before(indx, i))
    ensures i == indx ==> g'.At(i) == g'.upper && g'.InHeap(i) && g'.Size(i) == size
  {
  }

  lemma AddedNode(g: Image, g': Image, indx: nat, size: nat, i: nat)
    requires AddedBytes(g, g', indx, size) && i < g.NumKeys() + 1 && i != indx
    requires Before(indx, i) < g.NumKeys() ==> g.InHeap(Before(indx, i))
    ensures g'.Framed() && i < g'.NumKeys() && Before(indx, i) < g.NumKeys()
    ensures g'.At(i) == g.At(Before(indx, i)) && g'.InHeap(i)
    ensures g'.Size(i) == g.Size(Before(indx, i)) && g'.Node(i) == g.Node(Before(indx, i))
  {
    AddedAt(g, g', indx, size, i);
    SameNode(g, g', g.At(Before(indx, i)));
  }

  // A node whose bytes are kept keeps its size.
  lemma SameNode(g: Image, g': Image, off: nat)
    requires g.leaf == g'.leaf && |g.m| == |g'.m| && g.upper <= off && off + NODESIZE <= |g.m|
    requires forall k :: g.upper <= k < |g.m| ==> g'.m[k] == g.m[k]
    ensures NodeSize(g.leaf, g'.m, off) == NodeSize(g.leaf, g.m, off)
    ensures off + NodeSize(g.leaf, g.m, off) <= |g.m| ==>
      g'.m[off..off + NodeSize(g.leaf, g.m, off)] == g.m[off..off + NodeSize(g.leaf, g.m, off)]
  {
    assert forall k :: off <= k < off + NODESIZE ==> g'.m[k] == g.m[k];
  }

  lemma AddedApart(g: Image, g': Image, indx: nat, size: nat, i: nat, j: nat)
    requires Added(g, g', indx, size) && i < g.NumKeys() + 1 && j < g.NumKeys() + 1 && i != j
    ensures g'.Framed() && g'.NumKeys() == g.NumKeys() + 1 && g'.InHeap(i) && g'.InHeap(j)
    ensures NodesApart(g', i, j)
  {
    AddedAt(g, g', indx, size, i);
    AddedAt(g, g', indx, size, j);
    if i != indx { AddedNode(g, g', indx, size, i); }
    if j != indx { AddedNode(g, g', indx, size, j); }
    assert i != indx && j != indx ==> NodesApart(g, Before(indx, i), Before(indx, j));
  }

  lemma AddedCovers(g: Image, g': Image, indx: nat, size: nat, b: nat)
    requires Added(g, g', indx, size) && g'.upper <= b < |g.m|
    requires g'.Framed() && forall i :: 0 <= i < g'.NumKeys() ==> g'.InHeap(i)
    ensures g'.Covered(b)
  {
    if b < g.upper {
      assert g'.Covers(indx, b);
    } else {
      assert g.Covered(b);
      var i :| 0 <= i < g.NumKeys() && g.Covers(i, b);
      var j := if i < indx then i else i + 1;
      AddedNode(g, g', indx, size, j);
      assert g'.Covers(j, b);
    }
  }

  lemma AddedValid(g: Image, g': Image, indx: nat, size: nat)
    requires Added(g, g', indx, size)
    ensures g'.Valid() && g'.NumKeys() == g.NumKeys() + 1
  {
    assert g'.Framed() && g'.NumKeys() == g.NumKeys() + 1;
    forall i | 0 <= i < g'.NumKeys() ensures g'.InHeap(i) {
      if i != indx { AddedNode(g, g', indx, size, i); }
    }
    forall i, j | 0 <= i < g'.NumKeys() && 0 <= j < g'.NumKeys() && i != j
      ensures NodesApart(g', i, j)
    {
      AddedApart(g, g', indx, size, i, j);
    }
    forall b | g'.upper <= b < |g'.m| ensures g'.Covered(b) {
      AddedCovers(g, g', indx, size, b);
    }
  }

  // Every old node is still there, byte for byte, with the new one at indx.
  lemma AddedNodes(g: Image, g': Image, indx: nat, size: nat)
    requires Added(g, g', indx, size) && g'.Valid()
    ensures Nodes(g') == Nodes(g)[..indx] + [g'.m[g'.upper..g.upper]] + Nodes(g)[indx..]
  {
    var want := Nodes(g)[..indx] + [g'.m[g'.upper..g.upper]] + Nodes(g)[indx..];
    forall i | 0 <= i < g'.NumKeys() ensures Nodes(g')[i] == want[i] {
      if i != indx { AddedNode(g, g', indx, size, i); }
    }
  }

  // --- Shifting the lower part of the heap ------------------------------

  // n bytes of m from a on are n bytes of m' from a' on.
  ghost predicate SameStretch(m: Bytes, m': Bytes, a: nat, a': nat, n: nat) {
    a + n <= |m| && a' + n <= |m'| && m'[a'..a' + n] == m[a..a + n]
  }

  // Node indx lies at ptr; the nodes below it (the ones added later) move by
  // delta bytes, the ones above it stay.
  ghost predicate Shifted(g: Image, m': Bytes, indx: nat, delta: int)
  {
    && g.Framed() && indx < g.NumKeys() && g.InHeap(indx) && |m'| == |g.m|
    && 0 <= g.upper + delta && g.At(indx) + delta <= |g.m|
    && SameStretch(g.m, m', g.upper, g.upper + delta, g.At(indx) - g.upper)
    && SameStretch(g.m, m', g.At(indx) + g.Size(indx), g.At(indx) + g.Size(indx), |g.m| - g.At(indx) - g.Size(indx))
  }

  // The offset of node i afterwards.
  function NewAt(g: Image, indx: nat, delta: int, i: nat): int
    requires g.Framed() && indx < g.NumKeys() && i < g.NumKeys()
  {
    g.At(i) + (if g.At(i) < g.At(indx) then delta else 0)
  }

  ghost predicate NodesApart(g: Image, i: nat, j: nat)
    requires g.Framed() && i < g.NumKeys() && j < g.NumKeys() && g.InHeap(i) && g.InHeap(j)
  {
    g.At(i) + g.Size(i) <= g.At(j) || g.At(j) + g.Size(j) <= g.At(i)
  }

  // Equal stretches of n bytes have equal parts.
  lemma SubSlice(m: Bytes, m': Bytes, a: nat, a': nat, n: nat, x: nat, x': nat, len: nat)
    requires SameStretch(m, m', a, a', n)
    requires a <= x && x + len <= a + n && x' - a' == x - a
    ensures m'[x'..x' + len] == m[x..x + len]
  {
    var s, s' := m[x..x + len], m'[x'..x' + len];
    forall k | 0 <= k < len ensures s'[k] == s[k] {
      assert m'[x' + k] == m'[a'..a' + n][x - a + k];
      assert m[x + k] == m[a..a + n][x - a + k];
    }
  }

  lemma SizeByHeader(leaf: bool, m: Bytes, x: nat, m': Bytes, x': nat)
    requires x + NODESIZE <= |m| && x' + NODESIZE <= |m'| && m'[x'..x' + NODESIZE] == m[x..x + NODESIZE]
    ensures NodeSize(leaf, m', x') == NodeSize(leaf, m, x)
  {
    var h, h' := m[x..x + NODESIZE], m'[x'..x' + NODESIZE];
    assert forall k :: 0 <= k < NODESIZE ==> m[x + k] == h[k] && m'[x' + k] == h'[k];
    assert Word(m, x) == Word(h, 0) && Word(m, x + 2) == Word(h, 2) && Word(m, x + 4) == Word(h, 4) && Word(m, x + 6) == Word(h, 6);
  }

  ghost predicate SameNodeAt(g: Image, i: nat, m': Bytes, off: int)
    requires g.Framed() && i < g.NumKeys() && g.InHeap(i)
  {
    && 0 <= off && off + NODESIZE <= |m'| && off + g.Size(i) <= |m'|
    && NodeSize(g.leaf, m', off) == g.Size(i)
    && m'[off..off + g.Size(i)] == g.Node(i)
  }

  // A node within a stretch that is kept.
  lemma StretchNode(leaf: bool, m: Bytes, m': Bytes, a: nat, a': nat, n: nat, x: nat, x': nat)
    requires SameStretch(m, m', a, a', n) && a <= x && x + NODESIZE <= |m| && x' - a' == x - a
    requires x + NodeSize(leaf, m, x) <= a + n
    ensures x' + NODESIZE <= |m'| && x' + NodeSize(leaf, m, x) <= |m'|
    ensures NodeSize(leaf, m', x') == NodeSize(leaf, m, x)
    ensures m'[x'..x' + NodeSize(leaf, m, x)] == m[x..x + NodeSize(leaf, m, x)]
  {
    SubSlice(m, m', a, a', n, x, x', NodeSize(leaf, m, x));
    SubSlice(m, m', a, a', n, x, x', NODESIZE);
    SizeByHeader(leaf, m, x, m', x');
  }

  // The nodes below node indx ...
  lemma ShiftedBelow(g: Image, m': Bytes, indx: nat, delta: int, i: nat)
    requires Shifted(g, m', indx, delta) && i < g.NumKeys() && g.InHeap(i) && g.At(i) + g.Size(i) <= g.At(indx)
    ensures SameNodeAt(g, i, m', g.At(i) + delta)
  {
    StretchNode(g.leaf, g.m, m', g.upper, g.upper + delta, g.At(indx) - g.upper, g.At(i), g.At(i) + delta);
  }

  // ... and those above it.
  lemma ShiftedAbove(g: Image, m': Bytes, indx: nat, delta: int, i: nat)
    requires Shifted(g, m', indx, delta) && i < g.NumKeys() && g.InHeap(i) && g.At(indx) + g.Size(indx) <= g.At(i)
    ensures SameNodeAt(g, i, m', g.At(i))
  {
    var keep := g.At(indx) + g.Size(indx);
    StretchNode(g.leaf, g.m, m', keep, keep, |g.m| - keep, g.At(i), g.At(i));
  }

  lemma ShiftedNode(g: Image, m': Bytes, indx: nat, delta: int, i: nat)
    requires Shifted(g, m', indx, delta) && i < g.NumKeys() && i != indx && g.InHeap(i) && NodesApart(g, i, indx)
    ensures SameNodeAt(g, i, m', NewAt(g, indx, delta, i))
  {
    NodeSide(g, i, indx);
    if g.At(i) < g.At(indx) { ShiftedBelow(g, m', indx, delta, i); } else { ShiftedAbove(g, m', indx, delta, i); }
  }

  // --- Deleting a node --------------------------------------------------

  // Index of node j of the shorter page on the longer one.
  function Skip(indx: nat, j: nat): nat { if j < indx then j else j + 1 }

  ghost predicate Removed(g: Image, g': Image, indx: nat) {
    g.Valid() && RemovedBytes(g, g', indx)
  }

  ghost predicate RemovedBytes(g: Image, g': Image, indx: nat) {
    && g.Framed() && indx < g.NumKeys() && g.InHeap(indx) && Shifted(g, g'.m, indx, g.Size(indx))
    && g'.leaf == g.leaf && g'.NumKeys() == g.NumKeys() - 1 && g'.upper == g.upper + g.Size(indx)
    && forall j :: 0 <= j < g.NumKeys() - 1 ==> g'.ptrs[j] == NewAt(g, indx, g.Size(indx), Skip(indx, j))
  }

  lemma RemovedNode(g: Image, g': Image, indx: nat, j: nat)
    requires RemovedBytes(g, g', indx) && j < g.NumKeys() - 1
    requires g.InHeap(Skip(indx, j)) && NodesApart(g, Skip(indx, j), indx)
    ensures g'.Framed() && j < g'.NumKeys() == g.NumKeys() - 1 && g'.InHeap(j)
    ensures g'.At(j) == NewAt(g, indx, g.Size(indx), Skip(indx, j))
    ensures g'.Size(j) == g.Size(Skip(indx, j)) && g'.Node(j) == g.Node(Skip(indx, j))
    ensures var i := Skip(indx, j);
      (g.At(i) < g.At(indx) ==> g.At(i) + g.Size(i) <= g.At(indx)) &&
      (g.At(i) >= g.At(indx) ==> g.At(indx) + g.Size(indx) <= g.At(i))
  {
    ShiftedNode(g, g'.m, indx, g.Size(indx), Skip(indx, j));
  }

  lemma RemovedCovers(g: Image, g': Image, indx: nat, b: nat)
    requires Removed(g, g', indx) && g'.upper <= b < |g.m|
    requires g'.Framed() && g'.NumKeys() == g.NumKeys() - 1 && forall i :: 0 <= i < g'.NumKeys() ==> g'.InHeap(i)
    ensures g'.Covered(b)
  {
    var was := if b < g.At(indx) + g.Size(indx) then b - g.Size(indx) else b;
    assert g.Covered(was);
    var i :| 0 <= i < g.NumKeys() && g.Covers(i, was);
    assert i == indx || NodesApart(g, i, indx);
    var j := if i < indx then i else i - 1;
    RemovedCover(g, g', indx, j, b);
    assert g'.Covers(j, b);
  }

  lemma RemovedCover(g: Image, g': Image, indx: nat, j: nat, b: nat)
    requires RemovedBytes(g, g', indx) && j < g.NumKeys() - 1
    requires g.InHeap(Skip(indx, j)) && NodesApart(g, Skip(indx, j), indx)
    requires b >= (if b < g.At(indx) + g.Size(indx) then g.Size(indx) else 0)
    requires g.Covers(Skip(indx, j), if b < g.At(indx) + g.Size(indx) then b - g.Size(indx) else b)
    ensures g'.Framed() && j < g'.NumKeys() && g'.InHeap(j) && g'.Covers(j, b)
  {
    RemovedNode(g, g', indx, j);
  }

  lemma RemovedApart(g: Image, g': Image, indx: nat, i: nat, j: nat)
    requires Removed(g, g', indx) && i < g.NumKeys() - 1 && j < g.NumKeys() - 1 && i != j
    ensures g'.Framed() && g'.NumKeys() == g.NumKeys() - 1 && g'.InHeap(i) && g'.InHeap(j)
    ensures NodesApart(g', i, j)
  {
    assert NodesApart(g, Skip(indx, i), indx) && NodesApart(g, Skip(indx, j), indx);
    RemovedNode(g, g', indx, i);
    RemovedNode(g, g', indx, j);
    assert NodesApart(g, Skip(indx, i), Skip(indx, j));
  }

  lemma RemovedValid(g: Image, g': Image, indx: nat)
    requires Removed(g, g', indx)
    ensures g'.Valid() && g'.NumKeys() == g.NumKeys() - 1
  {
    assert g'.Framed() && g'.NumKeys() == g.NumKeys() - 1;
    assert forall i :: 0 <= i < g.NumKeys() && i != indx ==> NodesApart(g, i, indx);
    forall j | 0 <= j < g'.NumKeys() ensures g'.InHeap(j) { RemovedNode(g, g', indx, j); }
    forall i, j | 0 <= i < g'.NumKeys() && 0 <= j < g'.NumKeys() && i != j
      ensures NodesApart(g', i, j)
    {
      RemovedApart(g, g', indx, i, j);
    }
    forall b | g'.upper <= b < |g'.m| ensures g'.Covered(b) { RemovedCovers(g, g', indx, b); }
  }

  // Every other node is still there, byte for byte.
  lemma RemovedNodes(g: Image, g': Image, indx: nat)
    requires Removed(g, g', indx) && g'.Valid()
    ensures Nodes(g') == Nodes(g)[..indx] + Nodes(g)[indx + 1..]
  {
    var want := Nodes(g)[..indx] + Nodes(g)[indx + 1..];
    forall j | 0 <= j < g.NumKeys() - 1 ensures g'.NumKeys() == g.NumKeys() - 1 && Nodes(g')[j] == want[j] {
      RemovedAt(g, g', indx, j);
    }
  }

  lemma RemovedAt(g: Image, g': Image, indx: nat, j: nat)
    requires Removed(g, g', indx) && g'.Valid() && j < g.NumKeys() - 1
    ensures j < g'.NumKeys() && Nodes(g')[j] == Nodes(g)[Skip(indx, j)]
  {
    assert NodesApart(g, Skip(indx, j), indx);
    RemovedNode(g, g', indx, j);
  }

  // --- Resizing a node --------------------------------------------------

  // Node indx grows downward by delta bytes (shrinks for delta < 0).
  ghost predicate Resized(g: Image, g': Image, indx: nat, delta: int) {
    g.Valid() && ResizedBytes(g, g', indx, delta)
  }

  ghost predicate ResizedBytes(g: Image, g': Image, indx: nat, delta: int) {
    && g.Framed() && indx < g.NumKeys() && Shifted(g, g'.m, indx, -delta)
    && g'.leaf == g.leaf && g'.NumKeys() == g.NumKeys() && g'.upper == g.upper - delta && g.Lower() <= g.upper - delta
    && NODESIZE <= g.Size(indx) + delta
    && NodeSize(g.leaf, g'.m, g.At(indx) - delta) == g.Size(indx) + delta
    && g'.ptrs[indx] == g.At(indx) - delta
    && forall i :: 0 <= i < g.NumKeys() && i != indx ==> g'.ptrs[i] == NewAt(g, indx, -delta, i)
  }

  lemma ResizedFrame(g: Image, g': Image, indx: nat, delta: int, i: nat)
    requires ResizedBytes(g, g', indx, delta) && i < g.NumKeys()
    ensures g'.Framed() && g'.NumKeys() == g.NumKeys()
    ensures g'.At(i) == if i == indx then g.At(indx) - delta else NewAt(g, indx, -delta, i)
  {
  }

  lemma ResizedSelf(g: Image, g': Image, indx: nat, delta: int)
    requires ResizedBytes(g, g', indx, delta)
    ensures g'.Framed() && g'.NumKeys() == g.NumKeys() && g'.InHeap(indx)
    ensures g'.At(indx) == g.At(indx) - delta && g'.Size(indx) == g.Size(indx) + delta
  {
    ResizedFrame(g, g', indx, delta, indx);
  }

  lemma ResizedNode(g: Image, g': Image, indx: nat, delta: int, i: nat)
    requires ResizedBytes(g, g', indx, delta) && i < g.NumKeys() && i != indx
    requires g.InHeap(i) && NodesApart(g, i, indx)
    ensures g'.Framed() && g'.NumKeys() == g.NumKeys() && g'.InHeap(i)
    ensures g'.At(i) == NewAt(g, indx, -delta, i) && g'.Size(i) == g.Size(i) && g'.Node(i) == g.Node(i)
  {
    ResizedFrame(g, g', indx, delta, i);
    ResizedAbove(g, indx, delta, i);
    ResizedMoves(g, g', indx, delta, i);
    NodeCarried(g, g', i, NewAt(g, indx, -delta, i));
  }

  lemma ResizedMoves(g: Image, g': Image, indx: nat, delta: int, i: nat)
    requires ResizedBytes(g, g', indx, delta) && i < g.NumKeys() && i != indx && g.InHeap(i) && NodesApart(g, i, indx)
    ensures SameNodeAt(g, i, g'.m, NewAt(g, indx, -delta, i))
  {
    ShiftedNode(g, g'.m, indx, -delta, i);
  }

  lemma ResizedAbove(g: Image, indx: nat, delta: int, i: nat)
    requires g.Framed() && indx < g.NumKeys() && i < g.NumKeys() && g.InHeap(indx) && g.InHeap(i) && NodesApart(g, i, indx)
    requires NODESIZE <= g.Size(indx) + delta
    ensures g.upper - delta <= NewAt(g, indx, -delta, i)
  {
  }

  lemma NodeCarried(g: Image, g': Image, i: nat, off: nat)
    requires g.Framed() && i < g.NumKeys() && g.InHeap(i) && g'.Framed() && i < g'.NumKeys()
    requires g'.leaf == g.leaf && g'.At(i) == off && g'.upper <= off && SameNodeAt(g, i, g'.m, off)
    ensures g'.InHeap(i) && g'.Size(i) == g.Size(i) && g'.Node(i) == g.Node(i)
  {
  }

  // A node apart from another one lies below or above it.
  lemma NodeSide(g: Image, i: nat, indx: nat)
    requires g.Framed() && i < g.NumKeys() && indx < g.NumKeys() && g.InHeap(i) && g.InHeap(indx) && NodesApart(g, i, indx)
    ensures g.At(i) < g.At(indx) ==> g.At(i) + g.Size(i) <= g.At(indx)
    ensures g.At(i) >= g.At(indx) ==> g.At(indx) + g.Size(indx) <= g.At(i)
  {
  }

  lemma ResizedAny(g: Image, g': Image, indx: nat, delta: int, i: nat)
    requires Resized(g, g', indx, delta) && i < g.NumKeys()
    ensures g'.Framed() && g'.NumKeys() == g.NumKeys() && g'.InHeap(i)
    ensures i == indx ==> g'.At(i) == g.At(indx) - delta && g'.Size(i) == g.Size(indx) + delta
    ensures i != indx ==> g'.At(i) == NewAt(g, indx, -delta, i) && g'.Size(i) == g.Size(i) && g'.Node(i) == g.Node(i)
    ensures i != indx && g.At(i) < g.At(indx) ==> g.At(i) + g.Size(i) <= g.At(indx)
    ensures i != indx && g.At(i) >= g.At(indx) ==> g.At(indx) + g.Size(indx) <= g.At(i)
  {
    if i == indx {
      ResizedSelf(g, g', indx, delta);
    } else {
      assert NodesApart(g, i, indx);
      ResizedNode(g, g', indx, delta, i);
      NodeSide(g, i, indx);
    }
  }

  lemma ResizedCovers(g: Image, g': Image, indx: nat, delta: int, b: nat)
    requires Resized(g, g', indx, delta) && g'.upper <= b < |g.m|
    requires g'.Framed() && g'.NumKeys() == g.NumKeys() && forall i :: 0 <= i < g'.NumKeys() ==> g'.InHeap(i)
    ensures g'.Covered(b)
  {
    ResizedAny(g, g', indx, delta, indx);
    if g.At(indx) - delta <= b < g.At(indx) + g.Size(indx) {
      assert g'.Covers(indx, b);
    } else {
      var was := if b < g.At(indx) - delta then b + delta else b;
      assert g.Covered(was);
      var i :| 0 <= i < g.NumKeys() && g.Covers(i, was);
      ResizedAny(g, g', indx, delta, i);
      assert g'.Covers(i, b);
    }
  }

  lemma ResizedApart(g: Image, g': Image, indx: nat, delta: int, i: nat, j: nat)
    requires Resized(g, g', indx, delta) && i < g.NumKeys() && j < g.NumKeys() && i != j
    ensures g'.Framed() && g'.NumKeys() == g.NumKeys() && g'.InHeap(i) && g'.InHeap(j)
    ensures NodesApart(g', i, j)
  {
    assert NodesApart(g, i, j);
    ResizedAny(g, g', indx, delta, i);
    ResizedAny(g, g', indx, delta, j);
  }

  lemma ResizedValid(g: Image, g': Image, indx: nat, delta: int)
    requires Resized(g, g', indx, delta)
    ensures g'.Valid() && g'.NumKeys() == g.NumKeys()
  {
    assert g'.Framed() && g'.NumKeys() == g.NumKeys();
    forall i | 0 <= i < g'.NumKeys() ensures g'.InHeap(i) { ResizedAny(g, g', indx, delta, i); }
    forall i, j | 0 <= i < g'.NumKeys() && 0 <= j < g'.NumKeys() && i != j
      ensures NodesApart(g', i, j)
    {
      ResizedApart(g, g', indx, delta, i, j);
    }
    forall b | g'.upper <= b < |g'.m| ensures g'.Covered(b) { ResizedCovers(g, g', indx, delta, b); }
  }

  // Every other node is still there, byte for byte.
  lemma ResizedNodes(g: Image, g': Image, indx: nat, delta: int)
    requires Resized(g, g', indx, delta) && g'.Valid()
    ensures g'.NumKeys() == g.NumKeys()
    ensures Nodes(g') == Nodes(g)[indx := Nodes(g')[indx]]
    ensures Nodes(g')[indx] == g'.m[g.At(indx) - delta..g.At(indx) + g.Size(indx)]
  {
    forall i | 0 <= i < g'.NumKeys() && i != indx ensures Nodes(g')[i] == Nodes(g)[i] {
      ResizedAny(g, g', indx, delta, i);
    }
    ResizedAny(g, g', indx, delta, indx);
  }

  // --- Space accounting -------------------------------------------------

  function TotalSize(ns: seq<Bytes>): nat {
    if ns == [] then 0 else |ns[0]| + TotalSize(ns[1..])
  }

  lemma {:induction false} TotalConcat(a: seq<Bytes>, b: seq<Bytes>)
    ensures TotalSize(a + b) == TotalSize(a) + TotalSize(b)
  {
    if a == [] {
      assert a + b == b;
    } else {
      assert (a + b)[1..] == a[1..] + b;
      TotalConcat(a[1..], b);
    }
  }

  // Used heap bytes are exactly the nodes' bytes.
  ghost predicate Accounted(g: Image)
    requires g.Valid()
  {
    TotalSize(Nodes(g)) == |g.m| - g.upper
  }

  lemma TotalAround(a: seq<Bytes>, x: Bytes, b: seq<Bytes>)
    ensures TotalSize(a + [x] + b) == TotalSize(a + b) + |x|
  {
    TotalConcat(a + [x], b);
    TotalConcat(a, [x]);
    TotalConcat(a, b);
    assert [x][1..] == [];
  }

  lemma AddedAccounted(g: Image, g': Image, indx: nat, size: nat)
    requires Added(g, g', indx, size) && g'.Valid() && Accounted(g)
    ensures Accounted(g')
  {
    AddedNodes(g, g', indx, size);
    var a, b := Nodes(g)[..indx], Nodes(g)[indx..];
    assert Nodes(g) == a + b;
    TotalAround(a, g'.m[g'.upper..g.upper], b);
  }

  lemma RemovedAccounted(g: Image, g': Image, indx: nat)
    requires Removed(g, g', indx) && g'.Valid() && Accounted(g)
    ensures Accounted(g')
  {
    RemovedNodes(g, g', indx);
    var a, x, b := Nodes(g)[..indx], Nodes(g)[indx], Nodes(g)[indx + 1..];
    assert Nodes(g) == a + [x] + b;
    TotalAround(a, x, b);
    assert |x| == g.Size(indx);
  }

  lemma ResizedAccounted(g: Image, g': Image, indx: nat, delta: int)
    requires Resized(g, g', indx, delta) && g'.Valid() && Accounted(g)
    ensures Accounted(g')
  {
    ResizedNodes(g, g', indx, delta);
    var a, x, b := Nodes(g)[..indx], Nodes(g)[indx], Nodes(g)[indx + 1..];
    var x' := Nodes(g')[indx];
    assert Nodes(g) == a + [x] + b;
    assert Nodes(g') == a + [x'] + b;
    TotalAround(a, x, b);
    TotalAround(a, x', b);
    assert |x| == g.Size(indx);
  }

  // --- What a node is made of -------------------------------------------

  function Header(lo: nat, hi: nat, flags: nat, ksize: nat): (h: Bytes)
    requires lo < 0x10000 && hi < 0x10000 && flags < 0x10000 && ksize < 0x10000
    ensures |h| == NODESIZE
    ensures Word(h, 0) == lo && Word(h, 2) == hi && Word(h, 4) == flags && Word(h, 6) == ksize
  {
    WordBytes(lo) + WordBytes(hi) + WordBytes(flags) + WordBytes(ksize)
  }

  // A leaf node with data of dsz bytes, of which `payload` is on the page; a
  // branch node with the low and high parts of the child's page number.
  function NodeBytes(dsz: nat, flags: nat, key: Bytes, payload: Bytes): (b: Bytes)
    requires dsz < 0x1_0000_0000 && flags < 0x10000 && |key| < 0x10000
    ensures |b| == NODESIZE + |key| + |payload|
  {
    Header(dsz % 0x10000, dsz / 0x10000, flags, |key|) + key + payload
  }

  ghost predicate PayloadFits(leaf: bool, dsz: nat, flags: nat, payload: Bytes) {
    |payload| == if !leaf then 0 else if flags % 2 == F_BIGDATA then PGNO_SIZE else dsz
  }

  // Reading back a stored node gives its parts.
  lemma ReadBack(leaf: bool, m: Bytes, off: nat, dsz: nat, flags: nat, key: Bytes, payload: Bytes)
    requires dsz < 0x1_0000_0000 && flags < 0x10000 && |key| < 0x10000 && PayloadFits(leaf, dsz, flags, payload)
    requires var b := NodeBytes(dsz, flags, key, payload); off + |b| <= |m| && m[off..off + |b|] == b
    ensures KeySize(m, off) == |key| && Flags(m, off) == flags && DataSize(m, off) == dsz
    ensures NodeSize(leaf, m, off) == Even(NODESIZE + |key| + |payload|)
    ensures m[off + NODESIZE..off + NODESIZE + |key|] == key
    ensures m[off + NODESIZE + |key|..off + NODESIZE + |key| + |payload|] == payload
  {
    var b := NodeBytes(dsz, flags, key, payload);
    var h := Header(dsz % 0x10000, dsz / 0x10000, flags, |key|);
    var k := NODESIZE + |key|;
    assert b == h + (key + payload);
    assert b[..NODESIZE] == h && b[NODESIZE..k] == key && b[k..] == payload;
    PartOf(m, off, b, 0, NODESIZE);
    PartOf(m, off, b, NODESIZE, k);
    PartOf(m, off, b, k, |b|);
  }

  lemma PartOf(m: Bytes, off: nat, b: Bytes, x: nat, y: nat)
    requires off + |b| <= |m| && m[off..off + |b|] == b && x <= y <= |b|
    ensures m[off + x..off + y] == b[x..y]
  {
    var s, s' := b[x..y], m[off + x..off + y];
    forall k | 0 <= k < y - x ensures s'[k] == s[k] {
      assert m[off..off + |b|][x + k] == m[off + (x + k)];
    }
  }
}
