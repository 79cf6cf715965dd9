// The page operations of liblmdb/src/mdb.c on real memory: loops that move
// table entries one by one, and memmove of the node heap.

module PageOps {
  import opened PageFormat
  import opened SlottedPage

  // Entry i of the offset table set to v.
  function WithSlot(m: Bytes, i: nat, v: nat): (m': Bytes)
    requires v < 0x10000 && PAGEHDRSZ + 2 * i + 2 <= |m|
    ensures |m'| == |m|
  {
    m[PAGEHDRSZ + 2 * i := v % 256][PAGEHDRSZ + 2 * i + 1 := v / 256]
  }

  // The bytes of b written at off.
  ghost predicate Pasted(m: Bytes, off: nat, b: Bytes, m': Bytes)
    requires off + |b| <= |m|
  {
    |m'| == |m| && forall k :: 0 <= k < |m| ==> m'[k] == if off <= k < off + |b| then b[k - off] else m[k]
  }

  // The len bytes at src copied to dst.
  ghost predicate Moved(m: Bytes, dst: nat, src: nat, len: nat, m': Bytes)
    requires dst + len <= |m| && src + len <= |m|
  {
    && |m'| == |m|
    && (forall k :: 0 <= k < dst || dst + len <= k < |m| ==> m'[k] == m[k])
    && (forall k :: dst <= k < dst + len ==> m'[k] == m[src + (k - dst)])
  }

  ghost predicate SameFrom(m: Bytes, m': Bytes, a: nat) {
    |m| == |m'| && forall k :: a <= k < |m| ==> m'[k] == m[k]
  }

  lemma WithSlotTable(m: Bytes, i: nat, v: nat, n: nat)
    requires v < 0x10000 && i < n && PAGEHDRSZ + 2 * n <= |m|
    ensures var m' := WithSlot(m, i, v);
      Table(m', n) == Table(m, n)[i := v] && SameFrom(m, m', PAGEHDRSZ + 2 * n)
  {
    var m' := WithSlot(m, i, v);
    forall k: nat | k < n && k != i ensures Slot(m', k) == Slot(m, k) {}
    assert Slot(m', i) == v;
  }

  // The loop of mdb_node_add has moved the entries above i up one place.
  ghost predicate OpenedTo(t0: seq<nat>, t: seq<nat>, i: nat) {
    && i <= |t0| == |t| - 1
    && (forall k :: 0 <= k <= i && k < |t0| ==> t[k] == t0[k])
    && (forall k :: i < k < |t| ==> t[k] == t0[k - 1])
  }

  ghost predicate Filed(t0: seq<nat>, t: seq<nat>, indx: nat, ofs: nat) {
    && indx <= |t0| == |t| - 1 && t[indx] == ofs
    && (forall k :: 0 <= k < indx ==> t[k] == t0[k])
    && (forall k :: indx < k < |t| ==> t[k] == t0[k - 1])
  }

  // The loop of mdb_node_del has dealt with the entries below i.
  ghost predicate ClosedTo(t0: seq<nat>, t: seq<nat>, indx: nat, size: nat, i: nat) {
    && indx < |t0| == |t| && i <= |t|
    && (forall k :: i <= k < |t| ==> t[k] == t0[k])
    && (forall k :: 0 <= k < (if i <= indx then i else i - 1) ==> t[k] == Lifted(t0, indx, size, Skip(indx, k)))
  }

  // The loop of mdb_update_key has dealt with the entries below i.
  ghost predicate LoweredTo(t0: seq<nat>, t: seq<nat>, ptr: nat, delta: int, i: nat) {
    && i <= |t0| == |t|
    && (forall k :: i <= k < |t| ==> t[k] == t0[k])
    && (forall k :: 0 <= k < i ==> t[k] == if t0[k] <= ptr then t0[k] - delta else t0[k])
  }

  lemma ClosedStep(t0: seq<nat>, t: seq<nat>, indx: nat, size: nat, i: nat)
    requires ClosedTo(t0, t, indx, size, i) && i < |t|
    ensures t[i] == t0[i]
    ensures i == indx ==> ClosedTo(t0, t, indx, size, i + 1)
    ensures i != indx ==> ClosedTo(t0, t[(if i < indx then i else i - 1) := Lifted(t0, indx, size, i)], indx, size, i + 1)
  {
  }

  // A table entry after the nodes below node indx moved up by size bytes.
  function Lifted(t: seq<nat>, indx: nat, size: nat, i: nat): nat
    requires indx < |t| && i < |t|
  {
    t[i] + (if t[i] < t[indx] then size else 0)
  }

  class Page {
    const leaf: bool          // P_LEAF, else P_BRANCH
    const mem: array<Byte>    // me_psize bytes
    var lower: nat            // mp_lower
    var upper: nat            // mp_upper

    ghost function Img(): (g: Image)
      requires Framed()
      reads this, mem
      ensures g.Lower() == lower && g.Framed()
    {
      Image(mem[..], Table(mem[..], NumKeys()), upper, leaf)
    }

    ghost predicate Framed()
      reads this
    {
      PAGEHDRSZ <= lower <= upper <= mem.Length <= MAX_PAGESIZE && lower % 2 == 0
    }

    ghost predicate Valid()
      reads this, mem
    {
      Framed() && Img().Valid() && Accounted(Img())
    }

    // A fresh page, as mdb_page_new leaves it.
    constructor (psize: nat, leaf: bool)
      requires PAGEHDRSZ <= psize <= MAX_PAGESIZE
      ensures Valid() && Nodes(Img()) == [] && fresh(mem) && mem.Length == psize && this.leaf == leaf
    {
      this.leaf := leaf;
      mem := new Byte[psize](_ => 0);
      lower, upper := PAGEHDRSZ, psize;
    }

    function NumKeys(): nat
      requires PAGEHDRSZ <= lower
      reads this
    {
      (lower - PAGEHDRSZ) / 2
    }

    function PtrAt(i: nat): nat
      requires PAGEHDRSZ + 2 * i + 2 <= mem.Length
      reads this, mem
    {
      Word(mem[..], PAGEHDRSZ + 2 * i)
    }

    method SetPtr(i: nat, v: nat)
      requires PAGEHDRSZ + 2 * i + 2 <= mem.Length && v < 0x10000
      modifies mem
      ensures mem[..] == WithSlot(old(mem[..]), i, v)
    {
      var off := PAGEHDRSZ + 2 * i;
      mem[off], mem[off + 1] := v % 256, v / 256;
    }

    // memcpy of bytes into the page.
    method Store(off: nat, b: Bytes)
      requires off + |b| <= mem.Length
      modifies mem
      ensures Pasted(old(mem[..]), off, b, mem[..])
    {
      forall k | 0 <= k < |b| { mem[off + k] := b[k]; }
    }

    // memmove within the page.
    method Move(dst: nat, src: nat, len: nat)
      requires dst + len <= mem.Length && src + len <= mem.Length
      modifies mem
      ensures Moved(old(mem[..]), dst, src, len, mem[..])
    {
      forall k | 0 <= k < len { mem[dst + k] := mem[src + k]; }
    }

    // "Move higher pointers up one slot."
    method OpenSlot(indx: nat)
      requires Framed() && indx <= NumKeys() && lower + 2 <= upper
      modifies mem
      ensures OpenedTo(old(Img().ptrs), Table(mem[..], NumKeys() + 1), indx) && SameFrom(old(mem[..]), mem[..], lower + 2)
    {
      var i := NumKeys();
      ghost var n, t := NumKeys() + 1, Img().ptrs;
      while i > indx
        invariant indx <= i < n
        invariant OpenedTo(t, Table(mem[..], n), i)
        invariant SameFrom(old(mem[..]), mem[..], lower + 2)
      {
        WithSlotTable(mem[..], i, PtrAt(i - 1), n);
        SetPtr(i, PtrAt(i - 1));
        i := i - 1;
      }
    }

    // A new table entry `ofs` at indx.
    method FileSlot(indx: nat, ofs: nat)
      requires Framed() && indx <= NumKeys() && lower + 2 <= upper && ofs < 0x10000
      modifies mem
      ensures Filed(old(Img().ptrs), Table(mem[..], NumKeys() + 1), indx, ofs)
      ensures SameFrom(old(mem[..]), mem[..], lower + 2)
    {
      OpenSlot(indx);
      WithSlotTable(mem[..], indx, ofs, NumKeys() + 1);
      SetPtr(indx, ofs);
    }

    // The memory moves of mdb_node_add once there is room.
    method PlaceNode(indx: nat, node: Bytes, size: nat)
      requires Framed() && indx <= NumKeys()
      requires NODESIZE <= |node| <= size && NodeSize(leaf, node, 0) == size && lower + 2 + size <= upper
      modifies this`lower, this`upper, mem
      ensures lower == old(lower) + 2 && upper == old(upper) - size
      ensures Framed() && AddedBytes(old(Img()), Img(), indx, size)
      ensures mem[upper..upper + |node|] == node
    {
      ghost var g := Img();
      var ofs := upper - size;
      FileSlot(indx, ofs);
      ghost var m := mem[..];
      Store(ofs, node);
      ghost var m' := mem[..];
      SameTable(m, m', NumKeys() + 1);
      lower, upper := lower + 2, ofs;
      assert mem[..] == m';
      Placed(g, m, Img(), indx, size, node);
    }

    // mdb_node_add with the node's bytes already put together: false means
    // MDB_PAGE_FULL and an unchanged page.
    method AddNode(indx: nat, node: Bytes) returns (ok: bool)
      requires Valid() && indx <= NumKeys() && NODESIZE <= |node|
      requires NodeSize(leaf, node, 0) == Even(|node|)
      modifies this`lower, this`upper, mem
      ensures Valid()
      ensures ok <==> old(lower) + 2 + Even(|node|) <= old(upper)
      ensures !ok ==> mem[..] == old(mem[..]) && lower == old(lower) && upper == old(upper)
      ensures ok ==> lower == old(lower) + 2 && upper == old(upper) - Even(|node|)
      ensures ok ==> NodeInserted(old(Nodes(Img())), Nodes(Img()), indx, node)
    {
      ghost var g := Img();
      var size, room := Even(|node|), upper as int - lower - 2;
      if size > room {
        return false;
      }
      PlaceNode(indx, node, size);
      AddedPage(g, Img(), indx, size, node);
      ok := true;
    }

    // mdb_node_add. A leaf node too big for me_nodemax goes to overflow pages,
    // of which `ovpg` is the first page's number; with F_BIGDATA in `flags`
    // the data already is such a number. `dsz` is the data size, or the child's
    // page number on a branch page.
    method NodeAdd(nodemax: nat, indx: nat, key: Bytes, data: Bytes, dsz: nat, flags: nat, ovpg: Bytes)
      returns (ok: bool)
      requires Valid() && indx <= NumKeys()
      requires dsz < 0x1_0000_0000 && flags < 0xffff && |key| < 0x10000 && |ovpg| == PGNO_SIZE
      requires PayloadFits(leaf, dsz, flags, data)
      modifies this`lower, this`upper, mem
      ensures Valid()
      ensures var node := NewNode(leaf, nodemax, key, data, dsz, flags, ovpg);
        (ok <==> old(lower) + 2 + Even(|node|) <= old(upper)) &&
        (ok ==> NodeInserted(old(Nodes(Img())), Nodes(Img()), indx, node))
      ensures !ok ==> mem[..] == old(mem[..]) && lower == old(lower) && upper == old(upper)
    {
      var node := NewNode(leaf, nodemax, key, data, dsz, flags, ovpg);
      ok := AddNode(indx, node);
    }

    // Delete the pointer and adjust those of the nodes that will move.
    method CloseSlot(indx: nat, size: nat)
      requires Framed() && indx < NumKeys() && PtrAt(indx) + size < 0x10000
      modifies mem
      ensures ClosedTo(old(Img().ptrs), Img().ptrs, indx, size, NumKeys()) && SameFrom(old(mem[..]), mem[..], lower)
    {
      ghost var n, t := NumKeys(), Img().ptrs;
      var ptr, i, j := PtrAt(indx), 0, 0;
      while i < NumKeys()
        invariant i <= n && j == (if i <= indx then i else i - 1)
        invariant ClosedTo(t, Table(mem[..], n), indx, size, i)
        invariant SameFrom(old(mem[..]), mem[..], lower)
      {
        ClosedStep(t, Table(mem[..], n), indx, size, i);
        if i != indx {
          var p := PtrAt(i);
          var v := if p < ptr then p + size else p;
          WithSlotTable(mem[..], j, v, n);
          SetPtr(j, v);
          j := j + 1;
        }
        i := i + 1;
      }
    }

    // mdb_node_del: the node is gone, all others are as they were.
    method NodeDel(indx: nat)
      requires Valid() && indx < NumKeys()
      modifies this`lower, this`upper, mem
      ensures Valid()
      ensures Nodes(Img()) == old(Nodes(Img()))[..indx] + old(Nodes(Img()))[indx + 1..]
      ensures lower == old(lower) - 2 && upper == old(upper) + |old(Nodes(Img()))[indx]|
    {
      ghost var g := Img();
      assert g.InHeap(indx);
      var ptr := PtrAt(indx);
      var size := NodeSize(leaf, mem[..], ptr);
      TakeOut(indx, ptr, size);
      RemovedPage(g, Img(), indx);
    }

    // mdb_update_key: false means that the new key does not fit, and the page
    // is unchanged.
    method UpdateKey(indx: nat, key: Bytes) returns (ok: bool)
      requires Valid() && !leaf && indx < NumKeys() && |key| < 0x10000
      modifies this`upper, mem
      ensures Valid() && NumKeys() == old(NumKeys())
      ensures ok <==> Even(NODESIZE + |key|) <= |old(Nodes(Img()))[indx]| ||
                      Even(NODESIZE + |key|) - |old(Nodes(Img()))[indx]| <= old(upper) - lower
      ensures !ok ==> mem[..] == old(mem[..]) && upper == old(upper)
      ensures ok ==> Nodes(Img()) == old(Nodes(Img()))[indx := Nodes(Img())[indx]]
      ensures ok ==> Rekeyed(old(Nodes(Img()))[indx], Nodes(Img())[indx], key)
    {
      ghost var g := Img();
      assert g.InHeap(indx);
      var ptr := PtrAt(indx);
      var delta := Even(|key|) - Even(KeySize(mem[..], ptr));
      RekeyDelta(g, indx, key);
      if delta > 0 && upper - lower < delta {
        return false;
      }
      Rekey(indx, ptr, delta, key);
      ok := true;
    }

    method Rekey(indx: nat, ptr: nat, delta: int, key: Bytes)
      requires Valid() && !leaf && indx < NumKeys() && |key| < 0x10000 && ptr == Img().At(indx)
      requires Img().InHeap(indx) && Img().Size(indx) + delta == Even(NODESIZE + |key|) && delta <= upper - lower
      requires forall i :: 0 <= i < NumKeys() ==> upper <= Img().ptrs[i]
      modifies this`upper, mem
      ensures Valid() && Nodes(Img()) == old(Nodes(Img()))[indx := Nodes(Img())[indx]]
      ensures Rekeyed(old(Nodes(Img()))[indx], Nodes(Img())[indx], key)
    {
      ghost var g := Img();
      ShiftNode(indx, ptr, delta);
      ghost var m := mem[..];
      ghost var t := Img().ptrs;
      var p: nat := ptr - delta;
      WriteKey(p, key);
      ghost var g' := Image(mem[..], t, upper, leaf);
      assert Img() == g';
      RekeyedPage(g, m, key, g', indx, delta, p);
    }

    // Shift node contents if the even key length changed.
    method ShiftNode(indx: nat, ptr: nat, delta: int)
      requires Framed() && indx < NumKeys() && Img().InHeap(indx) && ptr == Img().At(indx)
      requires forall i :: 0 <= i < NumKeys() ==> upper <= Img().ptrs[i]
      requires delta <= upper - lower && NODESIZE <= Img().Size(indx) + delta
      modifies this`upper, mem
      ensures upper == old(upper) - delta && Framed() && HeaderMoved(old(Img()), mem[..], indx, delta)
      ensures LoweredTo(old(Img().ptrs), Img().ptrs, ptr, delta, NumKeys())
    {
      ghost var g := Img();
      if delta != 0 {
        LowerSlots(ptr, delta);
        ghost var m := mem[..];
        Move(upper - delta, upper, ptr - upper + NODESIZE);
        ghost var m' := mem[..];
        SameTable(m, m', NumKeys());
        HeaderMove(g, m, m', indx, delta);
        upper := upper - delta;
        assert mem[..] == m';
      }
    }

    method LowerSlots(ptr: nat, delta: int)
      requires Framed() && delta <= upper && ptr - delta < 0x10000
      requires forall i :: 0 <= i < NumKeys() ==> upper <= Img().ptrs[i]
      modifies mem
      ensures LoweredTo(old(Img().ptrs), Img().ptrs, ptr, delta, NumKeys()) && SameFrom(old(mem[..]), mem[..], lower)
    {
      ghost var n, t := NumKeys(), Img().ptrs;
      var i := 0;
      while i < NumKeys()
        invariant i <= n && LoweredTo(t, Table(mem[..], n), ptr, delta, i)
        invariant SameFrom(old(mem[..]), mem[..], lower)
      {
        assert Table(mem[..], n)[i] == t[i];
        if PtrAt(i) <= ptr {
          WithSlotTable(mem[..], i, PtrAt(i) - delta, n);
          SetPtr(i, PtrAt(i) - delta);
        }
        i := i + 1;
      }
    }

    // mn_ksize and the key of the node at p.
    method WriteKey(p: nat, key: Bytes)
      requires Framed() && upper <= p && p + NODESIZE + |key| <= mem.Length && |key| < 0x10000
      modifies mem
      ensures KeyWritten(old(mem[..]), p, key, mem[..]) && Img().ptrs == old(Img().ptrs)
    {
      ghost var m := mem[..];
      if KeySize(mem[..], p) != |key| {
        mem[p + 6], mem[p + 7] := |key| % 256, |key| / 256;
      }
      ghost var m' := mem[..];
      Store(p + NODESIZE, key);
      assert Word(mem[..], p + 6) == Word(m', p + 6) == |key|;
      SameTable(m, mem[..], NumKeys());
    }

    method TakeOut(indx: nat, ptr: nat, size: nat)
      requires Framed() && indx < NumKeys() && Img().InHeap(indx) && ptr == Img().At(indx) && size == Img().Size(indx)
      modifies this`lower, this`upper, mem
      ensures lower == old(lower) - 2 && upper == old(upper) + size
      ensures Framed() && RemovedBytes(old(Img()), Img(), indx)
    {
      ghost var g := Img();
      CloseSlot(indx, size);
      ghost var t, m := Img().ptrs, mem[..];
      SlideUp(ptr, size);
      TakenOut(g, t, m, Img(), indx);
    }

    // Close the gap of the `size` bytes at ptr, and drop the last table entry.
    method SlideUp(ptr: nat, size: nat)
      requires Framed() && NumKeys() > 0 && upper <= ptr && ptr + size <= mem.Length
      modifies this`lower, this`upper, mem
      ensures lower == old(lower) - 2 && upper == old(upper) + size && Framed()
      ensures Moved(old(mem[..]), upper, old(upper), ptr - old(upper), mem[..])
      ensures Img().ptrs == old(Img().ptrs[..NumKeys() - 1])
    {
      ghost var n, m := NumKeys(), mem[..];
      Move(upper + size, upper, ptr - upper);
      SameTable(m, mem[..], n);
      ghost var m' := mem[..];
      lower, upper := lower - 2, upper + size;
      assert mem[..] == m';
    }
  }

  // --- Replacing a key --------------------------------------------------

  // The page number and flags are kept, the key is new.
  ghost predicate Rekeyed(node: Bytes, node': Bytes, key: Bytes) {
    && NODESIZE <= |node| && |node'| == Even(NODESIZE + |key|)
    && node'[..6] == node[..6] && KeySize(node', 0) == |key| && node'[NODESIZE..NODESIZE + |key|] == key
  }

  // m' is m with ksize and key written into the node at p.
  ghost predicate KeyWritten(m: Bytes, p: nat, key: Bytes, m': Bytes)
    requires p + NODESIZE + |key| <= |m|
  {
    && |m'| == |m| && Word(m', p + 6) == |key|
    && (forall k :: 0 <= k < p + 6 || p + NODESIZE + |key| <= k < |m| ==> m'[k] == m[k])
    && m'[p + NODESIZE..p + NODESIZE + |key|] == key
  }

  // The heap of g after moving down everything up to the header of node indx.
  ghost predicate HeaderMoved(g: Image, m: Bytes, indx: nat, delta: int)
    requires g.Framed() && indx < g.NumKeys() && g.InHeap(indx)
  {
    && 0 <= g.upper - delta && g.At(indx) - delta + NODESIZE <= |g.m| == |m|
    && m[g.upper - delta..g.At(indx) - delta + NODESIZE] == g.m[g.upper..g.At(indx) + NODESIZE]
    && SameFrom(g.m, m, g.At(indx) + g.Size(indx))
  }

  lemma HeaderMove(g: Image, m: Bytes, m': Bytes, indx: nat, delta: int)
    requires g.Framed() && indx < g.NumKeys() && g.InHeap(indx) && SameFrom(g.m, m, g.upper)
    requires 0 <= g.upper - delta && NODESIZE <= g.Size(indx) + delta
    requires Moved(m, g.upper - delta, g.upper, g.At(indx) - g.upper + NODESIZE, m')
    ensures HeaderMoved(g, m', indx, delta)
  {
  }

  lemma KeyReplaced(g: Image, m: Bytes, key: Bytes, g': Image, indx: nat, delta: int)
    requires g.Framed() && indx < g.NumKeys() && g.InHeap(indx) && HeaderMoved(g, m, indx, delta) && !g.leaf
    requires g.Lower() <= g.upper - delta && g.Size(indx) + delta == Even(NODESIZE + |key|)
    requires KeyWritten(m, g.At(indx) - delta, key, g'.m)
    ensures Shifted(g, g'.m, indx, -delta) && NodeSize(false, g'.m, g.At(indx) - delta) == g.Size(indx) + delta
  {
    var at, end, d := g.At(indx), g.At(indx) + g.Size(indx), -delta;
    forall k | g.upper <= k < at ensures SameByte(g.m, g'.m, k, d) {
      HeaderMovedAt(g, m, indx, delta, k);
    }
    StretchKept(g.m, g'.m, g.upper, g.upper - delta, at - g.upper, d);
    StretchKept(g.m, g'.m, end, end, |g.m| - end, 0);
  }

  lemma NodeRekeyed(g: Image, m: Bytes, key: Bytes, m': Bytes, indx: nat, delta: int)
    requires g.Framed() && indx < g.NumKeys() && g.InHeap(indx) && HeaderMoved(g, m, indx, delta)
    requires g.Size(indx) + delta == Even(NODESIZE + |key|) && KeyWritten(m, g.At(indx) - delta, key, m')
    ensures Rekeyed(g.Node(indx), m'[g.At(indx) - delta..g.At(indx) + g.Size(indx)], key)
  {
    var d := -delta;
    forall k | g.At(indx) <= k < g.At(indx) + 6 ensures SameByte(g.m, m', k, d) {
      HeaderMovedAt(g, m, indx, delta, k);
    }
    HeaderKept(g.m, g.At(indx), g.At(indx) + g.Size(indx), m', g.At(indx) - delta, key, d);
  }

  // The new size of the node, and where its slots lie.
  lemma RekeyDelta(g: Image, indx: nat, key: Bytes)
    requires g.Valid() && indx < g.NumKeys() && !g.leaf
    ensures |Nodes(g)[indx]| == g.Size(indx) == NODESIZE + Even(KeySize(g.m, g.At(indx)))
    ensures Even(NODESIZE + |key|) == NODESIZE + Even(|key|)
    ensures forall i :: 0 <= i < g.NumKeys() ==> g.upper <= g.ptrs[i]
  {
    assert g.InHeap(indx);
    EvenPlus(|key|);
    EvenPlus(KeySize(g.m, g.At(indx)));
    forall i | 0 <= i < g.NumKeys() ensures g.upper <= g.ptrs[i] { assert g.InHeap(i); }
  }

  lemma EvenPlus(n: nat)
    ensures Even(NODESIZE + n) == NODESIZE + Even(n)
  {
  }

  ghost predicate SameByte(m: Bytes, m': Bytes, k: nat, d: int) {
    k < |m| && 0 <= k + d < |m'| && m[k] == m'[k + d]
  }

  lemma StretchKept(m: Bytes, m': Bytes, a: nat, a': nat, n: nat, d: int)
    requires a + n <= |m| && a' + n <= |m'| && d == a' - a
    requires forall k :: a <= k < a + n ==> SameByte(m, m', k, d)
    ensures SameStretch(m, m', a, a', n)
  {
    var s, s' := m[a..a + n], m'[a'..a' + n];
    forall k | 0 <= k < n ensures s'[k] == s[k] {
      assert SameByte(m, m', a + k, d);
    }
  }

  lemma HeaderMovedAt(g: Image, m: Bytes, indx: nat, delta: int, k: nat)
    requires g.Framed() && indx < g.NumKeys() && g.InHeap(indx) && HeaderMoved(g, m, indx, delta)
    requires g.upper <= k < g.At(indx) + NODESIZE
    ensures SameByte(g.m, m, k, -delta)
  {
    var s, s' := g.m[g.upper..g.At(indx) + NODESIZE], m[g.upper - delta..g.At(indx) - delta + NODESIZE];
    assert s'[k - g.upper] == s[k - g.upper];
  }

  lemma HeaderKept(m: Bytes, at: nat, end: nat, m': Bytes, p: nat, key: Bytes, d: int)
    requires at + NODESIZE <= end <= |m| == |m'| && p + Even(NODESIZE + |key|) == end
    requires d == p - at && forall k :: at <= k < at + 6 ==> SameByte(m, m', k, d)
    requires Word(m', p + 6) == |key| && m'[p + NODESIZE..p + NODESIZE + |key|] == key
    ensures Rekeyed(m[at..end], m'[p..end], key)
  {
    var n, n' := m[at..end], m'[p..end];
    forall k | 0 <= k < 6 ensures n'[..6][k] == n[..6][k] {
      assert SameByte(m, m', at + k, d) && n'[k] == m'[p + k];
    }
    forall k | 0 <= k < |key| ensures n'[NODESIZE..NODESIZE + |key|][k] == key[k] {
      assert m'[p + NODESIZE..p + NODESIZE + |key|][k] == m'[p + (NODESIZE + k)] == n'[NODESIZE + k];
    }
    assert n'[6] == m'[p + 6] && n'[7] == m'[p + 7];
  }

  lemma RekeyedPage(g: Image, m: Bytes, key: Bytes, g': Image, indx: nat, delta: int, p: nat)
    requires g.Valid() && Accounted(g) && indx < g.NumKeys() && HeaderMoved(g, m, indx, delta) && !g.leaf
    requires g.Lower() <= g.upper - delta && g.Size(indx) + delta == Even(NODESIZE + |key|)
    requires p == g.At(indx) - delta && p + NODESIZE + |key| <= |m| && KeyWritten(m, p, key, g'.m)
    requires LoweredTo(g.ptrs, g'.ptrs, g.At(indx), delta, g.NumKeys())
    requires g'.upper == g.upper - delta && g'.leaf == g.leaf
    ensures g'.Valid() && Accounted(g') && g'.NumKeys() == g.NumKeys()
    ensures Nodes(g') == Nodes(g)[indx := Nodes(g')[indx]] && Rekeyed(Nodes(g)[indx], Nodes(g')[indx], key)
  {
    KeyReplaced(g, m, key, g', indx, delta);
    NodeRekeyed(g, m, key, g'.m, indx, delta);
    forall i | 0 <= i < g.NumKeys() && i != indx ensures g'.ptrs[i] == NewAt(g, indx, -delta, i) {
      assert NodesApart(g, i, indx);
    }
    ResizedValid(g, g', indx, delta);
    ResizedNodes(g, g', indx, delta);
    ResizedAccounted(g, g', indx, delta);
  }

  lemma TakenOut(g: Image, t: seq<nat>, m: Bytes, g': Image, indx: nat)
    requires g.Framed() && indx < g.NumKeys() && g.InHeap(indx) && SameFrom(g.m, m, g.Lower())
    requires ClosedTo(g.ptrs, t, indx, g.Size(indx), g.NumKeys())
    requires Moved(m, g.upper + g.Size(indx), g.upper, g.At(indx) - g.upper, g'.m)
    requires g'.ptrs == t[..|t| - 1] && g'.upper == g.upper + g.Size(indx) && g'.leaf == g.leaf
    ensures RemovedBytes(g, g', indx)
  {
    MovedUp(g, m, g'.m, indx);
  }

  // The table is not touched by a write above it.
  lemma SameTable(m: Bytes, m': Bytes, n: nat)
    requires PAGEHDRSZ + 2 * n <= |m| == |m'| && forall k :: 0 <= k < PAGEHDRSZ + 2 * n ==> m'[k] == m[k]
    ensures Table(m', n) == Table(m, n)
    ensures n > 0 ==> Table(m', n - 1) == Table(m, n)[..n - 1]
  {
    forall i: nat | i < n ensures Slot(m', i) == Slot(m, i) {}
  }

  lemma Placed(g: Image, m: Bytes, g': Image, indx: nat, size: nat, node: Bytes)
    requires g.Framed() && indx <= g.NumKeys() && NODESIZE <= |node| <= size && g.Lower() + 2 + size <= g.upper
    requires SameFrom(g.m, m, g.Lower() + 2) && NodeSize(g.leaf, node, 0) == size
    requires Filed(g.ptrs, g'.ptrs, indx, g'.upper) && Pasted(m, g.upper - size, node, g'.m)
    requires g'.upper == g.upper - size && g'.leaf == g.leaf
    ensures AddedBytes(g, g', indx, size) && g'.m[g'.upper..g'.upper + |node|] == node
  {
    StoredNode(g.leaf, g'.m, g'.upper, node);
  }

  lemma MovedUp(g: Image, m: Bytes, m': Bytes, indx: nat)
    requires g.Framed() && indx < g.NumKeys() && g.InHeap(indx) && SameFrom(g.m, m, g.upper)
    requires Moved(m, g.upper + g.Size(indx), g.upper, g.At(indx) - g.upper, m')
    ensures Shifted(g, m', indx, g.Size(indx))
  {
    var dst, len, end := g.upper + g.Size(indx), g.At(indx) - g.upper, g.At(indx) + g.Size(indx);
    assert m'[dst..dst + len] == g.m[g.upper..g.upper + len];
    assert m'[end..end + (|m| - end)] == g.m[end..end + (|m| - end)];
  }

  lemma RemovedPage(g: Image, g': Image, indx: nat)
    requires Removed(g, g', indx) && Accounted(g)
    ensures g'.Valid() && Accounted(g')
    ensures Nodes(g') == Nodes(g)[..indx] + Nodes(g)[indx + 1..]
    ensures |Nodes(g)[indx]| == g.Size(indx)
  {
    RemovedValid(g, g', indx);
    RemovedNodes(g, g', indx);
    RemovedAccounted(g, g', indx);
  }

  lemma AddedPage(g: Image, g': Image, indx: nat, size: nat, node: Bytes)
    requires Added(g, g', indx, size) && Accounted(g) && size == Even(|node|)
    requires g'.m[g'.upper..g'.upper + |node|] == node
    ensures g'.Valid() && Accounted(g') && NodeInserted(Nodes(g), Nodes(g'), indx, node)
  {
    AddedValid(g, g', indx, size);
    AddedNodes(g, g', indx, size);
    AddedAccounted(g, g', indx, size);
  }

  // The node mdb_node_add builds.
  function NewNode(leaf: bool, nodemax: nat, key: Bytes, data: Bytes, dsz: nat, flags: nat, ovpg: Bytes): (b: Bytes)
    requires dsz < 0x1_0000_0000 && flags < 0xffff && |key| < 0x10000 && |ovpg| == PGNO_SIZE
    requires PayloadFits(leaf, dsz, flags, data)
    ensures NODESIZE <= |b| && NodeSize(leaf, b, 0) == Even(|b|)
  {
    var big := leaf && flags % 2 != F_BIGDATA && NODESIZE + |key| + |data| > nodemax;
    var fl, payload := if big then flags + 1 else flags, if big then ovpg else data;
    var b := NodeBytes(dsz, fl, key, payload);
    ReadBack(leaf, b, 0, dsz, fl, key, payload);
    b
  }

  // `after` is `before` with a node at indx that starts with the given bytes
  // and is padded to an even length.
  ghost predicate NodeInserted(before: seq<Bytes>, after: seq<Bytes>, indx: nat, node: Bytes) {
    && indx <= |before| && |after| == |before| + 1
    && after == before[..indx] + [after[indx]] + before[indx..]
    && |after[indx]| == Even(|node|) && node <= after[indx]
  }

  lemma StoredNode(leaf: bool, m: Bytes, off: nat, node: Bytes)
    requires NODESIZE <= |node| && off + |node| <= |m| && m[off..off + |node|] == node
    ensures NodeSize(leaf, m, off) == NodeSize(leaf, node, 0)
  {
    PartOf(m, off, node, 0, NODESIZE);
  }
}
