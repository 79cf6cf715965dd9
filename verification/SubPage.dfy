// mdb_node_shrink in liblmdb/src/mdb.c: after a delete on a sub-page of
// duplicates, the node that holds the sub-page gives its free space back to
// the main page. Everything below the sub-page's free space moves up over it.

module SubPages {
  import opened PageFormat
  import opened SlottedPage
  import opened PageOps

  const P_LEAF2: nat := 0x20

  // --- A sub-page, by its bytes -----------------------------------------

  // mp_flags, mp_lower and mp_upper.
  function IsLeaf2(s: Bytes): bool
    requires PAGEHDRSZ <= |s|
  {
    Word(s, 10) / P_LEAF2 % 2 == 1
  }

  function LowerOf(s: Bytes): nat
    requires PAGEHDRSZ <= |s|
  {
    Word(s, 12)
  }

  function UpperOf(s: Bytes): nat
    requires PAGEHDRSZ <= |s|
  {
    Word(s, 14)
  }

  // Sub-pages are made with an even size, and grow by even amounts.
  ghost predicate Header2(s: Bytes) {
    && PAGEHDRSZ <= |s| <= MAX_PAGESIZE && |s| % 2 == 0 && PAGEHDRSZ <= LowerOf(s) <= UpperOf(s)
    && PAGEHDRSZ + SizeLeft(s) <= |s|
  }

  // SIZELEFT.
  function SizeLeft(s: Bytes): nat
    requires PAGEHDRSZ <= |s| && LowerOf(s) <= UpperOf(s)
  {
    UpperOf(s) - LowerOf(s)
  }

  // The nodes of a sub-page that is not LEAF2, as those of any leaf page.
  function SubImage(s: Bytes): Image
    requires PAGEHDRSZ <= |s| && PAGEHDRSZ <= LowerOf(s) <= |s|
  {
    Image(s, Table(s, (LowerOf(s) - PAGEHDRSZ) / 2), UpperOf(s), true)
  }

  // The fixed-size keys of a LEAF2 sub-page follow its header.
  function Keys2(s: Bytes): Bytes
    requires Header2(s)
  {
    s[PAGEHDRSZ..|s| - SizeLeft(s)]
  }

  // On a LEAF2 sub-page only the difference of mp_lower and mp_upper means
  // anything: with keys of one byte both pass the end of the sub-page.
  ghost predicate SubFramed(s: Bytes) {
    Header2(s) && (IsLeaf2(s) || (LowerOf(s) % 2 == 0 && UpperOf(s) <= |s|))
  }

  ghost predicate SubValid(s: Bytes) {
    SubFramed(s) && (IsLeaf2(s) || (SubImage(s).Valid() && Accounted(SubImage(s))))
  }

  // --- Moving the offsets down with the start of the sub-page -----------

  // s' is s without `delta` bytes of free space, seen from a start that is
  // delta bytes further up.
  ghost predicate Rebased(s: Bytes, s': Bytes, delta: nat) {
    && Header2(s) && LowerOf(s) % 2 == 0 && UpperOf(s) <= |s| && delta == SizeLeft(s) && |s'| == |s| - delta
    && LowerOf(s') == LowerOf(s) && UpperOf(s') == LowerOf(s)
    && (forall i: nat :: i < (LowerOf(s) - PAGEHDRSZ) / 2 ==> Slot(s', i) == Slot(s, i) - delta)
    && (forall k :: LowerOf(s) <= k < |s'| ==> SameByte(s', s, k, delta))
  }

  lemma RebasedFrame(s: Bytes, s': Bytes, delta: nat, i: nat)
    requires Rebased(s, s', delta) && SubImage(s).Framed() && i < SubImage(s).NumKeys()
    ensures var g, g' := SubImage(s), SubImage(s');
      g'.Framed() && g'.NumKeys() == g.NumKeys() && g'.At(i) == g.At(i) - delta
  {
    assert SubImage(s').ptrs[i] == Slot(s', i) && SubImage(s).ptrs[i] == Slot(s, i);
  }

  // The bytes from the old mp_upper on.
  lemma RebasedStretch(s: Bytes, s': Bytes, delta: nat, at: nat, n: nat)
    requires Rebased(s, s', delta) && UpperOf(s) <= at && at + n <= |s|
    ensures s'[at - delta..at - delta + n] == s[at..at + n]
  {
    StretchKept(s', s, at - delta, at, n, delta);
  }

  lemma RebasedAt(s: Bytes, s': Bytes, delta: nat, i: nat)
    requires Rebased(s, s', delta) && SubImage(s).Framed() && i < SubImage(s).NumKeys() && SubImage(s).InHeap(i)
    ensures var g, g' := SubImage(s), SubImage(s');
      && g'.Framed() && g'.NumKeys() == g.NumKeys() && g'.At(i) == g.At(i) - delta
      && g'.InHeap(i) && g'.Size(i) == g.Size(i) && g'.Node(i) == g.Node(i)
  {
    var at, size := SubImage(s).At(i), SubImage(s).Size(i);
    RebasedFrame(s, s', delta, i);
    RebasedStretch(s, s', delta, at, NODESIZE);
    SizeByHeader(true, s, at, s', at - delta);
    RebasedStretch(s, s', delta, at, size);
  }

  lemma RebasedValid(s: Bytes, s': Bytes, delta: nat)
    requires Rebased(s, s', delta) && SubImage(s).Valid()
    ensures SubImage(s').Valid() && Nodes(SubImage(s')) == Nodes(SubImage(s))
  {
    var g, g' := SubImage(s), SubImage(s');
    assert g'.Framed() && g'.NumKeys() == g.NumKeys();
    forall i | 0 <= i < g.NumKeys() ensures g'.InHeap(i) && g'.Node(i) == g.Node(i) { RebasedAt(s, s', delta, i); }
    forall i, j | 0 <= i < g.NumKeys() && 0 <= j < g.NumKeys() && i != j ensures NodesApart(g', i, j) {
      assert NodesApart(g, i, j);
      RebasedAt(s, s', delta, i);
      RebasedAt(s, s', delta, j);
    }
    forall b | g'.upper <= b < |g'.m| ensures g'.Covered(b) {
      assert g.Covered(b + delta);
      var i :| 0 <= i < g.NumKeys() && g.Covers(i, b + delta);
      RebasedAt(s, s', delta, i);
      assert g'.Covers(i, b);
    }
  }

  // Node sizes are even, so the free space of a sub-page is even.
  lemma {:induction false} EvenTotal(ns: seq<Bytes>)
    requires forall i :: 0 <= i < |ns| ==> |ns[i]| % 2 == 0
    ensures TotalSize(ns) % 2 == 0
  {
    if ns != [] { EvenTotal(ns[1..]); }
  }

  lemma EvenNodes(g: Image)
    requires g.Valid()
    ensures TotalSize(Nodes(g)) % 2 == 0
  {
    forall i | 0 <= i < |Nodes(g)| ensures |Nodes(g)[i]| % 2 == 0 {
      assert g.InHeap(i);
      assert |g.Node(i)| == g.Size(i);
    }
    EvenTotal(Nodes(g));
  }

  lemma EvenUpper(g: Image)
    requires g.Valid() && Accounted(g) && |g.m| % 2 == 0
    ensures g.upper % 2 == 0
  {
    EvenNodes(g);
  }

  lemma EvenLeft(s: Bytes)
    requires Header2(s) && LowerOf(s) % 2 == 0 && UpperOf(s) <= |s| && SubImage(s).Valid() && Accounted(SubImage(s))
    ensures SizeLeft(s) % 2 == 0
  {
    EvenUpper(SubImage(s));
    EvenGap(LowerOf(s), UpperOf(s));
  }

  lemma EvenGap(a: nat, b: nat)
    requires a % 2 == 0 && b % 2 == 0
    ensures (b - a) % 2 == 0
  {
  }

  // --- The steps on the main page's bytes -------------------------------

  // Slot i of a page that starts at byte d.
  function SlotAt(m: Bytes, d: nat, i: nat): nat
    requires d + PAGEHDRSZ + 2 * i + 2 <= |m|
  {
    Word(m, d + PAGEHDRSZ + 2 * i)
  }

  // Slots i and up of the table at d have been written to d + delta.
  ghost predicate TableMoved(m: Bytes, m': Bytes, d: nat, n: nat, delta: nat, i: nat)
    requires d + delta + PAGEHDRSZ + 2 * n <= |m|
  {
    && |m'| == |m| && i <= n
    && (forall j: nat :: i <= j < n ==> SlotAt(m', d + delta, j) == SlotAt(m, d, j) - delta)
    && (forall k :: 0 <= k < |m| && !(d + delta + PAGEHDRSZ + 2 * i <= k < d + delta + PAGEHDRSZ + 2 * n) ==> m'[k] == m[k])
  }

  function WithWord(m: Bytes, off: nat, v: nat): (m': Bytes)
    requires v < 0x10000 && off + 2 <= |m|
    ensures |m'| == |m|
  {
    m[off := v % 256][off + 1 := v / 256]
  }

  lemma TableMovedStep(m: Bytes, m1: Bytes, d: nat, n: nat, delta: nat, i: nat)
    requires d + delta + PAGEHDRSZ + 2 * n <= |m| && 0 < i && TableMoved(m, m1, d, n, delta, i)
    requires delta <= SlotAt(m, d, i - 1) < 0x10000
    ensures SlotAt(m1, d, i - 1) == SlotAt(m, d, i - 1)
    ensures TableMoved(m, WithWord(m1, d + delta + PAGEHDRSZ + 2 * (i - 1), SlotAt(m, d, i - 1) - delta), d, n, delta, i - 1)
  {
    var v := SlotAt(m, d, i - 1) - delta;
    var m2 := WithWord(m1, d + delta + PAGEHDRSZ + 2 * (i - 1), v);
    forall j: nat | i - 1 <= j < n ensures SlotAt(m2, d + delta, j) == SlotAt(m, d, j) - delta {
      if j == i - 1 { assert SlotAt(m2, d + delta, j) == v; } else { assert SlotAt(m2, d + delta, j) == SlotAt(m1, d + delta, j); }
    }
  }

  // mp_upper and mp_pgno of the sub-page at d, and the data size of its node.
  ghost predicate HeaderSet(m: Bytes, m': Bytes, at: nat, d: nat, nsize: nat)
    requires at + NODESIZE <= d && d + PAGEHDRSZ <= |m|
  {
    && |m'| == |m| && DataSize(m', at) == nsize && Word(m', d + 14) == Word(m, d + 12)
    && (forall k :: 0 <= k < |m| && !(at <= k < at + 4) && !(d <= k < d + 8) && !(d + 14 <= k < d + 16) ==> m'[k] == m[k])
    && (forall k :: 0 <= k < 8 ==> m'[d + k] == m[k])
  }

  method SetWord(p: Page, off: nat, v: nat)
    requires off + 2 <= p.mem.Length && v < 0x10000
    modifies p.mem
    ensures p.mem[..] == WithWord(old(p.mem[..]), off, v)
  {
    p.mem[off], p.mem[off + 1] := v % 256, v / 256;
  }

  // The offsets, last one first: the new table may overlap the old one.
  method MoveTable(p: Page, d: nat, n: nat, delta: nat)
    requires d + delta + PAGEHDRSZ + 2 * n <= p.mem.Length
    requires forall j: nat :: j < n ==> delta <= SlotAt(p.mem[..], d, j)
    modifies p.mem
    ensures TableMoved(old(p.mem[..]), p.mem[..], d, n, delta, 0)
  {
    ghost var m := p.mem[..];
    var i: nat := n;
    while i > 0
      invariant i <= n
      invariant TableMoved(m, p.mem[..], d, n, delta, i)
    {
      TableMovedStep(m, p.mem[..], d, n, delta, i);
      i := i - 1;
      SetWord(p, d + delta + PAGEHDRSZ + 2 * i, SlotAt(p.mem[..], d, i) - delta);
    }
  }

  // MP_UPPER(sp), COPY_PGNO and SETDSZ.
  method SetHeader(p: Page, at: nat, d: nat, nsize: nat)
    requires PAGEHDRSZ <= at && at + NODESIZE <= d && d + PAGEHDRSZ <= p.mem.Length && nsize < 0x1_0000_0000
    modifies p.mem
    ensures HeaderSet(old(p.mem[..]), p.mem[..], at, d, nsize)
  {
    SetWord(p, d + 14, Word(p.mem[..], d + 12));
    p.Store(d, p.mem[..8]);
    SetWord(p, at, nsize % 0x10000);
    SetWord(p, at + 2, nsize / 0x10000);
  }

  // --- What the steps add up to -----------------------------------------

  // A node at byte `at` of a page whose sub-page, at d, has dsz bytes with
  // `gap` bytes free from `lo` on.
  datatype Place = Place(upper: nat, at: nat, d: nat, dsz: nat, lo: nat, gap: nat, leaf2: bool) {
    predicate Within(size: nat) {
      && PAGEHDRSZ <= upper <= at && at + NODESIZE <= d && d + dsz <= size
      && PAGEHDRSZ <= lo && PAGEHDRSZ + gap <= dsz <= MAX_PAGESIZE
      && (leaf2 || (lo % 2 == 0 && lo + gap <= dsz))
    }

    // Bytes of the sub-page that move: all that is in use, or the header.
    function Len(): nat { if leaf2 && gap <= dsz then dsz - gap else PAGEHDRSZ }

    function Slots(): nat
      requires PAGEHDRSZ <= lo
    {
      (lo - PAGEHDRSZ) / 2
    }
  }

  // m' is m after the node has given up its free space.
  ghost predicate Slid(m: Bytes, m': Bytes, u: Place)
    requires u.Within(|m|)
  {
    && |m'| == |m| && SameFrom(m, m', u.d + u.dsz)
    && (forall k :: u.upper <= k < u.at ==> SameByte(m, m', k, u.gap))
    && (forall k :: u.at + 4 <= k < u.d ==> SameByte(m, m', k, u.gap))
    && (forall k :: u.d + 8 <= k < u.d + 14 ==> SameByte(m, m', k, u.gap))
    && DataSize(m', u.at + u.gap) == u.dsz - u.gap && Word(m', u.d + u.gap + 14) == u.lo
    && if u.leaf2 then KeysKept(m, m', u) else NodesKept(m, m', u)
  }

  // The keys of a LEAF2 sub-page move with its header.
  ghost predicate KeysKept(m: Bytes, m': Bytes, u: Place)
    requires u.Within(|m|)
  {
    forall k :: u.d + PAGEHDRSZ <= k < u.d + u.dsz - u.gap ==> SameByte(m, m', k, u.gap)
  }

  // The offsets of another sub-page are lower, and its nodes stay in place.
  ghost predicate NodesKept(m: Bytes, m': Bytes, u: Place)
    requires u.Within(|m|) && !u.leaf2 && |m'| == |m|
  {
    && (forall j: nat :: j < u.Slots() ==> SlotAt(m', u.d + u.gap, j) == SlotAt(m, u.d, j) - u.gap)
    && SameFrom(m, m', u.d + u.gap + u.lo)
  }

  // The bytes after the offsets (m1), the headers (m2) and the move (m3).
  ghost predicate Steps(m: Bytes, m1: Bytes, m2: Bytes, m3: Bytes, u: Place)
    requires u.Within(|m|)
  {
    && (if u.leaf2 then m1 == m else TableMoved(m, m1, u.d, u.Slots(), u.gap, 0))
    && |m1| == |m| && HeaderSet(m1, m2, u.at, u.d, u.dsz - u.gap)
    && Moved(m2, u.upper + u.gap, u.upper, u.d + u.Len() - u.upper, m3)
  }

  lemma StepsSame(m: Bytes, m1: Bytes, m2: Bytes, m3: Bytes, u: Place)
    requires u.Within(|m|) && Steps(m, m1, m2, m3, u)
    ensures |m1| == |m| && SameFrom(m, m1, u.d + u.gap + u.lo) && forall k :: 0 <= k < u.d + PAGEHDRSZ ==> m1[k] == m[k]
    ensures |m3| == |m| && forall k :: 0 <= k < u.upper ==> m3[k] == m[k]
  {
    forall k | 0 <= k < u.upper ensures m3[k] == m[k] {
      assert m3[k] == m2[k] && m2[k] == m1[k];
    }
  }

  // What the memmove does to the bytes it moves ...
  lemma MovedBytes(m1: Bytes, m2: Bytes, m3: Bytes, m': Bytes, u: Place)
    requires u.Within(|m1|) && HeaderSet(m1, m2, u.at, u.d, u.dsz - u.gap)
    requires Moved(m2, u.upper + u.gap, u.upper, u.d + u.Len() - u.upper, m3) && SameFrom(m3, m', u.upper)
    ensures |m'| == |m1| && forall k :: u.upper <= k < u.d + u.Len() ==> SameByte(m2, m', k, u.gap)
  {
    forall k | u.upper <= k < u.d + u.Len() ensures SameByte(m2, m', k, u.gap) {
      assert m'[k + u.gap] == m3[k + u.gap];
    }
  }

  // ... to those above them ...
  lemma BytesAbove(m1: Bytes, m2: Bytes, m3: Bytes, m': Bytes, u: Place)
    requires u.Within(|m1|) && HeaderSet(m1, m2, u.at, u.d, u.dsz - u.gap)
    requires Moved(m2, u.upper + u.gap, u.upper, u.d + u.Len() - u.upper, m3) && SameFrom(m3, m', u.upper)
    ensures SameFrom(m1, m', u.d + u.Len() + u.gap)
  {
    forall k | u.d + u.Len() + u.gap <= k < |m1| ensures m'[k] == m1[k] {
      assert m'[k] == m3[k] && m3[k] == m2[k];
    }
  }

  // ... and to the two headers.
  lemma MovedHeaders(m1: Bytes, m2: Bytes, m': Bytes, u: Place)
    requires u.Within(|m1|) && |m'| == |m1| && HeaderSet(m1, m2, u.at, u.d, u.dsz - u.gap) && Word(m1, u.d + 12) == u.lo
    requires forall k :: u.upper <= k < u.d + PAGEHDRSZ ==> SameByte(m2, m', k, u.gap)
    ensures DataSize(m', u.at + u.gap) == u.dsz - u.gap && Word(m', u.d + u.gap + 14) == u.lo
  {
    MovedWord(m2, m', u.at, u.gap);
    MovedWord(m2, m', u.at + 2, u.gap);
    MovedWord(m2, m', u.d + 14, u.gap);
  }

  lemma MovedWord(m: Bytes, m': Bytes, off: nat, delta: nat)
    requires SameByte(m, m', off, delta) && SameByte(m, m', off + 1, delta)
    ensures off + delta + 2 <= |m'| && Word(m', off + delta) == Word(m, off)
  {
  }

  lemma StepsBytes(m: Bytes, m1: Bytes, m2: Bytes, m3: Bytes, m': Bytes, u: Place, k: int)
    requires u.Within(|m|) && Steps(m, m1, m2, m3, u)
    requires forall k :: u.upper <= k < u.d + u.Len() ==> SameByte(m2, m', k, u.gap)
    requires u.upper <= k < u.at || u.at + 4 <= k < u.d || u.d + 8 <= k < u.d + 14 ||
             (u.leaf2 && u.d + PAGEHDRSZ <= k < u.d + u.dsz - u.gap)
    ensures SameByte(m, m', k, u.gap)
  {
    StepsSame(m, m1, m2, m3, u);
    assert SameByte(m2, m', k, u.gap) && m2[k] == m1[k];
  }

  lemma StepsSlots(m: Bytes, m1: Bytes, m2: Bytes, m3: Bytes, m': Bytes, u: Place)
    requires u.Within(|m|) && Steps(m, m1, m2, m3, u) && !u.leaf2 && SameFrom(m1, m', u.d + PAGEHDRSZ + u.gap)
    ensures NodesKept(m, m', u)
  {
    forall j: nat | j < u.Slots() ensures SlotAt(m', u.d + u.gap, j) == SlotAt(m, u.d, j) - u.gap {
      assert SlotAt(m', u.d + u.gap, j) == SlotAt(m1, u.d + u.gap, j);
    }
  }

  lemma StepsSlid(m: Bytes, m1: Bytes, m2: Bytes, m3: Bytes, m': Bytes, u: Place)
    requires u.Within(|m|) && Steps(m, m1, m2, m3, u) && Word(m, u.d + 12) == u.lo && SameFrom(m3, m', u.upper)
    ensures Slid(m, m', u)
  {
    StepsSame(m, m1, m2, m3, u);
    assert Word(m1, u.d + 12) == Word(m, u.d + 12);
    MovedBytes(m1, m2, m3, m', u);
    BytesAbove(m1, m2, m3, m', u);
    MovedHeaders(m1, m2, m', u);
    forall k | u.upper <= k < u.at || u.at + 4 <= k < u.d || u.d + 8 <= k < u.d + 14 ||
               (u.leaf2 && u.d + PAGEHDRSZ <= k < u.d + u.dsz - u.gap)
      ensures SameByte(m, m', k, u.gap)
    {
      StepsBytes(m, m1, m2, m3, m', u, k);
    }
    if !u.leaf2 { StepsSlots(m, m1, m2, m3, m', u); }
  }

  method MoveOffsets(p: Page, u: Place)
    requires u.Within(p.mem.Length) && forall j: nat :: j < u.Slots() && !u.leaf2 ==> u.gap <= SlotAt(p.mem[..], u.d, j)
    modifies p.mem
    ensures if u.leaf2 then p.mem[..] == old(p.mem[..])
            else TableMoved(old(p.mem[..]), p.mem[..], u.d, u.Slots(), u.gap, 0)
  {
    if !u.leaf2 {
      MoveTable(p, u.d, u.Slots(), u.gap);
    }
  }

  method MoveBytes(p: Page, u: Place) returns (ghost m1: Bytes, ghost m2: Bytes)
    requires p.Framed() && u.Within(p.mem.Length) && u.upper == p.upper
    requires forall j: nat :: j < u.Slots() && !u.leaf2 ==> u.gap <= SlotAt(p.mem[..], u.d, j)
    modifies p.mem
    ensures Steps(old(p.mem[..]), m1, m2, p.mem[..], u)
  {
    MoveOffsets(p, u);
    m1 := p.mem[..];
    m2 := MoveHeaders(p, u);
  }

  method MoveHeaders(p: Page, u: Place) returns (ghost m2: Bytes)
    requires p.Framed() && u.Within(p.mem.Length) && u.upper == p.upper
    modifies p.mem
    ensures HeaderSet(old(p.mem[..]), m2, u.at, u.d, u.dsz - u.gap)
    ensures Moved(m2, u.upper + u.gap, u.upper, u.d + u.Len() - u.upper, p.mem[..])
  {
    SetHeader(p, u.at, u.d, u.dsz - u.gap);
    m2 := p.mem[..];
    p.Move(p.upper + u.gap, p.upper, u.d + u.Len() - p.upper);
  }

  // The moves on the bytes of the page.
  method Slide(p: Page, u: Place)
    requires p.Framed() && u.Within(p.mem.Length) && u.upper == p.upper
    requires Word(p.mem[..], u.d + 12) == u.lo && forall j: nat :: j < u.Slots() && !u.leaf2 ==> u.gap <= SlotAt(p.mem[..], u.d, j)
    requires forall i :: 0 <= i < p.NumKeys() ==> p.upper <= p.Img().ptrs[i]
    modifies p`upper, p.mem
    ensures p.upper == u.upper + u.gap && p.Framed() && Slid(old(p.mem[..]), p.mem[..], u)
    ensures LoweredTo(old(p.Img().ptrs), p.Img().ptrs, u.at, 0 - u.gap, p.NumKeys())
  {
    ghost var m := p.mem[..];
    ghost var m1, m2 := MoveBytes(p, u);
    ghost var m3 := p.mem[..];
    StepsSame(m, m1, m2, m3, u);
    SameTable(m, m3, p.NumKeys());
    assert p.Img().ptrs == old(p.Img().ptrs);
    p.LowerSlots(u.at, 0 - u.gap);
    ghost var m4 := p.mem[..];
    StepsSlid(m, m1, m2, m3, m4, u);
    p.upper := p.upper + u.gap;
    assert p.mem[..] == m4;
  }

  // --- The main page ----------------------------------------------------

  // Node indx of a leaf page holds a sub-page at byte d.
  ghost predicate HoldsSub(g: Image, indx: nat)
    requires g.Framed() && indx < g.NumKeys() && g.InHeap(indx)
  {
    g.leaf && Flags(g.m, g.At(indx)) % 2 != F_BIGDATA && SubValid(SubBytes(g, indx))
  }

  function SubStart(g: Image, indx: nat): nat
    requires g.Framed() && indx < g.NumKeys() && g.InHeap(indx)
  {
    g.At(indx) + NODESIZE + KeySize(g.m, g.At(indx))
  }

  ghost function SubBytes(g: Image, indx: nat): (s: Bytes)
    requires g.Framed() && indx < g.NumKeys() && g.InHeap(indx) && g.leaf && Flags(g.m, g.At(indx)) % 2 != F_BIGDATA
    ensures |s| == DataSize(g.m, g.At(indx)) && SubStart(g, indx) + |s| <= |g.m|
  {
    g.m[SubStart(g, indx)..SubStart(g, indx) + DataSize(g.m, g.At(indx))]
  }

  function KeyBytes(g: Image, indx: nat): Bytes
    requires g.Framed() && indx < g.NumKeys() && g.InHeap(indx)
  {
    g.m[g.At(indx) + NODESIZE..SubStart(g, indx)]
  }

  // u says where node indx of g and its sub-page s lie.
  ghost predicate Placed(g: Image, indx: nat, s: Bytes, u: Place)
    requires g.Framed() && indx < g.NumKeys() && g.InHeap(indx)
  {
    && g.leaf && Flags(g.m, g.At(indx)) % 2 != F_BIGDATA && u.Within(|g.m|)
    && u.upper == g.upper && u.at == g.At(indx) && u.d == SubStart(g, indx) && u.dsz == DataSize(g.m, g.At(indx))
    && s == g.m[u.d..u.d + u.dsz] && SubFramed(s) && u.lo == LowerOf(s) && u.gap == SizeLeft(s) && u.leaf2 == IsLeaf2(s)
  }

  // The node is the first part of itself, with less data.
  lemma SlidResized(g: Image, g': Image, indx: nat, s: Bytes, u: Place)
    requires g.Valid() && indx < g.NumKeys() && g.InHeap(indx) && Placed(g, indx, s, u) && u.gap % 2 == 0
    requires Slid(g.m, g'.m, u) && g'.leaf && g'.upper == g.upper + u.gap
    requires LoweredTo(g.ptrs, g'.ptrs, u.at, 0 - u.gap, g.NumKeys())
    ensures Resized(g, g', indx, 0 - u.gap)
  {
    SlidHeader(g.m, g'.m, u);
    SlidShifted(g, g'.m, indx, u);
    SlidSlots(g, g'.ptrs, indx, u.gap);
    LessData(g, g', indx, u.gap);
  }

  lemma LessData(g: Image, g': Image, indx: nat, gap: nat)
    requires g.Valid() && indx < g.NumKeys() && g.InHeap(indx) && Shifted(g, g'.m, indx, gap)
    requires g'.leaf == g.leaf && g'.NumKeys() == g.NumKeys() && g'.upper == g.upper + gap && NODESIZE + gap <= g.Size(indx)
    requires NodeSize(g.leaf, g'.m, g.At(indx) + gap) == g.Size(indx) - gap && g'.ptrs[indx] == g.At(indx) + gap
    requires forall i :: 0 <= i < g.NumKeys() && i != indx ==> g'.ptrs[i] == NewAt(g, indx, gap, i)
    ensures Resized(g, g', indx, 0 - gap)
  {
  }

  lemma SlidHeader(m: Bytes, m': Bytes, u: Place)
    requires u.Within(|m|) && Slid(m, m', u) && u.gap % 2 == 0
    requires u.d == u.at + NODESIZE + KeySize(m, u.at) && Flags(m, u.at) % 2 != F_BIGDATA && u.dsz == DataSize(m, u.at)
    ensures KeySize(m', u.at + u.gap) == KeySize(m, u.at) && Flags(m', u.at + u.gap) == Flags(m, u.at)
    ensures NodeSize(true, m', u.at + u.gap) == NodeSize(true, m, u.at) - u.gap
  {
    MovedWord(m, m', u.at + 4, u.gap);
    MovedWord(m, m', u.at + 6, u.gap);
    EvenLess(NODESIZE + KeySize(m, u.at) + u.dsz, u.gap);
  }

  lemma EvenLess(n: nat, delta: nat)
    requires delta <= n && delta % 2 == 0
    ensures Even(n - delta) == Even(n) - delta
  {
  }

  lemma SlidShifted(g: Image, m': Bytes, indx: nat, u: Place)
    requires g.Framed() && indx < g.NumKeys() && g.InHeap(indx) && u.Within(|g.m|) && Slid(g.m, m', u)
    requires u.upper == g.upper && u.at == g.At(indx) && u.d + u.dsz <= u.at + g.Size(indx)
    ensures Shifted(g, m', indx, u.gap)
  {
    var m, end := g.m, u.at + g.Size(indx);
    StretchKept(m, m', u.upper, u.upper + u.gap, u.at - u.upper, u.gap);
    forall k | end <= k < |m| ensures SameByte(m, m', k, 0) {}
    StretchKept(m, m', end, end, |m| - end, 0);
  }

  lemma SlidSlots(g: Image, ptrs: seq<nat>, indx: nat, delta: nat)
    requires g.Valid() && indx < g.NumKeys() && LoweredTo(g.ptrs, ptrs, g.At(indx), 0 - delta, g.NumKeys())
    ensures ptrs[indx] == g.At(indx) + delta
    ensures forall i :: 0 <= i < g.NumKeys() && i != indx ==> ptrs[i] == NewAt(g, indx, delta, i)
  {
    forall i | 0 <= i < g.NumKeys() && i != indx ensures ptrs[i] == NewAt(g, indx, delta, i) {
      assert NodesApart(g, i, indx);
    }
  }

  // --- The sub-page -----------------------------------------------------

  // s' is s without its free space: the same keys or nodes.
  ghost predicate Compacted(s: Bytes, s': Bytes)
    requires SubValid(s)
  {
    && SubValid(s') && IsLeaf2(s') == IsLeaf2(s) && |s'| == |s| - SizeLeft(s) && SizeLeft(s') == 0
    && if IsLeaf2(s) then Keys2(s') == Keys2(s) else Nodes(SubImage(s')) == Nodes(SubImage(s))
  }

  // The bytes s of the sub-page at u, and s' of what became of it.
  ghost predicate SubMoved(m: Bytes, m': Bytes, u: Place, s: Bytes, s': Bytes) {
    && u.Within(|m|) && Slid(m, m', u) && s == m[u.d..u.d + u.dsz] && s' == m'[u.d + u.gap..u.d + u.dsz]
    && SubFramed(s) && u.lo == LowerOf(s) && u.gap == SizeLeft(s) && u.leaf2 == IsLeaf2(s) && u.gap % 2 == 0
  }

  lemma SubWord(m: Bytes, m': Bytes, u: Place, s: Bytes, s': Bytes, off: nat)
    requires u.Within(|m|) && Slid(m, m', u) && s == m[u.d..u.d + u.dsz] && s' == m'[u.d + u.gap..u.d + u.dsz]
    requires 8 <= off <= 12
    ensures Word(s', off) == Word(s, off)
  {
    MovedWord(m, m', u.d + off, u.gap);
    SliceWord(m, u.d, s, off);
    SliceWord(m', u.d + u.gap, s', off);
  }

  lemma SubWords(m: Bytes, m': Bytes, u: Place, s: Bytes, s': Bytes)
    requires u.Within(|m|) && Slid(m, m', u) && s == m[u.d..u.d + u.dsz] && s' == m'[u.d + u.gap..u.d + u.dsz]
    ensures Word(s', 10) == Word(s, 10) && Word(s', 12) == Word(s, 12) && Word(s', 14) == u.lo
  {
    SubWord(m, m', u, s, s', 10);
    SubWord(m, m', u, s, s', 12);
    SliceWord(m', u.d + u.gap, s', 14);
  }

  lemma WordsFramed(s: Bytes, s': Bytes)
    requires SubFramed(s) && |s'| == |s| - SizeLeft(s) && SizeLeft(s) % 2 == 0
    requires Word(s', 10) == Word(s, 10) && Word(s', 12) == Word(s, 12) && Word(s', 14) == Word(s, 12)
    ensures SubFramed(s') && LowerOf(s') == LowerOf(s) && UpperOf(s') == LowerOf(s) && IsLeaf2(s') == IsLeaf2(s)
  {
  }

  lemma SubHeader(m: Bytes, m': Bytes, u: Place, s: Bytes, s': Bytes)
    requires SubMoved(m, m', u, s, s')
    ensures SubFramed(s') && LowerOf(s') == LowerOf(s) && UpperOf(s') == LowerOf(s) && IsLeaf2(s') == IsLeaf2(s)
  {
    SubWords(m, m', u, s, s');
    WordsFramed(s, s');
  }

  lemma SliceWord(m: Bytes, d: nat, s: Bytes, off: nat)
    requires d + |s| <= |m| && s == m[d..d + |s|] && off + 2 <= |s|
    ensures Word(s, off) == Word(m, d + off)
  {
  }

  lemma SubSlot(m: Bytes, m': Bytes, u: Place, s: Bytes, s': Bytes, i: nat)
    requires SubMoved(m, m', u, s, s') && !u.leaf2 && i < u.Slots()
    ensures Slot(s', i) == Slot(s, i) - u.gap
  {
    SliceWord(m, u.d, s, PAGEHDRSZ + 2 * i);
    SliceWord(m', u.d + u.gap, s', PAGEHDRSZ + 2 * i);
    assert SlotAt(m', u.d + u.gap, i) == SlotAt(m, u.d, i) - u.gap;
  }

  lemma SlidRebases(m: Bytes, m': Bytes, u: Place, s: Bytes, s': Bytes)
    requires SubMoved(m, m', u, s, s') && !u.leaf2
    ensures Rebased(s, s', u.gap)
  {
    SubHeader(m, m', u, s, s');
    forall i: nat | i < u.Slots() ensures Slot(s', i) == Slot(s, i) - u.gap { SubSlot(m, m', u, s, s', i); }
    forall k | u.lo <= k < |s'| ensures SameByte(s', s, k, u.gap) {
      assert m'[u.d + u.gap + k] == m[u.d + u.gap + k];
    }
  }

  lemma KeysCompact(m: Bytes, m': Bytes, u: Place, s: Bytes, s': Bytes)
    requires SubMoved(m, m', u, s, s') && u.leaf2
    ensures Compacted(s, s')
  {
    SubHeader(m, m', u, s, s');
    forall k | PAGEHDRSZ <= k < |s'| ensures s'[k] == s[k] { assert SameByte(m, m', u.d + k, u.gap); }
    assert Keys2(s') == Keys2(s);
  }

  lemma RebasedAccounted(s: Bytes, s': Bytes, delta: nat)
    requires Rebased(s, s', delta) && SubImage(s).Valid() && Accounted(SubImage(s))
    ensures SubImage(s').Valid() && Accounted(SubImage(s'))
  {
    RebasedValid(s, s', delta);
  }

  lemma NodesCompact(s: Bytes, s': Bytes)
    requires SubValid(s) && !IsLeaf2(s) && SubFramed(s') && IsLeaf2(s') == IsLeaf2(s) && Rebased(s, s', SizeLeft(s))
    ensures Compacted(s, s')
  {
    RebasedAccounted(s, s', SizeLeft(s));
    RebasedValid(s, s', SizeLeft(s));
  }

  lemma SlidCompacts(m: Bytes, m': Bytes, u: Place, s: Bytes, s': Bytes)
    requires SubMoved(m, m', u, s, s') && SubValid(s)
    ensures Compacted(s, s')
  {
    if u.leaf2 {
      KeysCompact(m, m', u, s, s');
    } else {
      SubHeader(m, m', u, s, s');
      SlidRebases(m, m', u, s, s');
      NodesCompact(s, s');
    }
  }

  // --- mdb_node_shrink --------------------------------------------------

  // A node of uneven size is not made.
  predicate Stays(s: Bytes)
    requires PAGEHDRSZ <= |s| && LowerOf(s) <= UpperOf(s)
  {
    IsLeaf2(s) && (|s| - SizeLeft(s)) % 2 == 1
  }

  // Node indx of g' is that of g with its sub-page compacted.
  ghost predicate NodeShrunk(g: Image, g': Image, indx: nat)
    requires g.Framed() && indx < g.NumKeys() && g.InHeap(indx) && HoldsSub(g, indx)
  {
    && g'.Framed() && indx < g'.NumKeys() && g'.InHeap(indx) && g'.leaf
    && KeyBytes(g', indx) == KeyBytes(g, indx) && Flags(g'.m, g'.At(indx)) == Flags(g.m, g.At(indx))
    && Compacted(SubBytes(g, indx), SubBytes(g', indx))
  }

  lemma OddIs(n: int)
    requires 0 <= n
    ensures n % 2 == 1 <==> exists half: nat :: n == 2 * half + 1
  {
    if n % 2 == 1 { assert n == 2 * (n / 2) + 1; }
  }

  lemma EvenUnlessLeaf2(s: Bytes)
    requires SubValid(s)
    ensures !IsLeaf2(s) ==> |s| % 2 == 0 && SizeLeft(s) % 2 == 0 && SizeLeft(s) <= |s|
  {
    if !IsLeaf2(s) { EvenLeft(s); }
  }

  // A sub-page is left alone exactly if without its free space it would be uneven.
  lemma StaysIff(s: Bytes)
    requires SubValid(s)
    ensures SizeLeft(s) <= |s| ==> (Stays(s) <==> exists half: nat :: |s| - SizeLeft(s) == 2 * half + 1)
  {
    EvenUnlessLeaf2(s);
    if SizeLeft(s) <= |s| { OddIs(|s| - SizeLeft(s)); }
  }

  lemma EvenDelta(s: Bytes)
    requires SubValid(s) && !Stays(s)
    ensures SizeLeft(s) % 2 == 0
  {
    if !IsLeaf2(s) { EvenLeft(s); }
  }

  // The parts of the node afterwards.
  lemma SlidKey(m: Bytes, m': Bytes, u: Place)
    requires u.Within(|m|) && Slid(m, m', u)
    ensures m'[u.at + NODESIZE + u.gap..u.d + u.gap] == m[u.at + NODESIZE..u.d]
  {
    StretchKept(m, m', u.at + NODESIZE, u.at + NODESIZE + u.gap, u.d - u.at - NODESIZE, u.gap);
  }

  lemma SlidParts(g: Image, g': Image, indx: nat, u: Place)
    requires g'.Framed() && indx < g'.NumKeys() && g'.InHeap(indx) && g'.leaf && g'.At(indx) == u.at + u.gap
    requires u.Within(|g.m|) && u.d == u.at + NODESIZE + KeySize(g.m, u.at) && Flags(g.m, u.at) % 2 != F_BIGDATA
    requires Slid(g.m, g'.m, u) && KeySize(g'.m, u.at + u.gap) == KeySize(g.m, u.at)
    requires Flags(g'.m, u.at + u.gap) == Flags(g.m, u.at)
    ensures KeyBytes(g', indx) == g'.m[u.at + NODESIZE + u.gap..u.d + u.gap]
    ensures SubBytes(g', indx) == g'.m[u.d + u.gap..u.d + u.dsz]
  {
  }

  lemma SlidNode(g: Image, g': Image, indx: nat, u: Place)
    requires g.Framed() && indx < g.NumKeys() && g.InHeap(indx) && HoldsSub(g, indx) && Placed(g, indx, SubBytes(g, indx), u)
    requires g'.Framed() && indx < g'.NumKeys() && g'.InHeap(indx) && g'.leaf && g'.At(indx) == u.at + u.gap
    requires Slid(g.m, g'.m, u) && KeySize(g'.m, u.at + u.gap) == KeySize(g.m, u.at) && u.gap % 2 == 0
    requires Flags(g'.m, u.at + u.gap) == Flags(g.m, u.at)
    ensures NodeShrunk(g, g', indx)
  {
    SlidParts(g, g', indx, u);
    SlidKey(g.m, g'.m, u);
    SlidCompacts(g.m, g'.m, u, SubBytes(g, indx), SubBytes(g', indx));
  }

  // g' is g after the moves at u.
  ghost predicate After(g: Image, g': Image, indx: nat, s: Bytes, u: Place)
    requires g.Framed() && indx < g.NumKeys() && g.InHeap(indx)
  {
    && Placed(g, indx, s, u) && u.gap % 2 == 0 && Slid(g.m, g'.m, u) && g'.leaf && g'.upper == g.upper + u.gap
    && LoweredTo(g.ptrs, g'.ptrs, u.at, 0 - u.gap, g.NumKeys())
  }

  lemma AfterResized(g: Image, g': Image, indx: nat, s: Bytes, u: Place)
    requires g.Valid() && indx < g.NumKeys() && g.InHeap(indx) && After(g, g', indx, s, u)
    ensures Resized(g, g', indx, 0 - u.gap)
  {
    SlidResized(g, g', indx, s, u);
  }

  lemma ResizedPage(g: Image, g': Image, indx: nat, delta: int)
    requires Resized(g, g', indx, delta) && Accounted(g)
    ensures g'.Valid() && Accounted(g') && g'.NumKeys() == g.NumKeys() && Nodes(g') == Nodes(g)[indx := Nodes(g')[indx]]
  {
    ResizedValid(g, g', indx, delta);
    ResizedNodes(g, g', indx, delta);
    ResizedAccounted(g, g', indx, delta);
  }

  lemma ShrunkKeeps(g: Image, g': Image, indx: nat, u: Place)
    requires g.Valid() && indx < g.NumKeys() && g.InHeap(indx) && HoldsSub(g, indx) && After(g, g', indx, SubBytes(g, indx), u)
    ensures NodeShrunk(g, g', indx)
  {
    AfterNode(g, g', indx, SubBytes(g, indx), u);
    SlidNode(g, g', indx, u);
  }

  // Where the node is afterwards ...
  lemma AfterPlace(g: Image, g': Image, indx: nat, delta: int)
    requires g.Framed() && indx < g.NumKeys() && g.InHeap(indx) && Resized(g, g', indx, delta)
    ensures g'.Framed() && indx < g'.NumKeys() && g'.InHeap(indx) && g'.At(indx) == g.At(indx) - delta
  {
    ResizedSelf(g, g', indx, delta);
  }

  lemma AfterAt(g: Image, g': Image, indx: nat, s: Bytes, u: Place)
    requires g.Valid() && indx < g.NumKeys() && g.InHeap(indx) && After(g, g', indx, s, u)
    ensures g'.Framed() && indx < g'.NumKeys() && g'.InHeap(indx) && g'.At(indx) == g.At(indx) + u.gap
  {
    AfterResized(g, g', indx, s, u);
    AfterPlace(g, g', indx, 0 - u.gap);
  }

  lemma AfterHeader(g: Image, g': Image, indx: nat, s: Bytes, u: Place)
    requires g.Framed() && indx < g.NumKeys() && g.InHeap(indx) && After(g, g', indx, s, u)
    ensures u.at + u.gap + NODESIZE <= |g'.m| && u.at + NODESIZE <= |g.m| && u.at == g.At(indx)
    ensures KeySize(g'.m, u.at + u.gap) == KeySize(g.m, u.at) && Flags(g'.m, u.at + u.gap) == Flags(g.m, u.at)
  {
    SlidHeader(g.m, g'.m, u);
  }

  // ... and its key size and flags.
  lemma AfterNode(g: Image, g': Image, indx: nat, s: Bytes, u: Place)
    requires g.Valid() && indx < g.NumKeys() && g.InHeap(indx) && After(g, g', indx, s, u)
    ensures g'.Framed() && indx < g'.NumKeys() && g'.InHeap(indx) && g'.At(indx) == u.at + u.gap
    ensures KeySize(g'.m, u.at + u.gap) == KeySize(g.m, u.at) && Flags(g'.m, u.at + u.gap) == Flags(g.m, u.at)
  {
    AfterHeader(g, g', indx, s, u);
    AfterAt(g, g', indx, s, u);
  }

  // The offsets of a sub-page, seen from the main page.
  lemma SubSlots(m: Bytes, d: nat, s: Bytes)
    requires d + |s| <= |m| && s == m[d..d + |s|] && SubValid(s) && !IsLeaf2(s)
    ensures forall j: nat :: j < (LowerOf(s) - PAGEHDRSZ) / 2 ==> UpperOf(s) <= SlotAt(m, d, j)
  {
    forall j: nat | j < (LowerOf(s) - PAGEHDRSZ) / 2 ensures UpperOf(s) <= SlotAt(m, d, j) {
      assert SubImage(s).InHeap(j);
      assert SubImage(s).ptrs[j] == Slot(s, j) == SlotAt(m, d, j);
    }
  }

  lemma HeapAbove(g: Image)
    requires g.Valid()
    ensures forall i :: 0 <= i < g.NumKeys() ==> g.upper <= g.ptrs[i]
  {
    forall i | 0 <= i < g.NumKeys() ensures g.upper <= g.ptrs[i] { assert g.InHeap(i); }
  }

  // Where the node lies.
  lemma FindPlace(g: Image, indx: nat, u: Place)
    requires g.Framed() && PAGEHDRSZ <= g.upper && indx < g.NumKeys() && g.InHeap(indx) && HoldsSub(g, indx)
    requires var s := SubBytes(g, indx);
      u == Place(g.upper, g.At(indx), SubStart(g, indx), |s|, LowerOf(s), SizeLeft(s), IsLeaf2(s))
    ensures Placed(g, indx, SubBytes(g, indx), u) && Word(g.m, u.d + 12) == u.lo
    ensures forall j: nat :: j < u.Slots() && !u.leaf2 ==> u.gap <= SlotAt(g.m, u.d, j)
  {
    var s := SubBytes(g, indx);
    SliceWord(g.m, u.d, s, 12);
    if !IsLeaf2(s) { SubSlots(g.m, u.d, s); }
  }

  // mdb_node_shrink: the other nodes are as they were, this one keeps its key
  // and what its sub-page holds, and the page gains the sub-page's free space.
  method NodeShrink(p: Page, indx: nat)
    requires p.Valid() && indx < p.NumKeys() && HoldsSub(p.Img(), indx)
    modifies p`upper, p.mem
    ensures p.Valid()
    ensures Stays(old(SubBytes(p.Img(), indx))) ==> p.mem[..] == old(p.mem[..]) && p.upper == old(p.upper)
    ensures !Stays(old(SubBytes(p.Img(), indx))) ==>
      && p.upper == old(p.upper) + SizeLeft(old(SubBytes(p.Img(), indx)))
      && Nodes(p.Img()) == old(Nodes(p.Img()))[indx := Nodes(p.Img())[indx]]
      && NodeShrunk(old(p.Img()), p.Img(), indx)
  {
    ghost var g := p.Img();
    assert g.InHeap(indx);
    var at := p.PtrAt(indx);
    var d := at + NODESIZE + KeySize(p.mem[..], at);
    var s := p.mem[d..d + DataSize(p.mem[..], at)];
    assert s == SubBytes(g, indx);
    if !Stays(s) {
      var u := Place(p.upper, at, d, |s|, LowerOf(s), SizeLeft(s), IsLeaf2(s));
      FindPlace(g, indx, u);
      EvenDelta(s);
      ShrinkAt(p, indx, s, u);
      ShrunkKeeps(g, p.Img(), indx, u);
    }
  }

  method ShrinkAt(p: Page, indx: nat, ghost s: Bytes, u: Place)
    requires p.Valid() && indx < p.NumKeys() && p.Img().InHeap(indx) && u.gap % 2 == 0
    requires Placed(p.Img(), indx, s, u) && Word(p.mem[..], u.d + 12) == u.lo
    requires forall j: nat :: j < u.Slots() && !u.leaf2 ==> u.gap <= SlotAt(p.mem[..], u.d, j)
    modifies p`upper, p.mem
    ensures p.Valid() && p.upper == old(p.upper) + u.gap && After(old(p.Img()), p.Img(), indx, s, u)
    ensures Nodes(p.Img()) == old(Nodes(p.Img()))[indx := Nodes(p.Img())[indx]]
  {
    ghost var g := p.Img();
    HeapAbove(g);
    Slide(p, u);
    ghost var g' := p.Img();
    AfterPage(g, g', indx, s, u);
  }

  lemma AfterPage(g: Image, g': Image, indx: nat, s: Bytes, u: Place)
    requires g.Valid() && Accounted(g) && indx < g.NumKeys() && g.InHeap(indx) && After(g, g', indx, s, u)
    ensures g'.Valid() && Accounted(g') && g'.NumKeys() == g.NumKeys() && Nodes(g') == Nodes(g)[indx := Nodes(g')[indx]]
  {
    AfterResized(g, g', indx, s, u);
    ResizedPage(g, g', indx, 0 - u.gap);
  }
}
