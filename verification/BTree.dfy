// The shape of a database tree (liblmdb/src/mdb.c): pages as sorted node
// sequences, the bytes they take, and the sorted map a tree stands for.

module BTree {
  import opened PageFormat

  // md_cmp is a total order on keys, and any countable total order embeds in
  // the rationals: a key is its place in that order together with its length.
  datatype Key = Key(rank: real, len: nat)

  type Value = seq<bv8>

  datatype Entry = Entry(key: Key, val: Value)

  // A branch node: separator key and child page. The key of node 0 is empty
  // and stands for minus infinity.
  datatype Kid = Kid(sep: Key, sub: Tree)

  datatype Tree = Leaf(es: seq<Entry>) | Branch(kids: seq<Kid>)

  const NullKey := Key(0.0, 0)

  // --- Sizes ------------------------------------------------------------

  const MAXKEYSIZE: nat := 511

  // me_psize: the operating system's page size, at most MAX_PAGESIZE.
  type PageSize = n: nat | 4096 <= n <= MAX_PAGESIZE && n % 2 == 0 witness 4096

  function PMax(psize: PageSize): nat { psize - PAGEHDRSZ }

  // me_nodemax: a node and its slot take at most half of an empty page.
  function NodeMax(psize: PageSize): nat { PMax(psize) / 2 / 2 * 2 - 2 }

  // Two nodes fit an empty page, with their slots, exactly if neither is larger.
  lemma TwoNodesFit(psize: PageSize, n: nat)
    ensures n <= NodeMax(psize) <==> 2 * (2 + Even(n)) <= psize - PAGEHDRSZ
  {
  }

  // The data part of a leaf node; too large a value moves to overflow pages
  // and leaves its page number behind.
  function DataSize(psize: PageSize, e: Entry): nat {
    if NODESIZE + e.key.len + |e.val| > NodeMax(psize) then PGNO_SIZE else |e.val|
  }

  // Node plus slot, in a leaf and in a branch page.
  function EntrySize(psize: PageSize, e: Entry): nat {
    2 + Even(NODESIZE + e.key.len + DataSize(psize, e))
  }

  // The value is on the page exactly if two nodes with such a value fit one.
  lemma EntrySizeIs(psize: PageSize, e: Entry)
    ensures var whole := NODESIZE + e.key.len + |e.val|;
      EntrySize(psize, e) ==
        if 2 * (2 + Even(whole)) <= psize - PAGEHDRSZ then 2 + Even(whole)
        else 2 + Even(NODESIZE + e.key.len + PGNO_SIZE)
  {
    TwoNodesFit(psize, NODESIZE + e.key.len + |e.val|);
  }

  // A branch node without key data, and its slot.
  const BARE_NODE: nat := 2 + NODESIZE

  function KidSize(kid: Kid): nat { 2 + Even(NODESIZE + kid.sep.len) }

  function EntrySizes(psize: PageSize, es: seq<Entry>): (s: seq<nat>)
    ensures |s| == |es|
  {
    seq(|es|, i requires 0 <= i < |es| => EntrySize(psize, es[i]))
  }

  function KidSizes(kids: seq<Kid>): (s: seq<nat>)
    ensures |s| == |kids|
  {
    seq(|kids|, i requires 0 <= i < |kids| => KidSize(kids[i]))
  }

  function Sum(s: seq<nat>): nat {
    if s == [] then 0 else s[0] + Sum(s[1..])
  }

  // Bytes in use on a page, PMax minus SIZELEFT.
  function Used(psize: PageSize, t: Tree): nat {
    match t
    case Leaf(es) => Sum(EntrySizes(psize, es))
    case Branch(kids) => Sum(KidSizes(kids))
  }

  function NumKeys(t: Tree): nat {
    match t case Leaf(es) => |es| case Branch(kids) => |kids|
  }

  lemma {:induction false} SumConcat(a: seq<nat>, b: seq<nat>)
    ensures Sum(a + b) == Sum(a) + Sum(b)
  {
    if a == [] {
      assert a + b == b;
    } else {
      assert (a + b)[1..] == a[1..] + b;
      SumConcat(a[1..], b);
    }
  }

  lemma EntrySizesConcat(psize: PageSize, a: seq<Entry>, b: seq<Entry>)
    ensures EntrySizes(psize, a + b) == EntrySizes(psize, a) + EntrySizes(psize, b)
    ensures Sum(EntrySizes(psize, a + b)) == Sum(EntrySizes(psize, a)) + Sum(EntrySizes(psize, b))
  {
    SumConcat(EntrySizes(psize, a), EntrySizes(psize, b));
    assert EntrySizes(psize, a + b) == EntrySizes(psize, a) + EntrySizes(psize, b);
  }

  lemma KidSizesConcat(a: seq<Kid>, b: seq<Kid>)
    ensures KidSizes(a + b) == KidSizes(a) + KidSizes(b)
    ensures Sum(KidSizes(a + b)) == Sum(KidSizes(a)) + Sum(KidSizes(b))
  {
    SumConcat(KidSizes(a), KidSizes(b));
    assert KidSizes(a + b) == KidSizes(a) + KidSizes(b);
  }

  lemma OneEntrySize(psize: PageSize, e: Entry)
    ensures Sum(EntrySizes(psize, [e])) == EntrySize(psize, e)
  {
    assert EntrySizes(psize, [e])[1..] == [];
  }

  lemma OneKidSize(kid: Kid)
    ensures Sum(KidSizes([kid])) == KidSize(kid)
  {
    assert KidSizes([kid])[1..] == [];
  }

  // --- Bounds and well-formedness ---------------------------------------

  datatype Bound = None | Some(rank: real)

  ghost predicate AboveOrAt(lo: Bound, r: real) { lo.None? || lo.rank <= r }

  ghost predicate Above(lo: Bound, r: real) { lo.None? || lo.rank < r }

  ghost predicate Below(r: real, hi: Bound) { hi.None? || r < hi.rank }

  ghost predicate Sorted(es: seq<Entry>) {
    forall i, j :: 0 <= i < j < |es| ==> es[i].key.rank < es[j].key.rank
  }

  ghost predicate Within(es: seq<Entry>, lo: Bound, hi: Bound) {
    forall i :: 0 <= i < |es| ==> AboveOrAt(lo, es[i].key.rank) && Below(es[i].key.rank, hi)
  }

  ghost predicate KeySizes(es: seq<Entry>) {
    forall i :: 0 <= i < |es| ==> es[i].key.len <= MAXKEYSIZE
  }

  // A tree of depth d whose keys lie in [lo, hi). `thin` allows the top page to
  // be below its minimum: the page a rebalance is about to repair.
  ghost predicate WF(psize: PageSize, t: Tree, d: nat, lo: Bound, hi: Bound, thin: bool)
    decreases t, 1
  {
    && Used(psize, t) <= PMax(psize)
    && match t
       case Leaf(es) =>
         d == 1 && Sorted(es) && Within(es, lo, hi) && KeySizes(es) && (thin || 1 <= |es|)
       case Branch(kids) =>
         && 2 <= d && 1 <= |kids| && (thin || 2 <= |kids|)
         && kids[0].sep.len == 0
         && KidsWF(psize, kids, d - 1, lo, hi)
  }

  // Consecutive children: child i holds [sep i, sep i+1), the first from lo.
  ghost predicate KidsWF(psize: PageSize, kids: seq<Kid>, d: nat, lo: Bound, hi: Bound)
    requires 1 <= |kids|
    decreases kids, 0
  {
    assert kids[0].sub < kids[0];
    if |kids| == 1 then WF(psize, kids[0].sub, d, lo, hi, false)
    else
      && Above(lo, kids[1].sep.rank) && Below(kids[1].sep.rank, hi)
      && kids[1].sep.len <= MAXKEYSIZE
      && WF(psize, kids[0].sub, d, lo, Some(kids[1].sep.rank), false)
      && KidsWF(psize, kids[1..], d, Some(kids[1].sep.rank), hi)
  }

  // --- Contents ---------------------------------------------------------

  function Contents(t: Tree): seq<Entry>
    decreases t, 1
  {
    match t
    case Leaf(es) => es
    case Branch(kids) => Cat(kids)
  }

  function Cat(kids: seq<Kid>): seq<Entry>
    decreases kids, 0
  {
    if kids == [] then [] else assert kids[0].sub < kids[0]; Contents(kids[0].sub) + Cat(kids[1..])
  }

  lemma {:induction false} CatConcat(a: seq<Kid>, b: seq<Kid>)
    ensures Cat(a + b) == Cat(a) + Cat(b)
  {
    if a == [] {
      assert a + b == b;
    } else {
      assert (a + b)[1..] == a[1..] + b;
      CatConcat(a[1..], b);
    }
  }

  lemma CatOne(kid: Kid)
    ensures Cat([kid]) == Contents(kid.sub)
  {
    assert [kid][1..] == [];
  }

  lemma {:induction false} ContentsSorted(psize: PageSize, t: Tree, d: nat, lo: Bound, hi: Bound, thin: bool)
    requires WF(psize, t, d, lo, hi, thin)
    ensures Sorted(Contents(t)) && Within(Contents(t), lo, hi) && KeySizes(Contents(t))
    ensures !thin || t.Branch? ==> 1 <= |Contents(t)|
    decreases t, 1
  {
    if t.Branch? { CatSorted(psize, t.kids, d - 1, lo, hi); }
  }

  lemma {:induction false} CatSorted(psize: PageSize, kids: seq<Kid>, d: nat, lo: Bound, hi: Bound)
    requires 1 <= |kids| && KidsWF(psize, kids, d, lo, hi)
    ensures Sorted(Cat(kids)) && Within(Cat(kids), lo, hi) && KeySizes(Cat(kids))
    ensures 1 <= |Cat(kids)|
    decreases kids, 0
  {
    assert kids[0].sub < kids[0];
    if |kids| == 1 {
      ContentsSorted(psize, kids[0].sub, d, lo, hi, false);
      assert kids == [kids[0]];
      CatOne(kids[0]);
    } else {
      ContentsSorted(psize, kids[0].sub, d, lo, Some(kids[1].sep.rank), false);
      CatSorted(psize, kids[1..], d, Some(kids[1].sep.rank), hi);
    }
  }

  // --- Splitting and joining child lists --------------------------------

  lemma {:induction false} KidsSplit(psize: PageSize, a: seq<Kid>, b: seq<Kid>, d: nat, lo: Bound, hi: Bound)
    requires 1 <= |a| && 1 <= |b|
    requires KidsWF(psize, a + b, d, lo, hi)
    ensures KidsWF(psize, a, d, lo, Some(b[0].sep.rank)) && KidsWF(psize, b, d, Some(b[0].sep.rank), hi)
    ensures Above(lo, b[0].sep.rank) && Below(b[0].sep.rank, hi) && b[0].sep.len <= MAXKEYSIZE
    decreases |a|
  {
    var ab := a + b;
    if |a| == 1 {
      assert ab[1..] == b;
    } else {
      assert ab[1..] == a[1..] + b;
      KidsSplit(psize, a[1..], b, d, Some(a[1].sep.rank), hi);
    }
  }

  lemma {:induction false} KidsJoin(psize: PageSize, a: seq<Kid>, b: seq<Kid>, d: nat, lo: Bound, hi: Bound)
    requires 1 <= |a| && 1 <= |b|
    requires KidsWF(psize, a, d, lo, Some(b[0].sep.rank)) && KidsWF(psize, b, d, Some(b[0].sep.rank), hi)
    requires Above(lo, b[0].sep.rank) && Below(b[0].sep.rank, hi) && b[0].sep.len <= MAXKEYSIZE
    ensures KidsWF(psize, a + b, d, lo, hi)
    decreases |a|
  {
    var ab := a + b;
    if |a| == 1 {
      assert ab[1..] == b;
    } else {
      assert ab[1..] == a[1..] + b;
      KidsJoin(psize, a[1..], b, d, Some(a[1].sep.rank), hi);
    }
  }

  // The bounds of the children `mid` in the list a + mid + c.
  function LowOf(a: seq<Kid>, mid: seq<Kid>, lo: Bound): Bound
    requires 1 <= |mid|
  {
    if a == [] then lo else Some(mid[0].sep.rank)
  }

  function HighOf(c: seq<Kid>, hi: Bound): Bound {
    if c == [] then hi else Some(c[0].sep.rank)
  }

  lemma Focus(psize: PageSize, a: seq<Kid>, mid: seq<Kid>, c: seq<Kid>, d: nat, lo: Bound, hi: Bound)
    requires 1 <= |mid| && KidsWF(psize, a + mid + c, d, lo, hi)
    ensures KidsWF(psize, mid, d, LowOf(a, mid, lo), HighOf(c, hi))
    ensures a != [] ==> KidsWF(psize, a, d, lo, Some(mid[0].sep.rank)) && mid[0].sep.len <= MAXKEYSIZE
    ensures a != [] ==> Above(lo, mid[0].sep.rank)
    ensures c != [] ==> KidsWF(psize, c, d, Some(c[0].sep.rank), hi) && c[0].sep.len <= MAXKEYSIZE
    ensures c != [] ==> Above(LowOf(a, mid, lo), c[0].sep.rank) && Below(c[0].sep.rank, hi)
    ensures a != [] ==> Below(mid[0].sep.rank, HighOf(c, hi))
  {
    if c == [] {
      assert a + mid + c == a + mid;
    } else {
      KidsSplit(psize, a + mid, c, d, lo, hi);
    }
    if a == [] {
      assert a + mid == mid;
    } else {
      KidsSplit(psize, a, mid, d, lo, HighOf(c, hi));
    }
  }

  // Replacing `mid` by a list with the same first separator and bounds.
  lemma Refocus(psize: PageSize, a: seq<Kid>, mid: seq<Kid>, mid': seq<Kid>, c: seq<Kid>, d: nat, lo: Bound, hi: Bound)
    requires 1 <= |mid| && 1 <= |mid'| && KidsWF(psize, a + mid + c, d, lo, hi)
    requires a != [] ==> mid'[0].sep == mid[0].sep
    requires KidsWF(psize, mid', d, LowOf(a, mid, lo), HighOf(c, hi))
    ensures KidsWF(psize, a + mid' + c, d, lo, hi)
    ensures Cat(a + mid' + c) == Cat(a) + Cat(mid') + Cat(c)
  {
    Focus(psize, a, mid, c, d, lo, hi);
    CatConcat(a + mid', c);
    CatConcat(a, mid');
    if a == [] {
      assert a + mid' == mid';
    } else {
      KidsJoin(psize, a, mid', d, lo, HighOf(c, hi));
    }
    if c == [] {
      assert a + mid' + c == a + mid';
    } else {
      KidsJoin(psize, a + mid', c, d, lo, hi);
    }
  }

  // The separator of the first child plays no part.
  lemma KidsHead(psize: PageSize, kids: seq<Kid>, sep: Key, d: nat, lo: Bound, hi: Bound)
    requires 1 <= |kids| && KidsWF(psize, kids, d, lo, hi)
    ensures KidsWF(psize, kids[0 := Kid(sep, kids[0].sub)], d, lo, hi)
    ensures Cat(kids[0 := Kid(sep, kids[0].sub)]) == Cat(kids)
  {
    assert kids[0 := Kid(sep, kids[0].sub)][1..] == kids[1..];
  }

  // A tree stays well formed under wider bounds ...
  ghost predicate Wider(lo': Bound, lo: Bound, hi: Bound, hi': Bound) {
    && (lo'.None? || (lo.Some? && lo'.rank <= lo.rank))
    && (hi'.None? || (hi.Some? && hi.rank <= hi'.rank))
  }

  lemma {:induction false} Widen(psize: PageSize, t: Tree, d: nat, lo: Bound, hi: Bound, lo': Bound, hi': Bound, thin: bool)
    requires WF(psize, t, d, lo, hi, thin) && Wider(lo', lo, hi, hi')
    ensures WF(psize, t, d, lo', hi', thin)
    decreases t, 1
  {
    if t.Branch? { WidenKids(psize, t.kids, d - 1, lo, hi, lo', hi'); }
  }

  lemma {:induction false} WidenKids(psize: PageSize, kids: seq<Kid>, d: nat, lo: Bound, hi: Bound, lo': Bound, hi': Bound)
    requires 1 <= |kids| && KidsWF(psize, kids, d, lo, hi) && Wider(lo', lo, hi, hi')
    ensures KidsWF(psize, kids, d, lo', hi')
    decreases kids, 0
  {
    assert kids[0].sub < kids[0];
    if |kids| == 1 {
      Widen(psize, kids[0].sub, d, lo, hi, lo', hi', false);
    } else {
      var m := Some(kids[1].sep.rank);
      Widen(psize, kids[0].sub, d, lo, m, lo', m, false);
      WidenKids(psize, kids[1..], d, m, hi, m, hi');
    }
  }

  // ... and under any lower bound its smallest key still respects.
  lemma {:induction false} Tighten(psize: PageSize, t: Tree, d: nat, lo: Bound, hi: Bound, lo': Bound, thin: bool)
    requires WF(psize, t, d, lo, hi, thin)
    requires 1 <= |Contents(t)| && AboveOrAt(lo', Contents(t)[0].key.rank)
    ensures WF(psize, t, d, lo', hi, thin)
    decreases t, 1
  {
    if t.Branch? { TightenKids(psize, t.kids, d - 1, lo, hi, lo'); }
  }

  lemma {:induction false} TightenKids(psize: PageSize, kids: seq<Kid>, d: nat, lo: Bound, hi: Bound, lo': Bound)
    requires 1 <= |kids| && KidsWF(psize, kids, d, lo, hi)
    requires 1 <= |Cat(kids)| && AboveOrAt(lo', Cat(kids)[0].key.rank)
    ensures KidsWF(psize, kids, d, lo', hi)
    decreases kids, 0
  {
    assert kids[0].sub < kids[0];
    var hi0 := if |kids| == 1 then hi else Some(kids[1].sep.rank);
    ContentsSorted(psize, kids[0].sub, d, lo, hi0, false);
    Tighten(psize, kids[0].sub, d, lo, hi0, lo', false);
  }

  // --- The map ----------------------------------------------------------

  // A whole database: md_root, md_depth.
  datatype Db = Empty | Root(tree: Tree, depth: nat)

  ghost predicate ValidDb(psize: PageSize, db: Db) {
    db.Root? ==> WF(psize, db.tree, db.depth, None, None, false)
  }

  function Items(db: Db): seq<Entry> {
    if db.Empty? then [] else Contents(db.tree)
  }

  // What a sorted entry list means.
  ghost function ToMap(es: seq<Entry>): map<real, Entry> {
    if es == [] then map[] else ToMap(es[..|es| - 1])[es[|es| - 1].key.rank := es[|es| - 1]]
  }

  lemma {:induction false} ToMapSound(es: seq<Entry>)
    requires Sorted(es)
    ensures forall r :: r in ToMap(es) <==> exists i :: 0 <= i < |es| && es[i].key.rank == r
    ensures forall i :: 0 <= i < |es| ==> es[i].key.rank in ToMap(es) && ToMap(es)[es[i].key.rank] == es[i]
  {
    if es != [] {
      var pre := es[..|es| - 1];
      ToMapSound(pre);
      forall r ensures r in ToMap(es) <==> exists i :: 0 <= i < |es| && es[i].key.rank == r {
        if r in ToMap(pre) {
          var i :| 0 <= i < |pre| && pre[i].key.rank == r;
          assert es[i].key.rank == r;
        }
        if i :| 0 <= i < |es| && es[i].key.rank == r {
          if i < |pre| { assert pre[i].key.rank == r; }
        }
      }
      forall i | 0 <= i < |es| ensures es[i].key.rank in ToMap(es) && ToMap(es)[es[i].key.rank] == es[i] {
        if i < |pre| { assert pre[i] == es[i]; }
      }
    }
  }

  lemma MapHas(es: seq<Entry>, x: Entry)
    requires Sorted(es) && x in es
    ensures x.key.rank in ToMap(es) && ToMap(es)[x.key.rank] == x
  {
    ToMapSound(es);
  }

  lemma MapGet(es: seq<Entry>, k: real)
    requires Sorted(es) && k in ToMap(es)
    ensures ToMap(es)[k] in es && ToMap(es)[k].key.rank == k
  {
    ToMapSound(es);
  }
}
