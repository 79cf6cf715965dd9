// Which repair mdb_rebalance makes after a delete (liblmdb/src/mdb.c), from the
// bytes in use on a page and on its neighbour alone, and what it leaves.

module BTreeRepair {
  import opened PageFormat
  import opened BTree
  import opened BTreePut
  import opened BTreeDel
  import opened BTreeLimits

  // At least a quarter of the page is in use.
  ghost predicate QuarterFull(psize: PageSize, es: seq<Entry>) {
    4 * Sum(EntrySizes(psize, es)) >= psize - PAGEHDRSZ
  }

  // A deletion of key r below child k of a page whose children are leaves.
  ghost predicate AboveLeaf(psize: PageSize, a: seq<Kid>, k: Kid, c: seq<Kid>, lo: Bound, hi: Bound, r: real) {
    && WF(psize, Branch(a + [k] + c), 2, lo, hi, false) && |a| == ChildIndex(a + [k] + c, r)
    && AboveOrAt(lo, r) && Below(r, hi)
  }

  lemma LeafKids(psize: PageSize, a: seq<Kid>, k: Kid, c: seq<Kid>, lo: Bound, hi: Bound, r: real)
    requires AboveLeaf(psize, a, k, c, lo, hi, r)
    ensures k.sub.Leaf? && 1 <= |k.sub.es|
    ensures if a == [] then c != [] && c[0].sub.Leaf? && 1 <= |c[0].sub.es|
            else a[|a| - 1].sub.Leaf? && 1 <= |a[|a| - 1].sub.es|
  {
    var kids := a + [k] + c;
    KidLevels(psize, kids, 1, lo, hi);
    assert kids[|a|] == k;
    if a == [] { assert kids[1] == c[0]; } else { assert kids[|a| - 1] == a[|a| - 1]; }
  }

  lemma LeafRebalanced(psize: PageSize, a: seq<Kid>, k: Kid, c: seq<Kid>, lo: Bound, hi: Bound, r: real)
    requires AboveLeaf(psize, a, k, c, lo, hi, r)
    ensures k.sub.Leaf?
    ensures var t := Leaf(Remove(k.sub.es, r));
      && (a == [] ==> c != [] && Beside(psize, c[0].sub, t)) && (a != [] ==> Beside(psize, a[|a| - 1].sub, t))
      && DelIn(psize, Branch(a + [k] + c), 2, lo, hi, r) == Rebalance(psize, a, Kid(k.sep, t), c)
  {
    LeafKids(psize, a, k, c, lo, hi, r);
    var t := Leaf(Remove(k.sub.es, r));
    assert ChildOut(psize, a, k, c, 2, lo, hi, r) == Check(t);
    DelIsChildOut(psize, a, k, c, 2, lo, hi, r);
    Neighbours(psize, a, k, c, t, 1, lo, hi);
  }

  // What a leaf with entries `rest` and its left neighbour n become: n gives its
  // last entry, whose key is the new separator, or the two become one page.
  ghost function LeafFromLeft(psize: PageSize, b: seq<Kid>, n: Kid, sep: Key, rest: seq<Entry>, c: seq<Kid>): Out
    requires n.sub.Leaf?
  {
    var es := n.sub.es;
    if 2 <= |es| && QuarterFull(psize, es) then
      var last := es[|es| - 1];
      Done(BranchPut(psize, b + [Kid(n.sep, Leaf(es[..|es| - 1])), Kid(last.key, Leaf([last] + rest))] + c, |b| + 1))
    else
      Check(Branch(b + [Kid(n.sep, Leaf(es + rest))] + c))
  }

  // The same with the right neighbour n of the first leaf; the separator is
  // what becomes the neighbour's first key.
  ghost function LeafFromRight(psize: PageSize, sep: Key, rest: seq<Entry>, n: Kid, c: seq<Kid>): Out
    requires n.sub.Leaf?
  {
    var es := n.sub.es;
    if 2 <= |es| && QuarterFull(psize, es) then
      Done(BranchPut(psize, [] + [Kid(sep, Leaf(rest + [es[0]])), Kid(es[1].key, Leaf(es[1..]))] + c, 1))
    else
      Check(Branch([] + [Kid(sep, Leaf(rest + es))] + c))
  }

  lemma FromLeft(psize: PageSize, b: seq<Kid>, n: Kid, sep: Key, rest: seq<Entry>, c: seq<Kid>)
    requires n.sub.Leaf? && 1 <= |n.sub.es|
    ensures RebalanceLeft(psize, b, n, Kid(sep, Leaf(rest)), c) == LeafFromLeft(psize, b, n, sep, rest, c)
  {
    FillIsBytes(psize, n.sub);
  }

  lemma FromRight(psize: PageSize, sep: Key, rest: seq<Entry>, n: Kid, c: seq<Kid>)
    requires n.sub.Leaf? && 1 <= |n.sub.es|
    ensures RebalanceRight(psize, Kid(sep, Leaf(rest)), n, c) == LeafFromRight(psize, sep, rest, n, c)
  {
    FillIsBytes(psize, n.sub);
  }

  // A delete from a leaf: a leaf that is still a quarter full is left alone; any
  // other turns to its left neighbour, or to the right one if it is the first.
  lemma LeafRepair(psize: PageSize, a: seq<Kid>, k: Kid, c: seq<Kid>, lo: Bound, hi: Bound, r: real)
    requires AboveLeaf(psize, a, k, c, lo, hi, r)
    ensures k.sub.Leaf? && (a == [] ==> c != [] && c[0].sub.Leaf?) && (a != [] ==> a[|a| - 1].sub.Leaf?)
    ensures var out, rest := DelIn(psize, Branch(a + [k] + c), 2, lo, hi, r), Remove(k.sub.es, r);
      if rest != [] && QuarterFull(psize, rest) then out == Done(Fit(Branch(a + [Kid(k.sep, Leaf(rest))] + c)))
      else if a == [] then out == LeafFromRight(psize, k.sep, rest, c[0], c[1..])
      else out == LeafFromLeft(psize, a[..|a| - 1], a[|a| - 1], k.sep, rest, c)
  {
    LeafKids(psize, a, k, c, lo, hi, r);
    LeafRebalanced(psize, a, k, c, lo, hi, r);
    var rest := Remove(k.sub.es, r);
    FillIsBytes(psize, Leaf(rest));
    if a == [] {
      FromRight(psize, k.sep, rest, c[0], c[1..]);
    } else {
      FromLeft(psize, a[..|a| - 1], a[|a| - 1], k.sep, rest, c);
    }
  }

  // Either repair changes the leaf ...
  lemma FromLeftChanges(psize: PageSize, b: seq<Kid>, n: Kid, sep: Key, rest: seq<Entry>, c: seq<Kid>, t: seq<Kid>)
    requires n.sub.Leaf? && |b| + 1 < |t| && t[|b| + 1].sub == Leaf(rest)
    ensures LeafFromLeft(psize, b, n, sep, rest, c) != Done(Fit(Branch(t)))
  {
    var es := n.sub.es;
    if 2 <= |es| && QuarterFull(psize, es) {
      var x, y := Kid(n.sep, Leaf(es[..|es| - 1])), Kid(es[|es| - 1].key, Leaf([es[|es| - 1]] + rest));
      assert (b + [x, y] + c)[|b| + 1] == y && |[es[|es| - 1]] + rest| != |rest|;
    }
  }

  lemma FromRightChanges(psize: PageSize, sep: Key, rest: seq<Entry>, n: Kid, c: seq<Kid>, t: seq<Kid>)
    requires n.sub.Leaf? && 0 < |t| && t[0].sub == Leaf(rest)
    ensures LeafFromRight(psize, sep, rest, n, c) != Done(Fit(Branch(t)))
  {
    var es := n.sub.es;
    if 2 <= |es| && QuarterFull(psize, es) {
      var x, y := Kid(sep, Leaf(rest + [es[0]])), Kid(es[1].key, Leaf(es[1..]));
      assert ([] + [x, y] + c)[0] == x && |rest + [es[0]]| != |rest|;
    }
  }

  // ... so the parent keeps its pages as they are exactly if the leaf is still a
  // quarter full.
  lemma LeafKept(psize: PageSize, a: seq<Kid>, k: Kid, c: seq<Kid>, lo: Bound, hi: Bound, r: real)
    requires AboveLeaf(psize, a, k, c, lo, hi, r)
    ensures k.sub.Leaf?
    ensures var rest := Remove(k.sub.es, r);
      rest != [] && QuarterFull(psize, rest) <==>
      DelIn(psize, Branch(a + [k] + c), 2, lo, hi, r) == Done(Fit(Branch(a + [Kid(k.sep, Leaf(rest))] + c)))
  {
    LeafRepair(psize, a, k, c, lo, hi, r);
    var rest := Remove(k.sub.es, r);
    var kept := a + [Kid(k.sep, Leaf(rest))] + c;
    if a == [] {
      FromRightChanges(psize, k.sep, rest, c[0], c[1..], kept);
    } else {
      FromLeftChanges(psize, a[..|a| - 1], a[|a| - 1], k.sep, rest, c, kept);
    }
  }

  // --- Branch pages -----------------------------------------------------

  // Node 0 gets a key when it becomes an inner node: the first one below it.
  ghost predicate Keyed(kids: seq<Kid>, k: seq<Kid>) {
    && 1 <= |kids| && Contents(kids[0].sub) != []
    && k == [Kid(Contents(kids[0].sub)[0].key, kids[0].sub)] + kids[1..]
  }

  lemma WithKeyIs(psize: PageSize, kids: seq<Kid>, d: nat, lo: Bound, hi: Bound)
    requires 1 <= |kids| && KidsWF(psize, kids, d, lo, hi)
    ensures Keyed(kids, WithKey(kids))
  {
    LowestIsFirst(psize, kids[0].sub, d, lo, if |kids| == 1 then hi else Some(kids[1].sep.rank));
  }

  // A branch page with a single child, or almost no bytes in use, takes the
  // last child of its left neighbour, if that is not as thin and has three ...
  lemma BranchTakesLeft(psize: PageSize, a: seq<Kid>, k: Kid, c: seq<Kid>, t: seq<Kid>, n: Kid, t': seq<Kid>, d: nat, lo: Bound, hi: Bound)
    requires WF(psize, Branch(a + [k] + c), d, lo, hi, false) && a != [] && n == a[|a| - 1] && n.sub.Branch?
    requires WF(psize, Branch(t), d - 1, Some(k.sep.rank), HighOf(c, hi), true) && Beside(psize, n.sub, Branch(t))
    requires |t| < 2 || 1000 * Sum(KidSizes(t)) < psize - PAGEHDRSZ
    requires Keyed(t, t')
    ensures 2 <= |n.sub.kids|
    ensures var m, last := |a| - 1, |n.sub.kids| - 1;
      Rebalance(psize, a, Kid(k.sep, Branch(t)), c) ==
        if 3 <= |n.sub.kids| && 1000 * Sum(KidSizes(n.sub.kids)) >= psize - PAGEHDRSZ then
          Done(BranchPut(psize, a[..m] + [Kid(n.sep, Branch(n.sub.kids[..last])),
            Kid(n.sub.kids[last].sep, Branch([Kid(NullKey, n.sub.kids[last].sub)] + t'))] + c, m + 1))
        else
          Check(Branch(a[..m] + [Kid(n.sep, Branch(n.sub.kids + t'))] + c))
  {
    FillIsBytes(psize, Branch(t));
    FillIsBytes(psize, n.sub);
    WithKeyIs(psize, t, d - 2, Some(k.sep.rank), HighOf(c, hi));
  }

  // ... or the first child of the right one, if it is itself the first child.
  lemma BranchTakesRight(psize: PageSize, k: Kid, c: seq<Kid>, t: seq<Kid>, n: seq<Kid>, n': seq<Kid>, d: nat, lo: Bound, hi: Bound)
    requires WF(psize, Branch([] + [k] + c), d, lo, hi, false) && c != [] && c[0].sub == Branch(n)
    requires WF(psize, Branch(t), d - 1, lo, HighOf(c, hi), true) && Beside(psize, Branch(n), Branch(t))
    requires |t| < 2 || 1000 * Sum(KidSizes(t)) < psize - PAGEHDRSZ
    requires Keyed(n, n')
    ensures 2 <= |n|
    ensures Rebalance(psize, [], Kid(k.sep, Branch(t)), c) ==
        if 3 <= |n| && 1000 * Sum(KidSizes(n)) >= psize - PAGEHDRSZ then
          Done(BranchPut(psize, [] + [Kid(k.sep, Branch(t + [n'[0]])),
            Kid(n[1].sep, Branch([Kid(NullKey, n[1].sub)] + n[2..]))] + c[1..], 1))
        else
          Check(Branch([] + [Kid(k.sep, Branch(t + n'))] + c[1..]))
  {
    FillIsBytes(psize, Branch(t));
    FillIsBytes(psize, Branch(n));
    assert [] + [k] + c == [] + [k, c[0]] + c[1..];
    Window(psize, [], k, c[0], c[1..], d - 1, lo, hi);
    WithKeyIs(psize, n, d - 2, Some(c[0].sep.rank), HighOf(c[1..], hi));
    assert DropKey(n[1..]) == [Kid(NullKey, n[1].sub)] + n[2..];
    assert WithKey(n)[..1] == [n'[0]];
  }
}
