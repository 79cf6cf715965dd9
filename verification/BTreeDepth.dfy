// How mdb_del changes the depth of the tree (liblmdb/src/mdb.c). A longer
// separator can split pages up to the root, and merges can leave the root with
// one child; which of them happens is decided by page sizes alone.

module BTreeDepth {
  import opened PageFormat
  import opened BTree
  import opened SplitPoint
  import opened BTreePut
  import opened BTreeDel
  import opened BTreeLimits

  // --- Which repair is made ---------------------------------------------

  // The page is too small and its neighbour cannot spare a node: a merge.
  ghost predicate RebalanceMerges(psize: PageSize, a: seq<Kid>, c: seq<Kid>, t: Tree)
    requires a == [] ==> c != []
  {
    Thin(psize, t) && !Spares(psize, if a == [] then c[0].sub else a[|a| - 1].sub)
  }

  // The separator of a move makes the parent too large, and it is split.
  ghost predicate RebalanceBreaks(psize: PageSize, a: seq<Kid>, k: Kid, c: seq<Kid>, t: Tree)
    requires a == [] ==> c != [] && Beside(psize, c[0].sub, t)
    requires a != [] ==> Beside(psize, a[|a| - 1].sub, t)
  {
    && Thin(psize, t)
    && if a == [] then Spares(psize, c[0].sub) && BranchBreaks(psize, AfterMoveLeft(k, t, c[0], c[1..]), 1)
       else Spares(psize, a[|a| - 1].sub) && BranchBreaks(psize, AfterMoveRight(a[..|a| - 1], a[|a| - 1], t, c), |a|)
  }

  // The parent's part of a deletion splits the parent.
  ghost predicate OnUpBreaks(psize: PageSize, a: seq<Kid>, k: Kid, c: seq<Kid>, out: Out, d: nat, lo: Bound, hi: Bound,
                             content: seq<Entry>)
    requires WF(psize, Branch(a + [k] + c), d, lo, hi, false)
    requires OutOk(psize, out, d - 1, LowOf(a, [k], lo), HighOf(c, hi), content)
  {
    match out
    case Done(up) => AbsorbBreaks(psize, a, k, c, up)
    case Check(t) =>
      Neighbours(psize, a, k, c, t, d - 1, lo, hi);
      RebalanceBreaks(psize, a, k, c, t)
  }

  // Every page from the parent of the leaf up to t's child has been merged, so
  // that page t itself has to be looked at next.
  ghost predicate DelChecks(psize: PageSize, t: Tree, d: nat, lo: Bound, hi: Bound, r: real)
    requires WF(psize, t, d, lo, hi, false) && AboveOrAt(lo, r) && Below(r, hi)
    decreases d, 2
  {
    t.Leaf? ||
    var i := ChildIndex(t.kids, r);
    assert t.kids == t.kids[..i] + [t.kids[i]] + t.kids[i + 1..];
    BranchDelChecks(psize, t.kids[..i], t.kids[i], t.kids[i + 1..], d, lo, hi, r)
  }

  ghost predicate BranchDelChecks(psize: PageSize, a: seq<Kid>, k: Kid, c: seq<Kid>, d: nat, lo: Bound, hi: Bound, r: real)
    requires WF(psize, Branch(a + [k] + c), d, lo, hi, false) && |a| == ChildIndex(a + [k] + c, r)
    requires AboveOrAt(lo, r) && Below(r, hi)
    decreases d, 1
  {
    match ChildOut(psize, a, k, c, d, lo, hi, r)
    case Check(t) => ChildChecks(psize, a, k, c, d, lo, hi, r) && RebalanceMerges(psize, a, c, t)
    case Done(_) => false
  }

  ghost predicate ChildChecks(psize: PageSize, a: seq<Kid>, k: Kid, c: seq<Kid>, d: nat, lo: Bound, hi: Bound, r: real)
    requires WF(psize, Branch(a + [k] + c), d, lo, hi, false) && |a| == ChildIndex(a + [k] + c, r)
    requires AboveOrAt(lo, r) && Below(r, hi)
    decreases d, 0
  {
    ChildFacts(psize, a, k, c, d, lo, hi, r);
    DelChecks(psize, k.sub, d - 1, LowOf(a, [k], lo), HighOf(c, hi), r)
  }

  // Page t is split: a node moved between two of its children and brought a
  // longer separator, or its child was split, and t has to be split in turn.
  ghost predicate DelBreaks(psize: PageSize, t: Tree, d: nat, lo: Bound, hi: Bound, r: real)
    requires WF(psize, t, d, lo, hi, false) && AboveOrAt(lo, r) && Below(r, hi)
    decreases d, 2
  {
    t.Branch? &&
    var i := ChildIndex(t.kids, r);
    assert t.kids == t.kids[..i] + [t.kids[i]] + t.kids[i + 1..];
    BranchDelBreaks(psize, t.kids[..i], t.kids[i], t.kids[i + 1..], d, lo, hi, r)
  }

  ghost predicate BranchDelBreaks(psize: PageSize, a: seq<Kid>, k: Kid, c: seq<Kid>, d: nat, lo: Bound, hi: Bound, r: real)
    requires WF(psize, Branch(a + [k] + c), d, lo, hi, false) && |a| == ChildIndex(a + [k] + c, r)
    requires AboveOrAt(lo, r) && Below(r, hi)
    decreases d, 1
  {
    var out := ChildOut(psize, a, k, c, d, lo, hi, r);
    && (if out.Check? then ChildChecks(psize, a, k, c, d, lo, hi, r) else ChildBreaks(psize, a, k, c, d, lo, hi, r))
    && OnUpBreaks(psize, a, k, c, out, d, lo, hi, Remove(Contents(k.sub), r))
  }

  ghost predicate ChildBreaks(psize: PageSize, a: seq<Kid>, k: Kid, c: seq<Kid>, d: nat, lo: Bound, hi: Bound, r: real)
    requires WF(psize, Branch(a + [k] + c), d, lo, hi, false) && |a| == ChildIndex(a + [k] + c, r)
    requires AboveOrAt(lo, r) && Below(r, hi)
    decreases d, 0
  {
    ChildFacts(psize, a, k, c, d, lo, hi, r);
    DelBreaks(psize, k.sub, d - 1, LowOf(a, [k], lo), HighOf(c, hi), r)
  }

  // --- The outcome follows ----------------------------------------------

  ghost predicate Grows(out: Out) { out.Done? && out.up.Broke? }

  // A merge leaves one child less.
  ghost predicate Merged(out: Out, n: nat) { out.Check? ==> out.t.Branch? && |out.t.kids| == n - 1 }

  lemma RebalanceGrows(psize: PageSize, a: seq<Kid>, k: Kid, c: seq<Kid>, t: Tree)
    requires a == [] ==> c != [] && Beside(psize, c[0].sub, t)
    requires a != [] ==> Beside(psize, a[|a| - 1].sub, t)
    requires Fails(Rebalance(psize, a, Kid(k.sep, t), c)) <==> RebalanceStuck(psize, a, k, c, t)
    ensures Grows(Rebalance(psize, a, Kid(k.sep, t), c)) <==> RebalanceBreaks(psize, a, k, c, t)
  {
    FillIsBytes(psize, t);
    FillIsBytes(psize, if a == [] then c[0].sub else a[|a| - 1].sub);
    if Underfull(psize, t) {
      if a == [] && CanSpare(psize, c[0].sub) { BranchBreaksIff(psize, AfterMoveLeft(k, t, c[0], c[1..]), 1); }
      if a != [] && CanSpare(psize, a[|a| - 1].sub) {
        BranchBreaksIff(psize, AfterMoveRight(a[..|a| - 1], a[|a| - 1], t, c), |a|);
      }
    }
  }

  lemma RebalanceChecks(psize: PageSize, a: seq<Kid>, k: Kid, c: seq<Kid>, t: Tree)
    requires a == [] ==> c != [] && Beside(psize, c[0].sub, t)
    requires a != [] ==> Beside(psize, a[|a| - 1].sub, t)
    ensures var out := Rebalance(psize, a, Kid(k.sep, t), c);
      (out.Check? <==> RebalanceMerges(psize, a, c, t)) && Merged(out, |a + [k] + c|)
  {
    FillIsBytes(psize, t);
    FillIsBytes(psize, if a == [] then c[0].sub else a[|a| - 1].sub);
  }

  lemma OnUpOutcome(psize: PageSize, a: seq<Kid>, k: Kid, c: seq<Kid>, out: Out, d: nat, lo: Bound, hi: Bound,
                    content: seq<Entry>)
    requires WF(psize, Branch(a + [k] + c), d, lo, hi, false)
    requires OutOk(psize, out, d - 1, LowOf(a, [k], lo), HighOf(c, hi), content)
    ensures var res := OnUp(psize, a, k, c, out, d, lo, hi, content);
      Merged(res, |a + [k] + c|) && (res.Check? <==> out.Check? && RebalanceMerges(psize, a, c, out.t))
    ensures Grows(OnUp(psize, a, k, c, out, d, lo, hi, content)) <==> OnUpBreaks(psize, a, k, c, out, d, lo, hi, content)
  {
    match out
    case Done(up) =>
      AbsorbFullIff(psize, a, k, c, up, d, lo, hi, content);
      AbsorbBreaksIff(psize, a, k, c, up);
    case Check(t) =>
      Neighbours(psize, a, k, c, t, d - 1, lo, hi);
      RebalanceFullIff(psize, a, k, c, t, d, lo, hi);
      RebalanceGrows(psize, a, k, c, t);
      RebalanceChecks(psize, a, k, c, t);
  }

  // What a deletion below page t does to the page is decided by the sizes.
  lemma {:induction false} DelOutcome(psize: PageSize, t: Tree, d: nat, lo: Bound, hi: Bound, r: real)
    requires WF(psize, t, d, lo, hi, false) && AboveOrAt(lo, r) && Below(r, hi)
    ensures var out := DelIn(psize, t, d, lo, hi, r);
      && (out.Check? <==> DelChecks(psize, t, d, lo, hi, r)) && (Grows(out) <==> DelBreaks(psize, t, d, lo, hi, r))
      && (t.Branch? ==> Merged(out, |t.kids|))
    decreases d, 2
  {
    if t.Branch? {
      var i := ChildIndex(t.kids, r);
      assert t.kids == t.kids[..i] + [t.kids[i]] + t.kids[i + 1..];
      BranchDelOutcome(psize, t.kids[..i], t.kids[i], t.kids[i + 1..], d, lo, hi, r);
    }
  }

  lemma BranchDelOutcome(psize: PageSize, a: seq<Kid>, k: Kid, c: seq<Kid>, d: nat, lo: Bound, hi: Bound, r: real)
    requires WF(psize, Branch(a + [k] + c), d, lo, hi, false) && |a| == ChildIndex(a + [k] + c, r)
    requires AboveOrAt(lo, r) && Below(r, hi)
    ensures var out := DelIn(psize, Branch(a + [k] + c), d, lo, hi, r);
      && (out.Check? <==> BranchDelChecks(psize, a, k, c, d, lo, hi, r))
      && (Grows(out) <==> BranchDelBreaks(psize, a, k, c, d, lo, hi, r)) && Merged(out, |a + [k] + c|)
    decreases d, 1
  {
    ChildOutcome(psize, a, k, c, d, lo, hi, r);
    DelIsChildOut(psize, a, k, c, d, lo, hi, r);
    OnUpOutcome(psize, a, k, c, ChildOut(psize, a, k, c, d, lo, hi, r), d, lo, hi, Remove(Contents(k.sub), r));
  }

  lemma ChildOutcome(psize: PageSize, a: seq<Kid>, k: Kid, c: seq<Kid>, d: nat, lo: Bound, hi: Bound, r: real)
    requires WF(psize, Branch(a + [k] + c), d, lo, hi, false) && |a| == ChildIndex(a + [k] + c, r)
    requires AboveOrAt(lo, r) && Below(r, hi)
    ensures var out := ChildOut(psize, a, k, c, d, lo, hi, r);
      && (out.Check? <==> ChildChecks(psize, a, k, c, d, lo, hi, r))
      && (Grows(out) <==> ChildBreaks(psize, a, k, c, d, lo, hi, r))
    decreases d, 0
  {
    ChildFacts(psize, a, k, c, d, lo, hi, r);
    DelOutcome(psize, k.sub, d - 1, LowOf(a, [k], lo), HighOf(c, hi), r);
  }

  // --- Depth ------------------------------------------------------------

  // The root has two children, and they are merged.
  ghost predicate DelCollapses(psize: PageSize, t: Tree, d: nat, r: real)
    requires WF(psize, t, d, None, None, false)
  {
    t.Branch? && |t.kids| == 2 && DelChecks(psize, t, d, None, None, r)
  }

  // What a deletion does to the depth: it goes up by one when separators that
  // have become longer split the root page, and down by one when the last two
  // children of the root are merged; a database is emptied with its last entry.
  lemma DelDepth(psize: PageSize, db: Db, r: real)
    requires ValidDb(psize, db) && db.Root? && Present(Items(db), r)
    ensures DbDel(psize, db, r).Deleted?
    ensures var res := DbDel(psize, db, r).result;
      && (res.Put? ==> (res.db.Empty? <==> |Items(db)| == 1))
      && (res.Put? && res.db.Root? ==> res.db.depth == db.depth + DepthChange(psize, db.tree, db.depth, r))
  {
    DelEmpties(psize, db, r);
    DelIsAtTop(psize, db, r);
    RootDepth(psize, db.tree, db.depth, r);
  }

  ghost function DepthChange(psize: PageSize, t: Tree, d: nat, r: real): int
    requires WF(psize, t, d, None, None, false)
  {
    if DelBreaks(psize, t, d, None, None, r) then 1 else if DelCollapses(psize, t, d, r) then -1 else 0
  }

  ghost predicate Collapses(out: Out) { out.Check? && out.t.Branch? && |out.t.kids| == 1 }

  lemma TopDepth(out: Out, d: nat)
    requires 0 < d
    ensures var res := AtTop(out, d);
      res.Put? && res.db.Root? ==> res.db.depth == d + if Grows(out) then 1 else if Collapses(out) then -1 else 0
  {
  }

  lemma RootOutcome(psize: PageSize, t: Tree, d: nat, r: real)
    requires WF(psize, t, d, None, None, false)
    ensures var out := DelIn(psize, t, d, None, None, r);
      && (Grows(out) <==> DelBreaks(psize, t, d, None, None, r)) && (Collapses(out) <==> DelCollapses(psize, t, d, r))
  {
    DelOutcome(psize, t, d, None, None, r);
    if t.Leaf? { LeafStays(psize, t.es, d, r); }
  }

  lemma LeafStays(psize: PageSize, es: seq<Entry>, d: nat, r: real)
    requires WF(psize, Leaf(es), d, None, None, false)
    ensures DelIn(psize, Leaf(es), d, None, None, r) == Check(Leaf(Remove(es, r)))
  {
  }

  lemma RootDepth(psize: PageSize, t: Tree, d: nat, r: real)
    requires WF(psize, t, d, None, None, false) && 0 < d
    ensures var res := AtTop(DelIn(psize, t, d, None, None, r), d);
      res.Put? && res.db.Root? ==> res.db.depth == d + DepthChange(psize, t, d, r)
  {
    RootOutcome(psize, t, d, r);
    TopDepth(DelIn(psize, t, d, None, None, r), d);
  }

  lemma DelEmpties(psize: PageSize, db: Db, r: real)
    requires ValidDb(psize, db) && db.Root? && Present(Items(db), r)
    ensures var res := DbDel(psize, db, r);
      res.Deleted? && (res.result.Put? ==> (res.result.db.Empty? <==> |Items(db)| == 1))
  {
    DelCorrect(psize, db, r);
    var res := DbDel(psize, db, r).result;
    if res.Put? && res.db.Root? { LowestIsFirst(psize, res.db.tree, res.db.depth, None, None); }
  }
}
