// When mdb_del fails (liblmdb/src/mdb.c).

module BTreeLimits {
  import opened PageFormat
  import opened BTree
  import opened SplitPoint
  import opened BTreePut
  import opened BTreeDel

  // --- When a deletion fails --------------------------------------------

  ghost predicate Fails(out: Out) { out.Done? && out.up.Full? }

  // The parent after a node has moved from n to its left neighbour t ...
  ghost function AfterMoveLeft(k: Kid, t: Tree, n: Kid, rest: seq<Kid>): seq<Kid>
    requires NumKeys(n.sub) > MinKeys(n.sub) && n.sub.Leaf? == t.Leaf? && NumKeys(t) + 1 >= MinKeys(t)
  {
    var m := MoveLeft(t, n.sub);
    [] + [Kid(k.sep, m.0), Kid(m.1, m.2)] + rest
  }

  // ... and from n to its right neighbour t.
  ghost function AfterMoveRight(rest: seq<Kid>, n: Kid, t: Tree, c: seq<Kid>): seq<Kid>
    requires NumKeys(n.sub) > MinKeys(n.sub) && n.sub.Leaf? == t.Leaf? && NumKeys(t) + 1 >= MinKeys(t)
  {
    var m := MoveRight(n.sub, t);
    rest + [Kid(n.sep, m.0), Kid(m.1, m.2)] + c
  }

  // The separator of a move makes the parent too large, and it is stuck.
  ghost predicate RebalanceStuck(psize: PageSize, a: seq<Kid>, k: Kid, c: seq<Kid>, t: Tree)
    requires a == [] ==> c != [] && Beside(psize, c[0].sub, t)
    requires a != [] ==> Beside(psize, a[|a| - 1].sub, t)
  {
    && Thin(psize, t)
    && if a == [] then Spares(psize, c[0].sub) && BranchStuck(psize, AfterMoveLeft(k, t, c[0], c[1..]), 1)
       else Spares(psize, a[|a| - 1].sub) && BranchStuck(psize, AfterMoveRight(a[..|a| - 1], a[|a| - 1], t, c), |a|)
  }

  lemma MoveFullIff(psize: PageSize, a: seq<Kid>, x: Kid, y: Kid, c: seq<Kid>, m: (Tree, Key, Tree), x0: Tree, y0: Tree,
                    d: nat, lo: Bound, hi: Bound)
    requires WF(psize, Branch(a + [x, y] + c), d, lo, hi, false)
    requires Moved(psize, x0, y0, m, d - 1, LowOf(a, [x], lo), HighOf(c, hi))
    ensures var full := a + [Kid(x.sep, m.0), Kid(m.1, m.2)] + c;
      BranchPut(psize, full, |a| + 1).Full? <==> BranchStuck(psize, full, |a| + 1)
  {
    var x', y' := Kid(x.sep, m.0), Kid(m.1, m.2);
    var full := a + [x', y'] + c;
    TwoKids(psize, x', y', d - 1, LowOf(a, [x], lo), HighOf(c, hi));
    Refocus(psize, a, [x, y], [x', y'], c, d - 1, lo, hi);
    PairSizes(a, x, x, y, c);
    PairSizes(a, x, x', y', c);
    assert full[0].sep == (a + [x, y] + c)[0].sep;
    BranchFullIff(psize, full, |a| + 1, d, lo, hi);
  }

  lemma FirstFullIff(psize: PageSize, k: Kid, c: seq<Kid>, t: Tree, d: nat, lo: Bound, hi: Bound)
    requires WF(psize, Branch([] + [k] + c), d, lo, hi, false) && c != [] && Beside(psize, c[0].sub, t)
    requires WF(psize, t, d - 1, lo, HighOf(c, hi), true) && Underfull(psize, t)
    ensures Fails(RebalanceRight(psize, Kid(k.sep, t), c[0], c[1..])) <==> RebalanceStuck(psize, [], k, c, t)
  {
    var n, rest := c[0], c[1..];
    assert [] + [k] + c == [] + [k, n] + rest;
    FillIsBytes(psize, t);
    FillIsBytes(psize, n.sub);
    if CanSpare(psize, n.sub) { RightFullIff(psize, k, n, rest, t, d, lo, hi); }
  }

  lemma RightFullIff(psize: PageSize, k: Kid, n: Kid, rest: seq<Kid>, t: Tree, d: nat, lo: Bound, hi: Bound)
    requires WF(psize, Branch([] + [k, n] + rest), d, lo, hi, false) && Beside(psize, n.sub, t) && CanSpare(psize, n.sub)
    requires WF(psize, t, d - 1, lo, Some(n.sep.rank), true) && Underfull(psize, t)
    ensures BranchPut(psize, AfterMoveLeft(k, t, n, rest), 1).Full? <==> BranchStuck(psize, AfterMoveLeft(k, t, n, rest), 1)
  {
    Window(psize, [], k, n, rest, d - 1, lo, hi);
    MoveOk(psize, t, n.sep.rank, n.sub, d - 1, lo, HighOf(rest, hi), false);
    MoveFullIff(psize, [], k, n, rest, MoveLeft(t, n.sub), t, n.sub, d, lo, hi);
  }

  lemma LaterFullIff(psize: PageSize, a: seq<Kid>, k: Kid, c: seq<Kid>, t: Tree, d: nat, lo: Bound, hi: Bound)
    requires WF(psize, Branch(a + [k] + c), d, lo, hi, false) && a != [] && Beside(psize, a[|a| - 1].sub, t)
    requires WF(psize, t, d - 1, Some(k.sep.rank), HighOf(c, hi), true) && Underfull(psize, t)
    ensures Fails(RebalanceLeft(psize, a[..|a| - 1], a[|a| - 1], Kid(k.sep, t), c)) <==> RebalanceStuck(psize, a, k, c, t)
  {
    var rest, n := a[..|a| - 1], a[|a| - 1];
    assert a + [k] + c == rest + [n, k] + c;
    FillIsBytes(psize, t);
    FillIsBytes(psize, n.sub);
    if CanSpare(psize, n.sub) {
      Window(psize, rest, n, k, c, d - 1, lo, hi);
      MoveOk(psize, n.sub, k.sep.rank, t, d - 1, LowOf(rest, [n], lo), HighOf(c, hi), true);
      MoveFullIff(psize, rest, n, k, c, MoveRight(n.sub, t), n.sub, t, d, lo, hi);
    }
  }

  lemma RebalanceFullIff(psize: PageSize, a: seq<Kid>, k: Kid, c: seq<Kid>, t: Tree, d: nat, lo: Bound, hi: Bound)
    requires WF(psize, Branch(a + [k] + c), d, lo, hi, false)
    requires WF(psize, t, d - 1, LowOf(a, [k], lo), HighOf(c, hi), true)
    requires a == [] ==> c != [] && Beside(psize, c[0].sub, t)
    requires a != [] ==> Beside(psize, a[|a| - 1].sub, t)
    ensures Fails(Rebalance(psize, a, Kid(k.sep, t), c)) <==> RebalanceStuck(psize, a, k, c, t)
  {
    FillIsBytes(psize, t);
    if Underfull(psize, t) {
      if a == [] { FirstFullIff(psize, k, c, t, d, lo, hi); } else { LaterFullIff(psize, a, k, c, t, d, lo, hi); }
    }
  }

  // The parent's part of a deletion is stuck.
  ghost predicate OnUpStuck(psize: PageSize, a: seq<Kid>, k: Kid, c: seq<Kid>, out: Out, d: nat, lo: Bound, hi: Bound,
                            content: seq<Entry>)
    requires WF(psize, Branch(a + [k] + c), d, lo, hi, false)
    requires OutOk(psize, out, d - 1, LowOf(a, [k], lo), HighOf(c, hi), content)
  {
    match out
    case Done(up) => AbsorbStuck(psize, a, k, c, up)
    case Check(t) =>
      Neighbours(psize, a, k, c, t, d - 1, lo, hi);
      RebalanceStuck(psize, a, k, c, t)
  }

  lemma OnUpFullIff(psize: PageSize, a: seq<Kid>, k: Kid, c: seq<Kid>, out: Out, d: nat, lo: Bound, hi: Bound,
                    content: seq<Entry>)
    requires WF(psize, Branch(a + [k] + c), d, lo, hi, false)
    requires OutOk(psize, out, d - 1, LowOf(a, [k], lo), HighOf(c, hi), content)
    ensures Fails(OnUp(psize, a, k, c, out, d, lo, hi, content)) <==>
      Fails(out) || OnUpStuck(psize, a, k, c, out, d, lo, hi, content)
  {
    match out
    case Done(up) => AbsorbFullIff(psize, a, k, c, up, d, lo, hi, content);
    case Check(t) =>
      Neighbours(psize, a, k, c, t, d - 1, lo, hi);
      RebalanceFullIff(psize, a, k, c, t, d, lo, hi);
  }

  // The child a deletion descends into, with its bounds.
  lemma ChildFacts(psize: PageSize, a: seq<Kid>, k: Kid, c: seq<Kid>, d: nat, lo: Bound, hi: Bound, r: real)
    requires WF(psize, Branch(a + [k] + c), d, lo, hi, false) && |a| == ChildIndex(a + [k] + c, r)
    requires AboveOrAt(lo, r) && Below(r, hi)
    ensures 1 <= d && WF(psize, k.sub, d - 1, LowOf(a, [k], lo), HighOf(c, hi), false)
    ensures AboveOrAt(LowOf(a, [k], lo), r) && Below(r, HighOf(c, hi))
  {
    ChildRemove(psize, a, k, c, d - 1, lo, hi, r);
  }

  // Some page on the way back up is stuck.
  ghost predicate DelStuck(psize: PageSize, t: Tree, d: nat, lo: Bound, hi: Bound, r: real)
    requires WF(psize, t, d, lo, hi, false) && AboveOrAt(lo, r) && Below(r, hi)
    decreases d, 1
  {
    t.Branch? &&
    var i := ChildIndex(t.kids, r);
    assert t.kids == t.kids[..i] + [t.kids[i]] + t.kids[i + 1..];
    BranchDelStuck(psize, t.kids[..i], t.kids[i], t.kids[i + 1..], d, lo, hi, r)
  }

  ghost predicate BranchDelStuck(psize: PageSize, a: seq<Kid>, k: Kid, c: seq<Kid>, d: nat, lo: Bound, hi: Bound, r: real)
    requires WF(psize, Branch(a + [k] + c), d, lo, hi, false) && |a| == ChildIndex(a + [k] + c, r)
    requires AboveOrAt(lo, r) && Below(r, hi)
    decreases d, 0
  {
    ChildFacts(psize, a, k, c, d, lo, hi, r);
    var loi, hii := LowOf(a, [k], lo), HighOf(c, hi);
    DelStuck(psize, k.sub, d - 1, loi, hii, r) ||
    OnUpStuck(psize, a, k, c, DelIn(psize, k.sub, d - 1, loi, hii, r), d, lo, hi, Remove(Contents(k.sub), r))
  }

  lemma DelIsOnUp(psize: PageSize, a: seq<Kid>, k: Kid, c: seq<Kid>, d: nat, lo: Bound, hi: Bound, r: real)
    requires WF(psize, Branch(a + [k] + c), d, lo, hi, false) && |a| == ChildIndex(a + [k] + c, r)
    requires AboveOrAt(lo, r) && Below(r, hi)
    ensures var loi, hii := LowOf(a, [k], lo), HighOf(c, hi);
      1 <= d && WF(psize, k.sub, d - 1, loi, hii, false) && AboveOrAt(loi, r) && Below(r, hii) &&
      DelIn(psize, Branch(a + [k] + c), d, lo, hi, r) ==
        OnUp(psize, a, k, c, DelIn(psize, k.sub, d - 1, loi, hii, r), d, lo, hi, Remove(Contents(k.sub), r))
  {
    ChildFacts(psize, a, k, c, d, lo, hi, r);
    var kids := a + [k] + c;
    assert kids[..|a|] == a && kids[|a|] == k && kids[|a| + 1..] == c;
  }

  // A deletion fails exactly when some page is stuck.
  lemma {:induction false} DelFullIff(psize: PageSize, t: Tree, d: nat, lo: Bound, hi: Bound, r: real)
    requires WF(psize, t, d, lo, hi, false) && AboveOrAt(lo, r) && Below(r, hi)
    ensures Fails(DelIn(psize, t, d, lo, hi, r)) <==> DelStuck(psize, t, d, lo, hi, r)
    decreases d, 1
  {
    if t.Branch? {
      var i := ChildIndex(t.kids, r);
      assert t.kids == t.kids[..i] + [t.kids[i]] + t.kids[i + 1..];
      BranchDelFullIff(psize, t.kids[..i], t.kids[i], t.kids[i + 1..], d, lo, hi, r);
    }
  }

  lemma BranchDelFullIff(psize: PageSize, a: seq<Kid>, k: Kid, c: seq<Kid>, d: nat, lo: Bound, hi: Bound, r: real)
    requires WF(psize, Branch(a + [k] + c), d, lo, hi, false) && |a| == ChildIndex(a + [k] + c, r)
    requires AboveOrAt(lo, r) && Below(r, hi)
    ensures Fails(DelIn(psize, Branch(a + [k] + c), d, lo, hi, r)) <==> BranchDelStuck(psize, a, k, c, d, lo, hi, r)
    decreases d, 0
  {
    ChildFacts(psize, a, k, c, d, lo, hi, r);
    DelFullIff(psize, k.sub, d - 1, LowOf(a, [k], lo), HighOf(c, hi), r);
    ParentDelFull(psize, a, k, c, d, lo, hi, r);
    DelIsOnUp(psize, a, k, c, d, lo, hi, r);
  }

  lemma ParentDelFull(psize: PageSize, a: seq<Kid>, k: Kid, c: seq<Kid>, d: nat, lo: Bound, hi: Bound, r: real)
    requires WF(psize, Branch(a + [k] + c), d, lo, hi, false) && |a| == ChildIndex(a + [k] + c, r)
    requires AboveOrAt(lo, r) && Below(r, hi)
    ensures var loi, hii := LowOf(a, [k], lo), HighOf(c, hi);
      1 <= d && WF(psize, k.sub, d - 1, loi, hii, false) && AboveOrAt(loi, r) && Below(r, hii) &&
      var out, rest := DelIn(psize, k.sub, d - 1, loi, hii, r), Remove(Contents(k.sub), r);
      (Fails(OnUp(psize, a, k, c, out, d, lo, hi, rest)) <==> Fails(out) || OnUpStuck(psize, a, k, c, out, d, lo, hi, rest))
  {
    ChildFacts(psize, a, k, c, d, lo, hi, r);
    OnUpFullIff(psize, a, k, c, DelIn(psize, k.sub, d - 1, LowOf(a, [k], lo), HighOf(c, hi), r), d, lo, hi,
      Remove(Contents(k.sub), r));
  }

  // What became of the child a delete descends into.
  ghost function ChildOut(psize: PageSize, a: seq<Kid>, k: Kid, c: seq<Kid>, d: nat, lo: Bound, hi: Bound, r: real): (out: Out)
    requires WF(psize, Branch(a + [k] + c), d, lo, hi, false) && |a| == ChildIndex(a + [k] + c, r)
    requires AboveOrAt(lo, r) && Below(r, hi)
    ensures 1 <= d && OutOk(psize, out, d - 1, LowOf(a, [k], lo), HighOf(c, hi), Remove(Contents(k.sub), r))
  {
    ChildFacts(psize, a, k, c, d, lo, hi, r);
    DelIn(psize, k.sub, d - 1, LowOf(a, [k], lo), HighOf(c, hi), r)
  }

  lemma DelIsChildOut(psize: PageSize, a: seq<Kid>, k: Kid, c: seq<Kid>, d: nat, lo: Bound, hi: Bound, r: real)
    requires WF(psize, Branch(a + [k] + c), d, lo, hi, false) && |a| == ChildIndex(a + [k] + c, r)
    requires AboveOrAt(lo, r) && Below(r, hi)
    ensures DelIn(psize, Branch(a + [k] + c), d, lo, hi, r) ==
      OnUp(psize, a, k, c, ChildOut(psize, a, k, c, d, lo, hi, r), d, lo, hi, Remove(Contents(k.sub), r))
  {
    DelIsOnUp(psize, a, k, c, d, lo, hi, r);
  }

  // --- mdb_del ----------------------------------------------------------

  // What mdb_del0 makes of the outcome at the root.
  ghost function AtTop(out: Out, d: nat): PutResult {
    match out
    case Done(up) => AtRoot(up, d)
    case Check(t) => RebalanceRoot(t, d)
  }

  lemma DelIsAtTop(psize: PageSize, db: Db, r: real)
    requires ValidDb(psize, db) && db.Root? && Present(Items(db), r)
    ensures 0 < db.depth
    ensures DbDel(psize, db, r) == Deleted(AtTop(DelIn(psize, db.tree, db.depth, None, None, r), db.depth))
  {
  }

  lemma FullIsFails(psize: PageSize, db: Db, r: real)
    requires ValidDb(psize, db) && db.Root? && Present(Items(db), r)
    ensures DbDel(psize, db, r).Deleted?
    ensures DbDel(psize, db, r).result.PageFull? <==> Fails(DelIn(psize, db.tree, db.depth, None, None, r))
  {
  }

  // A deletion fails exactly when a page is stuck.
  lemma DelFails(psize: PageSize, db: Db, r: real)
    requires ValidDb(psize, db) && db.Root? && Present(Items(db), r)
    ensures DbDel(psize, db, r).Deleted?
    ensures DbDel(psize, db, r).result.PageFull? <==> DelStuck(psize, db.tree, db.depth, None, None, r)
  {
    FullIsFails(psize, db, r);
    DelFullIff(psize, db.tree, db.depth, None, None, r);
  }

  // So does a delete.
  lemma DelFullCrowded(psize: PageSize, db: Db, r: real)
    requires ValidDb(psize, db) && db.Root? && Present(Items(db), r)
    ensures match DbDel(psize, db, r)
      case Deleted(PageFull(sz, newindx, _)) =>
        newindx < |sz| - 1 && psize / 128 <= |sz| - 1 && sz[newindx] <= PMax(psize) / 16
      case Deleted(Put(_)) => true
      case NotFound => false
  {
    DelCorrect(psize, db, r);
  }
}
