// Databases on which mdb_put or mdb_del fails because a split leaves a half that
// does not fit on its page, and one that mdb_del makes deeper (liblmdb/src/mdb.c).

module BTreeFull {
  import opened PageFormat
  import opened BTree
  import opened SplitPoint
  import opened BTreePut
  import opened BTreeDel
  import opened BTreeLimits
  import opened BTreeDepth

  // Entry i of a leaf page: 16 entries of 238 bytes, then small ones of 10.
  function LeafEntry(i: nat): Entry {
    if i < 16 then Entry(Key(i as real, 8), seq(222, k => 0)) else Entry(Key(i as real, 2), [])
  }

  function LeafEntries(): (es: seq<Entry>)
    ensures |es| == 33
  {
    seq(33, i requires 0 <= i < 33 => LeafEntry(i))
  }

  // A full page of them, and an entry that belongs in front.
  function FullLeaf(): Db { Root(Leaf(LeafEntries()), 1) }
  function NewEntry(): Entry { Entry(Key(-1.0, 8), seq(236, k => 0)) }

  lemma LeafSizes()
    ensures EntrySizes(4096, LeafEntries()) == seq(16, i => 240) + seq(17, i => 12)
    ensures Sum(EntrySizes(4096, LeafEntries())) == 4044
    ensures EntrySize(4096, NewEntry()) == 254
  {
    var big: seq<nat>, small: seq<nat> := seq(16, i => 240), seq(17, i => 12);
    assert EntrySizes(4096, LeafEntries()) == big + small;
    SumConst(16, 240);
    SumConst(17, 12);
    SumConcat(big, small);
  }

  lemma LeafSorted()
    ensures Sorted(LeafEntries()) && KeySizes(LeafEntries())
  {
  }

  lemma LeafSum()
    ensures Sum(EntrySizes(4096, LeafEntries())) == 4044
  {
    LeafSizes();
  }

  lemma LeafValid()
    ensures ValidDb(4096, FullLeaf()) && Sorted(LeafEntries()) && KeySizes(LeafEntries())
    ensures Sum(EntrySizes(4096, LeafEntries())) <= PMax(4096)
  {
    LeafSum();
    LeafSorted();
  }

  // Half of the page with the new entry in front: 254 + 16 * 240 bytes.
  lemma LeafHalf()
    ensures var full := EntrySizes(4096, Splice(LeafEntries(), 0, 0, NewEntry()));
      |full| == 34 && full[0] == 254 && !SplitFits(4096, full, 0, true)
  {
    var full, big: seq<nat> := EntrySizes(4096, Splice(LeafEntries(), 0, 0, NewEntry())), seq(16, i => 240);
    LeafSizes();
    assert full == [254] + EntrySizes(4096, LeafEntries());
    assert full[..17] == [254] + big;
    SumConst(16, 240);
    assert Sum(full[..17]) == 254 + 3840;
  }

  lemma LeafIsStuck()
    ensures Sorted(LeafEntries()) && KeySizes(LeafEntries()) && Sum(EntrySizes(4096, LeafEntries())) <= PMax(4096)
    ensures LeafStuck(4096, LeafEntries(), NewEntry(), false)
  {
    var es := LeafEntries();
    LeafValid();
    LeafSizes();
    LeafHalf();
    LowerBoundUnique(es, -1.0, 0);
    assert OtherNodes(es, NewEntry()) == es;
  }

  lemma LeafPutFails(psize: PageSize, es: seq<Entry>, e: Entry)
    requires ValidDb(psize, Root(Leaf(es), 1)) && e.key.len <= MAXKEYSIZE && LeafPut(psize, es, e, false).Full?
    ensures DbPut(psize, Root(Leaf(es), 1), e, false).PageFull?
  {
  }

  lemma TreePutFails(psize: PageSize, t: Tree, d: nat, e: Entry)
    requires ValidDb(psize, Root(t, d)) && e.key.len <= MAXKEYSIZE && PutIn(psize, t, d, None, None, e, false).Full?
    ensures DbPut(psize, Root(t, d), e, false).PageFull?
  {
  }

  // A put fails on a single leaf page.
  lemma PutFailsOnLeaf()
    ensures ValidDb(4096, FullLeaf()) && DbPut(4096, FullLeaf(), NewEntry(), false).PageFull?
  {
    LeafValid();
    LeafIsStuck();
    LeafFullIff(4096, LeafEntries(), NewEntry(), false);
    LeafPutFails(4096, LeafEntries(), NewEntry());
  }

  // A leaf with two nodes of 2038 bytes, whose split yields the second one's
  // key, of n bytes, as separator.
  type KeyLength = n: nat | 244 <= n <= 246 && n % 2 == 0 witness 244

  function EntryA(): Entry { Entry(Key(1.0, 2), seq(2028, k => 0)) }
  function EntryB(n: KeyLength): Entry { Entry(Key(3.0, n), seq(2030 - n, k => 0)) }
  function Between(): Entry { Entry(Key(2.0, 2), []) }

  function First(n: KeyLength): Kid { Kid(NullKey, Leaf([EntryA(), EntryB(n)])) }

  // Child i > 0 of the branch page: separators of 246 bytes up to child 15,
  // then of 2.
  function BranchKid(i: nat): Kid {
    Kid(Key(10.0 * i as real, if i <= 15 then 246 else 2), Leaf([Entry(Key(10.0 * i as real + 1.0, 1), [])]))
  }

  function BranchKids(i: nat): (kids: seq<Kid>)
    requires i <= 33
    ensures |kids| == 33 - i
  {
    seq(33 - i, j requires 0 <= j < 33 - i => BranchKid(i + j))
  }

  function FullBranch(): Db { Root(Branch([First(244)] + BranchKids(1)), 2) }

  lemma PairSize(n: KeyLength)
    ensures EntrySizes(4096, [EntryA(), EntryB(n)]) == [2040, 2040] && Sum([2040, 2040]) == 4080
  {
    assert [2040, 2040][1..] == [2040] && [2040][1..] == [];
  }

  lemma KidLeafOk(i: nat)
    requires 1 <= i < 33
    ensures WF(4096, BranchKid(i).sub, 1, Some(10.0 * i as real), if i == 32 then None else Some(10.0 * (i + 1) as real), false)
  {
    OneEntrySize(4096, BranchKid(i).sub.es[0]);
  }

  lemma FirstLeafOk(n: KeyLength)
    ensures WF(4096, First(n).sub, 1, None, Some(5.0), false) && WF(4096, First(n).sub, 1, None, Some(10.0), false)
  {
    PairSize(n);
  }

  lemma {:induction false} BranchKidsOk(i: nat)
    requires 1 <= i < 33
    ensures KidsWF(4096, BranchKids(i), 1, Some(10.0 * i as real), None)
    decreases 33 - i
  {
    var kids := BranchKids(i);
    KidLeafOk(i);
    assert kids[0] == BranchKid(i);
    if i < 32 {
      BranchKidsOk(i + 1);
      assert kids[1] == BranchKid(i + 1) && kids[1..] == BranchKids(i + 1);
    }
  }

  // 15 * 256 + 17 * 12 bytes.
  lemma RestSizes()
    ensures KidSizes(BranchKids(1)) == seq(15, i => 256) + seq(17, i => 12)
    ensures Sum(seq(15, i => 256)) == 3840 && Sum(KidSizes(BranchKids(1))) == 4044
  {
    var big: seq<nat>, small: seq<nat> := seq(15, i => 256), seq(17, i => 12);
    forall i | 0 <= i < 32 ensures KidSizes(BranchKids(1))[i] == (big + small)[i] {
      assert BranchKids(1)[i] == BranchKid(1 + i);
    }
    SumConst(15, 256);
    SumConst(17, 12);
    SumConcat(big, small);
  }

  lemma RestFirst()
    ensures BranchKids(1)[0] == BranchKid(1) && HighOf(BranchKids(1), None) == Some(10.0)
  {
  }

  // A first child in front of the others.
  lemma FirstOk(n: KeyLength)
    ensures KidsWF(4096, [First(n)] + BranchKids(1), 1, None, None)
    ensures Sum(KidSizes([First(n)] + BranchKids(1))) == 4054
  {
    FirstLeafOk(n);
    RestOk();
    InFront(First(n), BranchKids(1));
    FirstSum(First(n), BranchKids(1));
  }

  lemma FirstSum(x: Kid, c: seq<Kid>)
    requires x.sep.len == 0 && c == BranchKids(1)
    ensures Sum(KidSizes([x] + c)) == 4054
  {
    RestSum();
    SumInFront(x, c);
  }

  lemma SumInFront(x: Kid, c: seq<Kid>)
    ensures Sum(KidSizes([x] + c)) == KidSize(x) + Sum(KidSizes(c))
  {
    KidSizesConcat([x], c);
    OneKidSize(x);
  }

  lemma RestOk()
    ensures KidsWF(4096, BranchKids(1), 1, Some(10.0), None) && BranchKids(1)[0].sep == Key(10.0, 246)
  {
    BranchKidsOk(1);
    assert BranchKids(1)[0] == BranchKid(1);
  }

  lemma RestSum()
    ensures Sum(KidSizes(BranchKids(1))) == 4044
  {
    RestSizes();
  }

  lemma InFront(x: Kid, c: seq<Kid>)
    requires c != [] && WF(4096, x.sub, 1, None, Some(10.0), false) && KidsWF(4096, c, 1, Some(10.0), None)
    requires c[0].sep.rank == 10.0 && c[0].sep.len <= MAXKEYSIZE
    ensures KidsWF(4096, [x] + c, 1, None, None)
  {
    assert ([x] + c)[1..] == c;
  }

  // The split of the first leaf.
  lemma FirstLeafBreaks()
    ensures WF(4096, Leaf([EntryA(), EntryB(244)]), 1, None, Some(10.0), false)
    ensures LeafPut(4096, [EntryA(), EntryB(244)], Between(), false) ==
      Broke(Leaf([EntryA(), Between()]), EntryB(244).key, Leaf([EntryB(244)]))
  {
    var es, full := [EntryA(), EntryB(244)], [EntryA(), Between(), EntryB(244)];
    PairSize(244);
    LowerBoundUnique(es, 2.0, 1);
    assert OtherNodes(es, Between()) == es && Splice(es, 1, 0, Between()) == full;
    ThreeSizes();
    assert full[..2] == [EntryA(), Between()] && full[2..] == [EntryB(244)];
  }

  lemma ThreeSizes()
    ensures var sz := EntrySizes(4096, [EntryA(), Between(), EntryB(244)]);
      sz == [2040, 12, 2040] && SplitIndex(4096, sz, 1, true) == 2 && Sum(sz[..2]) == 2052 && Sum(sz[2..]) == 2040
  {
    var sz: seq<nat> := [2040, 12, 2040];
    assert EntrySizes(4096, [EntryA(), Between(), EntryB(244)]) == sz;
    assert sz[..2] == [2040, 12] && [2040, 12][1..] == [12] && [12][1..] == [] && sz[2..] == [2040] && [2040][1..] == [];
    assert ScanUp(sz, 0, 3, 0, 4080) == ScanUp(sz, 1, 3, 2040, 4080) == ScanUp(sz, 2, 3, 2052, 4080) == 2;
  }

  // The parent with the new separator in front.
  function Parent(n: KeyLength, x: Tree, y: Tree): seq<Kid> {
    [] + [Kid(NullKey, x), Kid(EntryB(n).key, y)] + BranchKids(1)
  }

  lemma ParentSizes(n: KeyLength, x: Tree, y: Tree)
    ensures KidSizes(Parent(n, x, y)) == [10, 10 + n] + KidSizes(BranchKids(1))
    ensures Sum(KidSizes(Parent(n, x, y))) == 4064 + n && |Parent(n, x, y)| == 34
  {
    RestSum();
    KeyNode(n, x, y);
    TwoInFront(Kid(NullKey, x), Kid(EntryB(n).key, y), BranchKids(1));
  }

  lemma KeyNode(n: KeyLength, x: Tree, y: Tree)
    ensures KidSize(Kid(NullKey, x)) == 10 && KidSize(Kid(EntryB(n).key, y)) == 10 + n
  {
  }

  lemma TwoInFront(x: Kid, y: Kid, c: seq<Kid>)
    ensures KidSizes([] + [x, y] + c) == [KidSize(x), KidSize(y)] + KidSizes(c)
    ensures Sum(KidSizes([] + [x, y] + c)) == KidSize(x) + KidSize(y) + Sum(KidSizes(c))
  {
    var sx, sy: nat := KidSize(x), KidSize(y);
    assert KidSizes([] + [x, y] + c) == [sx, sy] + KidSizes(c);
    SumConcat([sx, sy], KidSizes(c));
    assert [sx, sy][1..] == [sy] && [sy][1..] == [];
  }

  lemma FirstHalf(rest: seq<nat>)
    requires rest == seq(15, i => 256) + seq(17, i => 12)
    ensures Sum(([10, 254] + rest)[..17]) == 4104
  {
    var big: seq<nat> := seq(15, i => 256);
    RestSizes();
    SumConcat([10, 254], big);
    assert [10, 254][1..] == [254] && [254][1..] == [];
    assert ([10, 254] + rest)[..17] == [10, 254] + big;
  }

  // Its first half has 10 + 254 + 15 * 256 bytes, and is taken unsearched.
  lemma ParentTooLarge(x: Tree, y: Tree)
    ensures BranchStuck(4096, Parent(244, x, y), 1)
  {
    ParentSizes(244, x, y);
    RestSizes();
    FirstHalf(KidSizes(BranchKids(1)));
    HalfTooLarge(KidSizes(Parent(244, x, y)));
  }

  lemma HalfTooLarge(sz: seq<nat>)
    requires |sz| == 34 && sz[1] == 254 && Sum(sz[..17]) == 4104
    ensures !SplitFits(4096, sz, 1, false)
  {
  }

  // A node of 256 bytes is large enough for the split point to be searched for.
  lemma ParentSplits(x: Tree, y: Tree)
    ensures BranchBreaks(4096, Parent(246, x, y), 1)
  {
    ParentSizes(246, x, y);
  }

  lemma FirstChild()
    ensures ChildIndex([First(244)] + BranchKids(1), 2.0) == 0
  {
    RestFirst();
  }

  // A put fails on a branch page.
  lemma PutFailsOnBranch()
    ensures ValidDb(4096, FullBranch()) && DbPut(4096, FullBranch(), Between(), false).PageFull?
  {
    FirstOk(244);
    BranchPutFails();
    TreePutFails(4096, Branch([First(244)] + BranchKids(1)), 2, Between());
  }

  lemma BranchPutFails()
    requires WF(4096, Branch([First(244)] + BranchKids(1)), 2, None, None, false)
    ensures PutIn(4096, Branch([First(244)] + BranchKids(1)), 2, None, None, Between(), false).Full?
  {
    var t, k, c := Branch([First(244)] + BranchKids(1)), First(244), BranchKids(1);
    FirstChild();
    RestFirst();
    assert t == Branch([] + [k] + c);
    PutIsChildUp(4096, [], k, c, 2, None, None, Between(), false);
    AbsorbChildFull(4096, [], k, c, 2, None, None, Between(), false);
    FirstLeafBreaks();
    LeafIsPut(Between());
    ParentTooLarge(Leaf([EntryA(), Between()]), Leaf([EntryB(244)]));
  }

  lemma LeafIsPut(e: Entry)
    requires WF(4096, First(244).sub, 1, None, Some(10.0), false) && Below(e.key.rank, Some(10.0)) && e.key.len <= MAXKEYSIZE
    ensures PutIn(4096, First(244).sub, 1, None, Some(10.0), e, false) == LeafPut(4096, [EntryA(), EntryB(244)], e, false)
  {
  }

  // --- Databases on which mdb_del fails, or deepens the tree ------------

  // The same parent with a thin second child that holds keys 5 and 6.
  function ThinEntry(r: real): Entry { Entry(Key(r, 2), []) }

  function Thin(): Kid { Kid(Key(5.0, 2), Leaf([ThinEntry(5.0), ThinEntry(6.0)])) }

  function ThinKids(n: KeyLength): seq<Kid> { [First(n)] + [Thin()] + BranchKids(1) }

  function ThinBranch(n: KeyLength): Db { Root(Branch(ThinKids(n)), 2) }

  lemma ThinLeafOk()
    ensures EntrySizes(4096, [ThinEntry(5.0), ThinEntry(6.0)]) == [12, 12] && Sum([12, 12]) == 24
    ensures WF(4096, Thin().sub, 1, Some(5.0), Some(10.0), false)
  {
    assert [12, 12][1..] == [12] && [12][1..] == [];
  }

  lemma TwoThin(n: KeyLength)
    ensures KidsWF(4096, [First(n), Thin()], 1, None, Some(10.0))
  {
    ThinLeafOk();
    FirstLeafOk(n);
    TwoKids(4096, First(n), Thin(), 1, None, Some(10.0));
  }

  lemma ThinValid(n: KeyLength)
    ensures ValidDb(4096, ThinBranch(n)) && HighOf(BranchKids(1), None) == Some(10.0)
  {
    FirstOk(n);
    RestFirst();
    TwoThin(n);
    SecondOk(First(n), Thin(), BranchKids(1));
  }

  lemma SecondOk(x: Kid, y: Kid, c: seq<Kid>)
    requires KidsWF(4096, [x] + c, 1, None, None) && KidsWF(4096, [x, y], 1, None, HighOf(c, None))
    ensures KidsWF(4096, [x] + [y] + c, 1, None, None)
    ensures Sum(KidSizes([x] + [y] + c)) == Sum(KidSizes([x] + c)) + KidSize(y)
  {
    PairSizes([], x, x, y, c);
    assert [] + [x] + c == [x] + c;
    assert [] + [x, y] + c == [x] + [y] + c;
    Refocus(4096, [], [x], [x, y], c, 1, None, None);
  }

  lemma ThinChild(n: KeyLength)
    ensures ChildIndex(ThinKids(n), 6.0) == 1
  {
    RestFirst();
    assert ThinKids(n)[1] == Thin() && ThinKids(n)[2] == BranchKid(1);
    assert ThinKids(n)[1..][0] == Thin() && ThinKids(n)[1..][1] == BranchKid(1);
  }

  lemma SixIsThere(n: KeyLength)
    ensures Present(Items(ThinBranch(n)), 6.0)
  {
    var k := First(n);
    CatConcat([k] + [Thin()], BranchKids(1));
    CatConcat([k], [Thin()]);
    CatOne(k);
    CatOne(Thin());
    assert Items(ThinBranch(n))[3] == ThinEntry(6.0);
  }

  lemma ThinRemoved()
    ensures Remove([ThinEntry(5.0), ThinEntry(6.0)], 6.0) == [ThinEntry(5.0)]
  {
    LowerBoundUnique([ThinEntry(5.0), ThinEntry(6.0)], 6.0, 1);
  }

  lemma ThinUsage(n: KeyLength)
    ensures Underfull(4096, Leaf([ThinEntry(5.0)])) && CanSpare(4096, First(n).sub)
  {
    PairSize(n);
    OneEntrySize(4096, ThinEntry(5.0));
  }

  // Moving the first leaf's second node over makes its key the separator.
  lemma ThinMoves(n: KeyLength)
    ensures AfterMoveRight([], First(n), Leaf([ThinEntry(5.0)]), BranchKids(1)) ==
      Parent(n, Leaf([EntryA()]), Leaf([EntryB(n), ThinEntry(5.0)]))
  {
    assert [EntryA(), EntryB(n)][..1] == [EntryA()] && [EntryB(n)] + [ThinEntry(5.0)] == [EntryB(n), ThinEntry(5.0)];
  }

  lemma ThinIsStuck()
    ensures RebalanceStuck(4096, [First(244)], Thin(), BranchKids(1), Leaf([ThinEntry(5.0)]))
  {
    ThinUsage(244);
    ThinMoves(244);
    assert [First(244)][..0] == [];
    ParentTooLarge(Leaf([EntryA()]), Leaf([EntryB(244), ThinEntry(5.0)]));
  }

  // A delete fails on a branch page.
  lemma DelFailsOnBranch()
    ensures ValidDb(4096, ThinBranch(244)) && Present(Items(ThinBranch(244)), 6.0)
    ensures DbDel(4096, ThinBranch(244), 6.0).Deleted? && DbDel(4096, ThinBranch(244), 6.0).result.PageFull?
  {
    ThinValid(244);
    SixIsThere(244);
    ThinFails();
    FullIsFails(4096, ThinBranch(244), 6.0);
  }

  lemma ThinFails()
    requires WF(4096, Branch(ThinKids(244)), 2, None, None, false) && HighOf(BranchKids(1), None) == Some(10.0)
    ensures Fails(DelIn(4096, Branch(ThinKids(244)), 2, None, None, 6.0))
  {
    ThinChild(244);
    DelIsOnUp(4096, [First(244)], Thin(), BranchKids(1), 2, None, None, 6.0);
    ParentDelFull(4096, [First(244)], Thin(), BranchKids(1), 2, None, None, 6.0);
    ThinRemoved();
    ThinIsStuck();
  }

  lemma ThinBreaks()
    ensures RebalanceBreaks(4096, [First(246)], Thin(), BranchKids(1), Leaf([ThinEntry(5.0)]))
  {
    ThinUsage(246);
    ThinMoves(246);
    assert [First(246)][..0] == [];
    ParentSplits(Leaf([EntryA()]), Leaf([EntryB(246), ThinEntry(5.0)]));
  }

  lemma ThinGrows()
    requires WF(4096, Branch(ThinKids(246)), 2, None, None, false) && HighOf(BranchKids(1), None) == Some(10.0)
    ensures Grows(DelIn(4096, Branch(ThinKids(246)), 2, None, None, 6.0))
  {
    var a, k, c := [First(246)], Thin(), BranchKids(1);
    ThinChild(246);
    DelIsChildOut(4096, a, k, c, 2, None, None, 6.0);
    OnUpOutcome(4096, a, k, c, ChildOut(4096, a, k, c, 2, None, None, 6.0), 2, None, None, Remove(Contents(k.sub), 6.0));
    ThinRemoved();
    ThinBreaks();
  }

  // A delete makes the tree one level deeper.
  lemma DelDeepens()
    ensures ValidDb(4096, ThinBranch(246)) && ThinBranch(246).depth == 2
    ensures var res := DbDel(4096, ThinBranch(246), 6.0);
      res.Deleted? && res.result.Put? && res.result.db.Root? && res.result.db.depth == 3
  {
    ThinValid(246);
    SixIsThere(246);
    ThinGrows();
    DelIsAtTop(4096, ThinBranch(246), 6.0);
    GrownDepth(DelIn(4096, Branch(ThinKids(246)), 2, None, None, 6.0), 2);
  }

  lemma GrownDepth(out: Out, d: nat)
    requires Grows(out)
    ensures AtTop(out, d).Put? && AtTop(out, d).db.Root? && AtTop(out, d).db.depth == d + 1
  {
  }
}
