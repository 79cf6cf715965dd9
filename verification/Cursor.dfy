// Looking up a key with a cursor (liblmdb/src/mdb.c): mdb_page_search_root,
// mdb_cursor_sibling and mdb_cursor_set with its shortcuts for a cursor that
// is already on the right page.

module Cursors {
  import opened BTree
  import opened BTreePut

  // Pages from the root down to the current one, and the index in each.
  datatype Path = Path(pg: seq<Tree>, ki: seq<nat>) {
    ghost predicate Linked(root: Tree) {
      && 1 <= |pg| && |ki| == |pg| && pg[0] == root
      && forall i :: 0 <= i < |pg| - 1 ==>
           pg[i].Branch? && ki[i] < |pg[i].kids| && pg[i + 1] == pg[i].kids[ki[i]].sub
    }

    ghost function Up(): Path
      requires 2 <= |pg| && |ki| == |pg|
    {
      Path(pg[..|pg| - 1], ki[..|pg| - 1])
    }

    ghost function Top(): Tree
      requires 1 <= |pg|
    {
      pg[|pg| - 1]
    }
  }

  // Number of entries of the tree that precede the top page.
  ghost function Offset(root: Tree, p: Path): nat
    requires p.Linked(root)
    decreases |p.pg|
  {
    if |p.pg| == 1 then 0
    else
      var n := |p.pg| - 2;
      Offset(root, p.Up()) + |Cat(p.pg[n].kids[..p.ki[n]])|
  }

  ghost predicate IsWindow(all: seq<Entry>, off: nat, part: seq<Entry>) {
    off + |part| <= |all| && forall j :: 0 <= j < |part| ==> all[off + j] == part[j]
  }

  lemma WindowInWindow(all: seq<Entry>, off: nat, a: seq<Entry>, b: seq<Entry>, c: seq<Entry>)
    requires IsWindow(all, off, a + b + c)
    ensures IsWindow(all, off + |a|, b)
  {
    forall j | 0 <= j < |b| ensures all[off + |a| + j] == b[j] {
      assert (a + b + c)[|a| + j] == b[j];
    }
  }

  lemma CatAround(kids: seq<Kid>, k: nat)
    requires k < |kids|
    ensures Cat(kids) == Cat(kids[..k]) + Contents(kids[k].sub) + Cat(kids[k + 1..])
  {
    var a, rest := kids[..k], kids[k..];
    assert kids == a + rest;
    CatConcat(a, rest);
    assert rest[1..] == kids[k + 1..];
  }

  // The entries of the top page are a window of the whole tree's entries.
  lemma {:induction false} TopWindow(root: Tree, p: Path)
    requires p.Linked(root)
    ensures IsWindow(Contents(root), Offset(root, p), Contents(p.Top()))
    decreases |p.pg|
  {
    if |p.pg| > 1 {
      var n := |p.pg| - 2;
      var kids, k := p.pg[n].kids, p.ki[n];
      TopWindow(root, p.Up());
      assert p.Up().Top() == p.pg[n];
      CatAround(kids, k);
      WindowInWindow(Contents(root), Offset(root, p.Up()), Cat(kids[..k]), Contents(kids[k].sub), Cat(kids[k + 1..]));
    }
  }

  // Uniform depth, no empty leaf, no branch with fewer than two children.
  ghost predicate Shaped(t: Tree, d: nat)
    decreases d
  {
    match t
    case Leaf(es) => d == 1 && 1 <= |es|
    case Branch(kids) => 2 <= d && 2 <= |kids| && forall i :: 0 <= i < |kids| ==> Shaped(kids[i].sub, d - 1)
  }

  lemma {:induction false} WFShaped(psize: PageSize, t: Tree, d: nat, lo: Bound, hi: Bound)
    requires WF(psize, t, d, lo, hi, false)
    ensures Shaped(t, d)
    decreases d, 0
  {
    if t.Branch? { KidsShaped(psize, t.kids, d - 1, lo, hi); }
  }

  lemma {:induction false} KidsShaped(psize: PageSize, kids: seq<Kid>, d: nat, lo: Bound, hi: Bound)
    requires 1 <= |kids| && KidsWF(psize, kids, d, lo, hi)
    ensures forall i :: 0 <= i < |kids| ==> Shaped(kids[i].sub, d)
    decreases d, |kids|
  {
    WFShaped(psize, kids[0].sub, d, lo, if |kids| == 1 then hi else Some(kids[1].sep.rank));
    if 2 <= |kids| {
      KidsShaped(psize, kids[1..], d, Some(kids[1].sep.rank), hi);
      assert forall i :: 1 <= i < |kids| ==> kids[i] == kids[1..][i - 1];
    }
  }

  lemma {:induction false} PathShaped(root: Tree, d: nat, p: Path, i: nat)
    requires p.Linked(root) && Shaped(root, d) && i < |p.pg|
    ensures i < d && Shaped(p.pg[i], d - i)
  {
    if i > 0 { PathShaped(root, d, p, i - 1); }
  }

  // --- Where a key belongs ----------------------------------------------

  // A key between the first and the last key of a window belongs there.
  lemma WindowLowerBound(all: seq<Entry>, es: seq<Entry>, off: nat, r: real)
    requires Sorted(all) && IsWindow(all, off, es) && 1 <= |es|
    requires es[0].key.rank <= r
    ensures r <= es[|es| - 1].key.rank ==>
      LowerBound(es, r) < |es| && LowerBound(all, r) == off + LowerBound(es, r)
    ensures es[|es| - 1].key.rank < r && off + |es| == |all| ==> LowerBound(all, r) == |all|
  {
    assert all[off] == es[0] && all[off + |es| - 1] == es[|es| - 1];
    var i := LowerBound(es, r);
    if r <= es[|es| - 1].key.rank {
      forall j | 0 <= j < off + i ensures all[j].key.rank < r {
        if j < off { assert all[j].key.rank < all[off].key.rank; } else { assert all[off + (j - off)] == es[j - off]; }
      }
      LowerBoundUnique(all, r, off + i);
    } else if off + |es| == |all| {
      LowerBoundUnique(all, r, |all|);
    }
  }

  lemma {:induction false} RightEdge(root: Tree, p: Path)
    requires p.Linked(root)
    requires forall i :: 0 <= i < |p.pg| - 1 ==> p.ki[i] == |p.pg[i].kids| - 1
    ensures Offset(root, p) + |Contents(p.Top())| == |Contents(root)|
    decreases |p.pg|
  {
    if |p.pg| > 1 {
      var n := |p.pg| - 2;
      RightEdge(root, p.Up());
      CatAround(p.pg[n].kids, p.ki[n]);
    }
  }

  // Going one level down.
  lemma PathStep(root: Tree, p: Path, q: Path, i: nat)
    requires p.Linked(root) && p.Top().Branch? && i < |p.Top().kids|
    requires |q.pg| == |p.pg| + 1 && q.pg == p.pg + [p.Top().kids[i].sub]
    requires |q.ki| == |q.pg| && q.ki[..|p.pg| - 1] == p.ki[..|p.pg| - 1] && q.ki[|p.pg| - 1] == i
    ensures q.Linked(root) && Offset(root, q) == Offset(root, p) + |Cat(p.Top().kids[..i])|
  {
    StepLinks(root, p, q, i);
    assert q.Up().ki[..|p.pg| - 1] == q.ki[..|p.pg| - 1];
    SameOffset(root, p, q.Up());
    assert q.pg[|q.pg| - 2] == p.Top();
  }

  lemma StepLinks(root: Tree, p: Path, q: Path, i: nat)
    requires p.Linked(root) && p.Top().Branch? && i < |p.Top().kids|
    requires |q.pg| == |p.pg| + 1 && q.pg == p.pg + [p.Top().kids[i].sub]
    requires |q.ki| == |q.pg| && q.ki[..|p.pg| - 1] == p.ki[..|p.pg| - 1] && q.ki[|p.pg| - 1] == i
    ensures q.Linked(root) && q.Up().pg == p.pg
  {
    forall j | 0 <= j < |p.pg| - 1 ensures q.ki[j] == p.ki[j] {
      assert q.ki[..|p.pg| - 1][j] == p.ki[..|p.pg| - 1][j];
    }
  }

  // The offset of a page does not depend on the index within it.
  lemma SameOffset(root: Tree, p: Path, q: Path)
    requires p.Linked(root) && q.pg == p.pg && |q.ki| == |p.ki|
    requires q.ki[..|p.pg| - 1] == p.ki[..|p.pg| - 1]
    ensures q.Linked(root) && Offset(root, q) == Offset(root, p)
  {
    assert forall j :: 0 <= j < |p.pg| - 1 ==> q.ki[j] == q.ki[..|p.pg| - 1][j] && p.ki[j] == p.ki[..|p.pg| - 1][j];
    if |p.pg| > 1 { assert q.Up() == p.Up(); }
  }

  // A descent for a key has reached page p.Top(), whose range holds the key.
  ghost predicate Descends(psize: PageSize, root: Tree, p: Path, d: nat, lo: Bound, hi: Bound, key: real) {
    && p.Linked(root)
    && WF(psize, p.Top(), d, lo, hi, false) && AboveOrAt(lo, key) && Below(key, hi)
    && LowerBound(Contents(root), key) == Offset(root, p) + LowerBound(Contents(p.Top()), key)
    && AllAbove(Contents(root), Offset(root, p) + |Contents(p.Top())|, key)
  }

  // Every entry from number `from` on is above the key.
  ghost predicate AllAbove(all: seq<Entry>, from: nat, key: real) {
    forall j :: from <= j < |all| ==> key < all[j].key.rank
  }

  lemma AboveInWindow(all: seq<Entry>, off: nat, a: seq<Entry>, b: seq<Entry>, c: seq<Entry>, key: real)
    requires IsWindow(all, off, a + b + c) && AllAbove(all, off + |a + b + c|, key)
    requires AllAbove(c, 0, key)
    ensures AllAbove(all, off + |a| + |b|, key)
  {
    forall j | off + |a| + |b| <= j < |all| ensures key < all[j].key.rank {
      if j < off + |a + b + c| {
        assert all[off + (j - off)] == (a + b + c)[j - off] == c[j - off - |a| - |b|];
      }
    }
  }

  lemma AboveChild(psize: PageSize, a: seq<Kid>, k: Kid, c: seq<Kid>, d: nat, lo: Bound, hi: Bound, key: real)
    requires KidsWF(psize, a + [k] + c, d, lo, hi)
    requires |a| == ChildIndex(a + [k] + c, key)
    ensures AllAbove(Cat(c), 0, key)
  {
    Focus(psize, a, [k], c, d, lo, hi);
    if c != [] { CatSorted(psize, c, d, Some(c[0].sep.rank), hi); }
  }

  function Down(p: Path, i: nat, child: Tree): Path
    requires 1 <= |p.pg| && |p.ki| == |p.pg|
  {
    Path(p.pg + [child], p.ki[|p.pg| - 1 := i] + [0])
  }

  lemma DescendAbove(psize: PageSize, root: Tree, p: Path, d: nat, lo: Bound, hi: Bound, key: real, a: seq<Kid>, k: Kid, c: seq<Kid>)
    requires Descends(psize, root, p, d, lo, hi, key) && p.Top() == Branch(a + [k] + c)
    requires |a| == ChildIndex(a + [k] + c, key)
    ensures AllAbove(Contents(root), Offset(root, p) + |Cat(a)| + |Contents(k.sub)|, key)
  {
    TopWindow(root, p);
    AboveChild(psize, a, k, c, d - 1, lo, hi, key);
    ChildBounds(psize, a, k, c, d - 1, lo, hi, Entry(Key(key, 0), []));
    AboveInWindow(Contents(root), Offset(root, p), Cat(a), Contents(k.sub), Cat(c), key);
  }

  lemma DescendInto(psize: PageSize, root: Tree, p: Path, d: nat, lo: Bound, hi: Bound, key: real, a: seq<Kid>, k: Kid, c: seq<Kid>)
    requires Descends(psize, root, p, d, lo, hi, key) && p.Top() == Branch(a + [k] + c)
    requires |a| == ChildIndex(a + [k] + c, key)
    ensures 0 < d && Descends(psize, root, Down(p, |a|, k.sub), d - 1, LowOf(a, [k], lo), HighOf(c, hi), key)
  {
    DescendAbove(psize, root, p, d, lo, hi, key, a, k, c);
    ChildBounds(psize, a, k, c, d - 1, lo, hi, Entry(Key(key, 0), []));
    DownOffset(root, p, a, k, c);
  }

  lemma DownOffset(root: Tree, p: Path, a: seq<Kid>, k: Kid, c: seq<Kid>)
    requires p.Linked(root) && p.Top() == Branch(a + [k] + c)
    ensures Down(p, |a|, k.sub).Linked(root) && Offset(root, Down(p, |a|, k.sub)) == Offset(root, p) + |Cat(a)|
  {
    assert (a + [k] + c)[..|a|] == a && (a + [k] + c)[|a|] == k;
    PathStep(root, p, Down(p, |a|, k.sub), |a|);
  }

  lemma DescendStep(psize: PageSize, root: Tree, p: Path, d: nat, lo: Bound, hi: Bound, key: real)
    returns (lo': Bound, hi': Bound)
    requires Descends(psize, root, p, d, lo, hi, key) && p.Top().Branch?
    ensures var kids := p.Top().kids; var i := ChildIndex(kids, key);
      0 < d && Descends(psize, root, Down(p, i, kids[i].sub), d - 1, lo', hi', key)
  {
    var kids := p.Top().kids;
    var i := ChildIndex(kids, key);
    var a, k, c := kids[..i], kids[i], kids[i + 1..];
    assert kids == a + [k] + c;
    lo', hi' := LowOf(a, [k], lo), HighOf(c, hi);
    DescendInto(psize, root, p, d, lo, hi, key, a, k, c);
  }

  // The page to the right of p.Top() on its level, entered at its first node.
  ghost predicate NextPage(root: Tree, p: Path, q: Path) {
    && p.Linked(root) && q.Linked(root) && |q.pg| == |p.pg| && q.ki[|q.ki| - 1] == 0
    && Offset(root, q) == Offset(root, p) + |Contents(p.Top())|
  }

  ghost predicate LastPage(root: Tree, p: Path) {
    p.Linked(root) && Offset(root, p) + |Contents(p.Top())| == |Contents(root)|
  }

  lemma SiblingWithin(root: Tree, p: Path)
    requires p.Linked(root) && 2 <= |p.pg|
    requires var n := |p.pg| - 2; p.ki[n] + 1 < |p.pg[n].kids|
    ensures var i := p.ki[|p.pg| - 2] + 1;
      NextPage(root, p, Down(p.Up(), i, p.Up().Top().kids[i].sub))
  {
    var n := |p.pg| - 2;
    var kids, k := p.pg[n].kids, p.ki[n];
    var q := Down(p.Up(), k + 1, kids[k + 1].sub);
    PathStep(root, p.Up(), q, k + 1);
    assert kids[..k + 1] == kids[..k] + [kids[k]];
    CatConcat(kids[..k], [kids[k]]);
    CatOne(kids[k]);
  }

  lemma SiblingBeyond(root: Tree, p: Path, up: Path)
    requires p.Linked(root) && 2 <= |p.pg| && p.ki[|p.pg| - 2] + 1 == |p.pg[|p.pg| - 2].kids|
    requires NextPage(root, p.Up(), up) && up.Top().Branch? && up.Top().kids != []
    ensures NextPage(root, p, Down(up, 0, up.Top().kids[0].sub))
  {
    var n := |p.pg| - 2;
    CatAround(p.pg[n].kids, p.ki[n]);
    PathStep(root, up, Down(up, 0, up.Top().kids[0].sub), 0);
  }

  lemma NoSibling(root: Tree, p: Path)
    requires p.Linked(root)
    requires 2 <= |p.pg| ==> LastPage(root, p.Up()) && p.ki[|p.pg| - 2] + 1 == |p.pg[|p.pg| - 2].kids|
    ensures LastPage(root, p)
  {
    if 2 <= |p.pg| {
      var n := |p.pg| - 2;
      CatAround(p.pg[n].kids, p.ki[n]);
    }
  }

  // A page above another one, or level with such a page, is a branch page.
  lemma LevelIsBranch(root: Tree, d: nat, p: Path, up: Path)
    requires Shaped(root, d) && p.Linked(root) && up.Linked(root) && |p.pg| == |up.pg| + 1
    ensures up.Top().Branch? && 2 <= |up.Top().kids|
  {
    PathShaped(root, d, p, |p.pg| - 1);
    PathShaped(root, d, up, |up.pg| - 1);
  }

  // The loop of mdb_page_search_root: one page down per turn.
  method Descend(ghost psize: PageSize, root: Tree, ghost depth: nat, key: real) returns (p: Path)
    requires WF(psize, root, depth, None, None, false)
    ensures p.Linked(root) && p.Top().Leaf?
    ensures Belongs(Contents(root), Offset(root, p), p.Top().es, key)
  {
    p := Path([root], [0]);
    ghost var d, lo, hi := depth, Bound.None, Bound.None;
    while p.pg[|p.pg| - 1].Branch?
      invariant Descends(psize, root, p, d, lo, hi, key)
      decreases d
    {
      var kids := p.pg[|p.pg| - 1].kids;
      var i := FollowKey(psize, kids, d - 1, lo, hi, key);
      ghost var lo', hi' := DescendStep(psize, root, p, d, lo, hi, key);
      p := Down(p, i, kids[i].sub);
      d, lo, hi := d - 1, lo', hi';
    }
  }

  // --- The cursor -------------------------------------------------------

  // What the check of the current page tells mdb_cursor_set.
  datatype Hint =
    | Found        // positioned on the answer
    | Absent       // there is no answer
    | ThisPage     // the answer is within the current page
    | SearchTree   // descend from the root

  class Cursor {
    const psize: PageSize
    const db: Db
    const root: Tree         // what mc_db describes; of no use while md_root is P_INVALID
    const depth: nat
    var pg: seq<Tree>        // mc_pg[0 .. mc_snum - 1]
    var ki: seq<nat>         // mc_ki
    var initialized: bool    // C_INITIALIZED
    var eof: bool            // C_EOF

    ghost function Where(): Path reads this { Path(pg, ki) }

    ghost predicate OnLeaf()
      reads this
    {
      Where().Linked(root) && Where().Top().Leaf?
    }

    ghost predicate Valid()
      reads this
    {
      && (if db.Root? then Root(root, depth) == db && WF(psize, root, depth, None, None, false) else !initialized)
      && (initialized ==> OnLeaf())
    }

    // The place of the cursor among all entries.
    ghost function Position(): nat
      requires OnLeaf()
      reads this
    {
      Offset(root, Where()) + ki[|ki| - 1]
    }

    constructor (psize: PageSize, db: Db)
      requires ValidDb(psize, db)
      ensures Valid() && !initialized && this.psize == psize && this.db == db
    {
      this.psize, this.db := psize, db;
      root, depth := if db.Root? then db.tree else Leaf([]), if db.Root? then db.depth else 0;
      pg, ki, initialized, eof := [], [], false, false;
    }

    // mdb_page_search: from the root down to the leaf the key belongs to.
    method PageSearch(key: real)
      requires Valid() && db.Root?
      modifies this
      ensures Valid() && OnLeaf() && initialized && !eof
      ensures Belongs(Contents(root), Offset(root, Where()), Where().Top().es, key)
    {
      var p := Descend(psize, root, depth, key);
      pg, ki, initialized, eof := p.pg, p.ki, true, false;
    }

    // mdb_cursor_sibling to the right: climb while on a last child, step over,
    // come down on first children. Without a right sibling nothing changes.
    method Sibling() returns (ok: bool)
      requires Where().Linked(root) && Shaped(root, depth)
      modifies this`pg, this`ki
      ensures ok ==> NextPage(root, old(Where()), Where())
      ensures !ok ==> Where() == old(Where()) && LastPage(root, Where())
      decreases |pg|
    {
      if |pg| < 2 {
        NoSibling(root, Where());
        return false;
      }
      ghost var p := Where();
      var pg0, ki0, n := pg, ki, |pg| - 2;
      pg, ki := pg[..n + 1], ki[..n + 1];
      assert Where() == p.Up();
      if ki[n] + 1 >= NumKeys(pg[n]) {
        ok := Sibling();
        if !ok {
          NoSibling(root, p);
          pg, ki := pg0, ki0;
          return false;
        }
        StepDown(p);
      } else {
        StepAside(p);
      }
      ok := true;
    }

    // From the page after p's parent to its first child ...
    method StepDown(ghost p: Path)
      requires p.Linked(root) && 2 <= |p.pg| && p.ki[|p.pg| - 2] + 1 == |p.pg[|p.pg| - 2].kids|
      requires NextPage(root, p.Up(), Where()) && Shaped(root, depth)
      modifies this`pg, this`ki
      ensures NextPage(root, p, Where())
    {
      LevelIsBranch(root, depth, p, Where());
      SiblingBeyond(root, p, Where());
      EnterChild(0);
    }

    // ... or from p's parent to the child after p.
    method StepAside(ghost p: Path)
      requires p.Linked(root) && 2 <= |p.pg| && p.ki[|p.pg| - 2] + 1 < |p.pg[|p.pg| - 2].kids| && Where() == p.Up()
      modifies this`pg, this`ki
      ensures NextPage(root, p, Where())
    {
      SiblingWithin(root, p);
      EnterChild(ki[|pg| - 1] + 1);
    }

    // Go down to child i of the current branch page.
    method EnterChild(i: nat)
      requires pg != [] && |ki| == |pg| && pg[|pg| - 1].Branch? && i < |pg[|pg| - 1].kids|
      modifies this`pg, this`ki
      ensures Where() == Down(old(Where()), i, old(Where()).Top().kids[i].sub)
    {
      var top := |pg| - 1;
      ki := ki[top := i];
      pg, ki := pg + [pg[top].kids[i].sub], ki + [0];
    }

    // mdb_cursor_set, the part for a cursor that is already on a page: compare
    // with the page's first, last and current key, and look for right siblings.
    // `at` is the index it leaves in the page.
    method CheckPage(key: real, range: bool) returns (hint: Hint, at: nat)
      requires Valid() && initialized
      ensures hint.Found? ==> IsAnswer(Contents(root), key, range, Offset(root, Where()) + at)
      ensures hint.Absent? ==> NoAnswer(Contents(root), key, range)
      ensures hint.ThisPage? ==> Belongs(Contents(root), Offset(root, Where()), Where().Top().es, key)
    {
      NotEmpty();
      var es := pg[|pg| - 1].es;
      if key > es[0].key.rank {
        hint, at := CheckAfterFirst(key, range);
      } else {
        hint, at := CheckFirst(key, range);
      }
    }

    // The key is at most the first one of the page.
    method CheckFirst(key: real, range: bool) returns (hint: Hint, at: nat)
      requires Valid() && initialized && Where().Top().es != [] && key <= Where().Top().es[0].key.rank
      ensures hint.Found? ==> IsAnswer(Contents(root), key, range, Offset(root, Where()) + at)
      ensures hint.Absent? ==> NoAnswer(Contents(root), key, range)
      ensures !hint.ThisPage?
    {
      var top := |pg| - 1;
      var es := pg[top].es;
      LeafFacts();
      hint, at := SearchTree, ki[top];
      if key == es[0].key.rank {
        WindowHit(Contents(root), es, Offset(root, Where()), key, range, 0);
        hint, at := Found, 0;
      } else if top == 0 {
        LowerBoundUnique(Contents(root), key, 0);
        hint, at := if range then Found else Absent, 0;
      }
    }

    method CheckAfterFirst(key: real, range: bool) returns (hint: Hint, at: nat)
      requires Valid() && initialized && Where().Top().es != [] && Where().Top().es[0].key.rank < key
      ensures hint.Found? ==> IsAnswer(Contents(root), key, range, Offset(root, Where()) + at)
      ensures hint.Absent? ==> NoAnswer(Contents(root), key, range)
      ensures hint.ThisPage? ==> Belongs(Contents(root), Offset(root, Where()), Where().Top().es, key)
    {
      var es := pg[|pg| - 1].es;
      LeafFacts();
      hint, at := CheckKeys(Contents(root), es, Offset(root, Where()), key, range, ki[|ki| - 1]);
      if hint.SearchTree? {
        var last := NoRightSibling();
        if last {
          WindowLowerBound(Contents(root), es, Offset(root, Where()), key);
          return Absent, |es|;
        }
      }
    }

    // Every page above the current one is at its last child.
    method NoRightSibling() returns (last: bool)
      requires OnLeaf()
      ensures last ==> LastPage(root, Where())
    {
      var i, top := 0, |pg| - 1;
      while i < top && ki[i] >= NumKeys(pg[i]) - 1
        invariant i <= top && forall j :: 0 <= j < i ==> ki[j] >= NumKeys(pg[j]) - 1
      {
        i := i + 1;
      }
      last := i == top;
      if last { RightEdge(root, Where()); }
    }

    // The rest of mdb_cursor_set once the leaf is known: search it, and go to
    // the next leaf when all its keys are smaller.
    method SearchLeaf(key: real, range: bool) returns (found: bool)
      requires Valid() && initialized
      requires Belongs(Contents(root), Offset(root, Where()), Where().Top().es, key)
      modifies this
      ensures Valid() && initialized
      ensures found ==> IsAnswer(Contents(root), key, range, Position()) && !eof
      ensures !found ==> NoAnswer(Contents(root), key, range)
    {
      var inside, exact := SeekInLeaf(key, range);
      if !range && !exact {
        return false;
      }
      found := true;
      if inside {
        eof := false;
      } else {
        found := StepOver();
      }
    }

    method SeekInLeaf(key: real, range: bool) returns (inside: bool, exact: bool)
      requires Valid() && initialized
      requires Belongs(Contents(root), Offset(root, Where()), Where().Top().es, key)
      modifies this`ki
      ensures Valid()
      ensures inside && (range || exact) ==> IsAnswer(Contents(root), key, range, Position())
      ensures !range && !exact ==> NoAnswer(Contents(root), key, range)
      ensures !inside ==> !exact && LowerBound(Contents(root), key) == Offset(root, Where()) + |Where().Top().es|
    {
      var es, i := pg[|pg| - 1].es, 0;
      LeafFacts();
      i, exact := SearchEntries(Contents(root), es, Offset(root, Where()), key, range);
      inside := i < |es|;
      MoveTo(i);
    }

    // On to the first entry of the next leaf, if there is one.
    method StepOver() returns (ok: bool)
      requires Valid() && initialized
      modifies this
      ensures Valid() && initialized
      ensures var end := old(Offset(root, Where())) + old(|Where().Top().es|);
        if ok then Position() == end && end < |Contents(root)| && !eof else end == |Contents(root)|
    {
      LeafFacts();
      ghost var p := Where();
      ok := Sibling();
      eof := !ok;
      if ok {
        PathShaped(root, depth, p, |pg| - 1);
        PathShaped(root, depth, Where(), |pg| - 1);
        LeafFacts();
      }
    }

    // mdb_cursor_set for MDB_SET (exact) and MDB_SET_RANGE: whatever page the
    // cursor is on, the outcome is that of a full search, and it is the map's.
    // In an empty database nothing is found.
    method Set(key: real, range: bool) returns (found: bool)
      requires Valid()
      modifies this
      ensures Valid()
      ensures found == !NoAnswer(Items(db), key, range)
      ensures found ==> initialized && !eof && IsAnswer(Items(db), key, range, Position())
    {
      if initialized {
        var hint, at := CheckPage(key, range);
        match hint {
          case Found =>
            MoveTo(at);
            eof := false;
            return true;
          case Absent =>
            MoveTo(at);
            return false;
          case ThisPage =>
            eof := false;
            found := SearchLeaf(key, range);
            return;
          case SearchTree =>
        }
      }
      if db.Empty? {
        return false;
      }
      PageSearch(key);
      found := SearchLeaf(key, range);
    }

    method MoveTo(i: nat)
      requires Valid() && initialized
      modifies this`ki
      ensures Valid() && Where().Top() == old(Where().Top())
      ensures Offset(root, Where()) == old(Offset(root, Where())) && Position() == Offset(root, Where()) + i
    {
      ghost var p := Where();
      ki := ki[|pg| - 1 := i];
      SameOffset(root, p, Where());
    }

    lemma NotEmpty()
      requires Valid() && db.Root? && OnLeaf()
      ensures Where().Top().es != []
    {
      LeafFacts();
    }

    // The current leaf is a window of the sorted entries, and not empty.
    lemma LeafFacts()
      requires Valid() && db.Root? && OnLeaf()
      ensures Sorted(Contents(root)) && Sorted(Where().Top().es)
      ensures IsWindow(Contents(root), Offset(root, Where()), Where().Top().es) && 1 <= |Where().Top().es|
      ensures Shaped(root, depth)
    {
      ContentsSorted(psize, root, depth, None, None, false);
      TopWindow(root, Where());
      WFShaped(psize, root, depth, None, None);
      PathShaped(root, depth, Where(), |pg| - 1);
    }
  }

  // Entry number `at` answers a request for key: the first one not below it,
  // and for an exact request the key itself.
  ghost predicate IsAnswer(all: seq<Entry>, key: real, range: bool, at: nat) {
    at == LowerBound(all, key) && at < |all| && (range || all[at].key.rank == key)
  }

  // No entry answers the request.
  ghost predicate NoAnswer(all: seq<Entry>, key: real, range: bool) {
    var i := LowerBound(all, key);
    i == |all| || (!range && all[i].key.rank != key)
  }

  // If the key has an entry at all, it is on the page with entries es.
  ghost predicate Belongs(all: seq<Entry>, off: nat, es: seq<Entry>, key: real) {
    && LowerBound(all, key) == off + LowerBound(es, key)
    && (LowerBound(es, key) == |es| ==> NoAnswer(all, key, false))
  }

  // The key against the last and the current key of a page. Without an answer
  // on a page of several entries, the key is above all of them.
  method CheckKeys(ghost all: seq<Entry>, es: seq<Entry>, ghost off: nat, key: real, ghost range: bool, cur: nat)
    returns (hint: Hint, at: nat)
    requires Sorted(all) && Sorted(es) && IsWindow(all, off, es) && es != [] && es[0].key.rank < key
    ensures hint.Found? ==> IsAnswer(all, key, range, off + at)
    ensures hint.ThisPage? ==> Belongs(all, off, es, key)
    ensures !hint.Absent? && (hint.SearchTree? ==> es[|es| - 1].key.rank < key)
  {
    var nkeys := |es|;
    hint, at := SearchTree, cur;
    if nkeys > 1 {
      if key == es[nkeys - 1].key.rank {
        WindowHit(all, es, off, key, range, nkeys - 1);
        return Found, nkeys - 1;
      }
      if key < es[nkeys - 1].key.rank {
        if cur < nkeys && key == es[cur].key.rank {
          WindowHit(all, es, off, key, range, cur);
          return Found, cur;
        }
        WindowLowerBound(all, es, off, key);
        return ThisPage, at;
      }
    }
  }

  lemma WindowHit(all: seq<Entry>, es: seq<Entry>, off: nat, key: real, range: bool, i: nat)
    requires Sorted(all) && Sorted(es) && IsWindow(all, off, es) && i < |es| && es[i].key.rank == key
    ensures IsAnswer(all, key, range, off + i)
  {
    LowerBoundUnique(es, key, i);
    assert es[0].key.rank <= key <= es[|es| - 1].key.rank;
    WindowLowerBound(all, es, off, key);
    assert all[off + i] == es[i];
  }

  // mdb_node_search on the leaf a key belongs to.
  method SearchEntries(ghost all: seq<Entry>, es: seq<Entry>, ghost off: nat, key: real, ghost range: bool)
    returns (i: nat, exact: bool)
    requires Sorted(es) && IsWindow(all, off, es) && Belongs(all, off, es, key)
    ensures i == LowerBound(es, key)
    ensures i < |es| && (range || exact) ==> IsAnswer(all, key, range, off + i)
    ensures i == |es| ==> !exact
    ensures !range && !exact ==> NoAnswer(all, key, range)
  {
    i, exact := NodeSearch(Ranks(es), true, key);
    if i < |es| { assert all[off + i] == es[i]; }
  }
}
