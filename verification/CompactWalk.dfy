// The walk of mdb_env_cwalk and the check of mdb_env_copyfd1 in
// liblmdb/src/mdb.c: an explicit cursor stack whose branch pages are copies
// that collect the new numbers of their children.

module CompactWalk {
  import opened CompactCopy

  // --- What remains to be written ---------------------------------------

  // A branch page on the cursor stack: the new numbers of its finished
  // children; child |done| is being worked on.
  datatype Frame = Frame(kids: seq<Kid>, done: seq<Pgno>) {
    ghost predicate Busy() { |done| < |kids| }
  }

  function Renumbered(kids: seq<Kid>, nums: seq<Pgno>): (r: seq<PKid>)
    requires |nums| <= |kids|
    ensures |r| == |nums|
  {
    seq(|nums|, k requires 0 <= k < |nums| => PKid(kids[k].key, nums[k]))
  }

  // Once the current child of the last frame has number num.
  ghost function Complete(frames: seq<Frame>, num: Pgno, next: Pgno): (out: seq<Unit>)
    decreases |frames|, 0
  {
    if frames == [] || !frames[|frames| - 1].Busy() then []
    else
      var f := frames[|frames| - 1];
      Remaining(frames[..|frames| - 1], f.kids, f.done + [num], next)
  }

  // The other children of a page, the page itself, and what follows it.
  ghost function Remaining(frames: seq<Frame>, kids: seq<Kid>, done: seq<Pgno>, next: Pgno): (out: seq<Unit>)
    requires |done| <= |kids|
    decreases |frames|, 1
  {
    var own := next + CountKids(kids[|done|..]);
    EmitKids(kids[|done|..], next) + [Paged(own, BranchPage(AllRefs(kids, done, next)))] + Complete(frames, own, own + 1)
  }

  // The references of a page, of whose children the others are written from
  // next on.
  ghost function AllRefs(kids: seq<Kid>, done: seq<Pgno>, next: Pgno): seq<PKid>
    requires |done| <= |kids|
  {
    Renumbered(kids, done) + RefKids(kids[|done|..], next)
  }

  // A subtree, then whatever follows it.
  ghost function Upcoming(t: Tree, frames: seq<Frame>, next: Pgno): seq<Unit>
  {
    Emit(t, next) + Complete(frames, next + Count(t) - 1, next + Count(t))
  }

  lemma KidsHead(kids: seq<Kid>, next: Pgno)
    requires kids != []
    ensures CountKids(kids) == Count(kids[0].sub) + CountKids(kids[1..])
    ensures EmitKids(kids, next) == Emit(kids[0].sub, next) + EmitKids(kids[1..], next + Count(kids[0].sub))
    ensures RefKids(kids, next) ==
      [PKid(kids[0].key, next + Count(kids[0].sub) - 1)] + RefKids(kids[1..], next + Count(kids[0].sub))
  {
    assert kids[0].sub < kids[0];
  }

  // The references do not depend on which children are counted as finished.
  lemma SameRefs(kids: seq<Kid>, done: seq<Pgno>, next: Pgno)
    requires |done| < |kids|
    ensures var n := next + Count(kids[|done|].sub); AllRefs(kids, done, next) == AllRefs(kids, done + [n - 1], n)
  {
    var n, rest := next + Count(kids[|done|].sub), kids[|done|..];
    KidsHead(rest, next);
    assert rest[1..] == kids[|done + [n - 1]|..];
    assert Renumbered(kids, done + [n - 1]) == Renumbered(kids, done) + [PKid(rest[0].key, n - 1)];
  }

  lemma Regroup(a: seq<Unit>, b: seq<Unit>, c: seq<Unit>, d: seq<Unit>)
    ensures (a + b) + c + d == a + (b + c + d)
  {
  }

  // The next child comes first.
  lemma NextFirst(frames: seq<Frame>, kids: seq<Kid>, done: seq<Pgno>, next: Pgno)
    requires |done| < |kids|
    ensures var kid := kids[|done|].sub; var n := next + Count(kid);
      Remaining(frames, kids, done, next) == Emit(kid, next) + Remaining(frames, kids, done + [n - 1], n)
  {
    var kid, rest := kids[|done|].sub, kids[|done|..];
    var n, own := next + Count(kid), next + CountKids(rest);
    SameRefs(kids, done, next);
    KidsHead(rest, next);
    assert rest[1..] == kids[|done + [n - 1]|..];
    Regroup(Emit(kid, next), EmitKids(rest[1..], n), [Paged(own, BranchPage(AllRefs(kids, done, next)))],
      Complete(frames, own, own + 1));
  }

  lemma CompleteOf(frames: seq<Frame>, f: Frame, num: Pgno, next: Pgno)
    requires f.Busy()
    ensures Complete(frames + [f], num, next) == Remaining(frames, f.kids, f.done + [num], next)
  {
    var fs := frames + [f];
    assert fs[|fs| - 1] == f && fs[..|fs| - 1] == frames;
  }

  lemma Enter(frames: seq<Frame>, kids: seq<Kid>, done: seq<Pgno>, next: Pgno)
    requires |done| < |kids|
    ensures Remaining(frames, kids, done, next) == Upcoming(kids[|done|].sub, frames + [Frame(kids, done)], next)
  {
    var n, f := next + Count(kids[|done|].sub), Frame(kids, done);
    NextFirst(frames, kids, done, next);
    UpcomingBelow(frames, f, kids[|done|].sub, next, n);
  }

  lemma UpcomingBelow(frames: seq<Frame>, f: Frame, t: Tree, next: Pgno, n: Pgno)
    requires f.Busy() && n == next + Count(t)
    ensures Upcoming(t, frames + [f], next) == Emit(t, next) + Remaining(frames, f.kids, f.done + [n - 1], n)
  {
    CompleteOf(frames, f, n - 1, n);
    UpcomingIs(t, frames + [f], next);
  }

  lemma UpcomingIs(t: Tree, frames: seq<Frame>, next: Pgno)
    ensures Upcoming(t, frames, next) == Emit(t, next) + Complete(frames, next + Count(t) - 1, next + Count(t))
  {
  }

  lemma BranchUpcoming(kids: seq<Kid>, frames: seq<Frame>, next: Pgno)
    requires kids != []
    ensures Upcoming(Branch(kids), frames, next) == Remaining(frames, kids, [], next)
  {
    var none: seq<Pgno> := [];
    assert kids[|none|..] == kids && Renumbered(kids, none) == [];
    assert AllRefs(kids, none, next) == RefKids(kids, next);
  }

  // Going down to the first child.
  lemma FirstKid(kids: seq<Kid>, frames: seq<Frame>, next: Pgno)
    requires kids != []
    ensures Upcoming(Branch(kids), frames, next) == Upcoming(kids[0].sub, frames + [Frame(kids, [])], next)
  {
    BranchUpcoming(kids, frames, next);
    Enter(frames, kids, [], next);
  }

  // Going on to the next child.
  lemma NextKid(frames: seq<Frame>, f: Frame, num: Pgno, next: Pgno)
    requires |f.done| + 1 < |f.kids|
    ensures Complete(frames + [f], num, next) ==
      Upcoming(f.kids[|f.done| + 1].sub, frames + [Frame(f.kids, f.done + [num])], next)
  {
    var g := Frame(f.kids, f.done + [num]);
    CompleteOf(frames, f, num, next);
    Enter(frames, f.kids, g.done, next);
  }

  // After the last child, the branch page itself.
  lemma NoMoreKids(frames: seq<Frame>, f: Frame, num: Pgno, next: Pgno)
    requires |f.done| + 1 == |f.kids|
    ensures Complete(frames + [f], num, next) ==
      [Paged(next, BranchPage(Renumbered(f.kids, f.done + [num])))] + Complete(frames, next, next + 1)
  {
    CompleteOf(frames, f, num, next);
    var done := f.done + [num];
    assert f.kids[|done|..] == [];
    assert AllRefs(f.kids, done, next) == Renumbered(f.kids, done);
    assert EmitKids([], next) == [];
  }

  // --- The cursor stack -------------------------------------------------

  // The first children of the page have their new numbers, the others still
  // refer to the source.
  ghost predicate HalfDone(src: seq<Unit>, ps: seq<PKid>, kids: seq<Kid>, done: seq<Pgno>) {
    && |ps| == |kids| && |done| <= |kids|
    && ps[..|done|] == Renumbered(kids, done)
    && StoredKids(src, ps[|done|..], kids[|done|..])
  }

  ghost predicate OnStack(src: seq<Unit>, page: Page, ki: nat, f: Frame) {
    page.BranchPage? && f.Busy() && ki == |f.done| && HalfDone(src, page.kids, f.kids, f.done)
  }

  ghost predicate Stack(src: seq<Unit>, pgs: seq<Page>, ki: seq<nat>, frames: seq<Frame>) {
    && |frames| <= |pgs| == |ki|
    && (forall k :: 0 <= k < |frames| ==> OnStack(src, pgs[k], ki[k], frames[k]))
  }

  // The child being worked on can be reached.
  lemma CurrentKid(src: seq<Unit>, ps: seq<PKid>, kids: seq<Kid>, done: seq<Pgno>)
    requires HalfDone(src, ps, kids, done) && |done| < |kids|
    ensures Stored(src, ps[|done|].pg, kids[|done|].sub) && ps[|done|].key == kids[|done|].key
  {
    assert ps[|done|..][0] == ps[|done|] && kids[|done|..][0] == kids[|done|];
    assert kids[|done|..][0].sub < kids[|done|..][0];
  }

  // SETPGNO of the current child.
  lemma SetRef(src: seq<Unit>, ps: seq<PKid>, kids: seq<Kid>, done: seq<Pgno>, num: Pgno)
    requires HalfDone(src, ps, kids, done) && |done| < |kids|
    ensures HalfDone(src, ps[|done| := ps[|done|].(pg := num)], kids, done + [num])
  {
    var n, ps' := |done|, ps[|done| := ps[|done|].(pg := num)];
    CurrentKid(src, ps, kids, done);
    assert ps'[..n + 1] == ps[..n] + [PKid(kids[n].key, num)];
    assert Renumbered(kids, done + [num]) == Renumbered(kids, done) + [PKid(kids[n].key, num)];
    assert ps'[n + 1..] == ps[n..][1..] && kids[n + 1..] == kids[n..][1..];
  }

  // --- States of the walk -----------------------------------------------

  // The last page on the stack is a leaf that is about to be copied.
  ghost predicate AtLeaf(src: seq<Unit>, total: seq<Unit>, out: seq<Unit>, pgs: seq<Page>, ki: seq<nat>, frames: seq<Frame>,
                         items: seq<Item>) {
    && |pgs| == |frames| + 1 && Stack(src, pgs, ki, frames)
    && pgs[|frames|].LeafPage? && StoredItems(src, pgs[|frames|].items, items)
    && total == out + Upcoming(Leaf(items), frames, |out|)
  }

  // It is a branch page whose current child was written last.
  ghost predicate AtBranch(src: seq<Unit>, total: seq<Unit>, out: seq<Unit>, pgs: seq<Page>, ki: seq<nat>, frames: seq<Frame>, f: Frame) {
    && |pgs| == |frames| + 1 && Stack(src, pgs, ki, frames)
    && pgs[|frames|].BranchPage? && ki[|frames|] == |f.done| && f.Busy() && |out| > 0
    && HalfDone(src, pgs[|frames|].kids, f.kids, f.done + [|out| - 1])
    && total == out + Complete(frames + [f], |out| - 1, |out|)
  }

  // The cursor's mc_pg and mc_ki, up to mc_top.
  datatype Cursor = Cursor(pgs: seq<Page>, ki: seq<nat>) {
    predicate AtLeafPage() { pgs != [] && pgs[|pgs| - 1].LeafPage? }
  }

  // What the pages on the stack stand for.
  datatype Progress = Progress(frames: seq<Frame>, f: Frame, items: seq<Item>)

  ghost predicate Ready(src: seq<Unit>, total: seq<Unit>, out: seq<Unit>, c: Cursor, g: Progress) {
    && c.pgs != []
    && if c.AtLeafPage() then AtLeaf(src, total, out, c.pgs, c.ki, g.frames, g.items)
       else AtBranch(src, total, out, c.pgs, c.ki, g.frames, g.f)
  }

  // A leaf's items are part of what remains to be written.
  lemma LeafFits(src: seq<Unit>, total: seq<Unit>, out: seq<Unit>, c: Cursor, g: Progress)
    requires Ready(src, total, out, c, g) && c.AtLeafPage()
    ensures CountItems(g.items) + 1 <= |total| - |out|
  {
  }

  // A leaf has been written: what follows is what follows its page.
  lemma LeafWritten(total: seq<Unit>, out: seq<Unit>, items: seq<Item>, frames: seq<Frame>)
    requires total == out + Upcoming(Leaf(items), frames, |out|)
    ensures var own := |out| + CountItems(items);
      total == out + EmitItems(items, |out|) + [Paged(own, LeafPage(RefItems(items, |out|)))] + Complete(frames, own, own + 1)
  {
    var own := |out| + CountItems(items);
    Append4(out, EmitItems(items, |out|), [Paged(own, LeafPage(RefItems(items, |out|)))], Complete(frames, own, own + 1));
  }

  lemma Append4(a: seq<Unit>, b: seq<Unit>, c: seq<Unit>, d: seq<Unit>)
    ensures a + ((b + c) + d) == a + b + c + d
  {
  }

  lemma Append3(a: seq<Unit>, b: seq<Unit>, c: seq<Unit>)
    ensures a + (b + c) == a + b + c
  {
  }

  // A branch page is complete.
  lemma BranchWritten(src: seq<Unit>, total: seq<Unit>, out: seq<Unit>, pgs: seq<Page>, ki: seq<nat>, frames: seq<Frame>, f: Frame)
    requires AtBranch(src, total, out, pgs, ki, frames, f) && |f.done| + 1 == |f.kids|
    ensures total == out + [Paged(|out|, pgs[|frames|])] + Complete(frames, |out|, |out| + 1)
  {
    var ps, n := pgs[|frames|].kids, |f.kids|;
    assert ps == Renumbered(f.kids, f.done + [|out| - 1]) by { assert ps[..n] == ps; }
    NoMoreKids(frames, f, |out| - 1, |out|);
    Append3(out, [Paged(|out|, pgs[|frames|])], Complete(frames, |out|, |out| + 1));
  }

  // The parent takes note of the number; it is the current page again.
  lemma Popped(src: seq<Unit>, total: seq<Unit>, out: seq<Unit>, pgs: seq<Page>, ki: seq<nat>, frames: seq<Frame>)
    requires frames != [] && |pgs| == |frames| + 1 && Stack(src, pgs, ki, frames)
    requires |out| > 0 && total == out + Complete(frames, |out| - 1, |out|)
    ensures var top := |frames|; var ps := pgs[top - 1].kids;
      pgs[top - 1].BranchPage? && ki[top - 1] < |ps| &&
      AtBranch(src, total, out, pgs[..top - 1] + [BranchPage(ps[ki[top - 1] := ps[ki[top - 1]].(pg := |out| - 1)])], ki[..top],
               frames[..top - 1], frames[top - 1])
  {
    var top := |frames|;
    assert OnStack(src, pgs[top - 1], ki[top - 1], frames[top - 1]);
    SetRef(src, pgs[top - 1].kids, frames[top - 1].kids, frames[top - 1].done, |out| - 1);
    var pgs' := pgs[..top - 1];
    forall k | 0 <= k < top - 1 ensures OnStack(src, pgs'[k], ki[..top][k], frames[..top - 1][k]) {
      assert OnStack(src, pgs[k], ki[k], frames[k]);
    }
    assert frames[..top - 1] + [frames[top - 1]] == frames;
  }

  // The next child of the current branch page.
  lemma Advanced(src: seq<Unit>, total: seq<Unit>, out: seq<Unit>, pgs: seq<Page>, ki: seq<nat>, frames: seq<Frame>, f: Frame)
    requires AtBranch(src, total, out, pgs, ki, frames, f) && |f.done| + 1 < |f.kids|
    ensures var g := Frame(f.kids, f.done + [|out| - 1]); var i := |f.done| + 1;
      Stack(src, pgs, ki[|frames| := i], frames + [g]) &&
      i < |pgs[|frames|].kids| && Stored(src, pgs[|frames|].kids[i].pg, f.kids[i].sub) &&
      total == out + Upcoming(f.kids[i].sub, frames + [g], |out|)
  {
    var g, i, ki' := Frame(f.kids, f.done + [|out| - 1]), |f.done| + 1, ki[|frames| := |f.done| + 1];
    NextKid(frames, f, |out| - 1, |out|);
    CurrentKid(src, pgs[|frames|].kids, f.kids, g.done);
    forall k | 0 <= k < |frames + [g]| ensures OnStack(src, pgs[k], ki'[k], (frames + [g])[k]) {
      if k < |frames| { assert OnStack(src, pgs[k], ki[k], frames[k]); }
    }
  }

  // A branch page either has a next child or is complete.
  lemma BranchStep(src: seq<Unit>, total: seq<Unit>, out: seq<Unit>, pgs: seq<Page>, ki: seq<nat>, frames: seq<Frame>, f: Frame)
    requires AtBranch(src, total, out, pgs, ki, frames, f)
    ensures var g := Frame(f.kids, f.done + [|out| - 1]); var i := ki[|frames|] + 1;
      if i < |pgs[|frames|].kids| then
        i < |f.kids| && Stack(src, pgs, ki[|frames| := i], frames + [g]) && Stored(src, pgs[|frames|].kids[i].pg, f.kids[i].sub) &&
        total == out + Upcoming(f.kids[i].sub, frames + [g], |out|)
      else
        Stack(src, pgs, ki[|frames| := i], frames) &&
        total == out + [Paged(|out|, pgs[|frames|])] + Complete(frames, |out|, |out| + 1)
  {
    var i, ki' := ki[|frames|] + 1, ki[|frames| := ki[|frames|] + 1];
    if i < |pgs[|frames|].kids| {
      Advanced(src, total, out, pgs, ki, frames, f);
    } else {
      BranchWritten(src, total, out, pgs, ki, frames, f);
      forall k | 0 <= k < |frames| ensures OnStack(src, pgs[k], ki'[k], frames[k]) {
        assert OnStack(src, pgs[k], ki[k], frames[k]);
      }
    }
  }

  class Copy {
    const src: seq<Unit>     // the snapshot being copied
    var out: seq<Unit>       // what has been handed to the writer thread
    var nextPgno: Pgno       // mc_next_pgno

    // Pages are written at the place their number says.
    ghost predicate Valid()
      reads this
    {
      nextPgno == |out|
    }

    constructor (src: seq<Unit>, out: seq<Unit>)
      ensures Valid() && this.src == src && this.out == out
    {
      this.src, this.out, nextPgno := src, out, |out|;
    }

    // An overflow run: its first page with a new number, and the tail.
    method CopyRun(pg: Pgno, ghost chunks: seq<Chunk>)
      requires Valid() && StoredRun(src, pg, chunks)
      modifies this
      ensures Valid() && out == old(out) + EmitRun(chunks, old(nextPgno))
    {
      var first := src[pg];
      var pages := first.page.pages;
      ghost var tail := src[pg + 1..pg + pages];
      out := out + [Paged(nextPgno, first.page)];
      nextPgno := nextPgno + pages;
      if pages > 1 {
        out := out + src[pg + 1..pg + pages];
      }
      ghost var r := EmitRun(chunks, old(nextPgno));
      assert r == [Paged(old(nextPgno), first.page)] + tail;
    }

    // The items of a leaf: overflow runs and sub-databases are copied first,
    // and the items refer to the copies.
    method CopyItems(ps: seq<PItem>, ghost items: seq<Item>) returns (ps': seq<PItem>)
      requires Valid() && StoredItems(src, ps, items)
      modifies this
      ensures Valid() && out == old(out) + EmitItems(items, old(nextPgno))
      ensures ps' == RefItems(items, old(nextPgno))
      decreases CountItems(items) + 1, 0
    {
      ghost var next0, rest := nextPgno, items;
      ps' := [];
      var i := 0;
      assert ps[0..] == ps;
      while i < |ps|
        invariant 0 <= i <= |ps| && |rest| == |ps| - i && StoredItems(src, ps[i..], rest)
        invariant Valid() && CountItems(rest) <= CountItems(items)
        invariant old(out) + EmitItems(items, next0) == out + EmitItems(rest, nextPgno)
        invariant ps' + RefItems(rest, nextPgno) == RefItems(items, next0)
      {
        assert ps[i..][0] == ps[i] && ps[i..][1..] == ps[i + 1..];
        ghost var n := nextPgno;
        var p := CopyItem(ps[i], rest[0]);
        assert nextPgno == n + CountItem(rest[0]);
        ps' := ps' + [p];
        rest := rest[1..];
        i := i + 1;
      }
      assert rest == [];
    }

    method CopyItem(p: PItem, ghost it: Item) returns (p': PItem)
      requires Valid() && StoredItem(src, p, it)
      modifies this
      ensures Valid() && out == old(out) + EmitItem(it, old(nextPgno))
      ensures p' == RefItem(it, old(nextPgno))
      decreases CountItem(it), 4
    {
      match p
      case PPlain(_, _) => p' := p;
      case PBig(key, pg) =>
        p' := PBig(key, nextPgno);
        CopyRun(pg, it.chunks);
      case PSub(key, None) => p' := p;
      case PSub(key, Some(root)) =>
        var root' := Walk(root, it.root.value);
        p' := PSub(key, Some(root'));
    }

    // From page p down to the first leaf below it.
    method Down(p: Pgno, c0: Cursor, ghost total: seq<Unit>, ghost frames0: seq<Frame>, ghost t: Tree)
      returns (c: Cursor, ghost g: Progress)
      requires Valid() && Stored(src, p, t) && |c0.pgs| == |frames0| && Stack(src, c0.pgs, c0.ki, frames0)
      requires total == out + Upcoming(t, frames0, nextPgno)
      ensures c.AtLeafPage() && Ready(src, total, out, c, g)
    {
      var pgs, ki, mp := c0.pgs, c0.ki, src[p].page;
      ghost var frames, u, at := frames0, t, p;
      while mp.BranchPage?
        invariant |pgs| == |frames| && Stack(src, pgs, ki, frames)
        invariant Stored(src, at, u) && mp == src[at].page
        invariant total == out + Upcoming(u, frames, nextPgno)
        decreases u
      {
        ghost var f := Frame(u.kids, []);
        assert HalfDone(src, mp.kids, f.kids, f.done) by {
          assert mp.kids[0..] == mp.kids && u.kids[0..] == u.kids;
        }
        CurrentKid(src, mp.kids, f.kids, f.done);
        FirstKid(u.kids, frames, nextPgno);
        pgs, ki, frames := pgs + [mp], ki + [0], frames + [f];
        assert u.kids[0].sub < u.kids[0];
        at, u := mp.kids[0].pg, u.kids[0].sub;
        mp := src[mp.kids[0].pg].page;
      }
      c := Cursor(pgs + [mp], ki + [0]);
      g := Progress(frames, Frame([], []), u.items);
    }

    // mdb_env_cwalk of a non-empty database.
    method Walk(root: Pgno, ghost t: Tree) returns (root': Pgno)
      requires Valid() && Stored(src, root, t)
      modifies this
      ensures Valid() && out == old(out) + Emit(t, old(nextPgno))
      ensures root' == old(nextPgno) + Count(t) - 1
      decreases Count(t), 3
    {
      ghost var total := out + Emit(t, nextPgno);
      assert total == out + Upcoming(t, [], nextPgno);
      var c := Cursor([], []);
      ghost var g := Progress([], Frame([], []), []);
      c, g := Down(root, c, total, [], t);
      root' := root;
      var last := false;
      while !last
        invariant Valid() && |old(out)| <= |out| <= |total|
        invariant last ==> out == total && root' == |out| - 1
        invariant !last ==> Ready(src, total, out, c, g)
        decreases |total| - |out|, !c.AtLeafPage()
      {
        if c.pgs[|c.pgs| - 1].LeafPage? {
          LeafFits(src, total, out, c, g);
          root', last, c, g := LeafRound(c, total, g);
        } else {
          root', last, c, g := BranchRound(c, total, g);
        }
      }
    }

    method LeafRound(c0: Cursor, ghost total: seq<Unit>, ghost g0: Progress)
      returns (num: Pgno, last: bool, c: Cursor, ghost g: Progress)
      requires Valid() && Ready(src, total, out, c0, g0) && c0.AtLeafPage()
      modifies this
      ensures Valid() && |old(out)| < |out| <= |total| && num == |out| - 1
      ensures if last then out == total else Ready(src, total, out, c, g)
      decreases CountItems(g0.items) + 1, 2
    {
      var mp := CopyLeaf(c0.pgs[|c0.pgs| - 1].items, total, g0.items, g0.frames);
      num, last, c, g := Put(mp, c0, total, g0.frames);
    }

    // On to the next child, or the page is complete.
    method BranchRound(c0: Cursor, ghost total: seq<Unit>, ghost g0: Progress)
      returns (num: Pgno, last: bool, c: Cursor, ghost g: Progress)
      requires Valid() && Ready(src, total, out, c0, g0) && !c0.AtLeafPage()
      modifies this
      ensures Valid() && |old(out)| <= |out| <= |total| && num == |out| - 1
      ensures |out| == |old(out)| ==> !last && c.AtLeafPage()
      ensures if last then out == total else Ready(src, total, out, c, g)
    {
      var top := |c0.pgs| - 1;
      var mp := c0.pgs[top];
      BranchStep(src, total, out, c0.pgs, c0.ki, g0.frames, g0.f);
      c := c0.(ki := c0.ki[top := c0.ki[top] + 1]);
      if c.ki[top] < |mp.kids| {
        num, last := |out| - 1, false;
        ghost var frames, kid := g0.frames + [Frame(g0.f.kids, g0.f.done + [|out| - 1])], g0.f.kids[c.ki[top]];
        c, g := Down(mp.kids[c.ki[top]].pg, c, total, frames, kid.sub);
      } else {
        num, last, c, g := Put(mp, c, total, g0.frames);
      }
    }

    // What the items of a leaf refer to, and the page with the new references.
    method CopyLeaf(ps: seq<PItem>, ghost total: seq<Unit>, ghost items: seq<Item>, ghost frames: seq<Frame>) returns (mp: Page)
      requires Valid() && StoredItems(src, ps, items) && total == out + Upcoming(Leaf(items), frames, |out|)
      modifies this
      ensures Valid() && |out| >= |old(out)|
      ensures total == out + [Paged(nextPgno, mp)] + Complete(frames, nextPgno, nextPgno + 1)
      decreases CountItems(items) + 1, 1
    {
      LeafWritten(total, out, items, frames);
      var ps' := CopyItems(ps, items);
      mp := LeafPage(ps');
    }

    // Write a page and go back to its parent, which takes note of its number.
    method Put(mp: Page, c0: Cursor, ghost total: seq<Unit>, ghost frames: seq<Frame>)
      returns (num: Pgno, last: bool, c: Cursor, ghost g: Progress)
      requires Valid() && |c0.pgs| == |frames| + 1 && Stack(src, c0.pgs, c0.ki, frames)
      requires total == out + [Paged(nextPgno, mp)] + Complete(frames, nextPgno, nextPgno + 1)
      modifies this
      ensures Valid() && |out| == |old(out)| + 1 && num == |out| - 1
      ensures if last then out == total else Ready(src, total, out, c, g)
      ensures |out| <= |total|
    {
      var top := |c0.pgs| - 1;
      out := out + [Paged(nextPgno, mp)];
      num := nextPgno;
      nextPgno := nextPgno + 1;
      c, last := c0, top == 0;
      g := Progress(frames, Frame([], []), []);
      if top > 0 {
        Popped(src, total, out, c0.pgs, c0.ki, frames);
        var i, kids := c0.ki[top - 1], c0.pgs[top - 1].kids;
        c := Cursor(c0.pgs[..top - 1] + [BranchPage(kids[i := kids[i].(pg := num)])], c0.ki[..top]);
        g := Progress(frames[..top - 1], frames[top - 1], []);
      }
    }
  }
}
