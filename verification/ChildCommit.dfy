// The dirty-page accounting of a nested transaction, and its commit into the
// parent (mdb_txn_commit in liblmdb/src/mdb.c).

module ChildCommit {
  import IdlSort
  import opened Idls
  import opened NestedCommit
  import opened SpillLists

  // --- mt_dirty_room ----------------------------------------------------

  // A transaction's dirty list, its live spilled pages and its mt_dirty_room.
  datatype Level = Level(dirty: set<nat>, spilled: set<nat>, room: int)

  // A top-level transaction, its child, its child's child and so on. Only the
  // last one is active.
  type Chain = c: seq<Level> | c != [] witness [Level({}, {}, 0)]

  datatype Step =
    | Dirty(p: nat)          // mdb_page_dirty: a new page, or a spilled one fetched back
    | Copy(p: nat)           // mdb_page_touch of a page that is dirty in an ancestor
    | Spill(pages: set<nat>) // mdb_page_spill and mdb_page_flush
    | Free(p: nat)           // mdb_ovpage_free of a dirty run, in a top-level transaction
    | Forget(p: nat)         // mdb_ovpage_free of a spilled one
    | BeginChild             // mdb_txn_begin with a parent
    | Commit                 // mdb_txn_commit into the parent
    | Abort                  // mdb_txn_abort of a child

  // The dirty pages the last transaction sees: its own and those of its
  // ancestors that no younger transaction has spilled.
  function Visible(c: seq<Level>): set<nat> {
    if c == [] then {} else (Visible(c[..|c| - 1]) - c[|c| - 1].spilled) + c[|c| - 1].dirty
  }

  predicate Enabled(c: Chain, s: Step) {
    var last := c[|c| - 1];
    match s
    case Dirty(p) => p !in Visible(c) && last.room > 0
    case Copy(p) => p in Visible(c) && p !in last.dirty
    case Spill(pages) => pages <= last.dirty && forall k :: 0 <= k < |c| - 1 ==> pages !! c[k].spilled   // "Can't spill twice"
    case Free(p) => |c| == 1 && p in last.dirty
    case Forget(p) => |c| == 1 && p in last.spilled
    case BeginChild => true
    case Commit => |c| > 1
    case Abort => |c| > 1
  }

  // The parent after its child has committed into it.
  function Absorbed(parent: Level, child: Level): Level {
    Level((parent.dirty - child.spilled) + child.dirty, (parent.spilled - child.dirty) + child.spilled, child.room)
  }

  function Do(c: Chain, s: Step): Chain
    requires Enabled(c, s)
  {
    var n := |c| - 1;
    var last := c[n];
    match s
    case Dirty(p) => c[n := Level(last.dirty + {p}, last.spilled - {p}, last.room - 1)]
    case Copy(p) => c[n := last.(dirty := last.dirty + {p})]
    case Spill(pages) => c[n := Level(last.dirty - pages, last.spilled + pages, last.room + |pages|)]
    case Free(p) => c[n := last.(dirty := last.dirty - {p}, room := last.room + 1)]
    case Forget(p) => c[n := last.(spilled := last.spilled - {p})]
    case BeginChild => c + [Level({}, {}, last.room)]
    case Commit => c[..n - 1] + [Absorbed(c[n - 1], last)]
    case Abort => c[..n]
  }

  // Every transaction's room is what its visible dirty pages leave of the list
  // size, and never negative.
  ghost predicate Accounted(c: seq<Level>, max: int) {
    forall k :: 0 <= k < |c| ==> LevelAccounted(c, k, max)
  }

  ghost predicate LevelAccounted(c: seq<Level>, k: nat, max: int)
    requires k < |c|
  {
    c[k].spilled !! c[k].dirty && c[k].room == max - |Visible(c[..k + 1])| && c[k].room >= 0
  }

  lemma VisibleAppend(c: seq<Level>, l: Level)
    ensures Visible(c + [l]) == (Visible(c) - l.spilled) + l.dirty
  {
    assert (c + [l])[..|c|] == c;
  }

  // The last transaction changes; its ancestors do not.
  lemma LastAccounted(c: Chain, l: Level, max: int)
    requires Accounted(c, max)
    requires l.spilled !! l.dirty && l.room >= 0
    requires l.room == max - |(Visible(c[..|c| - 1]) - l.spilled) + l.dirty|
    ensures Accounted(c[|c| - 1 := l], max)
  {
    var n, d := |c| - 1, c[|c| - 1 := l];
    assert d == c[..n] + [l];
    VisibleAppend(c[..n], l);
    forall k | 0 <= k < |d| ensures LevelAccounted(d, k, max) {
      if k < n {
        assert LevelAccounted(c, k, max) && d[..k + 1] == c[..k + 1];
      } else {
        assert d[..k + 1] == d;
      }
    }
  }

  lemma VisibleLast(c: Chain)
    ensures Visible(c) == (Visible(c[..|c| - 1]) - c[|c| - 1].spilled) + c[|c| - 1].dirty
  {
  }

  lemma LastIs(c: Chain, max: int)
    requires Accounted(c, max)
    ensures var last := c[|c| - 1]; last.spilled !! last.dirty && last.room == max - |Visible(c)| && last.room >= 0
  {
    assert LevelAccounted(c, |c| - 1, max) && c[..|c|] == c;
  }

  lemma DirtyAccounts(c: Chain, p: nat, max: int)
    requires Accounted(c, max) && Enabled(c, Dirty(p))
    ensures Accounted(Do(c, Dirty(p)), max)
  {
    var last, before := c[|c| - 1], Visible(c[..|c| - 1]);
    LastIs(c, max);
    assert (before - (last.spilled - {p})) + (last.dirty + {p}) == Visible(c) + {p};
    LastAccounted(c, Level(last.dirty + {p}, last.spilled - {p}, last.room - 1), max);
  }

  lemma CopyAccounts(c: Chain, p: nat, max: int)
    requires Accounted(c, max) && Enabled(c, Copy(p))
    ensures Accounted(Do(c, Copy(p)), max)
  {
    var last, before := c[|c| - 1], Visible(c[..|c| - 1]);
    LastIs(c, max);
    assert (before - last.spilled) + (last.dirty + {p}) == Visible(c);
    LastAccounted(c, last.(dirty := last.dirty + {p}), max);
  }

  lemma SpillAccounts(c: Chain, pages: set<nat>, max: int)
    requires Accounted(c, max) && Enabled(c, Spill(pages))
    ensures Accounted(Do(c, Spill(pages)), max)
  {
    var last, before, v := c[|c| - 1], Visible(c[..|c| - 1]), Visible(c);
    LastIs(c, max);
    assert (before - (last.spilled + pages)) + (last.dirty - pages) == v - pages;
    assert v == (v - pages) + pages;
    LastAccounted(c, Level(last.dirty - pages, last.spilled + pages, last.room + |pages|), max);
  }

  lemma FreeAccounts(c: Chain, s: Step, max: int)
    requires Accounted(c, max) && Enabled(c, s) && (s.Free? || s.Forget?)
    ensures Accounted(Do(c, s), max)
  {
    var last, d := c[0], Do(c, s);
    LastIs(c, max);
    assert c[..0] == [] && Visible(c) == last.dirty;
    if s.Free? { assert last.dirty == (last.dirty - {s.p}) + {s.p}; }
    LastAccounted(c, d[0], max);
  }

  lemma BeginAccounts(c: Chain, max: int)
    requires Accounted(c, max)
    ensures Accounted(Do(c, BeginChild), max)
  {
    var d := Do(c, BeginChild);
    LastIs(c, max);
    VisibleAppend(c, d[|c|]);
    forall k | 0 <= k < |d| ensures LevelAccounted(d, k, max) {
      if k < |c| {
        assert LevelAccounted(c, k, max) && d[..k + 1] == c[..k + 1];
      } else {
        assert d[..k + 1] == d;
      }
    }
  }

  // After a commit the parent sees what the child saw.
  lemma CommitSees(c: Chain)
    requires |c| > 1 && c[|c| - 1].spilled !! c[|c| - 1].dirty
    ensures var a := Absorbed(c[|c| - 2], c[|c| - 1]); (Visible(c[..|c| - 2]) - a.spilled) + a.dirty == Visible(c)
  {
    var n := |c| - 1;
    assert c[..n][..n - 1] == c[..n - 1];
    VisibleLast(c[..n]);
  }

  lemma AbortAccounts(c: Chain, max: int)
    requires Accounted(c, max) && |c| > 1
    ensures Accounted(c[..|c| - 1], max)
  {
    var d := c[..|c| - 1];
    forall k | 0 <= k < |d| ensures LevelAccounted(d, k, max) {
      assert LevelAccounted(c, k, max) && d[..k + 1] == c[..k + 1];
    }
  }

  lemma CommitAccounts(c: Chain, max: int)
    requires Accounted(c, max) && Enabled(c, Commit)
    ensures Accounted(Do(c, Commit), max)
  {
    var n := |c| - 1;
    var parents, a := c[..n], Absorbed(c[n - 1], c[n]);
    LastIs(c, max);
    assert LevelAccounted(c, n - 1, max);
    CommitSees(c);
    AbortAccounts(c, max);
    assert parents[..n - 1] == c[..n - 1];
    LastAccounted(parents, a, max);
    assert parents[n - 1 := a] == Do(c, Commit);
  }

  lemma StepAccounts(c: Chain, s: Step, max: int)
    requires Accounted(c, max) && Enabled(c, s)
    ensures Accounted(Do(c, s), max)
  {
    match s
    case Dirty(p) => DirtyAccounts(c, p, max);
    case Copy(p) => CopyAccounts(c, p, max);
    case Spill(pages) => SpillAccounts(c, pages, max);
    case Free(_) => FreeAccounts(c, s, max);
    case Forget(_) => FreeAccounts(c, s, max);
    case BeginChild => BeginAccounts(c, max);
    case Commit => CommitAccounts(c, max);
    case Abort => AbortAccounts(c, max);
  }

  function SeenAfter(c: Chain, s: Step): set<nat> {
    match s
    case Dirty(p) => Visible(c) + {p}
    case Spill(pages) => Visible(c) - pages
    case Free(p) => Visible(c) - {p}
    case Abort => Visible(c[..|c| - 1])
    case _ => Visible(c)
  }

  // The dirty pages the last transaction sees change by those the step names; a
  // child begins with what its parent sees and hands over what it sees itself.
  lemma StepSees(c: Chain, s: Step, max: int)
    requires Accounted(c, max) && Enabled(c, s)
    ensures Visible(Do(c, s)) == SeenAfter(c, s)
  {
    var n := |c| - 1;
    match s
    case Dirty(p) => DirtySees(c, p, max);
    case Copy(p) => CopySees(c, p);
    case Spill(pages) => SpillSees(c, pages, max);
    case Free(p) => FreeSees(c, s);
    case Forget(p) => FreeSees(c, s);
    case BeginChild => VisibleAppend(c, Level({}, {}, c[n].room));
    case Commit =>
      LastIs(c, max);
      CommitSees(c);
      VisibleAppend(c[..n - 1], Absorbed(c[n - 1], c[n]));
    case Abort =>
  }

  lemma LastBecomes(c: Chain, l: Level)
    ensures Visible(c[|c| - 1 := l]) == (Visible(c[..|c| - 1]) - l.spilled) + l.dirty
  {
    assert c[|c| - 1 := l] == c[..|c| - 1] + [l];
    VisibleAppend(c[..|c| - 1], l);
  }

  lemma DirtySees(c: Chain, p: nat, max: int)
    requires Accounted(c, max) && Enabled(c, Dirty(p))
    ensures Visible(Do(c, Dirty(p))) == Visible(c) + {p}
  {
    var last, before := c[|c| - 1], Visible(c[..|c| - 1]);
    LastIs(c, max);
    LastBecomes(c, Level(last.dirty + {p}, last.spilled - {p}, last.room - 1));
    assert (before - (last.spilled - {p})) + (last.dirty + {p}) == Visible(c) + {p};
  }

  lemma CopySees(c: Chain, p: nat)
    requires Enabled(c, Copy(p))
    ensures Visible(Do(c, Copy(p))) == Visible(c)
  {
    var last, before := c[|c| - 1], Visible(c[..|c| - 1]);
    LastBecomes(c, last.(dirty := last.dirty + {p}));
    assert (before - last.spilled) + (last.dirty + {p}) == Visible(c);
  }

  lemma SpillSees(c: Chain, pages: set<nat>, max: int)
    requires Accounted(c, max) && Enabled(c, Spill(pages))
    ensures Visible(Do(c, Spill(pages))) == Visible(c) - pages
  {
    var last, before := c[|c| - 1], Visible(c[..|c| - 1]);
    LastIs(c, max);
    LastBecomes(c, Level(last.dirty - pages, last.spilled + pages, last.room + |pages|));
    assert (before - (last.spilled + pages)) + (last.dirty - pages) == Visible(c) - pages;
  }

  lemma FreeSees(c: Chain, s: Step)
    requires Enabled(c, s) && (s.Free? || s.Forget?)
    ensures Visible(Do(c, s)) == SeenAfter(c, s)
  {
    assert c[..0] == [] && Visible(c[..0]) == {};
    LastBecomes(c, Do(c, s)[0]);
  }

  // No page is spilled in two transactions of the chain.
  ghost predicate SpilledOnce(c: seq<Level>) {
    forall j, k :: 0 <= j < k < |c| ==> c[j].spilled !! c[k].spilled
  }

  lemma StepSpillsOnce(c: Chain, s: Step)
    requires SpilledOnce(c) && Enabled(c, s)
    ensures SpilledOnce(Do(c, s))
  {
  }

  predicate IsRun(c: Chain, steps: seq<Step>)
    decreases |steps|
  {
    steps == [] || (Enabled(c, steps[0]) && IsRun(Do(c, steps[0]), steps[1..]))
  }

  function AfterRun(c: Chain, steps: seq<Step>): Chain
    requires IsRun(c, steps)
    decreases |steps|
  {
    if steps == [] then c else AfterRun(Do(c, steps[0]), steps[1..])
  }

  // A top-level write transaction begins with an empty list.
  function BeginTop(max: nat): Chain {
    [Level({}, {}, max)]
  }

  lemma {:induction false} RunAccounts(c: Chain, steps: seq<Step>, max: int)
    requires Accounted(c, max) && SpilledOnce(c) && IsRun(c, steps)
    ensures Accounted(AfterRun(c, steps), max) && SpilledOnce(AfterRun(c, steps))
    decreases |steps|
  {
    if steps != [] {
      StepAccounts(c, steps[0], max);
      StepSpillsOnce(c, steps[0]);
      RunAccounts(Do(c, steps[0]), steps[1..], max);
    }
  }

  // In every run of a transaction with nested ones, whatever they do.
  ghost predicate Reached(c: Chain, max: nat) {
    exists steps :: IsRun(BeginTop(max), steps) && AfterRun(BeginTop(max), steps) == c
  }

  lemma ReachedAccounted(c: Chain, max: nat)
    requires Reached(c, max)
    ensures Accounted(c, max) && SpilledOnce(c)
  {
    var steps :| IsRun(BeginTop(max), steps) && AfterRun(BeginTop(max), steps) == c;
    TopAccounted(max);
    RunAccounts(BeginTop(max), steps, max);
  }

  lemma {:induction false} RunOn(c: Chain, steps: seq<Step>, s: Step)
    requires IsRun(c, steps) && Enabled(AfterRun(c, steps), s)
    ensures IsRun(c, steps + [s]) && AfterRun(c, steps + [s]) == Do(AfterRun(c, steps), s)
    decreases |steps|
  {
    if steps == [] {
      assert [s][1..] == [] && steps + [s] == [s];
    } else {
      assert (steps + [s])[1..] == steps[1..] + [s];
      RunOn(Do(c, steps[0]), steps[1..], s);
    }
  }

  lemma Reach(c: Chain, max: nat, s: Step)
    requires Reached(c, max) && Enabled(c, s)
    ensures Reached(Do(c, s), max)
  {
    var steps :| IsRun(BeginTop(max), steps) && AfterRun(BeginTop(max), steps) == c;
    RunOn(BeginTop(max), steps, s);
  }

  // The last transaction becomes one with these lists.
  lemma ReachLast(below: seq<Level>, l: Level, max: nat, s: Step, l': Level)
    requires Reached(below + [l], max) && Enabled(below + [l], s) && !s.BeginChild? && !s.Commit? && !s.Abort?
    requires var m := Do(below + [l], s)[|below|]; l'.dirty == m.dirty && l'.spilled == m.spilled && l'.room == m.room
    ensures Reached(below + [l'], max)
  {
    Reach(below + [l], max, s);
    assert Do(below + [l], s) == below + [l'];
  }

  lemma SeenBy(below: seq<Level>, l: Level)
    ensures Visible(below + [l]) == (Visible(below) - l.spilled) + l.dirty
  {
    VisibleAppend(below, l);
  }

  // A transaction may dirty any page that no transaction of the chain has ...
  lemma MayDirty(below: seq<Level>, l: Level, max: nat, p: nat)
    requires Reached(below + [l], max) && p !in Visible(below) && p !in l.dirty && l.room > 0
    ensures Reached(below + [Level(l.dirty + {p}, l.spilled - {p}, l.room - 1)], max)
  {
    SeenBy(below, l);
    ReachLast(below, l, max, Dirty(p), Level(l.dirty + {p}, l.spilled - {p}, l.room - 1));
  }

  // ... copy one that its parent has dirty ...
  lemma MayCopy(below: seq<Level>, parent: Level, l: Level, max: nat, p: nat)
    requires Reached(below + [parent] + [l], max) && p in parent.dirty && p !in l.dirty && p !in l.spilled
    ensures Reached(below + [parent] + [Level(l.dirty + {p}, l.spilled, l.room)], max)
  {
    SeenBy(below, parent);
    SeenBy(below + [parent], l);
    ReachLast(below + [parent], l, max, Copy(p), Level(l.dirty + {p}, l.spilled, l.room));
  }

  // ... spill what is not spilled already, and in a top-level transaction free an
  // overflow page, dirty or spilled ...
  lemma MaySpill(below: seq<Level>, l: Level, max: nat, p: nat)
    requires Reached(below + [l], max) && p in l.dirty && forall k :: 0 <= k < |below| ==> p !in below[k].spilled
    ensures Reached(below + [Level(l.dirty - {p}, l.spilled + {p}, l.room + 1)], max)
  {
    ReachLast(below, l, max, Spill({p}), Level(l.dirty - {p}, l.spilled + {p}, l.room + 1));
  }

  lemma MayFree(l: Level, max: nat, p: nat)
    requires Reached([l], max)
    ensures p in l.dirty ==> Reached([Level(l.dirty - {p}, l.spilled, l.room + 1)], max)
    ensures p in l.spilled ==> Reached([Level(l.dirty, l.spilled - {p}, l.room)], max)
  {
    assert [] + [l] == [l];
    if p in l.dirty {
      ReachLast([], l, max, Free(p), Level(l.dirty - {p}, l.spilled, l.room + 1));
      assert [] + [Level(l.dirty - {p}, l.spilled, l.room + 1)] == [Level(l.dirty - {p}, l.spilled, l.room + 1)];
    }
    if p in l.spilled {
      ReachLast([], l, max, Forget(p), Level(l.dirty, l.spilled - {p}, l.room));
      assert [] + [Level(l.dirty, l.spilled - {p}, l.room)] == [Level(l.dirty, l.spilled - {p}, l.room)];
    }
  }

  // ... and begin a child, which starts with empty lists and may commit or abort.
  lemma MayNest(below: seq<Level>, parent: Level, max: nat)
    requires Reached(below + [parent], max)
    ensures Reached(below + [parent] + [Level({}, {}, parent.room)], max)
  {
    Reach(below + [parent], max, BeginChild);
  }

  lemma MayEnd(below: seq<Level>, parent: Level, l: Level, max: nat)
    requires Reached(below + [parent] + [l], max)
    ensures Reached(below + [Level((parent.dirty - l.spilled) + l.dirty, (parent.spilled - l.dirty) + l.spilled, l.room)], max)
    ensures Reached(below + [parent], max)
  {
    var c := below + [parent] + [l];
    assert c[..|c| - 2] == below && c[|c| - 2] == parent && c[..|c| - 1] == below + [parent];
    Reach(c, max, Commit);
    Reach(c, max, Abort);
  }

  lemma TopAccounted(max: nat)
    ensures Accounted(BeginTop(max), max)
  {
    var c := BeginTop(max);
    assert c[..1] == c && c[..0] == [] && Visible(c) == {};
  }

  // The lists in memory are those of the last transaction and its parent.
  ghost predicate HasLists<P>(c: Chain, d: seq<Id2<P>>, s: seq<Id2<P>>, spill: seq<nat>) {
    && |c| > 1 && Ids(d) == c[|c| - 2].dirty && Ids(s) == c[|c| - 1].dirty
    && forall p: nat :: p in c[|c| - 1].spilled <==> 2 * p in Live(spill)
  }

  lemma UnspilledIds<P>(c: Chain, d: seq<Id2<P>>, s: seq<Id2<P>>, spill: seq<nat>)
    requires HasLists(c, d, s, spill)
    ensures Ids(Unspilled(d, Live(spill))) == c[|c| - 2].dirty - c[|c| - 1].spilled
  {
    var u := Unspilled(d, Live(spill));
    forall id: nat ensures id in Ids(u) <==> id in c[|c| - 2].dirty - c[|c| - 1].spilled {
      if id in Ids(u) {
        var e :| e in u && e.mid == id;
        UnspilledHas(d, Live(spill), e);
      } else if id in c[|c| - 2].dirty - c[|c| - 1].spilled {
        var e :| e in d && e.mid == id;
        UnspilledHas(d, Live(spill), e);
      }
    }
  }

  lemma MergeSize<P>(c: Chain, d: seq<Id2<P>>, s: seq<Id2<P>>, spill: seq<nat>)
    requires Ascending(d) && Ascending(s) && HasLists(c, d, s, spill)
    ensures |MergeUp(Unspilled(d, Live(spill)), s)| == |(c[|c| - 2].dirty - c[|c| - 1].spilled) + c[|c| - 1].dirty|
  {
    UnspilledIds(c, d, s, spill);
    UnspilledAscends(d, Live(spill), Top(d, s));
    MergeCount(Unspilled(d, Live(spill)), s);
  }

  lemma SubsetSize(a: set<nat>, b: set<nat>)
    requires a <= b
    ensures |a| <= |b|
  {
    assert b == a + (b - a);
  }

  // The merge fits the list size, and with a single ancestor the room left
  // gives its length.
  lemma RoomIsLength<P>(c: Chain, max: nat, d: seq<Id2<P>>, s: seq<Id2<P>>, spill: seq<nat>)
    requires Reached(c, max) && Ascending(d) && Ascending(s) && HasLists(c, d, s, spill)
    ensures |MergeUp(Unspilled(d, Live(spill)), s)| <= max - c[|c| - 1].room <= max
    ensures |c| == 2 ==> |MergeUp(Unspilled(d, Live(spill)), s)| == max - c[|c| - 1].room
  {
    var n := |c| - 1;
    var merged := (c[n - 1].dirty - c[n].spilled) + c[n].dirty;
    ReachedAccounted(c, max);
    LastIs(c, max);
    MergeSize(c, d, s, spill);
    MergedVisible(c);
    SubsetSize(merged, Visible(c));
  }

  // The merge is part of what the child sees, and all of it with one ancestor.
  lemma MergedVisible(c: Chain)
    requires |c| > 1
    ensures var merged := (c[|c| - 2].dirty - c[|c| - 1].spilled) + c[|c| - 1].dirty;
      merged <= Visible(c) && (|c| == 2 ==> Visible(c) == merged)
  {
    var n := |c| - 1;
    VisibleLast(c[..n]);
    assert c[..n][..n - 1] == c[..n - 1];
  }

  // --- The commit -------------------------------------------------------

  // The parent's dirty list after the commit.
  function Committed<P>(d: seq<Id2<P>>, s: seq<Id2<P>>, spill: seq<nat>): seq<Id2<P>> {
    MergeUp(Unspilled(d, Live(spill)), s)
  }

  // It is in order and free of duplicates.
  lemma CommittedOrder<P>(d: seq<Id2<P>>, s: seq<Id2<P>>, spill: seq<nat>)
    requires Ascending(d) && Ascending(s)
    ensures Ascending(Unspilled(d, Live(spill))) && Ascending(Committed(d, s, spill))
  {
    UnspilledAscends(d, Live(spill), Top(d, s));
    MergeAscends(Unspilled(d, Live(spill)), s, Top(d, s));
  }

  // It lists the child's pages and those of the parent that the child neither
  // has dirty nor has spilled.
  lemma CommittedPages<P>(d: seq<Id2<P>>, s: seq<Id2<P>>, spill: seq<nat>, e: Id2<P>)
    requires Ascending(d) && Ascending(s)
    ensures e in Committed(d, s, spill) <==> e in s || (e in d && !HasId(s, e.mid) && 2 * e.mid !in spill)
  {
    CommittedOrder(d, s, spill);
    UnionOfBoth(Unspilled(d, Live(spill)), s, e);
    UnspilledLive(d, spill, e);
  }

  lemma UnspilledLive<P>(d: seq<Id2<P>>, spill: seq<nat>, e: Id2<P>)
    ensures e in Unspilled(d, Live(spill)) <==> e in d && 2 * e.mid !in spill
  {
    UnspilledHas(d, Live(spill), e);
    LiveHas(spill, 2 * e.mid);
  }

  // The list the commit leaves is the dirty list of the parent in the chain.
  lemma CommittedIds<P>(c: Chain, d: seq<Id2<P>>, s: seq<Id2<P>>, spill: seq<nat>)
    requires Ascending(d) && Ascending(s) && HasLists(c, d, s, spill)
    ensures Ids(Committed(d, s, spill)) == Absorbed(c[|c| - 2], c[|c| - 1]).dirty
  {
    UnspilledIds(c, d, s, spill);
    UnspilledAscends(d, Live(spill), Top(d, s));
    MergeCount(Unspilled(d, Live(spill)), s);
  }

  lemma UnspilledNonZero<P>(d: seq<Id2<P>>, spill: seq<nat>)
    requires NonZero(d)
    ensures NonZero(Unspilled(d, spill))
  {
    var u := Unspilled(d, spill);
    forall k | 0 <= k < |u| ensures u[k].mid > 0 { UnspilledHas(d, spill, u[k]); }
  }

  // What the merge of the lists d and s into an array of `size` entries needs.
  ghost predicate Mergeable<P>(d: seq<Id2<P>>, s: seq<Id2<P>>, spill: seq<nat>, size: int, grand: bool, roomed: int) {
    && Ascending(d) && Ascending(s) && NonZero(d) && NonZero(s) && |Committed(d, s, spill)| < size
    && (!grand ==> roomed == |Committed(d, s, spill)|)
  }

  lemma RoomMerges<P>(c: Chain, max: nat, d: seq<Id2<P>>, s: seq<Id2<P>>, spill: seq<nat>, grand: bool)
    requires Ascending(d) && Ascending(s) && NonZero(d) && NonZero(s)
    requires Reached(c, max) && HasLists(c, d, s, spill) && grand == (|c| > 2)
    ensures Mergeable(d, s, spill, max + 1, grand, max - c[|c| - 1].room)
  {
    RoomIsLength(c, max, d, s, spill);
  }

  // The parent's spill list is that of the chain.
  ghost predicate HasSpills(c: Chain, pspill: seq<nat>) {
    |c| > 1 && forall p: nat :: p in c[|c| - 2].spilled <==> 2 * p in Live(pspill)
  }

  // mdb_txn_commit of a child. `grand` says that the parent is nested itself,
  // `own` and `has` that the parent and the child have a spill list; `c` is the
  // chain of transactions whose lists these are.
  method CommitChild<P(0)>(dst: Id2l<P>, src: Id2l<P>, pspill: Idl, spill: Idl, own: bool, has: bool, grand: bool, max: nat,
                           room: int, ghost c: Chain)
    requires dst.ids != src.ids && pspill != spill && pspill.ids != spill.ids
    requires dst.Valid() && src.Valid() && pspill.Valid() && spill.Valid()
    requires Purgeable(src.Contents(), pspill.Contents()) && SpillOrder(spill.Contents())
    requires Ascending(dst.Contents()) && NonZero(dst.Contents())
    requires (!own ==> pspill.Contents() == []) && (!has ==> spill.Contents() == [])
    requires |pspill.Contents()| + |spill.Contents()| <= IdlSort.INT_MAX
    requires Reached(c, max) && HasLists(c, dst.Contents(), src.Contents(), spill.Contents()) && HasSpills(c, pspill.Contents())
    requires room == c[|c| - 1].room && grand == (|c| > 2) && dst.ids.Length == max + 1
    modifies dst.ids, pspill, pspill.ids
    ensures dst.Valid() && pspill.Valid()
    ensures dst.Contents() == Committed(old(dst.Contents()), src.Contents(), old(spill.Contents()))
    ensures SpillOrder(pspill.Contents())
    ensures forall p: nat :: 2 * p in Live(pspill.Contents()) <==> p in Absorbed(c[|c| - 2], c[|c| - 1]).spilled
  {
    ghost var s, hidden, was := src.Contents(), spill.Contents(), pspill.Contents();
    RoomMerges(c, max, dst.Contents(), s, hidden, grand);
    MergeLists(dst, src, pspill, spill, grand, max - room);
    ghost var purged := pspill.Contents();
    ReachedAccounted(c, max);
    PurgedSpills(c, s, was, purged, hidden);
    TakeApart(dst, src, pspill, spill, own, has);
    SpillsJoined(c, s, was, purged, hidden, pspill.Contents());
  }

  // The part up to the dirty list.
  method MergeLists<P(0)>(dst: Id2l<P>, src: Id2l<P>, pspill: Idl, spill: Idl, grand: bool, roomed: int)
    requires dst.ids != src.ids && pspill.ids != spill.ids && dst.Valid() && src.Valid() && pspill.Valid() && spill.Valid()
    requires Purgeable(src.Contents(), pspill.Contents())
    requires Mergeable(dst.Contents(), src.Contents(), spill.Contents(), dst.ids.Length, grand, roomed)
    modifies dst.ids, pspill.ids
    ensures dst.Valid() && pspill.Valid() && spill.Valid()
    ensures src.Contents() == old(src.Contents()) && spill.Contents() == old(spill.Contents())
    ensures dst.Contents() == Committed(old(dst.Contents()), old(src.Contents()), old(spill.Contents()))
    ensures SpillOrder(pspill.Contents()) && |pspill.Contents()| <= |old(pspill.Contents())|
    ensures Live(pspill.Contents()) == Live(Marked(old(src.Contents()), old(pspill.Contents())))
  {
    PurgeSpill(pspill, src);
    MergeApart(dst, src, pspill, spill, grand, roomed);
  }

  // The merge does not touch the spill lists.
  method MergeApart<P(0)>(dst: Id2l<P>, src: Id2l<P>, ghost pspill: Idl, spill: Idl, grand: bool, roomed: int)
    requires dst.ids != src.ids && dst.Valid() && src.Valid() && spill.Valid() && pspill.Valid()
    requires Mergeable(dst.Contents(), src.Contents(), spill.Contents(), dst.ids.Length, grand, roomed)
    modifies dst.ids
    ensures dst.Valid() && dst.Contents() == Committed(old(dst.Contents()), old(src.Contents()), old(spill.Contents()))
    ensures src.Contents() == old(src.Contents()) && spill.Contents() == old(spill.Contents())
    ensures pspill.Valid() && pspill.Contents() == old(pspill.Contents())
  {
    MergeBoth(dst, src, spill, grand, roomed);
  }

  // The parent's pages that the child has not made dirty are still spilled.
  lemma PurgedSpills<P>(c: Chain, s: seq<Id2<P>>, was: seq<nat>, purged: seq<nat>, hidden: seq<nat>)
    requires HasSpills(c, was) && SpilledOnce(c) && Ids(s) == c[|c| - 1].dirty
    requires Live(purged) == Live(Marked(s, was)) && forall p: nat :: p in c[|c| - 1].spilled <==> 2 * p in Live(hidden)
    ensures forall p: nat :: 2 * p in Live(purged) <==> p in c[|c| - 2].spilled - c[|c| - 1].dirty
    ensures forall v :: v in Live(purged) ==> v !in Live(hidden)
  {
    forall p: nat ensures 2 * p in Live(purged) <==> p in c[|c| - 2].spilled - c[|c| - 1].dirty {
      MarkedLive(s, was, 2 * p);
      assert HasId(s, p) <==> p in Ids(s);
    }
    forall v | v in Live(purged) ensures v !in Live(hidden) {
      LiveHas(purged, v);
      assert v == 2 * (v / 2);
    }
  }

  lemma SpillsJoined<P>(c: Chain, s: seq<Id2<P>>, was: seq<nat>, purged: seq<nat>, hidden: seq<nat>, joined: seq<nat>)
    requires |c| > 1 && forall p: nat :: 2 * p in Live(purged) <==> p in c[|c| - 2].spilled - c[|c| - 1].dirty
    requires forall p: nat :: p in c[|c| - 1].spilled <==> 2 * p in Live(hidden)
    requires forall v :: v in Live(joined) <==> v in Live(purged) || v in Live(hidden)
    ensures forall p: nat :: 2 * p in Live(joined) <==> p in Absorbed(c[|c| - 2], c[|c| - 1]).spilled
  {
  }

  // What becomes of the spill lists leaves the dirty lists alone.
  method TakeApart<P(0)>(ghost dst: Id2l<P>, ghost src: Id2l<P>, pspill: Idl, spill: Idl, own: bool, has: bool)
    requires dst.Valid() && src.Valid()
    requires pspill != spill && pspill.ids != spill.ids && pspill.Valid() && spill.Valid()
    requires SpillOrder(pspill.Contents()) && SpillOrder(spill.Contents())
    requires (!own ==> pspill.Contents() == []) && (!has ==> spill.Contents() == [])
    requires |pspill.Contents()| + |spill.Contents()| <= IdlSort.INT_MAX
    requires forall v :: v in Live(pspill.Contents()) ==> v !in Live(spill.Contents())
    modifies pspill, pspill.ids
    ensures dst.Valid() && dst.Contents() == old(dst.Contents()) && src.Valid() && src.Contents() == old(src.Contents())
    ensures pspill.Valid() && SpillOrder(pspill.Contents())
    ensures forall v :: v in Live(pspill.Contents()) <==> v in old(Live(pspill.Contents())) || v in old(Live(spill.Contents()))
  {
    TakeSpill(pspill, spill, own, has);
  }

  // The child's spill list joins the parent's.
  method TakeSpill(pspill: Idl, spill: Idl, own: bool, has: bool)
    requires pspill != spill && pspill.ids != spill.ids && pspill.Valid() && spill.Valid()
    requires SpillOrder(pspill.Contents()) && SpillOrder(spill.Contents())
    requires (!own ==> pspill.Contents() == []) && (!has ==> spill.Contents() == [])
    requires |pspill.Contents()| + |spill.Contents()| <= IdlSort.INT_MAX
    requires forall v :: v in Live(pspill.Contents()) ==> v !in Live(spill.Contents())
    modifies pspill, pspill.ids
    ensures pspill.Valid() && SpillOrder(pspill.Contents())
    ensures forall v :: v in Live(pspill.Contents()) <==> v in old(Live(pspill.Contents())) || v in old(Live(spill.Contents()))
  {
    ghost var a, b := pspill.Contents(), spill.Contents();
    if has {
      if own {
        pspill.AppendList(spill);
        pspill.SortIds();
        JoinedOrder(a, b, pspill.Contents());
      } else {
        pspill.ids := spill.ids;
      }
    }
  }

  method MergeBoth<P(0)>(dst: Id2l<P>, src: Id2l<P>, spill: Idl, grand: bool, roomed: int)
    requires dst.ids != src.ids && dst.Valid() && src.Valid() && spill.Valid()
    requires Mergeable(dst.Contents(), src.Contents(), spill.Contents(), dst.ids.Length, grand, roomed)
    modifies dst.ids
    ensures dst.Valid() && dst.Contents() == Committed(old(dst.Contents()), src.Contents(), spill.Contents())
  {
    UnspilledNonZero(dst.Contents(), Live(spill.Contents()));
    HideAndMerge(dst, src, spill, grand, roomed, Unspilled(dst.Contents(), Live(spill.Contents())));
  }

  method HideAndMerge<P(0)>(dst: Id2l<P>, src: Id2l<P>, spill: Idl, grand: bool, roomed: int, ghost u: seq<Id2<P>>)
    requires dst.ids != src.ids && dst.Valid() && src.Valid() && spill.Valid()
    requires Ascending(dst.Contents()) && Ascending(src.Contents()) && NonZero(src.Contents())
    requires u == Unspilled(dst.Contents(), Live(spill.Contents())) && NonZero(u)
    requires |MergeUp(u, src.Contents())| < dst.ids.Length && (!grand ==> roomed == |MergeUp(u, src.Contents())|)
    modifies dst.ids
    ensures dst.Valid() && dst.Contents() == MergeUp(u, src.Contents())
  {
    ghost var s := src.Contents();
    HideSpilled(dst, spill);
    assert src.Contents() == s && dst.Contents() == u;
    MergeInto(dst, src, grand, roomed);
  }

  method MergeInto<P(0)>(dst: Id2l<P>, src: Id2l<P>, grand: bool, roomed: int)
    requires dst.ids != src.ids && dst.Valid() && src.Valid()
    requires Ascending(dst.Contents()) && Ascending(src.Contents()) && NonZero(dst.Contents()) && NonZero(src.Contents())
    requires |MergeUp(dst.Contents(), src.Contents())| < dst.ids.Length
    requires !grand ==> roomed == |MergeUp(dst.Contents(), src.Contents())|
    modifies dst.ids
    ensures dst.Valid() && dst.Contents() == MergeUp(old(dst.Contents()), src.Contents())
  {
    ghost var d := dst.Contents();
    var x := dst.ids[0].mid;
    dst.ids[0] := dst.ids[0].(mid := 0);
    assert dst.ids[1..x + 1] == d;
    var len: int := roomed;
    if grand {
      len := MergeLength(dst, src, x);
    }
    MergeDirty(dst, src, x, len);
  }
}
