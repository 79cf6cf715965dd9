// Page lifecycle inside one write transaction (liblmdb/src/mdb.c).
//
// Every page number from NUM_METAS up to mt_next_pgno has exactly one place:
// a live tree (including overflow runs and the freeDB's own pages), a freeDB
// record that has not been consumed, me_pghead, mt_free_pgs or the loose list.
// The steps below are the ways the writer moves page numbers between places.

module Lifecycle {

  type Pgno = nat
  type Txnid = nat

  const NUM_METAS: Pgno := 2

  // A committed state: the pages of all its trees with the transaction that
  // last wrote each of them, the freeDB records, and mm_last_pg + 1.
  datatype Snapshot = Snapshot(stamp: map<Pgno, Txnid>, recs: map<Txnid, set<Pgno>>, next: Pgno)

  // A running write transaction. `recs` is the freeDB as of the transaction's
  // base; its records with key <= pglast have been consumed into pghead.
  datatype Txn = Txn(
    live: set<Pgno>, dirty: set<Pgno>, freePgs: set<Pgno>, loose: set<Pgno>,
    pghead: set<Pgno>, pglast: Txnid, recs: map<Txnid, set<Pgno>>, next: Pgno)

  function Begin(base: Snapshot): Txn {
    Txn(base.stamp.Keys, {}, {}, {}, {}, 0, base.recs, base.next)
  }

  predicate InRun(pg: Pgno, num: nat, p: Pgno) {
    pg <= p < pg + num
  }

  function Run(pg: Pgno, num: nat): set<Pgno> {
    set p: Pgno {:trigger InRun(pg, num, p)} | pg <= p < pg + num && InRun(pg, num, p)
  }

  // --- Conservation -----------------------------------------------------

  ghost predicate InRecord(recs: map<Txnid, set<Pgno>>, after: Txnid, p: Pgno) {
    exists r :: r in recs && after < r && p in recs[r]
  }

  ghost predicate RecordsDisjoint(recs: map<Txnid, set<Pgno>>, after: Txnid) {
    forall r1, r2 :: r1 in recs && r2 in recs && after < r1 < r2 ==> recs[r1] !! recs[r2]
  }

  // Page p is in one of the five places a write transaction knows.
  ghost predicate Placed(t: Txn, p: Pgno) {
    p in t.live || p in t.freePgs || p in t.loose || p in t.pghead || InRecord(t.recs, t.pglast, p)
  }

  // No page is in two places.
  ghost predicate Apart(t: Txn) {
    && t.live !! t.freePgs !! t.loose !! t.pghead
    && RecordsDisjoint(t.recs, t.pglast)
    && forall p {:trigger InRecord(t.recs, t.pglast, p)} :: InRecord(t.recs, t.pglast, p) ==>
         p !in t.live && p !in t.freePgs && p !in t.loose && p !in t.pghead
  }

  // Exactly the pages NUM_METAS .. next-1 are placed, each once.
  ghost predicate Conserved(t: Txn) {
    && Apart(t)
    && NUM_METAS <= t.next
    && forall p: Pgno :: Placed(t, p) <==> NUM_METAS <= p < t.next
  }

  // The same statement about a committed snapshot.
  ghost predicate ConservedSnapshot(s: Snapshot) {
    && RecordsDisjoint(s.recs, 0)
    && 0 !in s.recs
    && NUM_METAS <= s.next
    && (forall p: Pgno :: p in s.stamp || InRecord(s.recs, 0, p) <==> NUM_METAS <= p < s.next)
    && forall p {:trigger InRecord(s.recs, 0, p)} :: InRecord(s.recs, 0, p) ==> p !in s.stamp
  }

  // --- Steps ------------------------------------------------------------

  datatype Step =
    | Consume(r: Txnid)              // mdb_page_alloc: merge the next freeDB record into me_pghead
    | TakeRun(pg: Pgno, num: nat)    // mdb_page_alloc: num consecutive pages of me_pghead
    | TakeNew(num: nat)              // mdb_page_alloc: fresh pages at mt_next_pgno
    | TakeLoose(pg: Pgno)            // mdb_page_alloc: reuse a loose page
    | Retire(pg: Pgno)               // mdb_page_touch / mdb_page_loose / mdb_rebalance: append to mt_free_pgs
    | Loosen(pg: Pgno)               // mdb_page_loose on a dirty page
    | FreeRunBack(pg: Pgno, num: nat)  // mdb_ovpage_free of a dirty run, back into me_pghead
    | RetireRun(pg: Pgno, num: nat)  // mdb_ovpage_free: mdb_midl_append_range
    | Surrender                      // mdb_freelist_save: loose pages to mt_free_pgs, without a me_pghead

  // The next record cursor_get returns: smallest key above pglast.
  ghost predicate NextRecord(t: Txn, r: Txnid) {
    r in t.recs && t.pglast < r && forall q :: q in t.recs && t.pglast < q ==> r <= q
  }

  ghost predicate Enabled(t: Txn, s: Step) {
    match s
    case Consume(r) => NextRecord(t, r)
    case TakeRun(pg, num) => 0 < num && Run(pg, num) <= t.pghead
    case TakeNew(num) => 0 < num
    case TakeLoose(pg) => pg in t.loose
    case Retire(pg) => pg in t.live
    case Loosen(pg) => pg in t.live && pg in t.dirty
    case FreeRunBack(pg, num) => 0 < t.pglast && Run(pg, num) <= t.live && Run(pg, num) <= t.dirty
    case RetireRun(pg, num) => Run(pg, num) <= t.live
    case Surrender => t.pglast == 0
  }

  ghost function Apply(t: Txn, s: Step): Txn
    requires Enabled(t, s)
  {
    match s
    case Consume(r) => t.(pghead := t.pghead + t.recs[r], pglast := r)
    case TakeRun(pg, num) =>
      t.(pghead := t.pghead - Run(pg, num), live := t.live + Run(pg, num), dirty := t.dirty + Run(pg, num))
    case TakeNew(num) =>
      t.(next := t.next + num, live := t.live + Run(t.next, num), dirty := t.dirty + Run(t.next, num))
    case TakeLoose(pg) => t.(loose := t.loose - {pg}, live := t.live + {pg})
    case Retire(pg) => t.(live := t.live - {pg}, freePgs := t.freePgs + {pg})
    case Loosen(pg) => t.(live := t.live - {pg}, loose := t.loose + {pg})
    case FreeRunBack(pg, num) =>
      t.(live := t.live - Run(pg, num), dirty := t.dirty - Run(pg, num), pghead := t.pghead + Run(pg, num))
    case RetireRun(pg, num) => t.(live := t.live - Run(pg, num), freePgs := t.freePgs + Run(pg, num))
    case Surrender => t.(freePgs := t.freePgs + t.loose, dirty := t.dirty - t.loose, loose := {})
  }

  // The pages an allocation step hands out.
  ghost function HandedOut(t: Txn, s: Step): set<Pgno> {
    match s
    case TakeRun(pg, num) => Run(pg, num)
    case TakeNew(num) => Run(t.next, num)
    case TakeLoose(pg) => {pg}
    case _ => {}
  }

  lemma ConsumeConserves(t: Txn, r: Txnid)
    requires Conserved(t) && NextRecord(t, r)
    ensures Conserved(Apply(t, Consume(r)))
  {
    var u := Apply(t, Consume(r));
    forall p ensures Placed(u, p) <==> Placed(t, p) {
      if InRecord(t.recs, t.pglast, p) {
        var q :| q in t.recs && t.pglast < q && p in t.recs[q];
        if q != r { assert r < q; assert InRecord(u.recs, u.pglast, p); }
      }
      if p in t.recs[r] { assert InRecord(t.recs, t.pglast, p); }
      if InRecord(u.recs, u.pglast, p) { assert InRecord(t.recs, t.pglast, p); }
    }
    forall p ensures p in t.recs[r] ==> InRecord(t.recs, t.pglast, p) {}
    forall p | InRecord(u.recs, u.pglast, p) ensures InRecord(t.recs, t.pglast, p) && p !in t.recs[r] {
      var q :| q in u.recs && u.pglast < q && p in u.recs[q];
      assert t.recs[r] !! t.recs[q];
    }
  }

  // Every step keeps every page number in exactly one place.
  lemma StepConserves(t: Txn, s: Step)
    requires Conserved(t) && Enabled(t, s)
    ensures Conserved(Apply(t, s))
  {
    var u := Apply(t, s);
    if s.Consume? {
      ConsumeConserves(t, s.r);
    } else {
      assert forall p :: InRecord(u.recs, u.pglast, p) <==> InRecord(t.recs, t.pglast, p);
      forall p: Pgno ensures Placed(u, p) <==> NUM_METAS <= p < u.next {
        assert Placed(t, p) <==> NUM_METAS <= p < t.next;
      }
      if s.TakeNew? {
        assert forall p :: p in Run(t.next, s.num) ==> !Placed(t, p);
      }
    }
  }

  // --- Where a page goes ------------------------------------------------

  // Nowhere is beyond mt_next_pgno.
  datatype Place = Nowhere | InTree | OnFreePgs | OnLoose | InHead | InFreeDb

  ghost function Where(t: Txn, p: Pgno): Place {
    if p in t.live then InTree
    else if p in t.freePgs then OnFreePgs
    else if p in t.loose then OnLoose
    else if p in t.pghead then InHead
    else if InRecord(t.recs, t.pglast, p) then InFreeDb
    else Nowhere
  }

  // The pages a step moves, and the places they are moved from and to.
  ghost function Moved(t: Txn, s: Step): set<Pgno> {
    match s
    case Consume(r) => if r in t.recs then t.recs[r] else {}
    case TakeRun(pg, num) => Run(pg, num)
    case TakeNew(num) => Run(t.next, num)
    case FreeRunBack(pg, num) => Run(pg, num)
    case RetireRun(pg, num) => Run(pg, num)
    case Surrender => t.loose
    case TakeLoose(pg) => {pg}
    case Retire(pg) => {pg}
    case Loosen(pg) => {pg}
  }

  function From(s: Step): Place {
    match s
    case Consume(_) => InFreeDb
    case TakeRun(_, _) => InHead
    case TakeNew(_) => Nowhere
    case TakeLoose(_) => OnLoose
    case Surrender => OnLoose
    case _ => InTree
  }

  function To(s: Step): Place {
    match s
    case Consume(_) => InHead
    case FreeRunBack(_, _) => InHead
    case Retire(_) => OnFreePgs
    case RetireRun(_, _) => OnFreePgs
    case Surrender => OnFreePgs
    case Loosen(_) => OnLoose
    case _ => InTree
  }

  // Besides, a record is read after all older ones, what is handed out is not
  // empty, loose pages and runs given back are dirty, and me_pghead exists when a
  // run goes back to it, but not when loose pages go to mt_free_pgs.
  ghost predicate MayStep(t: Txn, s: Step) {
    match s
    case Consume(r) => r in t.recs && t.pglast < r && forall q :: q in t.recs && q < r ==> q <= t.pglast
    case TakeRun(_, num) => 0 < num
    case TakeNew(num) => 0 < num
    case Loosen(pg) => pg in t.dirty
    case FreeRunBack(_, _) => 0 < t.pglast && Moved(t, s) <= t.dirty
    case Surrender => t.pglast == 0
    case _ => true
  }

  // A step is possible exactly if its pages are where it takes them from.
  lemma EnabledIff(t: Txn, s: Step)
    requires Conserved(t)
    ensures Enabled(t, s) <==> MayStep(t, s) && forall p :: p in Moved(t, s) ==> Where(t, p) == From(s)
  {
    assert forall p: Pgno :: Placed(t, p) <==> NUM_METAS <= p < t.next;
    match s
    case Consume(r) =>
      if Enabled(t, s) {
        forall p | p in t.recs[r] ensures InRecord(t.recs, t.pglast, p) {}
      }
    case TakeNew(num) => assert forall p :: p in Run(t.next, num) ==> !Placed(t, p);
    case TakeRun(pg, num) => assert Run(pg, num) <= t.pghead <==> forall p :: p in Run(pg, num) ==> Where(t, p) == InHead;
    case FreeRunBack(pg, num) => assert Run(pg, num) <= t.live <==> forall p :: p in Run(pg, num) ==> Where(t, p) == InTree;
    case RetireRun(pg, num) => assert Run(pg, num) <= t.live <==> forall p :: p in Run(pg, num) ==> Where(t, p) == InTree;
    case TakeLoose(pg) => assert pg in Moved(t, s);
    case Retire(pg) => assert pg in Moved(t, s);
    case Loosen(pg) => assert pg in Moved(t, s);
    case Surrender =>
  }

  // A step moves its pages from the one place to the other, and no others; runs
  // that are handed out become dirty, and pages given back are dirty no longer.
  lemma StepMoves(t: Txn, s: Step, p: Pgno)
    requires Conserved(t) && Enabled(t, s)
    ensures p in Moved(t, s) ==> Where(t, p) == From(s)
    ensures Where(Apply(t, s), p) == if p in Moved(t, s) then To(s) else Where(t, p)
    ensures p in Apply(t, s).dirty <==>
      if p in Moved(t, s) && (s.TakeRun? || s.TakeNew?) then true
      else if p in Moved(t, s) && (s.FreeRunBack? || s.Surrender?) then false
      else p in t.dirty
  {
    var u := Apply(t, s);
    assert Placed(t, p) <==> NUM_METAS <= p < t.next;
    if s.Consume? {
      if p in t.recs[s.r] { assert InRecord(t.recs, t.pglast, p); }
      ConsumeMoves(t, s.r, p);
    } else {
      assert InRecord(u.recs, u.pglast, p) <==> InRecord(t.recs, t.pglast, p);
    }
  }

  lemma ConsumeMoves(t: Txn, r: Txnid, p: Pgno)
    requires Conserved(t) && NextRecord(t, r)
    ensures InRecord(t.recs, r, p) <==> InRecord(t.recs, t.pglast, p) && p !in t.recs[r]
  {
    if InRecord(t.recs, r, p) {
      var q :| q in t.recs && r < q && p in t.recs[q];
      assert t.recs[r] !! t.recs[q];
    }
    if InRecord(t.recs, t.pglast, p) && p !in t.recs[r] {
      var q :| q in t.recs && t.pglast < q && p in t.recs[q];
      assert r <= q;
    }
  }

  // What mdb_freelist_save returns to the freeDB.
  ghost function Back(t: Txn): set<Pgno> { t.pghead + t.loose }

  // The freeDB mdb_freelist_save leaves behind: consumed records are gone,
  // me_pghead and the loose pages are spread over records with keys in
  // 1 .. pglast, and mt_free_pgs is the record of this transaction n.
  ghost predicate Saved(t: Txn, n: Txnid, out: map<Txnid, set<Pgno>>) {
    && 0 !in out
    && (t.pglast == 0 ==> Back(t) == {})
    && (forall r :: r in out && t.pglast < r && r != n ==> r in t.recs && out[r] == t.recs[r])
    && (forall r :: r in t.recs && t.pglast < r && r != n ==> r in out)
    && (n in out ==> out[n] == t.freePgs)
    && (t.freePgs != {} ==> n in out)
    && (forall r :: r in out && r <= t.pglast ==> out[r] <= Back(t))
    && (forall p :: p in Back(t) ==> exists r :: r in out && r <= t.pglast && p in out[r])
    && forall r1, r2 :: r1 in out && r2 in out && r1 < r2 <= t.pglast ==> out[r1] !! out[r2]
  }

  // The snapshot the transaction commits.
  ghost function Committed(t: Txn, n: Txnid, base: Snapshot, out: map<Txnid, set<Pgno>>): Snapshot {
    Snapshot(
      map p | p in t.live :: if p in t.dirty then n else if p in base.stamp then base.stamp[p] else n,
      out, t.next)
  }

  lemma SavedRecordOrigin(t: Txn, n: Txnid, out: map<Txnid, set<Pgno>>, r: Txnid, p: Pgno)
    requires Saved(t, n, out) && r in out && p in out[r] && t.pglast < n
    ensures r <= t.pglast ==> p in Back(t)
    ensures r == n ==> p in t.freePgs
    ensures t.pglast < r && r != n ==> InRecord(t.recs, t.pglast, p)
  {
  }

  lemma SavedDisjoint(t: Txn, n: Txnid, out: map<Txnid, set<Pgno>>, r1: Txnid, r2: Txnid)
    requires Conserved(t) && Saved(t, n, out) && t.pglast < n
    requires r1 in out && r2 in out && r1 < r2
    ensures out[r1] !! out[r2]
  {
    if t.pglast < r1 && r1 != n && r2 != n {
      assert t.recs[r1] !! t.recs[r2];
    } else {
      forall p | p in out[r1] ensures p !in out[r2] {
        SavedRecordOrigin(t, n, out, r1, p);
        if p in out[r2] { SavedRecordOrigin(t, n, out, r2, p); }
      }
    }
  }

  lemma SavedPlaces(t: Txn, n: Txnid, out: map<Txnid, set<Pgno>>, p: Pgno)
    requires Conserved(t) && Saved(t, n, out) && t.pglast < n && n !in t.recs
    ensures p in t.live || InRecord(out, 0, p) <==> Placed(t, p)
    ensures InRecord(out, 0, p) ==> p !in t.live
  {
    if InRecord(out, 0, p) {
      var q :| q in out && 0 < q && p in out[q];
      SavedRecordOrigin(t, n, out, q, p);
    }
    if p in t.freePgs {
      assert p in out[n];
    }
    if p in Back(t) {
      var r :| r in out && r <= t.pglast && p in out[r];
      assert InRecord(out, 0, p);
    }
    if InRecord(t.recs, t.pglast, p) {
      var q :| q in t.recs && t.pglast < q && p in t.recs[q];
      assert q in out && out[q] == t.recs[q];
    }
  }

  // With such a freeDB the transaction commits a snapshot in which every page
  // number is again in exactly one place.
  lemma SaveConserves(t: Txn, n: Txnid, base: Snapshot, out: map<Txnid, set<Pgno>>)
    requires Conserved(t) && Saved(t, n, out)
    requires t.pglast < n && n !in t.recs
    ensures ConservedSnapshot(Committed(t, n, base, out))
  {
    var s := Committed(t, n, base, out);
    forall r1, r2 | r1 in out && r2 in out && r1 < r2 ensures out[r1] !! out[r2] {
      SavedDisjoint(t, n, out, r1, r2);
    }
    assert s.stamp.Keys == t.live;
    forall p: Pgno
      ensures p in s.stamp || InRecord(s.recs, 0, p) <==> NUM_METAS <= p < s.next
      ensures InRecord(s.recs, 0, p) ==> p !in s.stamp
    {
      SavedPlaces(t, n, out, p);
      assert p in s.stamp <==> p in t.live;
    }
  }

  lemma BeginConserves(base: Snapshot)
    requires ConservedSnapshot(base)
    ensures Conserved(Begin(base))
  {
    var t := Begin(base);
    assert forall p :: Placed(t, p) <==> p in base.stamp || InRecord(base.recs, 0, p);
  }
}
