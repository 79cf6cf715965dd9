// Nothing keeps a transaction of Mvcc from its end (liblmdb/src/mdb.c): from
// every reachable state the writer can commit by its own steps, and a reader
// can get its snapshot, whatever the others have done before.

module CommitRuns {
  import opened Lifecycle
  import opened FreelistSave
  import opened Mvcc
  import FreeRuns

  ghost function Last(run: seq<State>): State
    requires run != []
  {
    run[|run| - 1]
  }

  // The run goes on, and only the writer, the cached oldest transaction and the
  // disk have changed.
  ghost predicate Longer(run: seq<State>, longer: seq<State>)
    requires run != []
  {
    && IsRun(longer) && run <= longer
    && Last(longer).hist == Last(run).hist && Last(longer).meta == Last(run).meta
    && Last(longer).global == Last(run).global && Last(longer).readers == Last(run).readers
  }

  lemma Appended(run: seq<State>, a: Act) returns (longer: seq<State>)
    requires IsRun(run) && Can(Last(run), a)
    ensures IsRun(longer) && run <= longer && Last(longer) == Do(Last(run), a)
  {
    longer := run + [Do(Last(run), a)];
    forall i | 0 <= i < |longer| - 1 ensures NextAt(longer, i) {
      if i < |run| - 1 { assert NextAt(run, i); }
    }
  }

  // --- The scan ---------------------------------------------------------

  ghost function ScanLeft(scan: Scan): int {
    match scan
    case NoScan => 0
    case AtSlot(i, _) => 2 * i + 2
    case SawPid(i, _) => 2 * i + 1
  }

  lemma ScanFacts(run: seq<State>)
    requires IsRun(run) && Last(run).writer.Active? && !Last(run).writer.scan.NoScan?
    ensures var s := Last(run);
      Allocates(s) && s.writer.scan.i <= |s.readers| && (s.writer.scan.SawPid? ==> 0 < s.writer.scan.i)
  {
    RunInv(run, |run| - 1);
  }

  lemma OneScan(run: seq<State>) returns (longer: seq<State>)
    requires IsRun(run) && Last(run).writer.Active? && !Last(run).writer.scan.NoScan?
    ensures Longer(run, longer) && Last(longer).writer.Active?
    ensures Last(longer).writer == Last(run).writer.(scan := Last(longer).writer.scan)
    ensures 0 <= ScanLeft(Last(longer).writer.scan) < ScanLeft(Last(run).writer.scan)
  {
    ScanFacts(run);
    var scan := Last(run).writer.scan;
    longer := Appended(run, if scan.SawPid? then ScanTxn else if scan.i > 0 then ScanPid else ScanEnd);
  }

  lemma LongerStill(a: seq<State>, b: seq<State>, c: seq<State>)
    requires a != [] && b != [] && Longer(a, b) && Longer(b, c)
    ensures Longer(a, c)
  {
  }

  lemma {:induction false} FinishScan(run: seq<State>) returns (longer: seq<State>)
    requires IsRun(run) && Last(run).writer.Active?
    ensures Longer(run, longer) && Last(longer).writer == Last(run).writer.(scan := NoScan)
    decreases ScanLeft(Last(run).writer.scan)
  {
    longer := run;
    if !Last(run).writer.scan.NoScan? {
      var next := OneScan(run);
      longer := FinishScan(next);
      LongerStill(run, next, longer);
    }
  }

  // --- The free list ----------------------------------------------------

  // Between two turns of the loop of mdb_freelist_save.
  ghost predicate SavesAt(run: seq<State>, n: Txnid, t: Txn, v: Save) {
    && IsRun(run) && Last(run).writer.Active? && Last(run).writer.stage == Saving(v) && Last(run).writer.scan.NoScan?
    && Last(run).writer.n == n && Last(run).writer.t == t
  }

  lemma SaveFacts(run: seq<State>, n: Txnid, t: Txn, v: Save)
    requires SavesAt(run, n, t, v)
    ensures SaveInv(v, t) && t.pglast < n && n !in t.recs && Conserved(t)
  {
    RunInv(run, |run| - 1);
    OwnRecord(Last(run));
  }

  lemma OneTurn(run: seq<State>, n: Txnid, t: Txn, v: Save, maxfree: nat, turn: Turn) returns (longer: seq<State>)
    requires SavesAt(run, n, t, v) && CanTurn(v, t, n, turn) && 0 < maxfree
    ensures Longer(run, longer) && SavesAt(longer, n, t, AfterTurn(v, t, maxfree, turn))
  {
    longer := Appended(run, SaveTurn(turn, maxfree));
  }

  lemma {:induction false} FinishTurns(run: seq<State>, n: Txnid, t: Txn, v: Save, maxfree: nat, turns: seq<Turn>)
    returns (longer: seq<State>, v': Save)
    requires SavesAt(run, n, t, v) && 0 < maxfree && Ends(v, t, n, maxfree, turns)
    ensures Longer(run, longer) && SavesAt(longer, n, t, v') && Caught(v', t) && Enough(v', t)
    decreases |turns|
  {
    longer, v' := run, v;
    if turns != [] {
      var next := OneTurn(run, n, t, v, maxfree, turns[0]);
      longer, v' := FinishTurns(next, n, t, AfterTurn(v, t, maxfree, turns[0]), maxfree, turns[1..]);
      LongerStill(run, next, longer);
    }
  }

  lemma {:induction false} Greatest(s: set<Pgno>) returns (p: Pgno)
    requires s != {}
    ensures p in s && forall q :: q in s ==> q <= p
    decreases |s|
  {
    var any: Pgno :| any in s;
    var rest := s - {any};
    assert s == rest + {any};
    p := any;
    if rest != {} {
      assert |rest| < |s|;
      var q := Greatest(rest);
      if any < q { p := q; }
    }
  }

  // Any set of pages can be listed in descending order.
  lemma {:induction false} ListDown(s: set<Pgno>) returns (l: seq<Pgno>)
    ensures FreeRuns.Strict(l) && |l| == |s| && forall p :: p in l <==> p in s
    decreases |s|
  {
    l := [];
    if s != {} {
      var p := Greatest(s);
      var rest := s - {p};
      assert s == rest + {p} && |rest| == |s| - 1;
      var tail := ListDown(rest);
      l := [p] + tail;
      forall x, y | 0 <= x < y < |l| ensures l[x] > l[y] {
        assert l[y] == tail[y - 1] && tail[y - 1] in rest;
        if x > 0 { assert tail[x - 1] > tail[y - 1]; }
      }
    }
  }

  lemma ListBack(t: Txn) returns (mop: seq<Pgno>)
    requires Conserved(t)
    ensures Lists(mop, t)
  {
    mop := ListDown(Back(t));
    assert |t.pghead + t.loose| == |t.pghead| + |t.loose|;
  }

  // The pages still to be written before the meta page.
  ghost predicate FlushesAt(run: seq<State>, n: Txnid, todo: set<Pgno>) {
    && IsRun(run) && Last(run).writer.Active? && Last(run).writer.n == n
    && Last(run).writer.stage.Flushing? && Last(run).writer.stage.todo == todo
  }

  lemma FinishSave(run: seq<State>, n: Txnid, t: Txn, v: Save, maxfree: nat) returns (longer: seq<State>, todo: set<Pgno>)
    requires SavesAt(run, n, t, v) && 0 < maxfree
    ensures Longer(run, longer) && FlushesAt(longer, n, todo)
  {
    SaveFacts(run, n, t, v);
    var turns := SaveFinishes(v, t, n, maxfree);
    var ended, v' := FinishTurns(run, n, t, v, maxfree, turns);
    var mop := ListBack(t);
    longer, todo := EndSave(ended, n, t, v', mop);
    LongerStill(run, ended, longer);
  }

  // All dirty pages but the loose ones are flushed.
  lemma EndSave(run: seq<State>, n: Txnid, t: Txn, v: Save, mop: seq<Pgno>) returns (longer: seq<State>, todo: set<Pgno>)
    requires SavesAt(run, n, t, v) && Caught(v, t) && Enough(v, t) && Lists(mop, t)
    ensures Longer(run, longer) && FlushesAt(longer, n, todo)
    ensures forall p :: p in todo <==> p in t.dirty && p !in t.loose
  {
    longer := Appended(run, SaveEnd(mop));
    todo := Last(longer).writer.stage.todo;
  }

  // --- The pages and the meta page --------------------------------------

  lemma OnePage(run: seq<State>, n: Txnid, todo: set<Pgno>, p: Pgno) returns (longer: seq<State>)
    requires FlushesAt(run, n, todo) && p in todo
    ensures Longer(run, longer) && FlushesAt(longer, n, todo - {p})
  {
    longer := Appended(run, WritePage(p));
  }

  lemma {:induction false} FinishFlush(run: seq<State>, n: Txnid, todo: set<Pgno>) returns (longer: seq<State>)
    requires FlushesAt(run, n, todo)
    ensures Longer(run, longer) && FlushesAt(longer, n, {})
    decreases |todo|
  {
    longer := run;
    if todo != {} {
      var p :| p in todo;
      assert todo == (todo - {p}) + {p};
      var next := OnePage(run, n, todo, p);
      longer := FinishFlush(next, n, todo - {p});
      LongerStill(run, next, longer);
    }
  }

  // The commit is done.
  ghost predicate Commits(run: seq<State>, longer: seq<State>, n: Txnid)
    requires run != []
  {
    && IsRun(longer) && run <= longer && Last(longer).writer.Idle?
    && Last(longer).global == n == |Last(longer).hist| - 1 && Last(run).hist <= Last(longer).hist
    && Last(longer).readers == Last(run).readers
  }

  lemma WriteBoth(run: seq<State>, n: Txnid) returns (longer: seq<State>)
    requires FlushesAt(run, n, {})
    ensures Commits(run, longer, n)
  {
    RunInv(run, |run| - 1);
    var written := Appended(run, WriteMeta);
    longer := Appended(written, Publish);
  }

  lemma PublishIt(run: seq<State>) returns (longer: seq<State>)
    requires IsRun(run) && Last(run).writer.Active? && Last(run).writer.stage.MetaWritten?
    ensures Commits(run, longer, Last(run).writer.n)
  {
    RunInv(run, |run| - 1);
    longer := Appended(run, Publish);
  }

  lemma StartSave(run: seq<State>) returns (longer: seq<State>, t: Txn)
    requires IsRun(run) && Last(run).writer.Active? && Last(run).writer.stage.Working? && Last(run).writer.scan.NoScan?
    ensures Longer(run, longer) && SavesAt(longer, Last(run).writer.n, t, Start)
  {
    longer := Appended(run, SaveStart);
    t := Last(longer).writer.t;
  }

  lemma Then(run: seq<State>, next: seq<State>, longer: seq<State>, n: Txnid)
    requires run != [] && next != [] && Longer(run, next) && Commits(next, longer, n)
    ensures Commits(run, longer, n)
  {
  }

  lemma CommitFlushed(run: seq<State>, n: Txnid, todo: set<Pgno>) returns (longer: seq<State>)
    requires FlushesAt(run, n, todo)
    ensures Commits(run, longer, n)
  {
    var next := FinishFlush(run, n, todo);
    longer := WriteBoth(next, n);
    Then(run, next, longer, n);
  }

  lemma CommitSaved(run: seq<State>, n: Txnid, t: Txn, v: Save, maxfree: nat) returns (longer: seq<State>)
    requires SavesAt(run, n, t, v) && 0 < maxfree
    ensures Commits(run, longer, n)
  {
    var next, todo := FinishSave(run, n, t, v, maxfree);
    longer := CommitFlushed(next, n, todo);
    Then(run, next, longer, n);
  }

  lemma CommitWorking(run: seq<State>, maxfree: nat) returns (longer: seq<State>)
    requires IsRun(run) && Last(run).writer.Active? && Last(run).writer.stage.Working? && Last(run).writer.scan.NoScan?
    requires 0 < maxfree
    ensures Commits(run, longer, Last(run).writer.n)
  {
    var next, t := StartSave(run);
    longer := CommitSaved(next, Last(run).writer.n, t, Start, maxfree);
    Then(run, next, longer, Last(run).writer.n);
  }

  lemma CommitScanned(run: seq<State>, maxfree: nat) returns (longer: seq<State>)
    requires IsRun(run) && Last(run).writer.Active? && Last(run).writer.scan.NoScan? && 0 < maxfree
    ensures Commits(run, longer, Last(run).writer.n)
  {
    var w := Last(run).writer;
    match w.stage
    case Working => longer := CommitWorking(run, maxfree);
    case Saving(v) => longer := CommitSaved(run, w.n, w.t, v, maxfree);
    case Flushing(_, todo) => longer := CommitFlushed(run, w.n, todo);
    case MetaWritten => longer := PublishIt(run);
  }

  // Wherever the writer is, it can commit: its transaction becomes the last of
  // the history and the one that mti_txnid names.
  lemma WriterCommits(run: seq<State>, maxfree: nat) returns (longer: seq<State>)
    requires IsRun(run) && Last(run).writer.Active? && 0 < maxfree
    ensures Commits(run, longer, Last(run).writer.n)
  {
    var next := FinishScan(run);
    longer := CommitScanned(next, maxfree);
    Then(run, next, longer, Last(run).writer.n);
  }

  // A reader that is left alone gets the newest snapshot.
  lemma ReaderReads(run: seq<State>, k: nat) returns (longer: seq<State>)
    requires IsRun(run) && k < |Last(run).readers| && Last(run).readers[k].phase.Vacant?
    ensures IsRun(longer) && run <= longer
    ensures var s, v := Last(run), Last(run).global;
      Last(longer) == s.(readers := s.readers[k := Reader(At(v), Reading(v, v))])
  {
    var s := Last(run);
    MetaNames(run);
    longer := Appended(run, Claim(k));
    longer := Appended(longer, Load(k));
    longer := Appended(longer, Store(k));
    longer := Appended(longer, Check(k));
    longer := Appended(longer, Copy(k));
    assert s.readers[k := Last(longer).readers[k]] == Last(longer).readers;
  }

  lemma MetaNames(run: seq<State>)
    requires IsRun(run)
    ensures |Last(run).meta| == 2 && Last(run).meta[Last(run).global % 2] == Last(run).global
  {
    RunInv(run, |run| - 1);
  }

  // Its transaction can end.
  lemma ReaderEnds(run: seq<State>, k: nat, vacate: bool) returns (longer: seq<State>)
    requires IsRun(run) && k < |Last(run).readers| && Last(run).readers[k].phase.Reading?
    ensures IsRun(longer) && run <= longer
    ensures var s, phase := Last(run), if vacate then Vacant else Claimed;
      Last(longer) == s.(readers := s.readers[k := Reader(Unset, phase)])
  {
    longer := Appended(run, Finish(k, vacate));
  }

  // --- Beginnings and other ends ----------------------------------------

  // Without a writer one can begin, on the last snapshot of the history.
  lemma WriterBegins(run: seq<State>, env: nat) returns (longer: seq<State>)
    requires IsRun(run) && Last(run).writer.Idle?
    ensures IsRun(longer) && run <= longer
    ensures var s := Last(run);
      && 0 < |s.hist|
      && Last(longer) == s.(writer := Active(env, |s.hist|, Begin(s.hist[|s.hist| - 1]), NoScan, Working))
  {
    RunInv(run, |run| - 1);
    longer := Appended(run, BeginWrite(env));
  }

  // Until its meta page is written a transaction can be aborted, and leaves
  // nothing but what it has written to the disk.
  lemma WriterAborts(run: seq<State>) returns (longer: seq<State>)
    requires IsRun(run) && Last(run).writer.Active? && !Last(run).writer.stage.MetaWritten?
    ensures IsRun(longer) && run <= longer && Last(longer) == Last(run).(writer := Idle)
  {
    longer := Appended(run, Abort);
  }

  // Everything can stop at any moment; what is left is the history and the disk,
  // and the last snapshot of the history is the one to go on from.
  lemma Crashes(run: seq<State>) returns (longer: seq<State>)
    requires IsRun(run)
    ensures IsRun(longer) && run <= longer && Last(longer).writer.Idle? && Last(longer).readers == []
    ensures Last(longer).hist == Last(run).hist && Last(longer).disk == Last(run).disk && Last(longer).meta == Last(run).meta
    ensures Last(longer).global == |Last(run).hist| - 1
  {
    RunInv(run, |run| - 1);
    longer := Appended(run, Crash);
    assert PickMeta(Last(run).meta) == Last(run).Latest();
  }

  // While a transaction works, pages can be allocated, freed and written, and a
  // scan can begin. Only the use of free-list records depends on readers.
  lemma WriterWorks(run: seq<State>, step: Step) returns (longer: seq<State>)
    requires IsRun(run) && Last(run).writer.Active? && Last(run).writer.stage.Working? && Last(run).writer.scan.NoScan?
    requires Enabled(Last(run).writer.t, step) && !step.Consume? && !step.Surrender?
    ensures IsRun(longer) && run <= longer
    ensures var s, w := Last(run), Last(run).writer; Last(longer) == s.(writer := w.(t := Apply(w.t, step)))
  {
    longer := Appended(run, Move(step));
  }

  lemma WriterSpills(run: seq<State>, p: Pgno) returns (longer: seq<State>)
    requires IsRun(run) && Last(run).writer.Active? && Last(run).writer.stage.Working? && p in Last(run).writer.t.dirty
    ensures IsRun(longer) && run <= longer
    ensures Last(longer) == Last(run).(disk := Last(run).disk[p := Last(run).writer.n])
  {
    longer := Appended(run, WritePage(p));
  }

  lemma ScanBegins(run: seq<State>) returns (longer: seq<State>)
    requires IsRun(run) && Last(run).writer.Active? && Last(run).writer.stage.Working? && Last(run).writer.scan.NoScan?
    ensures IsRun(longer) && run <= longer && Last(longer).writer.Active? && !Last(longer).writer.scan.NoScan?
  {
    RunInv(run, |run| - 1);
    longer := Appended(run, ScanStart);
  }
}
