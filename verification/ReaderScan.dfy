// What readers and the writer's scan of the reader table make of each other
// (liblmdb/src/mdb.c): which transaction a reader pins, and which transaction a
// scan takes for the oldest, in the runs of Mvcc.

module ReaderScan {
  import opened Lifecycle
  import opened Mvcc

  // --- What a scan of the reader table finds ----------------------------

  ghost predicate Scanning(s: State) { s.writer.Active? && !s.writer.scan.NoScan? }

  // From state i + 1, where the scan starts, to state j it is not over.
  ghost predicate Scans(run: seq<State>, i: nat, j: nat) {
    && IsRun(run) && i < j < |run|
    && Can(run[i], ScanStart) && run[i + 1] == Do(run[i], ScanStart)
    && forall m :: i < m <= j ==> Scanning(run[m])
  }

  // A scan that goes on either stands still or looks at the next slot.
  ghost predicate ScanStep(s: State, s': State) {
    && Scanning(s) && Scanning(s') && s'.writer.n == s.writer.n && s'.writer.env == s.writer.env
    && var scan, scan' := s.writer.scan, s'.writer.scan;
    || scan' == scan
    || (0 < scan.i <= |s.readers| && s'.readers == s.readers &&
        var r := s.readers[scan.i - 1];
        if scan.AtSlot? then scan' == if r.phase.Vacant? then AtSlot(scan.i - 1, scan.oldest) else SawPid(scan.i, scan.oldest)
        else scan' == AtSlot(scan.i - 1, if r.mark.At? && r.mark.txn < scan.oldest then r.mark.txn else scan.oldest))
  }

  lemma ScanGoesOn(s: State, a: Act)
    requires Can(s, a) && Scanning(s) && Scanning(Do(s, a))
    ensures ScanStep(s, Do(s, a))
  {
  }

  // All steps of the scan between states low and high.
  ghost predicate ScanSteps(run: seq<State>, low: nat, high: nat) {
    low <= high < |run| && forall m, m' :: low <= m < high && m' == m + 1 ==> ScanStep(run[m], run[m'])
  }

  lemma ScanIsSteps(run: seq<State>, i: nat, j: nat)
    requires Scans(run, i, j)
    ensures ScanSteps(run, i + 1, j)
    ensures run[i].writer.Active? && 0 < run[i].writer.n
    ensures run[i + 1] == SetScan(run[i], AtSlot(|run[i].readers|, run[i].writer.n - 1))
  {
    forall m, m' | i + 1 <= m < j && m' == m + 1 ensures ScanStep(run[m], run[m']) {
      var a := StepAt(run, m);
      ScanGoesOn(run[m], a);
    }
  }

  // The slot's transaction as the scan finds it in state m.
  ghost predicate ReadMark(run: seq<State>, m: nat, k: nat, txn: Txnid) {
    m < |run| && k < |run[m].readers| && run[m].readers[k].mark == At(txn)
  }

  lemma {:induction false} StepsSeen(run: seq<State>, low: nat, high: nat)
    requires ScanSteps(run, low, high) && Scanning(run[low])
    ensures Scanning(run[high]) && run[high].writer.n == run[low].writer.n
    ensures run[high].writer.scan.oldest == run[low].writer.scan.oldest ||
      exists m, k :: low <= m < high && ReadMark(run, m, k, run[high].writer.scan.oldest)
    decreases high
  {
    if low < high {
      StepsSeen(run, low, high - 1);
      assert ScanStep(run[high - 1], run[high]);
      var scan, scan' := run[high - 1].writer.scan, run[high].writer.scan;
      if scan'.oldest != scan.oldest {
        assert ReadMark(run, high - 1, scan.i - 1, scan'.oldest);
      }
    }
  }

  // However the scan is interleaved with readers, its result is the last
  // transaction, or what some slot held when the scan came by.
  lemma ScanResultSeen(run: seq<State>, i: nat, j: nat)
    requires Scans(run, i, j)
    ensures run[i].writer.Active? && 0 < run[i].writer.n == run[j].writer.n
    ensures run[j].writer.scan.oldest == run[i].writer.n - 1 ||
      exists m, k :: i < m < j && ReadMark(run, m, k, run[j].writer.scan.oldest)
  {
    ScanIsSteps(run, i, j);
    StepsSeen(run, i + 1, j);
  }

  // A reader that keeps its transaction from being passed.
  ghost predicate HoldsBack(r: Reader) { !r.phase.Vacant? && r.mark.At? }

  // The least of `last` and the transactions held by slots from `low` on.
  ghost predicate IsOldest(readers: seq<Reader>, low: nat, last: Txnid, oldest: Txnid) {
    && oldest <= last
    && (forall k :: low <= k < |readers| && HoldsBack(readers[k]) ==> oldest <= readers[k].mark.txn)
    && (oldest == last ||
        exists k :: low <= k < |readers| && HoldsBack(readers[k]) && readers[k].mark.txn == oldest)
  }

  lemma OldestNext(readers: seq<Reader>, low: nat, last: Txnid, oldest: Txnid, oldest': Txnid)
    requires IsOldest(readers, low + 1, last, oldest) && low < |readers|
    requires oldest' == if HoldsBack(readers[low]) && readers[low].mark.txn < oldest then readers[low].mark.txn else oldest
    ensures IsOldest(readers, low, last, oldest')
  {
  }

  // How far the scan has come.
  ghost predicate ScannedTo(s: State, last: Txnid) {
    && Scanning(s) && s.writer.scan.i <= |s.readers|
    && IsOldest(s.readers, s.writer.scan.i, last, s.writer.scan.oldest)
    && (s.writer.scan.SawPid? ==> 0 < s.writer.scan.i && !s.readers[s.writer.scan.i - 1].phase.Vacant?)
  }

  lemma ScannedStep(s: State, s': State, last: Txnid)
    requires ScanStep(s, s') && ScannedTo(s, last) && s'.readers == s.readers
    ensures ScannedTo(s', last)
  {
    var scan, scan' := s.writer.scan, s'.writer.scan;
    if scan'.i < scan.i { OldestNext(s.readers, scan.i - 1, last, scan.oldest, scan'.oldest); }
  }

  lemma {:induction false} StepsExact(run: seq<State>, low: nat, high: nat, last: Txnid)
    requires ScanSteps(run, low, high) && ScannedTo(run[low], last)
    requires forall m :: low <= m <= high ==> run[m].readers == run[low].readers
    ensures ScannedTo(run[high], last) && run[high].writer.env == run[low].writer.env && run[high].writer.n == run[low].writer.n
    decreases high
  {
    if low < high {
      StepsExact(run, low, high - 1, last);
      ScannedStep(run[high - 1], run[high], last);
    }
  }

  // When no slot changes during the scan, its result is the least of the last
  // transaction and those the occupied slots hold; the next record of the free
  // list may then be consumed if and only if it is older than all of them.
  lemma ScanExact(run: seq<State>, i: nat, j: nat, r: Txnid)
    requires Scans(run, i, j) && forall m :: i < m <= j ==> run[m].readers == run[i].readers
    requires Can(run[j], ScanEnd) && NextRecord(run[j].writer.t, r)
    ensures var s, n := Do(run[j], ScanEnd), run[i].writer.n;
      && 0 < n && s.readers == run[i].readers && IsOldest(s.readers, 0, n - 1, Cached(s, run[i].writer.env))
      && (Can(s, Move(Consume(r))) <==>
          r < n - 1 && forall k :: 0 <= k < |s.readers| && HoldsBack(s.readers[k]) ==> r < s.readers[k].mark.txn)
  {
    ScanIsSteps(run, i, j);
    StepsExact(run, i + 1, j, run[i].writer.n - 1);
    ScanDone(run[j], run[i].writer.n - 1, r);
  }

  lemma ScanDone(s: State, last: Txnid, r: Txnid)
    requires Can(s, ScanEnd) && ScannedTo(s, last) && NextRecord(s.writer.t, r)
    ensures var s' := Do(s, ScanEnd);
      && s'.readers == s.readers && IsOldest(s.readers, 0, last, Cached(s', s.writer.env))
      && (Can(s', Move(Consume(r))) <==>
          r < last && forall k :: 0 <= k < |s.readers| && HoldsBack(s.readers[k]) ==> r < s.readers[k].mark.txn)
  {
    var s' := Do(s, ScanEnd);
    assert Cached(s', s.writer.env) == s.writer.scan.oldest;
    assert Can(s', Move(Consume(r))) <==> r < s.writer.scan.oldest;
  }

  // --- What a reader gets to pin ----------------------------------------

  ghost predicate Trying(s: State, k: nat) {
    k < |s.readers| && (s.readers[k].phase.Loading? || s.readers[k].phase.Checking?)
  }

  // From its Load after state i to state j the reader is in one turn of its
  // retry loop.
  ghost predicate Tries(run: seq<State>, i: nat, j: nat, k: nat) {
    && IsRun(run) && i < j < |run| && Can(run[i], Load(k)) && run[i + 1] == Do(run[i], Load(k))
    && forall m :: i < m <= j ==> Trying(run[m], k)
  }

  ghost predicate TriesFor(s: State, k: nat, v: Txnid) {
    Trying(s, k) && s.readers[k].phase.v == v && (s.readers[k].phase.Checking? ==> s.readers[k].mark == At(v))
  }

  lemma TryStep(s: State, a: Act, k: nat, v: Txnid)
    requires Can(s, a) && TriesFor(s, k, v) && Trying(Do(s, a), k)
    ensures TriesFor(Do(s, a), k, v)
  {
  }

  ghost predicate TrySteps(run: seq<State>, low: nat, high: nat, k: nat, v: Txnid) {
    low <= high < |run| && forall m, m' :: low <= m < high && m' == m + 1 && TriesFor(run[m], k, v) ==> TriesFor(run[m'], k, v)
  }

  lemma {:induction false} TriesOn(run: seq<State>, low: nat, high: nat, k: nat, v: Txnid)
    requires TrySteps(run, low, high, k, v) && TriesFor(run[low], k, v)
    ensures TriesFor(run[high], k, v)
    decreases high
  {
    if low < high { TriesOn(run, low, high - 1, k, v); }
  }

  // The turn ends with a pin on the transaction that was the newest when the
  // turn began, if it still is, and otherwise with another turn.
  lemma ReaderPins(run: seq<State>, i: nat, j: nat, k: nat)
    requires Tries(run, i, j, k) && Can(run[j], Check(k))
    ensures var v, r := run[i].global, Do(run[j], Check(k)).readers[k];
      r == Reader(At(v), if run[j].global == v then Pinned(v) else Claimed)
  {
    var v := run[i].global;
    forall m, m' | i + 1 <= m < j && m' == m + 1 && TriesFor(run[m], k, v) ensures TriesFor(run[m'], k, v) {
      var a := StepAt(run, m);
      TryStep(run[m], a, k, v);
    }
    TriesOn(run, i + 1, j, k, v);
  }

  // A slot between two transactions.
  ghost predicate HoldsNothing(s: State, k: nat) {
    k < |s.readers| && s.readers[k].mark == Unset && !HasPin(s.readers[k])
  }

  // After state i + 1, where a read transaction ends, no new one has stored its
  // transaction in the slot up to state j.
  ghost predicate Unused(run: seq<State>, i: nat, j: nat, k: nat, vacate: bool) {
    && IsRun(run) && i < j < |run| && Can(run[i], Finish(k, vacate)) && run[i + 1] == Do(run[i], Finish(k, vacate))
    && forall m :: i < m <= j ==> k < |run[m].readers| && !run[m].readers[k].phase.Checking?
  }

  lemma UnusedStep(s: State, a: Act, k: nat)
    requires Can(s, a) && HoldsNothing(s, k) && !s.readers[k].phase.Checking?
    requires k < |Do(s, a).readers| && !Do(s, a).readers[k].phase.Checking?
    ensures HoldsNothing(Do(s, a), k)
  {
  }

  ghost predicate UnusedSteps(run: seq<State>, low: nat, high: nat, k: nat) {
    low <= high < |run| && forall m, m' :: low <= m < high && m' == m + 1 && HoldsNothing(run[m], k) ==> HoldsNothing(run[m'], k)
  }

  lemma {:induction false} UnusedOn(run: seq<State>, low: nat, high: nat, k: nat)
    requires UnusedSteps(run, low, high, k) && HoldsNothing(run[low], k)
    ensures HoldsNothing(run[high], k)
    decreases high
  {
    if low < high { UnusedOn(run, low, high - 1, k); }
  }

  // A slot holds nothing back between its transactions.
  lemma IdleSlotHoldsNothing(run: seq<State>, i: nat, j: nat, k: nat, vacate: bool)
    requires Unused(run, i, j, k, vacate)
    ensures HoldsNothing(run[j], k) && !HoldsBack(run[j].readers[k])
  {
    forall m, m' | i + 1 <= m < j && m' == m + 1 && HoldsNothing(run[m], k) ensures HoldsNothing(run[m'], k) {
      var a := StepAt(run, m);
      UnusedStep(run[m], a, k);
    }
    UnusedOn(run, i + 1, j, k);
  }
}
