// One writer at a time, any number of readers, any number of processes, and
// crashes (liblmdb/src/mdb.c). A reader registers in several separate steps
// and the writer scans the reader table one field at a time, so every
// interleaving of the two is a run of this machine.

module Mvcc {
  import opened Lifecycle
  import opened FreelistSave

  // mr_txnid: (txnid_t)-1, or the transaction the slot pins.
  datatype Mark = Unset | At(txn: Txnid)

  // Where a reader is in mdb_txn_renew0.
  datatype Phase =
    | Vacant                           // mr_pid == 0
    | Claimed                          // slot owned; about to (re)load mti_txnid
    | Loading(v: Txnid)                // mti_txnid read into a register
    | Checking(v: Txnid)               // stored in the slot, not yet compared again
    | Pinned(v: Txnid)                 // retry loop finished
    | Reading(v: Txnid, snap: Txnid)   // DB records copied from a meta page

  datatype Reader = Reader(mark: Mark, phase: Phase)

  // mdb_find_oldest, walking the slots downward: pid first, then txnid.
  datatype Scan =
    | NoScan
    | AtSlot(i: nat, oldest: Txnid)
    | SawPid(i: nat, oldest: Txnid)

  datatype Stage =
    | Working
    | Saving(v: Save)
    | Flushing(out: map<Txnid, set<Pgno>>, todo: set<Pgno>)
    | MetaWritten

  datatype Writer =
    | Idle
    | Active(env: nat, n: Txnid, t: Txn, scan: Scan, stage: Stage)

  // `hist` lists every committed snapshot by transaction ID and `floor` is a
  // history variable: the oldest snapshot that is still protected.
  datatype State = State(
    hist: seq<Snapshot>, meta: seq<Txnid>, global: Txnid, disk: map<Pgno, Txnid>,
    readers: seq<Reader>, caches: map<nat, Txnid>, writer: Writer, floor: Txnid)
  {
    ghost function Latest(): int { |hist| - 1 }
  }

  const EmptyDb := Snapshot(map[], map[], NUM_METAS)

  const Init := State([EmptyDb], [0, 0], 0, map[], [], map[], Idle, 0)

  // me_pgoldest of a process.
  function Cached(s: State, env: nat): Txnid {
    if env in s.caches then s.caches[env] else 0
  }

  // mdb_env_pick_meta
  function PickMeta(meta: seq<Txnid>): Txnid
    requires |meta| == 2
  {
    if meta[0] < meta[1] then meta[1] else meta[0]
  }

  function Max(a: Txnid, b: Txnid): Txnid { if a < b then b else a }

  function Min(a: Txnid, b: Txnid): Txnid { if a < b then a else b }

  // --- Steps ------------------------------------------------------------

  datatype Act =
    | AddSlot                 // publish a new slot in mti_numreaders
    | Claim(i: nat)           // mr_pid = pid
    | Load(i: nat)            // read mti_txnid
    | Store(i: nat)           // mr_txnid = the value read
    | Check(i: nat)           // read mti_txnid again and compare
    | Copy(i: nat)            // copy the DB records of meta page txnid & 1
    | Finish(i: nat, vacate: bool)
    | BeginWrite(env: nat)
    | ScanStart
    | ScanPid
    | ScanTxn
    | ScanEnd
    | Move(step: Step)
    | SaveStart               // mdb_freelist_save, up to its loop
    | SaveTurn(turn: Turn, maxfree: nat)
    | SaveEnd(mop: seq<Pgno>) // fill in the reserved records
    | WritePage(p: Pgno)      // spill, or the commit's flush
    | WriteMeta
    | Publish
    | Abort
    | Crash                   // and reopen: the lock file starts afresh

  ghost predicate Can(s: State, a: Act) {
    match a
    case AddSlot => true
    case Claim(i) => i < |s.readers| && s.readers[i].phase.Vacant?
    case Load(i) => i < |s.readers| && s.readers[i].phase.Claimed?
    case Store(i) => i < |s.readers| && s.readers[i].phase.Loading?
    case Check(i) => i < |s.readers| && s.readers[i].phase.Checking?
    case Copy(i) => i < |s.readers| && s.readers[i].phase.Pinned? && |s.meta| == 2
    case Finish(i, _) => i < |s.readers| && s.readers[i].phase.Reading?
    case BeginWrite(_) => s.writer.Idle? && s.global < |s.hist|
    case ScanStart => Allocates(s) && s.writer.scan.NoScan? && 0 < s.writer.n
    case ScanPid =>
      Allocates(s) && s.writer.scan.AtSlot? && 0 < s.writer.scan.i <= |s.readers|
    case ScanTxn =>
      Allocates(s) && s.writer.scan.SawPid? && 0 < s.writer.scan.i <= |s.readers|
    case ScanEnd => Allocates(s) && s.writer.scan.AtSlot? && s.writer.scan.i == 0
    case Move(step) =>
      && Allocates(s) && s.writer.scan.NoScan? && Enabled(s.writer.t, step) && !step.Surrender?
      && (step.Consume? ==> step.r < Cached(s, s.writer.env))
      && (step.Loosen? ==> s.writer.stage.Working?)   // no page of the freeDB becomes loose
    case SaveStart => InStage(s, Working) && s.writer.scan.NoScan?
    case SaveTurn(turn, maxfree) =>
      && Saves(s) && s.writer.scan.NoScan? && 0 < maxfree
      && CanTurn(s.writer.stage.v, s.writer.t, s.writer.n, turn)
    case SaveEnd(mop) =>
      && Saves(s) && s.writer.scan.NoScan? && Lists(mop, s.writer.t)
      && Caught(s.writer.stage.v, s.writer.t) && Enough(s.writer.stage.v, s.writer.t)
    case WritePage(p) =>
      && s.writer.Active?
      && ((Allocates(s) && p in s.writer.t.dirty) ||
          (s.writer.stage.Flushing? && p in s.writer.stage.todo))
    case WriteMeta => s.writer.Active? && s.writer.stage.Flushing? && s.writer.stage.todo == {} &&
      |s.meta| == 2 && |s.hist| > 0
    case Publish => InStage(s, MetaWritten)
    case Abort => s.writer.Active? && !s.writer.stage.MetaWritten?
    case Crash => |s.meta| == 2
  }

  ghost predicate InStage(s: State, stage: Stage) {
    s.writer.Active? && s.writer.stage == stage
  }

  ghost predicate Saves(s: State) {
    s.writer.Active? && s.writer.stage.Saving?
  }

  // While the transaction works, and while its free list is saved.
  ghost predicate Allocates(s: State) {
    InStage(s, Working) || Saves(s)
  }

  ghost function SetReader(s: State, i: nat, r: Reader): State
    requires i < |s.readers|
  {
    s.(readers := s.readers[i := r])
  }

  ghost function SetScan(s: State, scan: Scan): State
    requires s.writer.Active?
  {
    s.(writer := s.writer.(scan := scan))
  }

  ghost function Do(s: State, a: Act): State
    requires Can(s, a)
  {
    match a
    case AddSlot => s.(readers := s.readers + [Reader(Unset, Vacant)])
    case Claim(i) => SetReader(s, i, Reader(Unset, Claimed))
    case Load(i) => SetReader(s, i, s.readers[i].(phase := Loading(s.global)))
    case Store(i) => var v := s.readers[i].phase.v; SetReader(s, i, Reader(At(v), Checking(v)))
    case Check(i) =>
      var v := s.readers[i].phase.v;
      SetReader(s, i, s.readers[i].(phase := if v == s.global then Pinned(v) else Claimed))
    case Copy(i) =>
      var v := s.readers[i].phase.v;
      SetReader(s, i, s.readers[i].(phase := Reading(v, s.meta[v % 2])))
    case Finish(i, vacate) => SetReader(s, i, Reader(Unset, if vacate then Vacant else Claimed))
    case BeginWrite(env) =>
      s.(writer := Active(env, s.global + 1, Begin(s.hist[s.global]), NoScan, Working))
    case ScanStart => SetScan(s, AtSlot(|s.readers|, s.writer.n - 1))
    case ScanPid =>
      var i, oldest := s.writer.scan.i, s.writer.scan.oldest;
      SetScan(s, if s.readers[i - 1].phase.Vacant? then AtSlot(i - 1, oldest) else SawPid(i, oldest))
    case ScanTxn =>
      var i, oldest := s.writer.scan.i, s.writer.scan.oldest;
      var mark := s.readers[i - 1].mark;
      SetScan(s, AtSlot(i - 1, if mark.At? then Min(oldest, mark.txn) else oldest))
    case ScanEnd =>
      var oldest := s.writer.scan.oldest;
      SetScan(s, NoScan).(caches := s.caches[s.writer.env := oldest],
                          floor := Max(s.floor, if oldest == 0 then 0 else oldest - 1))
    case Move(step) => s.(writer := s.writer.(t := Apply(s.writer.t, step)))
    case SaveStart =>
      var t := s.writer.t;
      s.(writer := s.writer.(stage := Saving(Start), t := if t.pglast == 0 then Apply(t, Surrender) else t))
    case SaveTurn(turn, maxfree) =>
      s.(writer := s.writer.(stage := Saving(AfterTurn(s.writer.stage.v, s.writer.t, maxfree, turn))))
    case SaveEnd(mop) =>
      var w := s.writer;
      s.(writer := w.(stage := Flushing(Filled(w.stage.v, w.t, w.n, mop), w.t.dirty - w.t.loose)))
    case WritePage(p) =>
      var s' := s.(disk := s.disk[p := s.writer.n]);
      if Allocates(s) then s'
      else s'.(writer := s.writer.(stage := s.writer.stage.(todo := s.writer.stage.todo - {p})))
    case WriteMeta =>
      var w := s.writer;
      s.(hist := s.hist + [Committed(w.t, w.n, s.hist[|s.hist| - 1], w.stage.out)],
         meta := s.meta[w.n % 2 := w.n],
         writer := w.(stage := MetaWritten))
    case Publish => s.(global := s.writer.n, writer := Idle)
    case Abort => s.(writer := Idle)
    case Crash =>
      s.(global := PickMeta(s.meta), readers := [], caches := map[], writer := Idle)
  }

  // --- Invariant --------------------------------------------------------

  ghost predicate Protected(s: State, m: int) {
    s.floor <= m <= s.Latest()
  }

  // Page p is in no snapshot that is still protected.
  ghost predicate Unseen(s: State, p: Pgno) {
    forall m :: Protected(s, m) ==> p !in s.hist[m].stamp
  }

  ghost predicate Shape(s: State) {
    && 0 < |s.hist| && |s.meta| == 2
    && s.Latest() == (if InStage(s, MetaWritten) then s.global + 1 else s.global)
    && s.meta[s.Latest() % 2] == s.Latest()
    && s.meta[(s.Latest() + 1) % 2] == (if s.Latest() == 0 then 0 else s.Latest() - 1)
    && (s.floor == 0 || s.floor < s.global)
  }

  ghost predicate History(s: State) {
    && (forall m :: 0 <= m < |s.hist| ==> ConservedSnapshot(s.hist[m]))
    && (forall m, r :: 0 <= m < |s.hist| && r in s.hist[m].recs ==> r <= m)
    && forall m, k :: 0 <= m <= k < |s.hist| ==> s.hist[m].next <= s.hist[k].next
  }

  // A page listed in a record of the current freeDB is in no protected
  // snapshot from that record's transaction on.
  ghost predicate FreeSince(s: State, recs: map<Txnid, set<Pgno>>) {
    forall r, m, p :: r in recs && p in recs[r] && Protected(s, m) && r <= m ==> p !in s.hist[m].stamp
  }

  // Every protected snapshot can be read back from disk page by page.
  ghost predicate IntactSnapshot(s: State, m: nat)
    requires m < |s.hist|
  {
    forall p :: p in s.hist[m].stamp ==> p in s.disk && s.disk[p] == s.hist[m].stamp[p]
  }

  ghost predicate Intact(s: State) {
    forall m :: Protected(s, m) ==> IntactSnapshot(s, m)
  }

  ghost predicate HasPin(r: Reader) { r.phase.Pinned? || r.phase.Reading? }

  ghost predicate ReaderOk(s: State, r: Reader) {
    && (r.mark.At? ==> r.mark.txn <= s.global)
    && (r.phase.Loading? || r.phase.Checking? ==> r.phase.v <= s.global)
    && (r.phase.Checking? ==> r.mark == At(r.phase.v))
    && (HasPin(r) ==> r.mark == At(r.phase.v) && s.floor <= r.phase.v <= s.global)
    && (r.phase.Reading? ==> r.phase.v <= r.phase.snap <= s.Latest())
  }

  ghost predicate ReadersOk(s: State) {
    forall r :: r in s.readers ==> ReaderOk(s, r)
  }

  ghost predicate CachesOk(s: State) {
    forall e :: e in s.caches ==> s.caches[e] <= s.floor + 1
  }

  ghost predicate ScanOk(s: State, scan: Scan) {
    scan.NoScan? ||
    (scan.oldest <= s.global && scan.i <= |s.readers| && (scan.SawPid? ==> 0 < scan.i) &&
     forall k :: scan.i <= k < |s.readers| && HasPin(s.readers[k]) ==> scan.oldest <= s.readers[k].phase.v)
  }

  ghost predicate TxnOk(s: State, n: Txnid, t: Txn)
    requires 0 < |s.hist|
  {
    var cur := s.hist[|s.hist| - 1];
    && n == |s.hist|
    && Conserved(t)
    && t.pglast <= s.floor && (t.pglast == 0 ==> t.pghead == {}) && (t.pglast == 0 || t.pglast in t.recs)
    && t.recs == cur.recs && cur.next <= t.next
    && t.live - t.dirty <= cur.stamp.Keys && t.loose <= t.dirty
    && forall p :: p in t.dirty || p in t.pghead ==> Unseen(s, p)
  }

  ghost predicate FlushOk(s: State, w: Writer)
    requires w.Active?
  {
    w.stage.Flushing? ==>
      && Saved(w.t, w.n, w.stage.out) && w.stage.todo <= w.t.dirty
      && forall p :: p in w.t.live && p in w.t.dirty && p !in w.stage.todo ==> p in s.disk && s.disk[p] == w.n
  }

  ghost predicate SavingOk(w: Writer)
    requires w.Active?
  {
    w.stage.Saving? ==> SaveInv(w.stage.v, w.t)
  }

  ghost predicate WriterOk(s: State)
    requires 0 < |s.hist|
  {
    s.writer.Active? ==>
      && s.writer.n == s.global + 1 && (s.writer.scan.NoScan? || Allocates(s))
      && (!s.writer.stage.MetaWritten? ==> TxnOk(s, s.writer.n, s.writer.t))
      && ScanOk(s, s.writer.scan)
      && FlushOk(s, s.writer) && SavingOk(s.writer)
  }

  ghost predicate Inv(s: State) {
    && Shape(s) && History(s) && FreeSince(s, s.hist[|s.hist| - 1].recs) && Intact(s)
    && ReadersOk(s) && CachesOk(s) && WriterOk(s)
  }

  // --- Every step keeps the invariant -----------------------------------

  lemma InitInv()
    ensures Inv(Init)
  {
  }

  // What a change of the reader table, of the writer, or of the floor has to
  // establish; everything else of the invariant carries over.

  lemma NewReaders(s: State, rs: seq<Reader>)
    requires Inv(s)
    requires ReadersOk(s.(readers := rs))
    requires s.writer.Active? ==> ScanOk(s.(readers := rs), s.writer.scan)
    ensures Inv(s.(readers := rs))
  {
    var s' := s.(readers := rs);
    assert forall m :: Protected(s', m) <==> Protected(s, m);
    assert forall p :: Unseen(s, p) <==> Unseen(s', p);
    SameSnapshots(s, s');
  }

  lemma NewWriter(s: State, w: Writer)
    requires Inv(s)
    requires w.Active? && w.stage.MetaWritten? <==> InStage(s, MetaWritten)
    requires WriterOk(s.(writer := w))
    ensures Inv(s.(writer := w))
  {
    var s' := s.(writer := w);
    SameSnapshots(s, s');
    forall r | r in s'.readers ensures ReaderOk(s', r) { assert ReaderOk(s, r); }
  }

  ghost predicate IsReaderAct(a: Act) {
    a.AddSlot? || a.Claim? || a.Load? || a.Store? || a.Check? || a.Copy? || a.Finish?
  }

  lemma ReaderActReaders(s: State, a: Act)
    requires Shape(s) && ReadersOk(s) && Can(s, a) && IsReaderAct(a)
    ensures ReadersOk(Do(s, a))
    ensures Do(s, a) == s.(readers := Do(s, a).readers)
  {
    var s' := Do(s, a);
    forall k | 0 <= k < |s'.readers| ensures ReaderOk(s', s'.readers[k]) {
      if k < |s.readers| { assert ReaderOk(s, s.readers[k]); }
      if a.Copy? && k == a.i {
        var v := s.readers[k].phase.v;
        assert v % 2 == s.Latest() % 2 || v % 2 == (s.Latest() + 1) % 2;
      }
    }
  }

  lemma ReaderActScan(s: State, a: Act, scan: Scan)
    requires ReadersOk(s) && Can(s, a) && IsReaderAct(a) && ScanOk(s, scan)
    ensures ScanOk(Do(s, a), scan)
  {
  }

  lemma ReaderActKeepsInv(s: State, a: Act)
    requires Inv(s) && Can(s, a) && IsReaderAct(a)
    ensures Inv(Do(s, a))
  {
    ReaderActReaders(s, a);
    if s.writer.Active? { ReaderActScan(s, a, s.writer.scan); }
    NewReaders(s, Do(s, a).readers);
  }

  ghost predicate IsScanAct(a: Act) {
    a.ScanStart? || a.ScanPid? || a.ScanTxn?
  }

  lemma ScanActScan(s: State, a: Act)
    requires Shape(s) && ReadersOk(s) && Can(s, a) && IsScanAct(a)
    requires ScanOk(s, s.writer.scan) && s.writer.n == s.global + 1
    ensures ScanOk(s, Do(s, a).writer.scan)
    ensures Do(s, a) == s.(writer := s.writer.(scan := Do(s, a).writer.scan))
  {
    if !a.ScanStart? {
      assert ReaderOk(s, s.readers[s.writer.scan.i - 1]);
    }
  }

  lemma ScanActWriter(s: State, a: Act)
    requires Shape(s) && ReadersOk(s) && WriterOk(s) && Can(s, a) && IsScanAct(a)
    ensures 0 < |s.hist| && WriterOk(s.(writer := Do(s, a).writer)) && Do(s, a) == s.(writer := Do(s, a).writer)
    ensures Do(s, a).writer.Active? && Do(s, a).writer.stage == s.writer.stage
  {
    ScanActScan(s, a);
    SameTxn(s, Do(s, a), s.writer.n, s.writer.t);
  }

  lemma ScanActKeepsInv(s: State, a: Act)
    requires Inv(s) && Can(s, a) && IsScanAct(a)
    ensures Inv(Do(s, a))
  {
    ScanActWriter(s, a);
    NewWriter(s, Do(s, a).writer);
  }

  // The end of a scan raises the floor to one below the result: no reader is
  // pinned below the result, and whoever pins later pins mti_txnid itself.
  lemma ScanEndReaders(s: State)
    requires Shape(s) && ReadersOk(s) && Can(s, ScanEnd) && ScanOk(s, s.writer.scan)
    ensures ReadersOk(Do(s, ScanEnd))
  {
    var s' := Do(s, ScanEnd);
    forall k | 0 <= k < |s'.readers| ensures ReaderOk(s', s'.readers[k]) {
      assert ReaderOk(s, s.readers[k]);
    }
  }

  // With a higher floor fewer snapshots are protected.
  lemma ScanEndSnapshots(s: State)
    requires Shape(s) && FreeSince(s, s.hist[|s.hist| - 1].recs) && Intact(s) && Can(s, ScanEnd)
    ensures var s' := Do(s, ScanEnd);
      s'.hist == s.hist && s'.floor >= s.floor && FreeSince(s', s'.hist[|s'.hist| - 1].recs) && Intact(s')
  {
    var s' := Do(s, ScanEnd);
    assert forall m :: Protected(s', m) ==> Protected(s, m);
    assert forall m :: Protected(s', m) ==> IntactSnapshot(s, m) && IntactSnapshot(s', m);
  }

  lemma ScanEndWriter(s: State)
    requires Shape(s) && WriterOk(s) && Can(s, ScanEnd)
    ensures 0 < |Do(s, ScanEnd).hist| && WriterOk(Do(s, ScanEnd))
  {
    var s' := Do(s, ScanEnd);
    assert forall m :: Protected(s', m) ==> Protected(s, m);
    assert forall p :: Unseen(s, p) ==> Unseen(s', p);
  }

  lemma ScanEndKeepsInv(s: State)
    requires Inv(s) && Can(s, ScanEnd)
    ensures Inv(Do(s, ScanEnd))
  {
    ScanEndReaders(s);
    ScanEndSnapshots(s);
    ScanEndWriter(s);
  }

  // --- The writer's page moves ------------------------------------------

  lemma FreshUnseen(s: State, p: Pgno)
    requires History(s) && 0 < |s.hist| && s.hist[|s.hist| - 1].next <= p
    ensures Unseen(s, p)
  {
    forall m | Protected(s, m) ensures p !in s.hist[m].stamp {
      assert ConservedSnapshot(s.hist[m]) && s.hist[m].next <= s.hist[|s.hist| - 1].next;
    }
  }

  // A record older than the oldest reader the writer knows of holds only
  // pages that no protected snapshot contains.
  lemma OldRecordUnseen(s: State, r: Txnid, p: Pgno)
    requires 0 < |s.hist|
    requires FreeSince(s, s.hist[|s.hist| - 1].recs) && r <= s.floor
    requires r in s.hist[|s.hist| - 1].recs && p in s.hist[|s.hist| - 1].recs[r]
    ensures Unseen(s, p)
  {
  }

  lemma MoveTxn(s: State, step: Step)
    requires Inv(s) && Can(s, Move(step))
    ensures TxnOk(s, s.writer.n, Apply(s.writer.t, step))
  {
    var t := s.writer.t;
    var u := Apply(t, step);
    StepConserves(t, step);
    if step.Consume? {
      assert step.r <= s.floor;
    }
    forall p | (p in u.dirty || p in u.pghead) && !(p in t.dirty || p in t.pghead) ensures Unseen(s, p) {
      if step.Consume? { OldRecordUnseen(s, step.r, p); }
      if step.TakeNew? { FreshUnseen(s, p); }
    }
  }

  lemma MoveKeepsInv(s: State, step: Step)
    requires Inv(s) && Can(s, Move(step))
    ensures Inv(Do(s, Move(step)))
  {
    MoveTxn(s, step);
    var s' := Do(s, Move(step));
    if Saves(s) { MoveKeeps(s.writer.stage.v, s.writer.t, step); }
    SameTxn(s, s', s'.writer.n, s'.writer.t);
    NewWriter(s, s'.writer);
  }

  lemma BeginWriteKeepsInv(s: State, env: nat)
    requires Inv(s) && Can(s, BeginWrite(env))
    ensures Inv(Do(s, BeginWrite(env)))
  {
    BeginConserves(s.hist[s.global]);
    NewWriter(s, Do(s, BeginWrite(env)).writer);
  }

  // --- Commit -----------------------------------------------------------

  lemma SaveStartTxn(s: State)
    requires Inv(s) && Can(s, SaveStart)
    ensures var w := Do(s, SaveStart).writer; TxnOk(s, w.n, w.t) && SaveInv(Start, w.t)
  {
    var t, cur := s.writer.t, s.hist[|s.hist| - 1];
    assert ConservedSnapshot(cur);
    if t.pglast == 0 { StepConserves(t, Surrender); }
    StartInv(Do(s, SaveStart).writer.t);
  }

  lemma SaveStartKeepsInv(s: State)
    requires Inv(s) && Can(s, SaveStart)
    ensures Inv(Do(s, SaveStart))
  {
    var s' := Do(s, SaveStart);
    SaveStartTxn(s);
    SameTxn(s, s', s'.writer.n, s'.writer.t);
    NewWriter(s, s'.writer);
  }

  // Records have keys below that of the running transaction.
  lemma OwnRecord(s: State)
    requires Inv(s) && Allocates(s)
    ensures s.writer.t.pglast < s.writer.n && s.writer.n !in s.writer.t.recs
  {
  }

  lemma SaveTurnKeepsInv(s: State, turn: Turn, maxfree: nat)
    requires Inv(s) && Can(s, SaveTurn(turn, maxfree))
    ensures Inv(Do(s, SaveTurn(turn, maxfree)))
  {
    var s' := Do(s, SaveTurn(turn, maxfree));
    OwnRecord(s);
    TurnKeeps(s.writer.stage.v, s.writer.t, s.writer.n, maxfree, turn);
    SameTxn(s, s', s'.writer.n, s'.writer.t);
    NewWriter(s, s'.writer);
  }

  lemma SaveEndKeepsInv(s: State, mop: seq<Pgno>)
    requires Inv(s) && Can(s, SaveEnd(mop))
    ensures Inv(Do(s, SaveEnd(mop)))
  {
    var s' := Do(s, SaveEnd(mop));
    OwnRecord(s);
    SaveEnds(s.writer.stage.v, s.writer.t, s.writer.n, mop);
    SameTxn(s, s', s'.writer.n, s'.writer.t);
    NewWriter(s, s'.writer);
  }

  // Writing a dirty page leaves every protected snapshot readable.
  lemma WritePageIntact(s: State, p: Pgno)
    requires Shape(s) && Intact(s) && Unseen(s, p) && s.writer.Active?
    ensures Intact(s.(disk := s.disk[p := s.writer.n]))
  {
    var s' := s.(disk := s.disk[p := s.writer.n]);
    forall m | Protected(s', m) ensures IntactSnapshot(s', m) {
      assert Protected(s, m) && IntactSnapshot(s, m);
    }
  }

  lemma NewDisk(s: State, disk: map<Pgno, Txnid>)
    requires Inv(s)
    requires Intact(s.(disk := disk))
    requires s.writer.Active? ==> FlushOk(s.(disk := disk), s.writer)
    ensures Inv(s.(disk := disk))
  {
    var s' := s.(disk := disk);
    assert forall m :: Protected(s', m) <==> Protected(s, m);
    assert forall p :: Unseen(s, p) <==> Unseen(s', p);
    assert FreeSince(s', s'.hist[|s'.hist| - 1].recs);
    forall r | r in s'.readers ensures ReaderOk(s', r) { assert ReaderOk(s, r); }
  }

  lemma WritePageFlush(s: State, p: Pgno)
    requires Can(s, WritePage(p)) && FlushOk(s, s.writer)
    ensures FlushOk(s.(disk := s.disk[p := s.writer.n]), s.writer)
    ensures FlushOk(s.(disk := s.disk[p := s.writer.n]), Do(s, WritePage(p)).writer)
  {
  }

  lemma SameTxn(s: State, s': State, n: Txnid, t: Txn)
    requires 0 < |s.hist| && TxnOk(s, n, t) && s'.hist == s.hist && s'.floor == s.floor
    ensures TxnOk(s', n, t)
  {
    assert forall m :: Protected(s', m) <==> Protected(s, m);
    assert forall p :: Unseen(s, p) <==> Unseen(s', p);
  }

  lemma WritePageDisk(s: State, p: Pgno)
    requires Inv(s) && Can(s, WritePage(p))
    ensures Inv(s.(disk := s.disk[p := s.writer.n]))
  {
    assert Unseen(s, p);
    WritePageIntact(s, p);
    WritePageFlush(s, p);
    NewDisk(s, s.disk[p := s.writer.n]);
  }

  lemma WritePageKeepsInv(s: State, p: Pgno)
    requires Inv(s) && Can(s, WritePage(p))
    ensures Inv(Do(s, WritePage(p)))
  {
    var s' := Do(s, WritePage(p));
    WritePageDisk(s, p);
    WritePageFlush(s, p);
    SameTxn(s, s', s'.writer.n, s'.writer.t);
    NewWriter(s.(disk := s.disk[p := s.writer.n]), s'.writer);
  }

  // The snapshot being committed is complete on disk ...
  lemma CommitIntact(s: State)
    requires Inv(s) && Can(s, WriteMeta)
    ensures IntactSnapshot(Do(s, WriteMeta), |s.hist|)
  {
    var w := s.writer;
    var base := s.hist[|s.hist| - 1];
    assert Protected(s, |s.hist| - 1) && IntactSnapshot(s, |s.hist| - 1);
    forall p | p in w.t.live ensures p in s.disk && s.disk[p] == Committed(w.t, w.n, base, w.stage.out).stamp[p] {
      if p !in w.t.dirty { assert p in base.stamp; }
    }
  }

  // ... and its records list only pages that no protected snapshot needs.
  lemma CommitFreeSince(s: State)
    requires Inv(s) && Can(s, WriteMeta)
    ensures FreeSince(Do(s, WriteMeta), s.writer.stage.out)
  {
    var s' := Do(s, WriteMeta);
    var w := s.writer;
    forall r, m, p | r in w.stage.out && p in w.stage.out[r] && Protected(s', m) && r <= m
      ensures p !in s'.hist[m].stamp
    {
      SavedRecordOrigin(w.t, w.n, w.stage.out, r, p);
      assert InRecord(w.t.recs, w.t.pglast, p) ==> Placed(w.t, p);
      if m < |s.hist| {
        assert Protected(s, m) && s'.hist[m] == s.hist[m];
        if r <= w.t.pglast { assert Unseen(s, p); }
      }
    }
  }

  lemma WriteMetaHistory(s: State)
    requires Inv(s) && Can(s, WriteMeta)
    ensures History(Do(s, WriteMeta))
  {
    var w := s.writer;
    SaveConserves(w.t, w.n, s.hist[|s.hist| - 1], w.stage.out);
    forall r | r in w.stage.out ensures r <= w.n {
      if w.t.pglast < r && r != w.n { assert r in s.hist[|s.hist| - 1].recs; }
    }
  }

  lemma WriteMetaShape(s: State)
    requires Shape(s) && Can(s, WriteMeta) && s.writer.n == s.global + 1
    ensures Shape(Do(s, WriteMeta))
  {
  }

  lemma WriteMetaWriter(s: State)
    requires Shape(s) && CachesOk(s) && Can(s, WriteMeta) && s.writer.n == s.global + 1
    requires s.writer.scan.NoScan? || Allocates(s)
    ensures 0 < |Do(s, WriteMeta).hist| && CachesOk(Do(s, WriteMeta)) && WriterOk(Do(s, WriteMeta))
  {
  }

  lemma WriteMetaKeepsInv(s: State)
    requires Inv(s) && Can(s, WriteMeta)
    ensures Inv(Do(s, WriteMeta))
  {
    WriteMetaShape(s);
    WriteMetaWriter(s);
    WriteMetaHistory(s);
    CommitFreeSince(s);
    WriteMetaIntact(s);
    WriteMetaReaders(s);
  }

  lemma WriteMetaIntact(s: State)
    requires Inv(s) && Can(s, WriteMeta)
    ensures Intact(Do(s, WriteMeta))
  {
    var s' := Do(s, WriteMeta);
    CommitIntact(s);
    forall m | Protected(s', m) ensures IntactSnapshot(s', m) {
      if m < |s.hist| { assert Protected(s, m) && IntactSnapshot(s, m); }
    }
  }

  lemma WriteMetaReaders(s: State)
    requires ReadersOk(s) && Shape(s) && Can(s, WriteMeta)
    ensures ReadersOk(Do(s, WriteMeta))
  {
    var s' := Do(s, WriteMeta);
    forall r | r in s'.readers ensures ReaderOk(s', r) { assert ReaderOk(s, r); }
  }

  lemma SameSnapshots(s: State, s': State)
    requires 0 < |s.hist| && FreeSince(s, s.hist[|s.hist| - 1].recs) && Intact(s)
    requires s'.hist == s.hist && s'.floor == s.floor && s'.disk == s.disk
    ensures FreeSince(s', s'.hist[|s'.hist| - 1].recs) && Intact(s')
  {
    assert forall m :: Protected(s', m) <==> Protected(s, m);
    assert forall m :: Protected(s', m) ==> IntactSnapshot(s, m) && IntactSnapshot(s', m);
  }

  lemma PublishKeepsInv(s: State)
    requires Inv(s) && Can(s, Publish)
    ensures Inv(Do(s, Publish))
  {
    var s' := Do(s, Publish);
    SameSnapshots(s, s');
    forall r | r in s'.readers ensures ReaderOk(s', r) { assert ReaderOk(s, r); }
  }

  lemma AbortKeepsInv(s: State)
    requires Inv(s) && Can(s, Abort)
    ensures Inv(Do(s, Abort))
  {
    var s' := Do(s, Abort);
    SameSnapshots(s, s');
    forall r | r in s'.readers ensures ReaderOk(s', r) { assert ReaderOk(s, r); }
  }

  lemma CrashShape(s: State)
    requires Shape(s) && Can(s, Crash)
    ensures var s' := Do(s, Crash); Shape(s') && ReadersOk(s') && CachesOk(s') && WriterOk(s')
  {
    assert PickMeta(s.meta) == s.Latest();
  }

  lemma CrashKeepsInv(s: State)
    requires Inv(s) && Can(s, Crash)
    ensures Inv(Do(s, Crash))
  {
    CrashShape(s);
    SameSnapshots(s, Do(s, Crash));
  }

  lemma StepKeepsInv(s: State, a: Act)
    requires Inv(s) && Can(s, a)
    ensures Inv(Do(s, a))
  {
    if IsReaderAct(a) { ReaderActKeepsInv(s, a); }
    else if IsScanAct(a) { ScanActKeepsInv(s, a); }
    else {
      match a {
        case ScanEnd => ScanEndKeepsInv(s);
        case BeginWrite(env) => BeginWriteKeepsInv(s, env);
        case Move(step) => MoveKeepsInv(s, step);
        case SaveStart => SaveStartKeepsInv(s);
        case SaveTurn(turn, maxfree) => SaveTurnKeepsInv(s, turn, maxfree);
        case SaveEnd(mop) => SaveEndKeepsInv(s, mop);
        case WritePage(p) => WritePageKeepsInv(s, p);
        case WriteMeta => WriteMetaKeepsInv(s);
        case Publish => PublishKeepsInv(s);
        case Abort => AbortKeepsInv(s);
        case Crash => CrashKeepsInv(s);
        case _ =>
      }
    }
  }

  // --- Runs -------------------------------------------------------------

  ghost predicate IsRun(run: seq<State>) {
    && 0 < |run| && run[0] == Init
    && forall i :: 0 <= i < |run| - 1 ==> NextAt(run, i)
  }

  ghost predicate NextAt(run: seq<State>, i: nat)
    requires i + 1 < |run|
  {
    Next(run[i], run[i + 1])
  }

  ghost predicate Next(s: State, s': State) {
    exists a :: Can(s, a) && s' == Do(s, a)
  }

  lemma StepAt(run: seq<State>, i: nat) returns (a: Act)
    requires IsRun(run) && i + 1 < |run|
    ensures Can(run[i], a) && run[i + 1] == Do(run[i], a)
  {
    assert NextAt(run, i);
    a :| Can(run[i], a) && run[i + 1] == Do(run[i], a);
  }

  lemma {:induction false} RunInv(run: seq<State>, i: nat)
    requires IsRun(run) && i < |run|
    ensures Inv(run[i])
  {
    if i == 0 {
      InitInv();
    } else {
      RunInv(run, i - 1);
      var a := StepAt(run, i - 1);
      StepKeepsInv(run[i - 1], a);
    }
  }

  // --- What every run guarantees ----------------------------------------

  // Pages the current write transaction may overwrite or hand out.
  ghost function Writable(s: State): set<Pgno> {
    if s.writer.Active? then s.writer.t.dirty + s.writer.t.pghead + s.writer.t.loose else {}
  }

  // A reader that has finished the retry loop: every snapshot from the one its
  // slot names on, so also the one it copied from a meta page, is complete on
  // disk, and the writer neither holds nor can be handed any page of it.
  lemma PinnedSnapshotsSafe(run: seq<State>, i: nat, k: nat, m: nat)
    requires IsRun(run) && i < |run| && k < |run[i].readers| && HasPin(run[i].readers[k])
    requires run[i].readers[k].phase.v <= m < |run[i].hist|
    ensures IntactSnapshot(run[i], m)
    ensures run[i].writer.Active? && !run[i].writer.stage.MetaWritten? ==>
              Writable(run[i]) !! run[i].hist[m].stamp.Keys
    ensures forall step :: Can(run[i], Move(step)) ==>
              HandedOut(run[i].writer.t, step) !! run[i].hist[m].stamp.Keys
    ensures run[i].readers[k].phase.Reading? ==> run[i].readers[k].phase.snap < |run[i].hist|
  {
    RunInv(run, i);
    var s := run[i];
    PinProtects(s, k, m);
    ProtectedApart(s, m);
    forall step | Can(s, Move(step)) ensures HandedOut(s.writer.t, step) !! s.hist[m].stamp.Keys {
      HandOutApart(s, m, step);
    }
  }

  lemma PinProtects(s: State, k: nat, m: nat)
    requires ReadersOk(s) && Shape(s) && k < |s.readers| && HasPin(s.readers[k]) && s.readers[k].phase.v <= m < |s.hist|
    ensures Protected(s, m)
    ensures s.readers[k].phase.Reading? ==> s.readers[k].phase.snap < |s.hist|
  {
    assert ReaderOk(s, s.readers[k]);
  }

  // No page of a protected snapshot is the writer's ...
  lemma ProtectedApart(s: State, m: nat)
    requires Inv(s) && Protected(s, m)
    ensures IntactSnapshot(s, m)
    ensures s.writer.Active? && !s.writer.stage.MetaWritten? ==> Writable(s) !! s.hist[m].stamp.Keys
  {
    if s.writer.Active? && !s.writer.stage.MetaWritten? {
      assert forall p :: p in Writable(s) ==> Unseen(s, p);
    }
  }

  // ... or is handed out to it.
  lemma HandOutApart(s: State, m: nat, step: Step)
    requires Inv(s) && Protected(s, m) && Can(s, Move(step))
    ensures HandedOut(s.writer.t, step) !! s.hist[m].stamp.Keys
  {
    forall p | p in HandedOut(s.writer.t, step) ensures p !in s.hist[m].stamp {
      if step.TakeNew? { FreshUnseen(s, p); } else { assert Unseen(s, p); }
    }
  }

  // History only grows.
  lemma {:induction false} HistoryGrows(run: seq<State>, i: nat, j: nat)
    requires IsRun(run) && i <= j < |run|
    ensures run[i].hist <= run[j].hist
  {
    if i < j {
      HistoryGrows(run, i, j - 1);
      var a := StepAt(run, j - 1);
    }
  }

  // What a read transaction sees does not change while it runs, however many
  // transactions commit, spill, abort or free pages meanwhile.
  lemma ReaderSeesOneSnapshot(run: seq<State>, i: nat, j: nat, k: nat)
    requires IsRun(run) && i <= j < |run|
    requires k < |run[i].readers| && k < |run[j].readers|
    requires run[i].readers[k].phase.Reading? && run[j].readers[k].phase == run[i].readers[k].phase
    ensures var snap := run[i].readers[k].phase.snap;
      snap < |run[i].hist| && snap < |run[j].hist| && run[i].hist[snap] == run[j].hist[snap] &&
      forall p :: p in run[i].hist[snap].stamp ==>
        p in run[i].disk && p in run[j].disk && run[i].disk[p] == run[j].disk[p]
  {
    var r := run[i].readers[k].phase;
    RunInv(run, i);
    RunInv(run, j);
    HistoryGrows(run, i, j);
    assert ReaderOk(run[i], run[i].readers[k]) && ReaderOk(run[j], run[j].readers[k]);
    assert IntactSnapshot(run[i], r.snap) by { assert Protected(run[i], r.snap); }
    assert IntactSnapshot(run[j], r.snap) by { assert Protected(run[j], r.snap); }
  }

  // Stopping at any step leaves mdb_env_pick_meta selecting a complete
  // snapshot: the one the running write transaction started from, or, once its
  // meta page is written, its own. The snapshot before it is complete as well.
  lemma CrashRecoversSnapshot(run: seq<State>, i: nat)
    requires IsRun(run) && i < |run|
    ensures |run[i].meta| == 2 && 0 < |run[i].hist|
    ensures PickMeta(run[i].meta) == |run[i].hist| - 1
    ensures run[i].writer.Active? ==>
      PickMeta(run[i].meta) == (if run[i].writer.stage.MetaWritten? then run[i].writer.n else run[i].writer.n - 1)
    ensures IntactSnapshot(run[i], |run[i].hist| - 1) && ConservedSnapshot(run[i].hist[|run[i].hist| - 1])
    ensures 2 <= |run[i].hist| ==> IntactSnapshot(run[i], |run[i].hist| - 2)
  {
    RunInv(run, i);
    var s := run[i];
    assert Protected(s, s.Latest());
    if 2 <= |s.hist| { assert Protected(s, s.Latest() - 1); }
  }

  // While write transaction n runs, no page of snapshot n-1 or n-2 is its to
  // write, so both meta pages keep describing intact trees.
  lemma MetaSnapshotsUntouched(run: seq<State>, i: nat, m: nat)
    requires IsRun(run) && i < |run|
    requires run[i].writer.Active? && !run[i].writer.stage.MetaWritten?
    requires run[i].writer.n - 2 <= m < run[i].writer.n
    ensures m < |run[i].hist| && Writable(run[i]) !! run[i].hist[m].stamp.Keys
    ensures IntactSnapshot(run[i], m)
  {
    RunInv(run, i);
    assert Protected(run[i], m);
    assert forall p :: p in Writable(run[i]) ==> Unseen(run[i], p);
  }

  // In every reachable state every page number is in exactly one place.
  lemma PagesConserved(run: seq<State>, i: nat)
    requires IsRun(run) && i < |run|
    ensures forall m :: 0 <= m < |run[i].hist| ==> ConservedSnapshot(run[i].hist[m])
    ensures run[i].writer.Active? && !run[i].writer.stage.MetaWritten? ==> Conserved(run[i].writer.t)
  {
    RunInv(run, i);
  }

  // --- The snapshot a reader gets ---------------------------------------

  // The slot names transaction v, but the DB records are copied afterwards:
  // they are those of v exactly when fewer than two commits reached a meta page
  // in between, and otherwise those of a newer transaction of the same parity.
  lemma CopiedSnapshot(run: seq<State>, i: nat, k: nat)
    requires IsRun(run) && i < |run| && Can(run[i], Copy(k))
    ensures var v := run[i].readers[k].phase.v;
      var snap := Do(run[i], Copy(k)).readers[k].phase.snap;
      && v <= snap && snap % 2 == v % 2
      && (snap == v <==> |run[i].hist| <= v + 2)
  {
    RunInv(run, i);
    var s := run[i];
    assert ReaderOk(s, s.readers[k]);
    var v := s.readers[k].phase.v;
    assert v % 2 == s.Latest() % 2 || v % 2 == (s.Latest() + 1) % 2;
  }

  lemma Extend(run: seq<State>, a: Act) returns (longer: seq<State>)
    requires IsRun(run) && Can(run[|run| - 1], a)
    ensures IsRun(longer) && |longer| == |run| + 1 && longer[|run|] == Do(run[|run| - 1], a)
  {
    longer := run + [Do(run[|run| - 1], a)];
    forall i | 0 <= i < |longer| - 1 ensures NextAt(longer, i) {
      if i < |run| - 1 { assert NextAt(run, i); }
    }
  }

  // Nothing to save: the loop ends at once.
  lemma NothingSaved(n: Txnid)
    ensures var t := Begin(EmptyDb);
      Apply(t, Surrender) == t && Lists([], t) && Caught(Start, t) && Enough(Start, t) && Filled(Start, t, n, []) == map[]
  {
  }

  lemma ExtendEmptySave(run: seq<State>) returns (longer: seq<State>)
    requires IsRun(run)
    requires var s := run[|run| - 1]; s.writer == Active(0, s.global + 1, Begin(EmptyDb), NoScan, Working)
    ensures IsRun(longer)
    ensures var s := run[|run| - 1];
      longer[|longer| - 1] == s.(writer := s.writer.(stage := Flushing(map[], {})))
  {
    NothingSaved(run[|run| - 1].global + 1);
    longer := Extend(run, SaveStart);
    longer := Extend(longer, SaveEnd([]));
  }

  // An empty write transaction that commits (MDB_TXN_DIRTY).
  lemma ExtendEmptyCommit(run: seq<State>) returns (longer: seq<State>)
    requires IsRun(run)
    requires var s := run[|run| - 1];
      s.writer.Idle? && |s.hist| == s.global + 1 && |s.meta| == 2 && s.hist[s.global] == EmptyDb
    ensures IsRun(longer)
    ensures var s, s' := run[|run| - 1], longer[|longer| - 1];
      s'.writer.Idle? && s'.global == s.global + 1 && s'.hist == s.hist + [EmptyDb] &&
      s'.meta == s.meta[(s.global + 1) % 2 := s.global + 1] && s'.readers == s.readers
  {
    longer := Extend(run, BeginWrite(0));
    longer := ExtendEmptySave(longer);
    longer := Extend(longer, WriteMeta);
    longer := Extend(longer, Publish);
  }

  // A run in which the copied snapshot is newer than the one the slot names.
  lemma CopiedSnapshotCanBeNewer() returns (run: seq<State>)
    ensures IsRun(run) && 0 < |run[|run| - 1].readers|
    ensures run[|run| - 1].readers[0].phase == Reading(0, 2)
  {
    run := [Init];
    run := Extend(run, AddSlot);
    run := Extend(run, Claim(0));
    run := Extend(run, Load(0));
    run := Extend(run, Store(0));
    run := Extend(run, Check(0));
    run := ExtendEmptyCommit(run);
    run := ExtendEmptyCommit(run);
    run := Extend(run, Copy(0));
  }
}
