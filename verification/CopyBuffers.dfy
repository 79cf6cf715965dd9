// The double buffering of the compacting copy (mdb_env_copythr and
// mdb_env_cthr_toggle in liblmdb/src/mdb.c) as a state machine of two threads,
// the provider and the writer. One step is what a thread does between two
// points at which the other one can interfere. The writer keeps the mutex while
// it writes; the provider holds it only inside a step of its own.

module CopyBuffers {

  type Byte = bv8
  type Bytes = seq<Byte>

  const EOF: nat := 16   // MDB_EOF

  // Filling: between two hand-offs. Locking: in mdb_env_cthr_toggle, before the
  // mutex is taken. Asleep, Woken: in its wait loop. Leaving: past the unlock.
  datatype Provider = Filling | Locking(last: bool) | PAsleep(last: bool) | PWoken(last: bool) | Leaving(last: bool) | Joining

  // Starting and WWoken want the mutex, InBuffer and InTail have it.
  datatype Writer = Starting | WAsleep | WWoken | InBuffer(pos: nat) | InTail(tail: Bytes, pos: nat) | Exited

  datatype State = State(
    p: Provider,
    w: Writer,
    toggleP: nat,        // mc_toggle
    toggleW: nat,        // the writer's own toggle
    wbuf: seq<Bytes>,    // mc_wbuf, up to mc_wlen
    over: seq<Bytes>,    // mc_over, up to mc_olen
    pending: nat,            // mc_new
    error: bool,         // mc_error
    file: Bytes,
    handed: Bytes,       // bookkeeping: everything handed off so far, in order
    given: Bytes         // bookkeeping: everything the provider has come up with, in order
  )

  datatype Step =
    | Put(page: Bytes)         // a page goes into the provider's buffer
    | Hand(tail: Bytes, last: bool)  // set mc_over if there is a tail, call the toggle
    | Fail                     // either thread sets mc_error
    | PLock | PWakes | PRelock | PLeave
    | WLock | WWakes
    | Write(n: nat)            // write() took n bytes
    | TailNext                 // on to the overflow tail
    | Return                   // "Return the empty buffer to provider"

  predicate Locked(s: State) { s.w.InBuffer? || s.w.InTail? }

  function Buffers(s: State): nat { s.pending % EOF }

  predicate TwoInUse(s: State) { (s.pending / 2) % 2 == 1 }   // mc_new & 2

  function Flip(t: nat): nat { if t == 0 then 1 else 0 }

  predicate Shaped(s: State) { |s.wbuf| == 2 && |s.over| == 2 && s.toggleP < 2 && s.toggleW < 2 }

  // Part of the current stretch that is still to be written.
  function Stretch(s: State): Bytes
    requires Shaped(s) && Locked(s)
  {
    if s.w.InTail? then s.w.tail else s.wbuf[s.toggleW]
  }

  predicate StretchEnds(s: State)
    requires Shaped(s) && Locked(s)
  {
    s.error || s.w.pos >= |Stretch(s)|
  }

  predicate Enabled(s: State, step: Step, wbufSize: nat)
    requires Shaped(s)
  {
    match step
    case Put(page) => s.p == Filling && |s.wbuf[s.toggleP]| + |page| <= wbufSize
    case Hand(_, _) => s.p == Filling
    case Fail => s.p == Filling || Locked(s)
    case PLock => s.p.Locking? && !Locked(s)
    case PWakes => s.p.PAsleep?
    case PRelock => s.p.PWoken? && !Locked(s)
    case PLeave => s.p.Leaving?
    case WLock => s.w.Starting? || s.w.WWoken?
    case WWakes => s.w.WAsleep?
    case Write(n) => Locked(s) && !s.error && 0 < n <= |Stretch(s)| - s.w.pos as int
    case TailNext => s.w.InBuffer? && StretchEnds(s) && s.over[s.toggleW] != []
    case Return => Locked(s) && StretchEnds(s) && (s.w.InBuffer? ==> s.over[s.toggleW] == [])
  }

  // pthread_cond_signal by the one thread; the other one may be asleep.
  function SignalWriter(s: State): State {
    if s.w == WAsleep then s.(w := WWoken) else s
  }

  function SignalProvider(s: State): State {
    if s.p.PAsleep? then s.(p := PWoken(s.p.last)) else s
  }

  // The provider's loop condition, with the mutex held.
  function ProviderWaits(s: State, last: bool): State {
    if TwoInUse(s) then s.(p := PAsleep(last)) else s.(p := Leaving(last))
  }

  // The head of the writer's loop, with the mutex held.
  function WriterLoops(s: State): State {
    if s.pending == 0 then s.(w := WAsleep)
    else if s.pending == EOF then s.(w := Exited)
    else s.(w := InBuffer(0))
  }

  function Do(s: State, step: Step, wbufSize: nat): State
    requires Shaped(s) && Enabled(s, step, wbufSize)
  {
    match step
    case Put(page) => s.(wbuf := s.wbuf[s.toggleP := s.wbuf[s.toggleP] + page], given := s.given + page)
    case Hand(tail, last) => s.(over := s.over[s.toggleP := tail], p := Locking(last), given := s.given + tail)
    case Fail => s.(error := true)
    case PLock =>
      var adjust := if s.p.last then 1 + EOF else 1;
      var t := s.(pending := s.pending + adjust, handed := s.handed + s.wbuf[s.toggleP] + s.over[s.toggleP]);
      ProviderWaits(SignalWriter(t), s.p.last)
    case PWakes => s.(p := PWoken(s.p.last))
    case PRelock => ProviderWaits(s, s.p.last)
    case PLeave =>
      s.(toggleP := Flip(s.toggleP), wbuf := s.wbuf[Flip(s.toggleP) := []], p := if s.p.last then Joining else Filling)
    case WLock => WriterLoops(s)
    case WWakes => s.(w := WWoken)
    case Write(n) =>
      var t := s.(file := s.file + Stretch(s)[s.w.pos..s.w.pos + n]);
      if s.w.InTail? then t.(w := InTail(s.w.tail, s.w.pos + n)) else t.(w := InBuffer(s.w.pos + n))
    case TailNext => s.(w := InTail(s.over[s.toggleW], 0), over := s.over[s.toggleW := []])
    case Return =>
      var t := s.(wbuf := s.wbuf[s.toggleW := []], toggleW := Flip(s.toggleW), pending := if s.pending == 0 then 0 else s.pending - 1);
      WriterLoops(SignalProvider(t))
  }

  // The copy starts with the meta pages in buffer 0.
  function Init(metas: Bytes): State {
    State(Filling, Starting, 0, 0, [metas, []], [[], []], 0, false, [], [], metas)
  }

  // --- Invariant --------------------------------------------------------

  // The provider has handed off its current buffer but not yet changed over.
  predicate HandedOff(s: State) { s.p.PAsleep? || s.p.PWoken? || s.p.Leaving? }

  predicate SentLast(s: State) {
    s.p == Joining || (HandedOff(s) && s.p.last)
  }

  // Whose turn the buffers are.
  predicate InTurn(s: State) {
    && s.pending == Buffers(s) + (if SentLast(s) then EOF else 0) && Buffers(s) <= 2
    && s.toggleP == (if (Buffers(s) == 1) == HandedOff(s) then s.toggleW else Flip(s.toggleW))
    && (!HandedOff(s) ==> Buffers(s) <= 1)
    && (s.p.Leaving? ==> Buffers(s) <= 1)
  }

  // A thread is asleep only while it has to be.
  predicate Sleepers(s: State) {
    && (s.p.PAsleep? ==> TwoInUse(s))
    && (s.w == WAsleep ==> s.pending == 0)
    && (s.w == Exited ==> s.pending == EOF)
    && (Locked(s) ==> Buffers(s) >= 1)
  }

  // What is left of the current stretch.
  function Rest(s: State): Bytes
    requires Shaped(s) && Locked(s)
  {
    if s.w.pos <= |Stretch(s)| then Stretch(s)[s.w.pos..] else []
  }

  // What the writer still has to write of the buffer whose turn it is.
  function Current(s: State): Bytes
    requires Shaped(s)
  {
    if !Locked(s) then s.wbuf[s.toggleW] + s.over[s.toggleW] else Rest(s) + Over(s)
  }

  // The tail that follows the current stretch.
  function Over(s: State): Bytes
    requires Shaped(s)
  {
    if s.w.InBuffer? then s.over[s.toggleW] else []
  }

  function Later(s: State): Bytes
    requires Shaped(s)
  {
    if Buffers(s) == 2 then s.wbuf[Flip(s.toggleW)] + s.over[Flip(s.toggleW)] else []
  }

  // What the writer still has to write of what it was given.
  function Unwritten(s: State): Bytes
    requires Shaped(s)
  {
    if Buffers(s) == 0 then [] else Current(s) + Later(s)
  }

  predicate TailsTaken(s: State)
    requires Shaped(s)
  {
    // Only the provider before its hand-off and full buffers have tails.
    && (Buffers(s) == 0 ==> s.over[Flip(s.toggleP)] == [] && (s.p.Locking? || s.over[s.toggleP] == []))
    && (Buffers(s) == 1 ==> s.p.Locking? || s.over[Flip(s.toggleW)] == [])
    && (s.w.InTail? ==> s.over[s.toggleW] == [])
  }

  ghost predicate InOrder(s: State)
    requires Shaped(s)
  {
    && (Locked(s) ==> s.w.pos <= |Stretch(s)|)
    && if s.error then s.file <= s.handed else s.file + Unwritten(s) == s.handed
  }

  ghost predicate Control(s: State, wbufSize: nat) {
    && Shaped(s) && InTurn(s) && Sleepers(s) && TailsTaken(s)
    && |s.wbuf[0]| <= wbufSize && |s.wbuf[1]| <= wbufSize
  }

  // What the provider still holds is the end of what it came up with.
  ghost predicate Tracked(s: State)
    requires Shaped(s)
  {
    s.given == s.handed + (match s.p
                           case Filling => s.wbuf[s.toggleP]
                           case Locking(_) => s.wbuf[s.toggleP] + s.over[s.toggleP]
                           case _ => [])
  }

  ghost predicate Inv(s: State, wbufSize: nat) {
    Control(s, wbufSize) && InOrder(s) && Tracked(s)
  }

  lemma InitInv(metas: Bytes, wbufSize: nat)
    requires |metas| <= wbufSize
    ensures Inv(Init(metas), wbufSize)
  {
  }

  lemma PutKeepsControl(s: State, step: Step, wbufSize: nat)
    requires Control(s, wbufSize) && Enabled(s, step, wbufSize) && step.Put?
    ensures Control(Do(s, step, wbufSize), wbufSize)
  {
  }

  lemma HandKeepsControl(s: State, step: Step, wbufSize: nat)
    requires Control(s, wbufSize) && Enabled(s, step, wbufSize) && step.Hand?
    ensures Control(Do(s, step, wbufSize), wbufSize)
  {
  }

  lemma FailKeepsControl(s: State, step: Step, wbufSize: nat)
    requires Control(s, wbufSize) && Enabled(s, step, wbufSize) && step.Fail?
    ensures Control(Do(s, step, wbufSize), wbufSize)
  {
  }

  lemma LockKeepsControl(s: State, step: Step, wbufSize: nat)
    requires Control(s, wbufSize) && Enabled(s, step, wbufSize) && step.PLock?
    ensures Control(Do(s, step, wbufSize), wbufSize)
  {
  }

  lemma WakesKeepsControl(s: State, step: Step, wbufSize: nat)
    requires Control(s, wbufSize) && Enabled(s, step, wbufSize) && (step.PWakes? || step.WWakes?)
    ensures Control(Do(s, step, wbufSize), wbufSize)
  {
  }

  lemma RelockKeepsControl(s: State, step: Step, wbufSize: nat)
    requires Control(s, wbufSize) && Enabled(s, step, wbufSize) && step.PRelock?
    ensures Control(Do(s, step, wbufSize), wbufSize)
  {
  }

  lemma LeaveKeepsControl(s: State, step: Step, wbufSize: nat)
    requires Control(s, wbufSize) && Enabled(s, step, wbufSize) && step.PLeave?
    ensures Control(Do(s, step, wbufSize), wbufSize)
  {
  }

  lemma WriterLockKeepsControl(s: State, step: Step, wbufSize: nat)
    requires Control(s, wbufSize) && Enabled(s, step, wbufSize) && step.WLock?
    ensures Control(Do(s, step, wbufSize), wbufSize)
  {
  }

  lemma WriteKeepsControl(s: State, step: Step, wbufSize: nat)
    requires Control(s, wbufSize) && Enabled(s, step, wbufSize) && step.Write?
    ensures Control(Do(s, step, wbufSize), wbufSize)
  {
  }

  lemma TailKeepsControl(s: State, step: Step, wbufSize: nat)
    requires Control(s, wbufSize) && Enabled(s, step, wbufSize) && step.TailNext?
    ensures Control(Do(s, step, wbufSize), wbufSize)
  {
  }

  lemma ReturnKeepsControl(s: State, step: Step, wbufSize: nat)
    requires Control(s, wbufSize) && Enabled(s, step, wbufSize) && step.Return?
    ensures Control(Do(s, step, wbufSize), wbufSize)
  {
  }

  lemma StepKeepsControl(s: State, step: Step, wbufSize: nat)
    requires Control(s, wbufSize) && Enabled(s, step, wbufSize)
    ensures Control(Do(s, step, wbufSize), wbufSize)
  {
    match step
    case Put(_) => PutKeepsControl(s, step, wbufSize);
    case Hand(_, _) => HandKeepsControl(s, step, wbufSize);
    case Fail => FailKeepsControl(s, step, wbufSize);
    case PLock => LockKeepsControl(s, step, wbufSize);
    case PWakes => WakesKeepsControl(s, step, wbufSize);
    case PRelock => RelockKeepsControl(s, step, wbufSize);
    case PLeave => LeaveKeepsControl(s, step, wbufSize);
    case WLock => WriterLockKeepsControl(s, step, wbufSize);
    case WWakes => WakesKeepsControl(s, step, wbufSize);
    case Write(_) => WriteKeepsControl(s, step, wbufSize);
    case TailNext => TailKeepsControl(s, step, wbufSize);
    case Return => ReturnKeepsControl(s, step, wbufSize);
  }

  // --- The order of the bytes -------------------------------------------

  lemma Regroup(f: Bytes, a: Bytes, b: Bytes, c: Bytes, d: Bytes)
    ensures f + (((a + b) + c) + d) == (f + a) + ((b + c) + d)
  {
  }

  // n more bytes of the stretch are written.
  lemma WriteTakes(s: State, step: Step, wbufSize: nat)
    requires Control(s, wbufSize) && Enabled(s, step, wbufSize) && step.Write?
    ensures var s' := Do(s, step, wbufSize);
      Locked(s') && Rest(s) == Stretch(s)[s.w.pos..] && Rest(s') == Stretch(s)[s.w.pos + step.n..] &&
      Over(s') == Over(s) && Later(s') == Later(s) && Buffers(s') == Buffers(s)
  {
  }

  lemma UnwrittenIs(s: State)
    requires Shaped(s) && Locked(s) && Buffers(s) >= 1
    ensures Unwritten(s) == (Rest(s) + Over(s)) + Later(s)
  {
  }

  lemma WriteState(s: State, step: Step, wbufSize: nat)
    requires Control(s, wbufSize) && Enabled(s, step, wbufSize) && step.Write?
    ensures var s' := Do(s, step, wbufSize);
      Locked(s') && s'.w.pos <= |Stretch(s')| && !s'.error && s'.handed == s.handed &&
      s'.file == s.file + Stretch(s)[s.w.pos..s.w.pos + step.n]
  {
  }

  // Of a buffer that is being written.
  ghost predicate MidBuffer(s: State, rest: Bytes, over: Bytes, later: Bytes)
    requires Shaped(s)
  {
    && Locked(s) && Buffers(s) >= 1 && !s.error && s.w.pos <= |Stretch(s)|
    && Rest(s) == rest && Over(s) == over && Later(s) == later
  }

  lemma MidOrder(s: State, rest: Bytes, over: Bytes, later: Bytes)
    requires Shaped(s) && MidBuffer(s, rest, over, later)
    ensures Unwritten(s) == (rest + over) + later
  {
    UnwrittenIs(s);
  }

  lemma WriteMid(s: State, step: Step, wbufSize: nat)
    requires Control(s, wbufSize) && Enabled(s, step, wbufSize) && step.Write? && s.w.pos <= |Stretch(s)|
    ensures var s', d, pos := Do(s, step, wbufSize), Stretch(s), s.w.pos;
      && MidBuffer(s, d[pos..], Over(s), Later(s)) && MidBuffer(s', d[pos + step.n..], Over(s), Later(s))
      && s'.file == s.file + d[pos..pos + step.n] && s'.handed == s.handed
  {
    WriteTakes(s, step, wbufSize);
    WriteState(s, step, wbufSize);
  }

  lemma WriteOrder(s: State, step: Step, wbufSize: nat)
    requires Control(s, wbufSize) && InOrder(s) && Enabled(s, step, wbufSize) && step.Write?
    ensures InOrder(Do(s, step, wbufSize))
  {
    WriteMid(s, step, wbufSize);
    MidMoves(s, Do(s, step, wbufSize), Stretch(s), s.w.pos, step.n, Over(s), Later(s));
  }

  lemma MidMoves(s: State, s': State, d: Bytes, pos: nat, n: nat, over: Bytes, later: Bytes)
    requires Shaped(s) && Shaped(s') && pos + n <= |d|
    requires MidBuffer(s, d[pos..], over, later) && MidBuffer(s', d[pos + n..], over, later)
    requires s'.file == s.file + d[pos..pos + n] && s'.handed == s.handed && s.file + Unwritten(s) == s.handed
    ensures s'.file + Unwritten(s') == s'.handed
  {
    MidOrder(s, d[pos..], over, later);
    MidOrder(s', d[pos + n..], over, later);
    Slide(s.file, d, pos, n, over, later);
  }

  lemma Slide(file: Bytes, d: Bytes, pos: nat, n: nat, over: Bytes, later: Bytes)
    requires pos + n <= |d|
    ensures file + ((d[pos..] + over) + later) == (file + d[pos..pos + n]) + ((d[pos + n..] + over) + later)
  {
    assert d[pos..] == d[pos..pos + n] + d[pos + n..];
    Regroup(file, d[pos..pos + n], d[pos + n..], over, later);
  }

  // The provider's buffer and tail join the end of what is to be written.
  lemma LockAdds(s: State, step: Step, wbufSize: nat)
    requires Control(s, wbufSize) && Enabled(s, step, wbufSize) && step.PLock?
    ensures Unwritten(Do(s, step, wbufSize)) == Unwritten(s) + (s.wbuf[s.toggleP] + s.over[s.toggleP])
  {
    if Buffers(s) == 0 { FirstBuffer(s, step, wbufSize); } else { SecondBuffer(s, step, wbufSize); }
  }

  lemma JoinsEnd(file: Bytes, u: Bytes, a: Bytes, b: Bytes, handed: Bytes)
    ensures file + u == handed ==> file + (u + (a + b)) == handed + a + b
    ensures file <= handed ==> file <= handed + a + b
  {
  }

  lemma LockOrder(s: State, step: Step, wbufSize: nat)
    requires Control(s, wbufSize) && InOrder(s) && Enabled(s, step, wbufSize) && step.PLock?
    ensures InOrder(Do(s, step, wbufSize))
  {
    LockAdds(s, step, wbufSize);
    JoinsEnd(s.file, Unwritten(s), s.wbuf[s.toggleP], s.over[s.toggleP], s.handed);
  }

  lemma FirstBuffer(s: State, step: Step, wbufSize: nat)
    requires Control(s, wbufSize) && Enabled(s, step, wbufSize) && step.PLock? && Buffers(s) == 0
    ensures Unwritten(Do(s, step, wbufSize)) == s.wbuf[s.toggleP] + s.over[s.toggleP] && Unwritten(s) == []
  {
  }

  lemma SecondBuffer(s: State, step: Step, wbufSize: nat)
    requires Control(s, wbufSize) && Enabled(s, step, wbufSize) && step.PLock? && Buffers(s) == 1
    ensures Unwritten(Do(s, step, wbufSize)) == Current(s) + (s.wbuf[s.toggleP] + s.over[s.toggleP])
    ensures Unwritten(s) == Current(s)
  {
  }

  lemma TailOrder(s: State, step: Step, wbufSize: nat)
    requires Control(s, wbufSize) && InOrder(s) && Enabled(s, step, wbufSize) && step.TailNext?
    ensures InOrder(Do(s, step, wbufSize))
  {
    var s' := Do(s, step, wbufSize);
    if !s.error {
      assert Rest(s) == [] && Current(s') == s.over[s.toggleW] == Current(s);
    }
  }

  // A buffer that is returned has been written.
  lemma NothingLeft(s: State, step: Step, wbufSize: nat)
    requires Control(s, wbufSize) && InOrder(s) && Enabled(s, step, wbufSize) && step.Return? && !s.error
    ensures Current(s) == [] && Unwritten(s) == Later(s)
  {
  }

  // What follows is the other buffer, if it is full.
  lemma LaterIsNext(s: State, step: Step, wbufSize: nat)
    requires Control(s, wbufSize) && Enabled(s, step, wbufSize) && step.Return?
    ensures Unwritten(Do(s, step, wbufSize)) == Later(s)
  {
    var s' := Do(s, step, wbufSize);
    if Buffers(s) == 2 {
      assert s'.w == InBuffer(0) && s'.wbuf[s'.toggleW][0..] == s'.wbuf[s'.toggleW];
      assert Later(s') == [];
    }
  }

  lemma ReturnOrder(s: State, step: Step, wbufSize: nat)
    requires Control(s, wbufSize) && InOrder(s) && Enabled(s, step, wbufSize) && step.Return?
    ensures InOrder(Do(s, step, wbufSize))
  {
    LaterIsNext(s, step, wbufSize);
    if !s.error { NothingLeft(s, step, wbufSize); }
  }

  lemma PutOrder(s: State, step: Step, wbufSize: nat)
    requires Control(s, wbufSize) && InOrder(s) && Enabled(s, step, wbufSize) && (step.Put? || step.Hand?)
    ensures InOrder(Do(s, step, wbufSize))
  {
    var s' := Do(s, step, wbufSize);
    assert Buffers(s) == 1 ==> s.toggleP != s.toggleW;
    assert Unwritten(s') == Unwritten(s);
  }

  lemma LeaveOrder(s: State, step: Step, wbufSize: nat)
    requires Control(s, wbufSize) && InOrder(s) && Enabled(s, step, wbufSize) && step.PLeave?
    ensures InOrder(Do(s, step, wbufSize))
  {
    var s' := Do(s, step, wbufSize);
    assert Buffers(s) == 1 ==> Flip(s.toggleP) != s.toggleW;
    assert Unwritten(s') == Unwritten(s);
  }

  lemma PcOrder(s: State, step: Step, wbufSize: nat)
    requires Control(s, wbufSize) && InOrder(s) && Enabled(s, step, wbufSize)
    requires step.PWakes? || step.WWakes? || step.PRelock? || step.Fail?
    ensures InOrder(Do(s, step, wbufSize))
  {
  }

  lemma WriterLockOrder(s: State, step: Step, wbufSize: nat)
    requires Control(s, wbufSize) && InOrder(s) && Enabled(s, step, wbufSize) && step.WLock?
    ensures InOrder(Do(s, step, wbufSize))
  {
    assert s.wbuf[s.toggleW][0..] == s.wbuf[s.toggleW];
  }

  lemma StepKeepsInv(s: State, step: Step, wbufSize: nat)
    requires Inv(s, wbufSize) && Enabled(s, step, wbufSize)
    ensures Inv(Do(s, step, wbufSize), wbufSize)
  {
    StepKeepsControl(s, step, wbufSize);
    StepKeepsTracked(s, step, wbufSize);
    StepKeepsOrder(s, step, wbufSize);
  }

  lemma StepKeepsShape(s: State, step: Step, wbufSize: nat)
    requires Shaped(s) && Enabled(s, step, wbufSize)
    ensures Shaped(Do(s, step, wbufSize))
  {
  }

  lemma StepKeepsOrder(s: State, step: Step, wbufSize: nat)
    requires Control(s, wbufSize) && InOrder(s) && Enabled(s, step, wbufSize)
    ensures Shaped(Do(s, step, wbufSize)) && InOrder(Do(s, step, wbufSize))
  {
    StepKeepsShape(s, step, wbufSize);
    match step
    case Put(_) => PutOrder(s, step, wbufSize);
    case Hand(_, _) => PutOrder(s, step, wbufSize);
    case PLock => LockOrder(s, step, wbufSize);
    case PLeave => LeaveOrder(s, step, wbufSize);
    case WLock => WriterLockOrder(s, step, wbufSize);
    case Write(_) => WriteOrder(s, step, wbufSize);
    case TailNext => TailOrder(s, step, wbufSize);
    case Return => ReturnOrder(s, step, wbufSize);
    case _ => PcOrder(s, step, wbufSize);
  }

  lemma GiveKeepsTracked(s: State, step: Step, wbufSize: nat)
    requires Shaped(s) && Tracked(s) && Enabled(s, step, wbufSize) && (step.Put? || step.Hand?)
    ensures Shaped(Do(s, step, wbufSize)) && Tracked(Do(s, step, wbufSize))
  {
    if step.Put? {
      assert s.given + step.page == s.handed + (s.wbuf[s.toggleP] + step.page);
    } else {
      assert s.given + step.tail == s.handed + (s.wbuf[s.toggleP] + step.tail);
    }
  }

  lemma LockKeepsTracked(s: State, step: Step, wbufSize: nat)
    requires Shaped(s) && Tracked(s) && Enabled(s, step, wbufSize) && step.PLock?
    ensures Shaped(Do(s, step, wbufSize)) && Tracked(Do(s, step, wbufSize))
  {
    assert s.given == (s.handed + s.wbuf[s.toggleP]) + s.over[s.toggleP];
  }

  lemma OtherKeepsTracked(s: State, step: Step, wbufSize: nat)
    requires Control(s, wbufSize) && Tracked(s) && Enabled(s, step, wbufSize)
    requires !step.Put? && !step.Hand? && !step.PLock? && !step.TailNext? && !step.Return?
    ensures Shaped(Do(s, step, wbufSize)) && Tracked(Do(s, step, wbufSize))
  {
  }

  lemma StepKeepsTracked(s: State, step: Step, wbufSize: nat)
    requires Control(s, wbufSize) && Tracked(s) && Enabled(s, step, wbufSize)
    ensures Shaped(Do(s, step, wbufSize)) && Tracked(Do(s, step, wbufSize))
  {
    match step
    case Put(_) => GiveKeepsTracked(s, step, wbufSize);
    case Hand(_, _) => GiveKeepsTracked(s, step, wbufSize);
    case PLock => LockKeepsTracked(s, step, wbufSize);
    case TailNext => WriterKeepsTracked(s, step, wbufSize);
    case Return => WriterKeepsTracked(s, step, wbufSize);
    case _ => OtherKeepsTracked(s, step, wbufSize);
  }

  // The writer only empties buffers that the provider does not hold.
  lemma WriterKeepsTracked(s: State, step: Step, wbufSize: nat)
    requires Control(s, wbufSize) && Tracked(s) && Enabled(s, step, wbufSize) && (step.TailNext? || step.Return?)
    ensures Shaped(Do(s, step, wbufSize)) && Tracked(Do(s, step, wbufSize))
  {
    assert s.p == Filling || s.p.Locking? ==> s.toggleP != s.toggleW;
  }

  // --- Runs -------------------------------------------------------------

  predicate IsRun(s: State, steps: seq<Step>, wbufSize: nat)
    requires Shaped(s)
    decreases |steps|
  {
    steps == [] || (Enabled(s, steps[0], wbufSize) && Shaped(Do(s, steps[0], wbufSize)) &&
                    IsRun(Do(s, steps[0], wbufSize), steps[1..], wbufSize))
  }

  function AfterRun(s: State, steps: seq<Step>, wbufSize: nat): State
    requires Shaped(s) && IsRun(s, steps, wbufSize)
    decreases |steps|
  {
    if steps == [] then s else AfterRun(Do(s, steps[0], wbufSize), steps[1..], wbufSize)
  }

  lemma {:induction false} RunInv(s: State, steps: seq<Step>, wbufSize: nat)
    requires Inv(s, wbufSize) && IsRun(s, steps, wbufSize)
    ensures Inv(AfterRun(s, steps, wbufSize), wbufSize)
    decreases |steps|
  {
    if steps != [] {
      StepKeepsInv(s, steps[0], wbufSize);
      RunInv(Do(s, steps[0], wbufSize), steps[1..], wbufSize);
    }
  }

  ghost predicate Reachable(s: State, metas: Bytes, wbufSize: nat) {
    |metas| <= wbufSize && exists steps :: IsRun(Init(metas), steps, wbufSize) && AfterRun(Init(metas), steps, wbufSize) == s
  }

  lemma ReachableInv(s: State, metas: Bytes, wbufSize: nat)
    requires Reachable(s, metas, wbufSize)
    ensures Inv(s, wbufSize)
  {
    var steps :| IsRun(Init(metas), steps, wbufSize) && AfterRun(Init(metas), steps, wbufSize) == s;
    RunInv(Init(metas), steps, wbufSize);
  }

  // The provider never fills or clears a buffer the writer is writing from.
  lemma NeverSameBuffer(s: State, metas: Bytes, wbufSize: nat)
    requires Reachable(s, metas, wbufSize) && Locked(s)
    ensures s.p == Filling ==> s.toggleP != s.toggleW
    ensures s.p.Leaving? ==> Flip(s.toggleP) != s.toggleW
  {
    ReachableInv(s, metas, wbufSize);
  }

  // At no moment both threads are in their wait loops' sleep, and neither
  // sleeps while its condition is met.
  lemma NeverBothAsleep(s: State, metas: Bytes, wbufSize: nat)
    requires Reachable(s, metas, wbufSize)
    ensures !(s.p.PAsleep? && s.w == WAsleep)
    ensures s.p.PAsleep? ==> TwoInUse(s)
    ensures s.w == WAsleep ==> s.pending == 0
  {
    ReachableInv(s, metas, wbufSize);
  }

  // Until both threads are done, one of them can go on without a spurious
  // wakeup.
  lemma NeverStuck(s: State, metas: Bytes, wbufSize: nat)
    requires Reachable(s, metas, wbufSize) && !(s.p == Joining && s.w == Exited)
    ensures Shaped(s) && exists step :: Enabled(s, step, wbufSize) && !step.PWakes? && !step.WWakes? && !step.Fail?
  {
    ReachableInv(s, metas, wbufSize);
    if Locked(s) {
      if !StretchEnds(s) {
        assert Enabled(s, Write(1), wbufSize);
      } else if s.w.InBuffer? && s.over[s.toggleW] != [] {
        assert Enabled(s, TailNext, wbufSize);
      } else {
        assert Enabled(s, Return, wbufSize);
      }
    } else if s.w.Starting? || s.w.WWoken? {
      assert Enabled(s, WLock, wbufSize);
    } else {
      match s.p
      case Filling => assert Enabled(s, Hand([], false), wbufSize);
      case Locking(_) => assert Enabled(s, PLock, wbufSize);
      case PWoken(_) => assert Enabled(s, PRelock, wbufSize);
      case Leaving(_) => assert Enabled(s, PLeave, wbufSize);
      case PAsleep(_) =>
      case Joining =>
    }
  }

  // When the writer exits, the file is what the provider came up with, in that
  // order; after an error it is at least a beginning of that.
  lemma FileIsComplete(s: State, metas: Bytes, wbufSize: nat)
    requires Reachable(s, metas, wbufSize)
    ensures s.file <= s.handed <= s.given
    ensures s.w == Exited && !s.error ==> s.file == s.given && SentLast(s)
  {
    ReachableInv(s, metas, wbufSize);
  }

  // --- What may happen, and that the copy ends --------------------------

  lemma {:induction false} RunOn(s: State, steps: seq<Step>, step: Step, wbufSize: nat)
    requires Shaped(s) && IsRun(s, steps, wbufSize)
    requires Shaped(AfterRun(s, steps, wbufSize)) && Enabled(AfterRun(s, steps, wbufSize), step, wbufSize)
    ensures IsRun(s, steps + [step], wbufSize)
    ensures AfterRun(s, steps + [step], wbufSize) == Do(AfterRun(s, steps, wbufSize), step, wbufSize)
    decreases |steps|
  {
    if steps == [] {
      assert [step][1..] == [] && steps + [step] == [step];
      StepKeepsShape(s, step, wbufSize);
    } else {
      assert (steps + [step])[1..] == steps[1..] + [step];
      RunOn(Do(s, steps[0], wbufSize), steps[1..], step, wbufSize);
    }
  }

  lemma Reach(s: State, step: Step, metas: Bytes, wbufSize: nat)
    requires Reachable(s, metas, wbufSize) && Shaped(s) && Enabled(s, step, wbufSize)
    ensures Reachable(Do(s, step, wbufSize), metas, wbufSize)
  {
    var steps :| IsRun(Init(metas), steps, wbufSize) && AfterRun(Init(metas), steps, wbufSize) == s;
    RunOn(Init(metas), steps, step, wbufSize);
  }

  // While it fills a buffer the provider may add any page that fits, and hand
  // the buffer over with any overflow tail.
  lemma ProviderMay(s: State, metas: Bytes, wbufSize: nat, page: Bytes, last: bool)
    requires Reachable(s, metas, wbufSize) && s.p == Filling
    ensures Shaped(s)
    ensures |s.wbuf[s.toggleP]| + |page| <= wbufSize ==>
      exists t :: Reachable(t, metas, wbufSize) && t.p == Filling && t.given == s.given + page && t.file == s.file
    ensures exists t :: Reachable(t, metas, wbufSize) && t.p == Locking(last) && t.given == s.given + page && t.file == s.file
  {
    ReachableInv(s, metas, wbufSize);
    if |s.wbuf[s.toggleP]| + |page| <= wbufSize { Reach(s, Put(page), metas, wbufSize); }
    Reach(s, Hand(page, last), metas, wbufSize);
  }

  // Either thread may fail, the writer while it writes.
  lemma MayFail(s: State, metas: Bytes, wbufSize: nat)
    requires Reachable(s, metas, wbufSize) && (s.p == Filling || Locked(s))
    ensures Reachable(s.(error := true), metas, wbufSize)
  {
    ReachableInv(s, metas, wbufSize);
    Reach(s, Fail, metas, wbufSize);
  }

  lemma LockWaits(s: State, wbufSize: nat)
    requires Shaped(s) && InTurn(s) && Enabled(s, PLock, wbufSize)
    ensures var t := Do(s, PLock, wbufSize);
      t.pending % 16 <= 2 && (if t.pending % 16 == 2 then t.p.PAsleep? else t.p.Leaving?)
  {
  }

  lemma RelockWaits(s: State, wbufSize: nat)
    requires Shaped(s) && InTurn(s) && Enabled(s, PRelock, wbufSize)
    ensures var t := Do(s, PRelock, wbufSize);
      t.pending % 16 <= 2 && (if t.pending % 16 == 2 then t.p.PAsleep? else t.p.Leaving?)
  {
  }

  // After a hand-off the provider waits exactly while both buffers are full; with
  // one of them free it goes on filling while the writer writes.
  lemma WaitsIffBothFull(s: State, metas: Bytes, wbufSize: nat, step: Step)
    requires Reachable(s, metas, wbufSize) && Shaped(s) && Enabled(s, step, wbufSize) && (step.PLock? || step.PRelock?)
    ensures var t := Do(s, step, wbufSize);
      t.pending % 16 <= 2 && (if t.pending % 16 == 2 then t.p.PAsleep? else t.p.Leaving?)
  {
    ReachableInv(s, metas, wbufSize);
    if step.PLock? { LockWaits(s, wbufSize); } else { RelockWaits(s, wbufSize); }
  }

  // How far the provider is from its end, if it hands over nothing but the
  // buffer at hand.
  function ProviderLeft(p: Provider): nat {
    match p
    case Joining => 0
    case Leaving(last) => if last then 1 else 5
    case PAsleep(last) => if last then 2 else 6
    case PWoken(last) => if last then 2 else 6
    case Locking(last) => if last then 3 else 7
    case Filling => 4
  }

  function WriterLeft(w: Writer): nat {
    match w
    case Starting => 3
    case WWoken => 3
    case InBuffer(_) => 2
    case InTail(_, _) => 1
    case WAsleep => 0
    case Exited => 0
  }

  function Awake(p: Provider): nat { if p.PWoken? then 1 else 0 }

  function BytesLeft(s: State): nat
    requires Shaped(s)
  {
    if Locked(s) && s.w.pos <= |Stretch(s)| then |Stretch(s)| - s.w.pos else 0
  }

  // State t is nearer to the end than s.
  ghost predicate Nearer(s: State, t: State) {
    && Shaped(s) && Shaped(t)
    && (ProviderLeft(t.p) < ProviderLeft(s.p) || (ProviderLeft(t.p) == ProviderLeft(s.p) &&
       (Buffers(t) < Buffers(s) || (Buffers(t) == Buffers(s) &&
       (Awake(t.p) < Awake(s.p) || (Awake(t.p) == Awake(s.p) &&
       (WriterLeft(t.w) < WriterLeft(s.w) || (WriterLeft(t.w) == WriterLeft(s.w) && BytesLeft(t) < BytesLeft(s)))))))))
  }

  lemma WLockNearer(s: State, wbufSize: nat)
    requires Control(s, wbufSize) && Enabled(s, WLock, wbufSize)
    ensures Nearer(s, Do(s, WLock, wbufSize))
  {
  }

  lemma WriteNearer(s: State, wbufSize: nat)
    requires Control(s, wbufSize) && Enabled(s, Write(1), wbufSize)
    ensures Nearer(s, Do(s, Write(1), wbufSize))
  {
  }

  lemma TailNextNearer(s: State, wbufSize: nat)
    requires Control(s, wbufSize) && Enabled(s, TailNext, wbufSize)
    ensures Nearer(s, Do(s, TailNext, wbufSize))
  {
  }

  lemma ReturnNearer(s: State, wbufSize: nat)
    requires Control(s, wbufSize) && Enabled(s, Return, wbufSize)
    ensures Nearer(s, Do(s, Return, wbufSize))
  {
  }

  lemma HandNearer(s: State, wbufSize: nat)
    requires Control(s, wbufSize) && Enabled(s, Hand([], true), wbufSize)
    ensures Nearer(s, Do(s, Hand([], true), wbufSize))
  {
  }

  lemma PLockNearer(s: State, wbufSize: nat)
    requires Control(s, wbufSize) && Enabled(s, PLock, wbufSize)
    ensures Nearer(s, Do(s, PLock, wbufSize))
  {
  }

  lemma PRelockNearer(s: State, wbufSize: nat)
    requires Control(s, wbufSize) && Enabled(s, PRelock, wbufSize)
    ensures Nearer(s, Do(s, PRelock, wbufSize))
  {
  }

  lemma PLeaveNearer(s: State, wbufSize: nat)
    requires Control(s, wbufSize) && Enabled(s, PLeave, wbufSize)
    ensures Nearer(s, Do(s, PLeave, wbufSize))
  {
  }

  // The step lies on a way to the end.
  ghost predicate Leads(s: State, step: Step, wbufSize: nat) {
    && Shaped(s) && Enabled(s, step, wbufSize) && Nearer(s, Do(s, step, wbufSize))
    && Do(s, step, wbufSize).given == s.given && Do(s, step, wbufSize).error == s.error
  }

  lemma WriterLeads(s: State, wbufSize: nat) returns (step: Step)
    requires Control(s, wbufSize) && (Locked(s) || s.w.Starting? || s.w.WWoken?)
    ensures Leads(s, step, wbufSize)
  {
    if !Locked(s) {
      step := WLock;
      WLockNearer(s, wbufSize);
    } else if !StretchEnds(s) {
      step := Write(1);
      WriteNearer(s, wbufSize);
    } else if s.w.InBuffer? && s.over[s.toggleW] != [] {
      step := TailNext;
      TailNextNearer(s, wbufSize);
    } else {
      step := Return;
      ReturnNearer(s, wbufSize);
    }
  }

  lemma ProviderLeads(s: State, wbufSize: nat) returns (step: Step)
    requires Control(s, wbufSize) && !Locked(s) && !s.w.Starting? && !s.w.WWoken?
    requires !(s.p == Joining && s.w == Exited)
    ensures Leads(s, step, wbufSize)
  {
    match s.p
    case Filling =>
      step := Hand([], true);
      HandNearer(s, wbufSize);
      assert s.given + [] == s.given;
    case Locking(_) =>
      step := PLock;
      PLockNearer(s, wbufSize);
    case PWoken(_) =>
      step := PRelock;
      PRelockNearer(s, wbufSize);
    case Leaving(_) =>
      step := PLeave;
      PLeaveNearer(s, wbufSize);
    case PAsleep(_) =>
    case Joining =>
  }

  // From every state a run reaches, the copy can come to its end without a
  // spurious wakeup; if no thread has failed the file is then complete.
  lemma {:induction false} CopyEnds(s: State, metas: Bytes, wbufSize: nat) returns (t: State)
    requires Reachable(s, metas, wbufSize) && Shaped(s)
    ensures Reachable(t, metas, wbufSize) && t.p == Joining && t.w == Exited && t.error == s.error
    ensures t.given == s.given && (!s.error ==> t.file == s.given)
    decreases ProviderLeft(s.p), Buffers(s), Awake(s.p), WriterLeft(s.w), BytesLeft(s)
  {
    if s.p == Joining && s.w == Exited {
      t := s;
      FileIsComplete(s, metas, wbufSize);
    } else {
      ReachableInv(s, metas, wbufSize);
      var step;
      if Locked(s) || s.w.Starting? || s.w.WWoken? {
        step := WriterLeads(s, wbufSize);
      } else {
        step := ProviderLeads(s, wbufSize);
      }
      Reach(s, step, metas, wbufSize);
      t := CopyEnds(Do(s, step, wbufSize), metas, wbufSize);
    }
  }
}
