// The thread pool of libipfs/util/thread_pool.c with keepalive set: workers that
// take a binary semaphore, count themselves busy and pull from the queue, a
// caller that pushes, and callers of thpool_wait. One step is one stretch under
// a lock; the queue lock is kept across the post that follows a push or pull.

module ThreadPool {

  type Job(==, !new)

  // Where a worker is in thread_do.
  datatype Worker =
    | AtSem                     // about to call bsem_wait
    | SemAsleep                 // in pthread_cond_wait of bsem_wait
    | SemWoken                  // signalled, has to look at v again
    | Taken                     // past bsem_wait, not yet counted
    | Counted                   // num_threads_working incremented
    | Posting(job: Job)         // pulled, about to post because jobs are left
    | Running(job: Job)         // executing the job
    | Ran                       // done, or nothing was pulled

  // Where a thread that calls thpool_wait, possibly many times, is.
  datatype Caller =
    | Outside
    | Locked                          // holds thcount_lock
    | SawLen(len: nat, quiet: bool) // has read jobqueue.len without its lock
    | Sleeping
    | Signalled
    | Returned

  datatype QueueLock = Free | HeldByPusher | HeldByWorker(i: nat)

  datatype State = State(
    queue: seq<Job>,
    v: bool,                    // the semaphore is 1
    rw: QueueLock,              // rwmutex, as far as it is held between steps
    working: nat,               // num_threads_working
    holder: int,                // the caller that holds thcount_lock, or -1
    workers: seq<Worker>,
    callers: seq<Caller>,
    pushed: seq<Job>,           // bookkeeping: all jobs pushed, pulled, run
    pulled: seq<Job>,
    finished: multiset<Job>
  )

  datatype Step =
    | Push(job: Job)            // jobqueue_push up to the post
    | PushPost(who: int)        // bsem_post, unlock; `who` is the worker woken
    | SemLook(i: nat)           // bsem_wait looks at v
    | SemSpurious(i: nat)
    | CountUp(i: nat)
    | Pull(i: nat)              // jobqueue_pull up to the post
    | PullPost(i: nat, who: int)
    | Finish(i: nat)            // the job's function returns
    | CountDown(i: nat, caller: int) // the caller signalled, or -1
    | WaitLock(c: nat)
    | ReadLen(c: nat)
    | Decide(c: nat)            // reads num_threads_working
    | WaitSpurious(c: nat)
    | CallAgain(c: nat)         // a thread that has returned may wait again

  predicate WorkerIs(s: State, i: nat, w: Worker) { i < |s.workers| && s.workers[i] == w }

  predicate AnyAsleep(s: State) { SemAsleep in s.workers }

  // pthread_cond_signal wakes one waiting worker if there is one.
  predicate CanWake(s: State, who: int) {
    if AnyAsleep(s) then 0 <= who < |s.workers| && s.workers[who] == SemAsleep else who == -1
  }

  predicate CanSignal(s: State, c: int) {
    if Sleeping in s.callers then 0 <= c < |s.callers| && s.callers[c] == Sleeping else c == -1
  }

  predicate Enabled(s: State, step: Step) {
    match step
    case Push(_) => s.rw == Free
    case PushPost(who) => s.rw == HeldByPusher && CanWake(s, who)
    case SemLook(i) => i < |s.workers| && (s.workers[i] == AtSem || s.workers[i] == SemWoken)
    case SemSpurious(i) => WorkerIs(s, i, SemAsleep)
    case CountUp(i) => WorkerIs(s, i, Taken) && s.holder == -1
    case Pull(i) => WorkerIs(s, i, Counted) && s.rw == Free
    case PullPost(i, who) => i < |s.workers| && s.workers[i].Posting? && CanWake(s, who)
    case Finish(i) => i < |s.workers| && s.workers[i].Running?
    case CountDown(i, c) =>
      WorkerIs(s, i, Ran) && s.holder == -1 && (if s.working == 1 then CanSignal(s, c) else c == -1)
    case WaitLock(c) => c < |s.callers| && (s.callers[c] == Outside || s.callers[c] == Signalled) && s.holder == -1
    case ReadLen(c) => c < |s.callers| && s.callers[c] == Locked
    case Decide(c) => c < |s.callers| && s.callers[c].SawLen?
    case WaitSpurious(c) => c < |s.callers| && s.callers[c] == Sleeping
    case CallAgain(c) => c < |s.callers| && s.callers[c] == Returned
  }

  function SetWorker(s: State, i: nat, w: Worker): (t: State)
    requires i < |s.workers|
  {
    s.(workers := s.workers[i := w])
  }

  function SetCaller(s: State, c: nat, w: Caller): State
    requires c < |s.callers|
  {
    s.(callers := s.callers[c := w])
  }

  // bsem_post
  function Post(s: State, who: int): State
    requires CanWake(s, who)
  {
    var t := s.(v := true);
    if who == -1 then t else SetWorker(t, who, SemWoken)
  }

  function Do(s: State, step: Step): State
    requires Enabled(s, step)
  {
    match step
    case Push(job) => s.(queue := s.queue + [job], rw := HeldByPusher, pushed := s.pushed + [job])
    case PushPost(who) => Post(s, who).(rw := Free)
    case SemLook(i) => if s.v then SetWorker(s, i, Taken).(v := false) else SetWorker(s, i, SemAsleep)
    case SemSpurious(i) => SetWorker(s, i, SemWoken)
    case CountUp(i) => SetWorker(s, i, Counted).(working := s.working + 1)
    case Pull(i) =>
      if s.queue == [] then SetWorker(s, i, Ran)
      else
        var t := s.(queue := s.queue[1..], pulled := s.pulled + [s.queue[0]]);
        if |s.queue| == 1 then SetWorker(t, i, Running(s.queue[0]))
        else SetWorker(t, i, Posting(s.queue[0])).(rw := HeldByWorker(i))
    case PullPost(i, who) => SetWorker(Post(s, who), i, Running(s.workers[i].job)).(rw := Free)
    case Finish(i) => SetWorker(s, i, Ran).(finished := s.finished + multiset{s.workers[i].job})
    case CountDown(i, c) =>
      var t := SetWorker(s, i, AtSem).(working := if s.working == 0 then 0 else s.working - 1);
      if c == -1 then t else SetCaller(t, c, Signalled)
    case WaitLock(c) => SetCaller(s, c, Locked).(holder := c)
    case ReadLen(c) => SetCaller(s, c, SawLen(|s.queue|, s.queue == [] && s.working == 0))
    case Decide(c) =>
      if s.callers[c].len != 0 || s.working != 0 then SetCaller(s, c, Sleeping).(holder := -1)
      else SetCaller(s, c, Returned).(holder := -1)
    case WaitSpurious(c) => SetCaller(s, c, Signalled)
    case CallAgain(c) => SetCaller(s, c, Outside)
  }

  function Copies<T>(n: nat, x: T): (r: seq<T>)
    ensures |r| == n && forall k :: 0 <= k < n ==> r[k] == x
  {
    seq(n, k requires 0 <= k < n => x)
  }

  // After thpool_init, with some threads that may call thpool_wait.
  function Init(workers: nat, callers: nat): State {
    State([], false, Free, 0, -1, Copies(workers, AtSem), Copies(callers, Outside), [], [], multiset{})
  }

  // --- Counting ---------------------------------------------------------

  predicate Busy(w: Worker) { w == Counted || w.Posting? || w.Running? || w == Ran }

  function BusyCount(ws: seq<Worker>): nat {
    if ws == [] then 0 else BusyCount(ws[..|ws| - 1]) + if Busy(ws[|ws| - 1]) then 1 else 0
  }

  lemma {:induction false} BusyUpdate(ws: seq<Worker>, i: nat, w: Worker)
    requires i < |ws|
    ensures BusyCount(ws[i := w]) ==
      BusyCount(ws) - (if Busy(ws[i]) then 1 else 0) + (if Busy(w) then 1 else 0)
    decreases |ws|
  {
    var us, n := ws[i := w], |ws| - 1;
    if i < n {
      BusyUpdate(ws[..n], i, w);
      assert us[..n] == ws[..n][i := w];
    } else {
      assert us[..n] == ws[..n];
    }
  }

  lemma {:induction false} SomeBusy(ws: seq<Worker>, i: nat)
    requires i < |ws| && Busy(ws[i])
    ensures BusyCount(ws) > 0
    decreases |ws|
  {
    if i < |ws| - 1 { SomeBusy(ws[..|ws| - 1], i); }
  }

  // How often a worker has pulled the job and not finished it.
  function Holds(w: Worker, job: Job): nat {
    if (w.Posting? || w.Running?) && w.job == job then 1 else 0
  }

  function HeldCount(ws: seq<Worker>, job: Job): nat {
    if ws == [] then 0 else HeldCount(ws[..|ws| - 1], job) + Holds(ws[|ws| - 1], job)
  }

  lemma {:induction false} HeldUpdate(ws: seq<Worker>, i: nat, w: Worker, job: Job)
    requires i < |ws|
    ensures HeldCount(ws[i := w], job) == HeldCount(ws, job) - Holds(ws[i], job) + Holds(w, job)
    decreases |ws|
  {
    var us, n := ws[i := w], |ws| - 1;
    if i < n {
      HeldUpdate(ws[..n], i, w, job);
      assert us[..n] == ws[..n][i := w];
    } else {
      assert us[..n] == ws[..n];
    }
  }

  lemma {:induction false} NothingHeld(ws: seq<Worker>, job: Job)
    requires forall i :: 0 <= i < |ws| ==> !Busy(ws[i])
    ensures HeldCount(ws, job) == 0
    decreases |ws|
  {
    if ws != [] { NothingHeld(ws[..|ws| - 1], job); }
  }

  // --- Invariant --------------------------------------------------------

  predicate PrePull(w: Worker) { w == Taken || w == Counted }

  ghost predicate SomePrePull(s: State) {
    exists i :: 0 <= i < |s.workers| && PrePull(s.workers[i])
  }

  predicate AwakeAtSem(w: Worker) { w == AtSem || w == SemWoken }

  ghost predicate SomeAtSem(s: State) {
    exists i :: 0 <= i < |s.workers| && AwakeAtSem(s.workers[i])
  }

  // A queue that is not empty has the semaphore at 1, a worker that will pull,
  // or a post on its way.
  ghost predicate Attended(s: State) {
    s.queue != [] ==> s.v || s.rw != Free || SomePrePull(s)
  }

  // With the semaphore at 1 not all idle workers sleep.
  ghost predicate NotOverslept(s: State) {
    s.v && AnyAsleep(s) ==> SomeAtSem(s)
  }

  // rwmutex is held across a post by the one that pushed or pulled.
  ghost predicate QueueLocked(s: State) {
    && (s.rw.HeldByWorker? ==> s.rw.i < |s.workers| && s.workers[s.rw.i].Posting?)
    && (forall i :: 0 <= i < |s.workers| && s.workers[i].Posting? ==> s.rw == HeldByWorker(i))
  }

  // thcount_lock
  ghost predicate CountLocked(s: State) {
    && (s.holder == -1 || (0 <= s.holder < |s.callers| && InWait(s.callers[s.holder])))
    && (forall c :: 0 <= c < |s.callers| && InWait(s.callers[c]) ==> s.holder == c)
  }

  predicate InWait(c: Caller) { c == Locked || c.SawLen? }

  // Jobs are pulled in the order of the pushes.
  ghost predicate Fifo(s: State) {
    s.pulled + s.queue == s.pushed
  }

  // Each pulled job is either held by one worker or has been run once.
  ghost predicate RunOnce(s: State) {
    forall job :: Accounted(s, job)
  }

  ghost predicate Accounted(s: State, job: Job) {
    multiset(s.pulled)[job] == s.finished[job] + HeldCount(s.workers, job)
  }

  // What a caller has seen still means something.
  ghost predicate Seen(s: State) {
    forall c :: 0 <= c < |s.callers| && s.callers[c].SawLen? ==>
      && (s.callers[c].len > 0 ==> s.queue != [] || s.working > 0)
      && (s.callers[c].len == 0 && s.working == 0 ==> s.callers[c].quiet)
  }

  ghost predicate Inv(s: State) {
    && s.working == BusyCount(s.workers)
    && Attended(s) && NotOverslept(s) && QueueLocked(s) && CountLocked(s) && Fifo(s) && RunOnce(s) && Seen(s)
  }

  lemma {:induction false} NothingBusy(ws: seq<Worker>)
    requires forall i :: 0 <= i < |ws| ==> !Busy(ws[i])
    ensures BusyCount(ws) == 0
    decreases |ws|
  {
    if ws != [] { NothingBusy(ws[..|ws| - 1]); }
  }

  lemma InitInv(workers: nat, callers: nat)
    ensures Inv(Init(workers, callers))
  {
    var s := Init(workers, callers);
    forall job ensures Accounted(s, job) { NothingHeld(s.workers, job); }
    NothingBusy(s.workers);
  }

  // --- Each part of the invariant is kept -------------------------------

  lemma PullCounts(s: State, i: nat)
    requires s.working == BusyCount(s.workers) && Enabled(s, Pull(i))
    ensures Do(s, Pull(i)).working == BusyCount(Do(s, Pull(i)).workers)
  {
    BusyUpdate(s.workers, i, Ran);
    if s.queue != [] {
      BusyUpdate(s.workers, i, Running(s.queue[0]));
      BusyUpdate(s.workers, i, Posting(s.queue[0]));
    }
  }

  lemma PostCounts(s: State, who: int)
    requires s.working == BusyCount(s.workers) && CanWake(s, who)
    ensures Post(s, who).working == BusyCount(Post(s, who).workers)
  {
    if who != -1 { BusyUpdate(s.workers, who, SemWoken); }
  }

  lemma PullPostCounts(s: State, i: nat, who: int)
    requires s.working == BusyCount(s.workers) && Enabled(s, PullPost(i, who))
    ensures Do(s, PullPost(i, who)).working == BusyCount(Do(s, PullPost(i, who)).workers)
  {
    PostCounts(s, who);
    BusyUpdate(Post(s, who).workers, i, Running(s.workers[i].job));
  }

  lemma CountsKept(s: State, step: Step)
    requires s.working == BusyCount(s.workers) && Enabled(s, step)
    ensures Do(s, step).working == BusyCount(Do(s, step).workers)
  {
    match step
    case PushPost(who) => PostCounts(s, who);
    case SemLook(i) => BusyUpdate(s.workers, i, if s.v then Taken else SemAsleep);
    case SemSpurious(i) => BusyUpdate(s.workers, i, SemWoken);
    case CountUp(i) => BusyUpdate(s.workers, i, Counted);
    case Pull(i) => PullCounts(s, i);
    case PullPost(i, who) => PullPostCounts(s, i, who);
    case Finish(i) => BusyUpdate(s.workers, i, Ran);
    case CountDown(i, _) =>
      SomeBusy(s.workers, i);
      BusyUpdate(s.workers, i, AtSem);
    case _ =>
  }

  lemma PrePullStays(ws: seq<Worker>, i: nat, w: Worker)
    requires i < |ws| && (PrePull(ws[i]) ==> PrePull(w))
    requires exists k :: 0 <= k < |ws| && PrePull(ws[k])
    ensures var us := ws[i := w]; exists k :: 0 <= k < |us| && PrePull(us[k])
  {
    var k :| 0 <= k < |ws| && PrePull(ws[k]);
    assert PrePull(ws[i := w][k]);
  }

  lemma AttendedKept(s: State, step: Step)
    requires Attended(s) && Enabled(s, step)
    ensures Attended(Do(s, step))
  {
    match step
    case SemLook(i) =>
      if s.v {
        assert Do(s, step).workers[i] == Taken;
      } else if SomePrePull(s) {
        PrePullStays(s.workers, i, SemAsleep);
      }
    case SemSpurious(i) => if SomePrePull(s) { PrePullStays(s.workers, i, SemWoken); }
    case CountUp(i) => assert Do(s, step).workers[i] == Counted;
    case Pull(i) =>
    case Finish(i) => if SomePrePull(s) { PrePullStays(s.workers, i, Ran); }
    case CountDown(i, _) => if SomePrePull(s) { PrePullStays(s.workers, i, AtSem); }
    case _ =>
  }

  // A worker that was not asleep changes, and none falls asleep.
  lemma NotOversleptStays(s: State, i: nat, w: Worker)
    requires NotOverslept(s) && i < |s.workers| && w != SemAsleep && (AwakeAtSem(s.workers[i]) ==> AwakeAtSem(w))
    ensures NotOverslept(SetWorker(s, i, w))
  {
    var t := SetWorker(s, i, w);
    if s.v && AnyAsleep(t) {
      var a :| 0 <= a < |t.workers| && t.workers[a] == SemAsleep;
      assert s.workers[a] == SemAsleep;
      var k :| 0 <= k < |s.workers| && AwakeAtSem(s.workers[k]);
      assert AwakeAtSem(t.workers[k]);
    }
  }

  lemma PostWakes(s: State, who: int)
    requires CanWake(s, who)
    ensures NotOverslept(Post(s, who))
  {
    if who != -1 { assert AwakeAtSem(Post(s, who).workers[who]); }
  }

  lemma NotOversleptKept(s: State, step: Step)
    requires NotOverslept(s) && Enabled(s, step)
    ensures NotOverslept(Do(s, step))
  {
    match step
    case PushPost(who) => PostWakes(s, who);
    case SemSpurious(i) => NotOversleptStays(s, i, SemWoken);
    case CountUp(i) => NotOversleptStays(s, i, Counted);
    case Pull(i) =>
      NotOversleptStays(s, i, Ran);
      if s.queue != [] {
        NotOversleptStays(s, i, Running(s.queue[0]));
        NotOversleptStays(s, i, Posting(s.queue[0]));
      }
    case PullPost(i, who) =>
      PostWakes(s, who);
      NotOversleptStays(Post(s, who), i, Running(s.workers[i].job));
    case Finish(i) => NotOversleptStays(s, i, Ran);
    case CountDown(i, _) => NotOversleptStays(s, i, AtSem);
    case _ =>
  }

  // A worker that does not post before or after the step.
  lemma QueueLockedStays(s: State, i: nat, w: Worker)
    requires QueueLocked(s) && i < |s.workers| && !s.workers[i].Posting? && !w.Posting?
    ensures QueueLocked(SetWorker(s, i, w))
  {
  }

  lemma PostKeepsLock(s: State, who: int)
    requires QueueLocked(s) && CanWake(s, who)
    ensures QueueLocked(Post(s, who))
  {
    if who != -1 { QueueLockedStays(s, who, SemWoken); }
  }

  lemma PullKeepsLock(s: State, i: nat)
    requires QueueLocked(s) && Enabled(s, Pull(i))
    ensures QueueLocked(Do(s, Pull(i)))
  {
  }

  lemma PullPostKeepsLock(s: State, i: nat, who: int)
    requires QueueLocked(s) && Enabled(s, PullPost(i, who))
    ensures QueueLocked(Do(s, PullPost(i, who)))
  {
    PostKeepsLock(s, who);
  }

  lemma QueueLockedKept(s: State, step: Step)
    requires QueueLocked(s) && Enabled(s, step)
    ensures QueueLocked(Do(s, step))
  {
    match step
    case PushPost(who) => PostKeepsLock(s, who);
    case SemLook(i) => QueueLockedStays(s, i, if s.v then Taken else SemAsleep);
    case SemSpurious(i) => QueueLockedStays(s, i, SemWoken);
    case CountUp(i) => QueueLockedStays(s, i, Counted);
    case Pull(i) => PullKeepsLock(s, i);
    case PullPost(i, who) => PullPostKeepsLock(s, i, who);
    case Finish(i) => QueueLockedStays(s, i, Ran);
    case CountDown(i, _) => QueueLockedStays(s, i, AtSem);
    case _ =>
  }

  lemma CountLockedKept(s: State, step: Step)
    requires CountLocked(s) && Enabled(s, step)
    ensures CountLocked(Do(s, step))
  {
  }

  lemma FifoKept(s: State, step: Step)
    requires Fifo(s) && Enabled(s, step)
    ensures Fifo(Do(s, step))
  {
    match step
    case Push(job) => assert s.pulled + (s.queue + [job]) == (s.pulled + s.queue) + [job];
    case Pull(_) => if s.queue != [] { assert (s.pulled + [s.queue[0]]) + s.queue[1..] == s.pulled + s.queue; }
    case _ =>
  }

  lemma PullAccounted(s: State, i: nat, job: Job)
    requires Accounted(s, job) && Enabled(s, Pull(i))
    ensures Accounted(Do(s, Pull(i)), job)
  {
    if s.queue == [] {
      HeldUpdate(s.workers, i, Ran, job);
    } else {
      PulledJob(s, i, job, if |s.queue| == 1 then Running(s.queue[0]) else Posting(s.queue[0]));
    }
  }

  lemma PulledJob(s: State, i: nat, job: Job, w: Worker)
    requires Accounted(s, job) && Enabled(s, Pull(i)) && s.queue != []
    requires w == Running(s.queue[0]) || w == Posting(s.queue[0])
    ensures multiset(s.pulled + [s.queue[0]])[job] == s.finished[job] + HeldCount(s.workers[i := w], job)
  {
    var j := s.queue[0];
    HeldUpdate(s.workers, i, w, job);
    assert multiset(s.pulled + [j])[job] == multiset(s.pulled)[job] + (if j == job then 1 else 0);
  }

  // A worker changes that neither takes nor finishes a job.
  lemma AccountedStays(s: State, i: nat, w: Worker, job: Job)
    requires Accounted(s, job) && i < |s.workers| && Holds(w, job) == Holds(s.workers[i], job)
    ensures Accounted(SetWorker(s, i, w), job)
  {
    HeldUpdate(s.workers, i, w, job);
  }

  lemma PostAccounted(s: State, who: int, job: Job)
    requires Accounted(s, job) && CanWake(s, who)
    ensures Accounted(Post(s, who), job)
  {
    if who != -1 { AccountedStays(s, who, SemWoken, job); }
  }

  lemma AccountedKept(s: State, step: Step, job: Job)
    requires Accounted(s, job) && Enabled(s, step)
    ensures Accounted(Do(s, step), job)
  {
    match step
    case PushPost(who) => PostAccounted(s, who, job);
    case SemLook(i) => AccountedStays(s, i, if s.v then Taken else SemAsleep, job);
    case SemSpurious(i) => AccountedStays(s, i, SemWoken, job);
    case CountUp(i) => AccountedStays(s, i, Counted, job);
    case Pull(i) => PullAccounted(s, i, job);
    case PullPost(i, who) =>
      PostAccounted(s, who, job);
      AccountedStays(Post(s, who), i, Running(s.workers[i].job), job);
    case Finish(i) => HeldUpdate(s.workers, i, Ran, job);
    case CountDown(i, _) => AccountedStays(s, i, AtSem, job);
    case _ =>
  }

  lemma RunOnceKept(s: State, step: Step)
    requires RunOnce(s) && Enabled(s, step)
    ensures RunOnce(Do(s, step))
  {
    forall job ensures Accounted(Do(s, step), job) { AccountedKept(s, step, job); }
  }

  // What a caller has seen stays meaningful: while it holds the count lock the
  // count does not change, and whoever empties the queue is counted.
  lemma SeenKept(s: State, step: Step)
    requires Seen(s) && CountLocked(s) && s.working == BusyCount(s.workers) && Enabled(s, step)
    ensures Seen(Do(s, step))
  {
    if step.WaitLock? || step.ReadLen? || step.Decide? || step.WaitSpurious? || step.CallAgain? {
      CallerKeepsSeen(s, step);
    } else {
      if step.Pull? { SomeBusy(s.workers, step.i); }
    }
  }

  lemma CallerKeepsSeen(s: State, step: Step)
    requires Seen(s) && CountLocked(s) && Enabled(s, step)
    requires step.WaitLock? || step.ReadLen? || step.Decide? || step.WaitSpurious? || step.CallAgain?
    ensures Seen(Do(s, step))
  {
  }

  lemma StepKeepsInv(s: State, step: Step)
    requires Inv(s) && Enabled(s, step)
    ensures Inv(Do(s, step))
  {
    CountsKept(s, step);
    AttendedKept(s, step);
    NotOversleptKept(s, step);
    QueueLockedKept(s, step);
    CountLockedKept(s, step);
    FifoKept(s, step);
    RunOnceKept(s, step);
    SeenKept(s, step);
  }

  // --- Runs -------------------------------------------------------------

  ghost predicate Next(s: State, t: State) {
    exists step :: Enabled(s, step) && t == Do(s, step)
  }

  // The states of a run of a pool with so many threads and waiting callers.
  ghost predicate IsRun(run: seq<State>, workers: nat, callers: nat) {
    && run != [] && run[0] == Init(workers, callers)
    && forall k :: 0 <= k < |run| - 1 ==> Next(run[k], run[k + 1])
  }

  lemma RunInit(run: seq<State>, workers: nat, callers: nat)
    requires IsRun(run, workers, callers) && |run| > 1
    ensures IsRun(run[..|run| - 1], workers, callers) && Next(run[|run| - 2], run[|run| - 1])
  {
    var r := run[..|run| - 1];
    assert Next(run[|run| - 2], run[|run| - 2 + 1]);
    forall k | 0 <= k < |r| - 1 ensures Next(r[k], r[k + 1]) { assert Next(run[k], run[k + 1]); }
  }

  lemma {:induction false} RunInv(run: seq<State>, workers: nat, callers: nat)
    requires IsRun(run, workers, callers)
    ensures var s := run[|run| - 1]; Inv(s) && |s.workers| == workers && |s.callers| == callers
    decreases |run|
  {
    if |run| == 1 {
      InitInv(workers, callers);
    } else {
      RunInit(run, workers, callers);
      RunInv(run[..|run| - 1], workers, callers);
      NextInv(run[|run| - 2], run[|run| - 1]);
      NextSizes(run[|run| - 2], run[|run| - 1]);
    }
  }

  lemma NextInv(s: State, t: State)
    requires Inv(s) && Next(s, t)
    ensures Inv(t)
  {
    var step :| Enabled(s, step) && t == Do(s, step);
    StepKeepsInv(s, step);
  }

  lemma NextSizes(s: State, t: State)
    requires Next(s, t)
    ensures |t.workers| == |s.workers| && |t.callers| == |s.callers|
  {
    var step :| Enabled(s, step) && t == Do(s, step);
    DoSizes(s, step);
  }

  lemma DoSizes(s: State, step: Step)
    requires Enabled(s, step)
    ensures |Do(s, step).workers| == |s.workers| && |Do(s, step).callers| == |s.callers|
  {
  }

  // --- Jobs -------------------------------------------------------------

  // Every job pushed is in the queue, held by a worker or has been run, once,
  // and jobs leave the queue in the order in which they entered it.
  lemma EveryJobOnce(run: seq<State>, workers: nat, callers: nat, job: Job)
    requires IsRun(run, workers, callers)
    ensures var s := run[|run| - 1];
      s.pushed == s.pulled + s.queue &&
      multiset(s.pushed)[job] == multiset(s.queue)[job] + HeldCount(s.workers, job) + s.finished[job]
  {
    RunInv(run, workers, callers);
    var s := run[|run| - 1];
    assert Accounted(s, job);
    assert multiset(s.pulled + s.queue)[job] == multiset(s.pulled)[job] + multiset(s.queue)[job];
  }

  predicate OfWorkers(step: Step) {
    !step.Push? && !step.SemSpurious? && !step.WaitSpurious? && !step.WaitLock? && !step.CallAgain?
  }

  // A worker that is not in bsem_wait can go on when both locks are free.
  lemma WorkerCanGo(s: State, i: nat)
    requires Inv(s) && i < |s.workers| && s.workers[i] != SemAsleep && s.holder == -1 && s.rw == Free
    ensures exists step :: Enabled(s, step) && OfWorkers(step)
  {
    match s.workers[i]
    case Taken => assert Enabled(s, CountUp(i));
    case Counted => assert Enabled(s, Pull(i));
    case Running(_) => assert Enabled(s, Finish(i));
    case Ran =>
      SomeBusy(s.workers, i);
      var c := Signalee(s.callers);
      assert Enabled(s, CountDown(i, if s.working == 1 then c else -1));
    case AtSem => assert Enabled(s, SemLook(i));
    case SemWoken => assert Enabled(s, SemLook(i));
    case Posting(_) =>
  }

  lemma Signalee(callers: seq<Caller>) returns (c: int)
    ensures if Sleeping in callers then 0 <= c < |callers| && callers[c] == Sleeping else c == -1
  {
    if Sleeping in callers {
      c :| 0 <= c < |callers| && callers[c] == Sleeping;
    } else {
      c := -1;
    }
  }

  lemma Wakee(s: State) returns (who: int)
    ensures CanWake(s, who)
  {
    if AnyAsleep(s) {
      who :| 0 <= who < |s.workers| && s.workers[who] == SemAsleep;
    } else {
      who := -1;
    }
  }

  // Locks that are held will be released.
  lemma LockHolderCanGo(s: State)
    requires Inv(s) && (s.holder != -1 || s.rw != Free)
    ensures exists step :: Enabled(s, step) && OfWorkers(step)
  {
    if s.holder != -1 {
      assert InWait(s.callers[s.holder]);
      assert Enabled(s, ReadLen(s.holder)) || Enabled(s, Decide(s.holder));
    } else {
      var who := Wakee(s);
      if s.rw == HeldByPusher {
        assert Enabled(s, PushPost(who));
      } else {
        assert Enabled(s, PullPost(s.rw.i, who));
      }
    }
  }

  // No wakeup is lost: with a job in the queue or in work the pool can go on
  // without another push or a spurious wakeup.
  lemma PoolGoesOn(run: seq<State>, workers: nat, callers: nat)
    requires IsRun(run, workers, callers) && workers > 0
    requires run[|run| - 1].queue != [] || run[|run| - 1].working > 0
    ensures exists step :: Enabled(run[|run| - 1], step) && OfWorkers(step)
  {
    RunInv(run, workers, callers);
    var s := run[|run| - 1];
    if s.holder != -1 || s.rw != Free {
      LockHolderCanGo(s);
    } else if i: nat :| i < |s.workers| && s.workers[i] != SemAsleep {
      WorkerCanGo(s, i);
    } else {
      AllAsleep(s);
    }
  }

  // With work to do, not all workers sleep.
  lemma AllAsleep(s: State)
    requires Inv(s) && s.rw == Free && |s.workers| > 0 && forall i :: 0 <= i < |s.workers| ==> s.workers[i] == SemAsleep
    ensures s.queue == [] && s.working == 0
  {
    NothingBusy(s.workers);
    assert s.workers[0] == SemAsleep;
  }

  // --- Waiting ----------------------------------------------------------

  // No queued job and no running one.
  ghost predicate Idle(s: State) {
    s.queue == [] && s.working == 0
  }

  // Then every job pushed so far has been run.
  lemma IdleMeansDone(run: seq<State>, workers: nat, callers: nat, job: Job)
    requires IsRun(run, workers, callers) && Idle(run[|run| - 1])
    ensures var s := run[|run| - 1];
      multiset(s.pushed)[job] == s.finished[job] && forall i :: 0 <= i < |s.workers| ==> !Busy(s.workers[i])
  {
    RunInv(run, workers, callers);
    var s := run[|run| - 1];
    forall i | 0 <= i < |s.workers| ensures !Busy(s.workers[i]) {
      if Busy(s.workers[i]) { SomeBusy(s.workers, i); }
    }
    EveryJobOnce(run, workers, callers, job);
    NothingHeld(s.workers, job);
  }

  predicate SawQuiet(c: Caller) { c == Returned || (c.SawLen? && c.quiet) }

  // A caller comes to know of an idle moment only in one.
  lemma LearnsWhenIdle(s: State, step: Step, c: nat)
    requires Seen(s) && Enabled(s, step) && c < |s.callers| && c < |Do(s, step).callers|
    ensures SawQuiet(Do(s, step).callers[c]) ==> SawQuiet(s.callers[c]) || (Idle(s) && s.callers[c] == Locked)
  {
    if step.ReadLen? || step.Decide? {
    } else {
      assert Do(s, step).callers[c] == s.callers[c] || !SawQuiet(Do(s, step).callers[c]);
    }
  }

  // At moment k of the run the pool is idle and caller c is in thpool_wait, in
  // the call it is still in, or has returned from, at the run's end.
  ghost predicate IdleInCall(run: seq<State>, k: int, c: nat) {
    && 0 <= k < |run| && Idle(run[k]) && c < |run[k].callers| && run[k].callers[c] == Locked
    && forall i :: k <= i < |run| ==> InCall(run[i], c)
  }

  ghost predicate InCall(s: State, c: nat) {
    c < |s.callers| && s.callers[c] != Outside
  }

  lemma CallGoesOn(run: seq<State>, k: int, c: nat)
    requires |run| > 1 && IdleInCall(run[..|run| - 1], k, c) && InCall(run[|run| - 1], c)
    ensures IdleInCall(run, k, c)
  {
    var r := run[..|run| - 1];
    forall i | k <= i < |run| ensures InCall(run[i], c) {
      if i < |r| { assert InCall(r[i], c); }
    }
  }

  lemma IdleJustBefore(run: seq<State>, c: nat)
    requires |run| > 1 && Idle(run[|run| - 2]) && InCall(run[|run| - 1], c)
    requires c < |run[|run| - 2].callers| && run[|run| - 2].callers[c] == Locked
    ensures IdleInCall(run, |run| - 2, c)
  {
    forall i | |run| - 2 <= i < |run| ensures InCall(run[i], c) {
      assert i == |run| - 2 || i == |run| - 1;
    }
  }

  // When a call of thpool_wait has returned, there was an idle moment in it.
  lemma {:induction false} ReturnedWasIdle(run: seq<State>, workers: nat, callers: nat, c: nat)
    requires IsRun(run, workers, callers) && c < callers && |run[|run| - 1].callers| == callers
    requires SawQuiet(run[|run| - 1].callers[c])
    ensures exists k :: IdleInCall(run, k, c)
    decreases |run|
  {
    if |run| > 1 {
      RunInit(run, workers, callers);
      var r, s := run[..|run| - 1], run[|run| - 2];
      RunInv(r, workers, callers);
      var step :| Enabled(s, step) && run[|run| - 1] == Do(s, step);
      LearnsWhenIdle(s, step, c);
      if SawQuiet(s.callers[c]) {
        ReturnedWasIdle(r, workers, callers, c);
        var k :| IdleInCall(r, k, c);
        CallGoesOn(run, k, c);
      } else {
        IdleJustBefore(run, c);
      }
    }
  }

  // --- Waking the waiters -----------------------------------------------

  // A caller sleeps although there is nothing left to wait for.
  ghost predicate Forgotten(s: State) {
    Sleeping in s.callers && Idle(s)
  }

  // A single waiting thread, however often it waits, is signalled in time.
  lemma {:induction false} LoneWaiter(run: seq<State>, workers: nat, callers: nat)
    requires IsRun(run, workers, callers) && callers <= 1
    ensures !Forgotten(run[|run| - 1])
    decreases |run|
  {
    if |run| > 1 {
      RunInit(run, workers, callers);
      var r, s := run[..|run| - 1], run[|run| - 2];
      RunInv(r, workers, callers);
      LoneWaiter(r, workers, callers);
      var step :| Enabled(s, step) && run[|run| - 1] == Do(s, step);
      LoneStep(s, step);
    }
  }

  lemma LoneStep(s: State, step: Step)
    requires Inv(s) && Enabled(s, step) && |s.callers| <= 1 && !Forgotten(s)
    ensures !Forgotten(Do(s, step))
  {
    if step.Pull? { SomeBusy(s.workers, step.i); }
    DoSizes(s, step);
  }

  // pthread_cond_signal wakes one waiter only: with two of them, one may sleep
  // on after the last job is done.
  ghost predicate Reachable(s: State, workers: nat, callers: nat) {
    exists run :: IsRun(run, workers, callers) && run[|run| - 1] == s
  }

  lemma ReachInit(workers: nat, callers: nat)
    ensures Reachable(Init(workers, callers), workers, callers)
  {
    var run := [Init(workers, callers)];
    assert IsRun(run, workers, callers);
  }

  lemma ReachStep(s: State, step: Step, workers: nat, callers: nat)
    requires Reachable(s, workers, callers) && Enabled(s, step)
    ensures Reachable(Do(s, step), workers, callers)
  {
    var run :| IsRun(run, workers, callers) && run[|run| - 1] == s;
    var r := run + [Do(s, step)];
    forall k | 0 <= k < |r| - 1 ensures Next(r[k], r[k + 1]) {
      if k < |run| - 1 { assert Next(run[k], run[k + 1]); }
    }
    assert IsRun(r, workers, callers);
  }

  // The job has been pushed and a worker is about to pull it.
  function Started(workers: nat, callers: nat, job: Job): State
    requires workers > 0
  {
    Init(workers, callers).(queue := [job], pushed := [job], working := 1, workers := Copies(workers, AtSem)[0 := Counted])
  }

  lemma Starts(workers: nat, callers: nat, job: Job)
    requires workers > 0
    ensures Reachable(Started(workers, callers, job), workers, callers)
  {
    var s := Init(workers, callers);
    ReachInit(workers, callers);
    ReachStep(s, Push(job), workers, callers);
    var s1 := Do(s, Push(job));
    ReachStep(s1, PushPost(-1), workers, callers);
    var s2 := Do(s1, PushPost(-1));
    ReachStep(s2, SemLook(0), workers, callers);
    var s3 := Do(s2, SemLook(0));
    ReachStep(s3, CountUp(0), workers, callers);
    assert Do(s3, CountUp(0)) == Started(workers, callers, job);
  }

  // The worker runs the job and signals caller 0.
  lemma RunsJob(s: State, workers: nat, callers: nat, job: Job) returns (t: State)
    requires Reachable(s, workers, callers) && |s.workers| > 0 && s.workers[0] == Counted && s.queue == [job]
    requires s.rw == Free && s.holder == -1 && s.working == 1 && |s.callers| > 1 && !s.v
    requires s.callers[0] == Sleeping && s.callers[1] == Sleeping
    requires forall i :: 0 < i < |s.workers| ==> s.workers[i] == AtSem
    ensures Reachable(t, workers, callers) && t.callers == s.callers[0 := Signalled] && t.holder == -1 && Settled(t, 1)
  {
    ReachStep(s, Pull(0), workers, callers);
    var s1 := Do(s, Pull(0));
    ReachStep(s1, Finish(0), workers, callers);
    var s2 := Do(s1, Finish(0));
    ReachStep(s2, CountDown(0, 0), workers, callers);
    t := Do(s2, CountDown(0, 0));
  }

  // So in every pool with a worker, a waiter can be left asleep for good if and
  // only if more than one thread waits, each as often as it likes.
  lemma StrandedIff(workers: nat, callers: nat, job: Job)
    requires workers > 0
    ensures (exists s, c :: Reachable(s, workers, callers) && Settled(s, c)) <==> callers > 1
  {
    if callers > 1 {
      var s := Started(workers, callers, job);
      Starts(workers, callers, job);
      WaitTurn(s, workers, callers, 0);
      var s1 := s.(callers := s.callers[0 := Sleeping]);
      WaitTurn(s1, workers, callers, 1);
      var t := RunsJob(s1.(callers := s1.callers[1 := Sleeping]), workers, callers, job);
      WaitTurn(t, workers, callers, 0);
      var u := t.(callers := t.callers[0 := Returned]);
      assert Reachable(u, workers, callers) && Settled(u, 1);
    } else {
      forall s, c | Reachable(s, workers, callers) ensures !Settled(s, c) {
        var run :| IsRun(run, workers, callers) && run[|run| - 1] == s;
        LoneWaiter(run, workers, callers);
      }
    }
  }

  // Caller c sleeps, all is done, and no worker will count itself again.
  ghost predicate Settled(s: State, c: nat) {
    && c < |s.callers| && s.callers[c] == Sleeping && s.queue == [] && s.rw == Free && !s.v
    && s.working == 0 && forall i :: 0 <= i < |s.workers| ==> AtRest(s.workers[i])
  }

  predicate AtRest(w: Worker) { w == AtSem || w == SemAsleep || w == SemWoken }

  // Nothing but another job or a spurious wakeup gets it going again.
  lemma StaysSettled(s: State, step: Step, c: nat)
    requires Settled(s, c) && Enabled(s, step) && !step.Push? && !step.WaitSpurious?
    ensures Settled(Do(s, step), c)
  {
    assert forall i, w :: WorkerIs(s, i, w) ==> AtRest(w);
  }

  // --- The pool gets its work done --------------------------------------

  // How much a worker may still do before it goes back to sleep.
  function WorkerLeft(w: Worker): nat {
    match w
    case SemAsleep => 0
    case AtSem => 1
    case SemWoken => 1
    case Ran => 3
    case Running(_) => 4
    case Counted => 7
    case Taken => 8
    case Posting(_) => 16
  }

  function WorkersLeft(ws: seq<Worker>): nat {
    if ws == [] then 0 else WorkersLeft(ws[..|ws| - 1]) + WorkerLeft(ws[|ws| - 1])
  }

  lemma {:induction false} LeftUpdate(ws: seq<Worker>, i: nat, w: Worker)
    requires i < |ws|
    ensures WorkersLeft(ws[i := w]) == WorkersLeft(ws) - WorkerLeft(ws[i]) + WorkerLeft(w)
    decreases |ws|
  {
    var us, n := ws[i := w], |ws| - 1;
    if i < n {
      LeftUpdate(ws[..n], i, w);
      assert us[..n] == ws[..n][i := w];
    } else {
      assert us[..n] == ws[..n];
    }
  }

  function HolderLeft(s: State): nat {
    if 0 <= s.holder < |s.callers| then (if s.callers[s.holder] == Locked then 2 else 1) else 0
  }

  function Left(s: State): nat {
    20 * |s.queue| + (if s.v then 10 else 0) + (if s.rw == HeldByPusher then 12 else 0) + HolderLeft(s) + WorkersLeft(s.workers)
  }

  lemma PostLeft(s: State, who: int)
    requires CanWake(s, who)
    ensures var t := Post(s, who);
      WorkersLeft(t.workers) <= WorkersLeft(s.workers) + 1 && t.queue == s.queue && t.holder == s.holder && t.callers == s.callers
  {
    if who != -1 { LeftUpdate(s.workers, who, SemWoken); }
  }

  lemma PullLeft(s: State, i: nat)
    requires Enabled(s, Pull(i))
    ensures Left(Do(s, Pull(i))) < Left(s)
  {
    LeftUpdate(s.workers, i, Ran);
    if s.queue != [] {
      LeftUpdate(s.workers, i, Running(s.queue[0]));
      LeftUpdate(s.workers, i, Posting(s.queue[0]));
    }
  }

  lemma PullPostLeft(s: State, i: nat, who: int)
    requires QueueLocked(s) && Enabled(s, PullPost(i, who))
    ensures Left(Do(s, PullPost(i, who))) < Left(s)
  {
    PostLeft(s, who);
    LeftUpdate(Post(s, who).workers, i, Running(s.workers[i].job));
  }

  lemma CountDownLeft(s: State, i: nat, c: int)
    requires Enabled(s, CountDown(i, c))
    ensures Left(Do(s, CountDown(i, c))) < Left(s)
  {
    LeftUpdate(s.workers, i, AtSem);
  }

  lemma WaiterLeft(s: State, step: Step)
    requires CountLocked(s) && Enabled(s, step) && (step.ReadLen? || step.Decide?)
    ensures Left(Do(s, step)) < Left(s)
  {
    assert InWait(s.callers[step.c]);
  }

  // Every step of the workers, or of a waiter that holds the lock, uses some of
  // it up.
  lemma StepUsesUp(s: State, step: Step)
    requires QueueLocked(s) && CountLocked(s) && Enabled(s, step) && OfWorkers(step)
    ensures Left(Do(s, step)) < Left(s)
  {
    match step
    case PushPost(who) => PostLeft(s, who);
    case SemLook(i) => LeftUpdate(s.workers, i, if s.v then Taken else SemAsleep);
    case CountUp(i) => LeftUpdate(s.workers, i, Counted);
    case Pull(i) => PullLeft(s, i);
    case PullPost(i, who) => PullPostLeft(s, i, who);
    case Finish(i) => LeftUpdate(s.workers, i, Ran);
    case CountDown(i, c) => CountDownLeft(s, i, c);
    case ReadLen(_) => WaiterLeft(s, step);
    case Decide(_) => WaiterLeft(s, step);
  }

  lemma ReachableInv(s: State, workers: nat, callers: nat)
    requires Reachable(s, workers, callers)
    ensures Inv(s) && |s.workers| == workers && |s.callers| == callers
  {
    var run :| IsRun(run, workers, callers) && run[|run| - 1] == s;
    RunInv(run, workers, callers);
  }

  lemma GoesOn(s: State, workers: nat, callers: nat) returns (step: Step)
    requires Reachable(s, workers, callers) && workers > 0 && !Idle(s)
    ensures Enabled(s, step) && OfWorkers(step)
  {
    var run :| IsRun(run, workers, callers) && run[|run| - 1] == s;
    PoolGoesOn(run, workers, callers);
    step :| Enabled(s, step) && OfWorkers(step);
  }

  lemma PushedStays(s: State, step: Step)
    requires Enabled(s, step) && !step.Push?
    ensures Do(s, step).pushed == s.pushed
  {
  }

  // From every state a run reaches, a pool with a worker runs all jobs pushed so
  // far, each once, without another push or a spurious wakeup.
  lemma {:induction false} PoolFinishes(s: State, workers: nat, callers: nat) returns (t: State)
    requires Reachable(s, workers, callers) && workers > 0
    ensures Reachable(t, workers, callers) && Idle(t) && t.pushed == s.pushed
    ensures forall job :: t.finished[job] == multiset(s.pushed)[job]
    decreases Left(s)
  {
    if Idle(s) {
      t := s;
      var run :| IsRun(run, workers, callers) && run[|run| - 1] == s;
      forall job ensures t.finished[job] == multiset(s.pushed)[job] { IdleMeansDone(run, workers, callers, job); }
    } else {
      ReachableInv(s, workers, callers);
      var step := GoesOn(s, workers, callers);
      StepUsesUp(s, step);
      PushedStays(s, step);
      ReachStep(s, step, workers, callers);
      t := PoolFinishes(Do(s, step), workers, callers);
    }
  }

  // --- What a waiter may do ---------------------------------------------

  // A turn of thpool_wait with nobody in between: the caller returns if and only
  // if the pool is idle, and sleeps otherwise.
  lemma WaitTurn(s: State, workers: nat, callers: nat, c: nat)
    requires Reachable(s, workers, callers) && c < callers && |s.callers| == callers && s.holder == -1
    requires s.callers[c] == Outside || s.callers[c] == Signalled
    ensures Reachable(s.(callers := s.callers[c := if Idle(s) then Returned else Sleeping]), workers, callers)
  {
    ReachStep(s, WaitLock(c), workers, callers);
    var t := Do(s, WaitLock(c));
    ReachStep(t, ReadLen(c), workers, callers);
    var u := Do(t, ReadLen(c));
    ReachStep(u, Decide(c), workers, callers);
    assert Do(u, Decide(c)) == s.(callers := s.callers[c := if Idle(s) then Returned else Sleeping]);
  }

  // One that has returned may call again, and one that sleeps may wake up
  // without a signal, as may a worker.
  lemma MayWaitAgain(s: State, workers: nat, callers: nat, c: nat)
    requires Reachable(s, workers, callers) && c < |s.callers|
    ensures s.callers[c] == Returned ==> Reachable(s.(callers := s.callers[c := Outside]), workers, callers)
    ensures s.callers[c] == Sleeping ==> Reachable(s.(callers := s.callers[c := Signalled]), workers, callers)
  {
    if s.callers[c] == Returned { ReachStep(s, CallAgain(c), workers, callers); }
    if s.callers[c] == Sleeping { ReachStep(s, WaitSpurious(c), workers, callers); }
  }

  lemma WorkerMayWake(s: State, workers: nat, callers: nat, i: nat)
    requires Reachable(s, workers, callers) && WorkerIs(s, i, SemAsleep)
    ensures Reachable(s.(workers := s.workers[i := SemWoken]), workers, callers)
  {
    ReachStep(s, SemSpurious(i), workers, callers);
  }

  // A job may be pushed whenever no other thread is inside the queue.
  lemma MayPush(s: State, workers: nat, callers: nat, job: Job)
    requires Reachable(s, workers, callers) && s.rw == Free
    ensures exists t :: Reachable(t, workers, callers) && t.pushed == s.pushed + [job] && t.queue == s.queue + [job]
  {
    ReachStep(s, Push(job), workers, callers);
  }
}
