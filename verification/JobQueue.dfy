// The job queue and the binary semaphore of libipfs/util/thread_pool.c: a
// linked list of jobs, each with a link to the one pushed after it.

module JobQueues {

  // Binary semaphore. What its waiters do is modelled in ThreadPool.
  class Bsem {
    var v: nat

    constructor ()
      ensures v == 0
    {
      v := 0;
    }

    // bsem_post
    method Post()
      modifies this
      ensures v == 1
    {
      v := 1;
    }
  }

  class Job<T> {
    var prev: Job?<T>      // "pointer to previous job": the next one in the queue
    const work: T          // function and argument

    constructor (work: T)
      ensures this.work == work && prev == null
    {
      this.work, prev := work, null;
    }
  }

  ghost function Works<T>(jobs: seq<Job<T>>): (w: seq<T>)
    reads set j <- jobs
    ensures |w| == |jobs| && forall k :: 0 <= k < |jobs| ==> w[k] == jobs[k].work
  {
    seq(|jobs|, k requires 0 <= k < |jobs| => jobs[k].work)
  }

  class JobQueue<T> {
    var front: Job?<T>
    var rear: Job?<T>
    const hasJobs: Bsem
    var len: nat
    ghost var jobs: seq<Job<T>>   // from front to rear

    ghost predicate Valid()
      reads this, jobs
    {
      && len == |jobs|
      && (front == if jobs == [] then null else jobs[0])
      && (rear == if jobs == [] then null else jobs[|jobs| - 1])
      && (forall i, j :: 0 <= i < j < |jobs| ==> jobs[i] != jobs[j])
      && (forall k :: 0 <= k < |jobs| - 1 ==> jobs[k].prev == jobs[k + 1])
      && (jobs != [] ==> jobs[|jobs| - 1].prev == null)
    }

    ghost function Contents(): seq<T>
      reads this, jobs
    {
      Works(jobs)
    }

    // jobqueue_init
    constructor ()
      ensures Valid() && Contents() == [] && hasJobs.v == 0 && fresh(hasJobs)
    {
      front, rear, len, jobs := null, null, 0, [];
      hasJobs := new Bsem();
    }

    // jobqueue_push of a new job, which goes to the rear; the semaphore is
    // posted.
    method Push(newJob: Job<T>)
      requires Valid() && newJob !in jobs
      modifies this, newJob, rear, hasJobs
      ensures Valid() && jobs == old(jobs) + [newJob]
      ensures Contents() == old(Contents()) + [newJob.work]
      ensures hasJobs.v == 1
    {
      newJob.prev := null;
      if len == 0 {
        front := newJob;
        rear := newJob;
      } else {
        rear.prev := newJob;
        rear := newJob;
      }
      jobs := jobs + [newJob];
      len := len + 1;
      hasJobs.Post();
    }

    // jobqueue_pull of the job at the front, if there is one; the semaphore is
    // posted when jobs are left.
    method Pull() returns (job: Job?<T>)
      requires Valid()
      modifies this, hasJobs
      ensures Valid()
      ensures old(jobs) == [] ==> job == null && jobs == []
      ensures old(jobs) != [] ==> job == old(jobs)[0] && jobs == old(jobs)[1..]
      ensures old(jobs) != [] ==> old(Contents()) == [job.work] + Contents()
      ensures hasJobs.v == if |old(jobs)| > 1 then 1 else old(hasJobs.v)
    {
      job := front;
      if len == 1 {
        front := null;
        rear := null;
        len := 0;
        jobs := [];
      } else if len > 1 {
        front := job.prev;
        len := len - 1;
        jobs := jobs[1..];
        hasJobs.Post();
      }
    }
  }
}
