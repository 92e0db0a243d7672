/** The poller tasks as explicit coroutines: the state kept between two polls of the future. */
module Poller {
  import opened Strings

  /** A future that is pending once, then ready. */
  class YieldNow {
    var yielded: bool

    constructor ()
      ensures !yielded
    {
      yielded := false;
    }

    method Poll() returns (ready: bool)
      modifies this
      ensures ready == old(yielded) && yielded
    {
      if yielded {
        return true;
      }
      yielded := true;
      return false;
    }
  }

  /** The results of the successive `thread.poll()` calls. */
  type Work = nat -> int

  /** How many of the first `n` thread polls found nothing to do. */
  function IdlePolls(work: Work, n: nat): nat {
    if n == 0 then 0 else IdlePolls(work, n - 1) + if work(n - 1) == 0 then 1 else 0
  }

  /** `spdk_poller_limited(maxIters)`; with 0 it is `spdk_poller()`. */
  class PollerTask {
    const maxIters: nat
    const work: Work
    var polls: nat             // thread polls made
    var waiting: YieldNow?     // the yield it is suspended at
    var finished: bool
    ghost var pendings: nat    // times it returned Pending
    ghost var resumes: nat     // times it was polled

    /** One Pending per idle thread poll, and no thread poll too many. */
    ghost predicate Valid()
      reads this, waiting
    {
      && (maxIters > 0 ==> polls <= maxIters)
      && pendings == IdlePolls(work, polls)
      && (waiting != null ==> waiting.yielded)
      && (finished ==> maxIters > 0 && polls == maxIters)
      && resumes == pendings + if finished then 1 else 0
    }

    constructor (maxIters: nat, work: Work)
      ensures Valid() && polls == 0 && !finished && waiting == null && pendings == 0
      ensures this.maxIters == maxIters && this.work == work
    {
      this.maxIters, this.work := maxIters, work;
      polls, waiting, finished, pendings, resumes := 0, null, false, 0, 0;
    }

    /** Whether another thread poll is due. */
    predicate More()
      reads this
    {
      maxIters == 0 || polls < maxIters
    }

    /** The future is polled: a pending yield is over. */
    method Wake()
      requires Valid() && !finished
      modifies this, waiting
      ensures waiting == null && unchanged(this`polls, this`finished, this`pendings)
      ensures resumes == old(resumes) + 1
    {
      resumes := resumes + 1;
      if waiting != null {
        var again := waiting.Poll();
        assert again;
        waiting := null;
      }
    }

    /** One turn of the loop: a thread poll, and the first poll of a yield if it found nothing. */
    method Turn() returns (suspended: bool)
      requires More() && waiting == null
      modifies this
      ensures polls == old(polls) + 1 && suspended == (work(polls - 1) == 0)
      ensures pendings == old(pendings) + if suspended then 1 else 0
      ensures if suspended then fresh(waiting) && waiting.yielded else waiting == null
      ensures unchanged(this`finished, this`resumes)
    {
      var workDone := work(polls);
      polls := polls + 1;
      suspended := false;
      if workDone == 0 {
        waiting := new YieldNow();
        var now := waiting.Poll();
        suspended := !now;
        pendings := pendings + 1;
      }
    }

    /** Turns until one suspends, the iteration limit is met, or `cut` thread polls were made. Without
        a limit or a cut it returns only if some later thread poll is idle: `nextIdle` is one. */
    method Turns(cut: Option<nat>, ghost nextIdle: nat) returns (suspended: bool)
      requires waiting == null && (maxIters > 0 ==> polls <= maxIters) && (cut.Some? ==> polls <= cut.value)
      requires maxIters == 0 && cut.None? ==> polls <= nextIdle && work(nextIdle) == 0
      requires pendings == IdlePolls(work, polls)
      modifies this
      ensures polls >= old(polls) && unchanged(this`finished, this`resumes)
      ensures (maxIters > 0 ==> polls <= maxIters) && (cut.Some? ==> polls <= cut.value)
      ensures pendings == IdlePolls(work, polls) == old(pendings) + if suspended then 1 else 0
      ensures suspended ==> polls > old(polls) && work(polls - 1) == 0 && fresh(waiting) && waiting.yielded
      ensures !suspended ==> waiting == null && (!More() || (cut.Some? && polls == cut.value))
      ensures !suspended && polls > old(polls) ==> work(polls - 1) != 0
    {
      suspended := false;
      while !suspended && More() && (cut.None? || polls < cut.value)
        invariant polls >= old(polls) && unchanged(this`finished, this`resumes)
        invariant (maxIters > 0 ==> polls <= maxIters) && (cut.Some? ==> polls <= cut.value)
        invariant maxIters == 0 && cut.None? && !suspended ==> polls <= nextIdle
        invariant pendings == IdlePolls(work, polls) == old(pendings) + if suspended then 1 else 0
        invariant suspended ==> polls > old(polls) && work(polls - 1) == 0 && fresh(waiting) && waiting.yielded
        invariant !suspended ==> waiting == null && (polls > old(polls) ==> work(polls - 1) != 0)
        decreases !suspended,
                  (if cut.Some? then cut.value else if maxIters == 0 then nextIdle else maxIters) - polls
      {
        suspended := Turn();
      }
    }

    /** One poll of the future. Without an iteration limit it returns only if some later thread
        poll is idle: `nextIdle` is one. */
    method Resume(ghost nextIdle: nat) returns (ready: bool)
      requires Valid() && !finished
      requires maxIters == 0 ==> polls <= nextIdle && work(nextIdle) == 0
      modifies this, waiting
      ensures Valid() && ready == finished
      ensures waiting == null || fresh(waiting)
      ensures ready ==> maxIters > 0 && polls == maxIters && pendings == old(pendings)
      ensures !ready ==> polls > old(polls) && work(polls - 1) == 0 && pendings == old(pendings) + 1
    {
      Wake();
      var suspended := Turns(None, nextIdle);
      finished := !suspended;
      ready := finished;
    }
  }

  /** Whoever drives a limited poller, and whatever the thread polls find: exactly `maxIters` thread
      polls, one Pending for each idle one, then completion. */
  method Drive(maxIters: nat, work: Work) returns (polls: nat, pendings: nat)
    requires maxIters > 0
    ensures polls == maxIters
    ensures pendings == IdlePolls(work, maxIters)
  {
    var task := new PollerTask(maxIters, work);
    pendings := 0;
    while !task.finished
      invariant fresh(task) && (task.waiting != null ==> fresh(task.waiting))
      invariant task.Valid() && task.maxIters == maxIters && task.work == work
      invariant pendings == task.pendings
      decreases !task.finished, maxIters - task.polls
    {
      var ready := task.Resume(0);
      if !ready {
        pendings := pendings + 1;
      }
    }
    polls := task.polls;
  }

  /** Without a limit the poller never completes, whatever the thread polls find: after any number
      `k` of them it has returned Pending once for each idle one, is suspended exactly if the last
      was idle, and was resumed exactly once more than it suspended if it is not. */
  method DriveUnlimited(work: Work, k: nat) returns (pendings: nat, resumes: nat, finished: bool)
    ensures !finished && pendings == IdlePolls(work, k)
    ensures resumes == pendings + if k > 0 && work(k - 1) != 0 then 1 else 0
  {
    var task := new PollerTask(0, work);
    pendings, resumes := 0, 0;
    while task.polls < k
      invariant fresh(task) && (task.waiting != null ==> fresh(task.waiting) && task.waiting.yielded)
      invariant task.maxIters == 0 && task.work == work && !task.finished
      invariant task.polls <= k && pendings == task.pendings == IdlePolls(work, task.polls)
      invariant resumes == task.resumes
      invariant resumes == pendings + if task.polls > 0 && work(task.polls - 1) != 0 then 1 else 0
      invariant task.polls < k && task.polls > 0 ==> work(task.polls - 1) == 0
      decreases k - task.polls
    {
      task.Wake();
      var suspended := task.Turns(Some(k), 0);
      resumes := resumes + 1;
      if suspended {
        pendings := pendings + 1;
      }
    }
    finished := task.finished;
  }
}
