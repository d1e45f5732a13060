/**
 What the calls of the work queue come to: exactly when an enqueue appends its job, what becomes
 of every job that was ever passed to one, and what a thread does that nobody interferes with.
 */
module XWorkQCalls {
  import opened Seqs
  import opened XWorkQ

  // ----- one enqueue

  /** The thread holds q_lock to append a job. */
  predicate Appending(pc: PC) { pc.EnqCrit? || pc.JobCrit? }

  /** The job that a call of enqueue under way was given. */
  predicate Offers(pc: PC) { pc.EnqWait? || pc.EnqCrit? || pc.JobWait? || pc.JobCrit? }

  function Offered(pc: PC): Job
    requires Offers(pc)
  {
    if pc.JobWait? || pc.JobCrit? then pc.more else pc.job
  }

  /**
   An append fails exactly if the queue is full and there is no memory for a larger one. The job
   is the last to be popped. A queue that is not full keeps its order of popping; one that grows
   turns it round, and has twice the room.
   */
  lemma AppendsIff(s: State, t: nat, memory: bool)
    requires t < |s.pcs| && Appending(s.pcs[t])
    ensures Enabled(s, t, Go(memory))
    ensures var s' := Next(s, t, Go(memory)); var job := Offered(s.pcs[t]); var full := |s.queue| >= s.cap;
            && s'.enqueued == (if full && !memory then s.enqueued else s.enqueued + [job])
            && Reversed(s'.queue) == (if !full then Reversed(s.queue) + [job]
                                      else if memory then s.queue + [job]
                                      else Reversed(s.queue))
            && s'.cap == (if full && memory then 2 * s.cap else s.cap)
            && (s'.grown <==> s.grown || (full && memory))
            && s'.executed == s.executed && s'.wLock == s.wLock && s'.qLock == NoOne
            && (s.pcs[t].EnqCrit? ==> s'.pcs[t] == if full && !memory then Idle else Check)
            && (s.pcs[t].JobCrit? ==> s'.pcs[t] == Run(s.pcs[t].job))
  {
    ReversedPrepend(s.queue, Offered(s.pcs[t]));
    ReversedPrepend(Reversed(s.queue), Offered(s.pcs[t]));
    ReversedTwice(s.queue);
  }

  // ----- every job

  /** The jobs that calls of enqueue are given in the course of a run. */
  function Asked(steps: seq<(nat, Step)>): seq<Job> {
    if steps == [] then []
    else (if steps[0].1.Enqueue? then [steps[0].1.job] else []) + Asked(steps[1..])
  }

  /** The step finds the queue full and no memory. */
  ghost predicate Refuses(s: State, t: nat, step: Step) {
    t < |s.pcs| && Appending(s.pcs[t]) && step == Go(false) && |s.queue| >= s.cap
  }

  /** The jobs whose enqueue met a full queue without memory. */
  ghost function Refused(s: State, steps: seq<(nat, Step)>): seq<Job>
    requires IsRun(s, steps)
    decreases |steps|
  {
    if steps == [] then []
    else
      var t, step := steps[0].0, steps[0].1;
      (if Refuses(s, t, step) then [Offered(s.pcs[t])] else []) + Refused(Next(s, t, step), steps[1..])
  }

  /** The calls of enqueue under way that were given that job. */
  function Calls(pc: PC, job: Job): nat { if Offers(pc) && Offered(pc) == job then 1 else 0 }

  ghost function InFlight(pcs: seq<PC>, job: Job): nat {
    if pcs == [] then 0 else Calls(pcs[0], job) + InFlight(pcs[1..], job)
  }

  lemma {:induction false} InFlightUpdate(pcs: seq<PC>, t: nat, pc: PC, job: Job)
    requires t < |pcs|
    ensures InFlight(pcs[t := pc], job) == InFlight(pcs, job) - Calls(pcs[t], job) + Calls(pc, job)
  {
    if t == 0 {
      assert pcs[0 := pc][1..] == pcs[1..];
    } else {
      InFlightUpdate(pcs[1..], t - 1, pc, job);
      assert pcs[t := pc][1..] == pcs[1..][t - 1 := pc];
    }
  }

  lemma {:induction false} NoneInFlight(pcs: seq<PC>, job: Job)
    requires forall t | 0 <= t < |pcs| :: pcs[t] == Idle
    ensures InFlight(pcs, job) == 0
  {
    if pcs != [] { NoneInFlight(pcs[1..], job); }
  }

  /** A step that neither begins nor ends a call of enqueue leaves the jobs of such calls alone. */
  ghost predicate SameOffer(s: State, s': State, t: nat)
    requires t < |s.pcs|
  {
    && |s'.pcs| == |s.pcs| && s'.pcs == s.pcs[t := s'.pcs[t]] && s'.enqueued == s.enqueued
    && (Offers(s'.pcs[t]) <==> Offers(s.pcs[t])) && (Offers(s.pcs[t]) ==> Offered(s'.pcs[t]) == Offered(s.pcs[t]))
  }

  lemma AdvanceOffer(s: State, t: nat)
    requires t < |s.pcs| && !UsesQueue(s.pcs[t]) && s.pcs[t] != Idle
    ensures SameOffer(s, Advance(s, t), t)
  {
  }

  lemma WorkOffer(s: State, t: nat, memory: bool)
    requires t < |s.pcs| && (s.pcs[t].PopCrit? || s.pcs[t].Run?)
    ensures SameOffer(s, Work(s, t, memory), t)
  {
  }

  lemma EnqueueOffer(s: State, t: nat, job: Job)
    requires Enabled(s, t, Enqueue(job))
    ensures var s' := Next(s, t, Enqueue(job));
            && s'.pcs == s.pcs[t := s'.pcs[t]] && s'.enqueued == s.enqueued
            && !Offers(s.pcs[t]) && Offers(s'.pcs[t]) && Offered(s'.pcs[t]) == job
  {
  }

  lemma AppendOffer(s: State, t: nat, memory: bool)
    requires t < |s.pcs| && Appending(s.pcs[t])
    ensures var s' := Next(s, t, Go(memory));
            s'.pcs == s.pcs[t := s'.pcs[t]] && !Offers(s'.pcs[t])
  {
  }

  /** How often a step asks for that job, and how often it refuses it. */
  function AsksFor(step: Step, job: Job): nat { if step.Enqueue? && step.job == job then 1 else 0 }

  ghost function RefusesJob(s: State, t: nat, step: Step, job: Job): nat {
    if Refuses(s, t, step) && Offered(s.pcs[t]) == job then 1 else 0
  }

  lemma AskedStep(s: State, t: nat, step: Step, job: Job)
    requires Enabled(s, t, step)
    ensures var s' := Next(s, t, step);
            multiset(s.enqueued)[job] + InFlight(s.pcs, job) + AsksFor(step, job)
            == multiset(s'.enqueued)[job] + InFlight(s'.pcs, job) + RefusesJob(s, t, step, job)
  {
    if step.Enqueue? {
      EnqueueOffer(s, t, step.job);
    } else if step.Go? && Appending(s.pcs[t]) {
      AppendOffer(s, t, step.memory);
      AppendsIff(s, t, step.memory);
    } else if step.Go? {
      if UsesQueue(s.pcs[t]) { WorkOffer(s, t, step.memory); } else { AdvanceOffer(s, t); }
    }
    InFlightUpdate(s.pcs, t, Next(s, t, step).pcs[t], job);
  }

  lemma {:induction false} AskedRun(s: State, steps: seq<(nat, Step)>, job: Job)
    requires IsRun(s, steps)
    ensures multiset(s.enqueued)[job] + InFlight(s.pcs, job) + multiset(Asked(steps))[job]
            == multiset(Exec(s, steps).enqueued)[job] + InFlight(Exec(s, steps).pcs, job)
               + multiset(Refused(s, steps))[job]
    decreases |steps|
  {
    if steps != [] {
      AskedStep(s, steps[0].0, steps[0].1, job);
      AskedRun(Next(s, steps[0].0, steps[0].1), steps[1..], job);
      AskedSplits(s, steps, job);
    }
  }

  lemma AskedSplits(s: State, steps: seq<(nat, Step)>, job: Job)
    requires IsRun(s, steps) && steps != []
    ensures var t, step := steps[0].0, steps[0].1;
            && multiset(Asked(steps))[job] == AsksFor(step, job) + multiset(Asked(steps[1..]))[job]
            && multiset(Refused(s, steps))[job]
               == RefusesJob(s, t, step, job) + multiset(Refused(Next(s, t, step), steps[1..]))[job]
  {
  }

  /**
   Once all calls have returned, every job that was ever passed to an enqueue has run, exactly as
   often as it was passed, but for those whose enqueue met a full queue without memory.
   */
  lemma EveryJobRuns(s0: State, steps: seq<(nat, Step)>)
    requires Initial(s0) && IsRun(s0, steps)
    requires forall t | 0 <= t < |Exec(s0, steps).pcs| :: Exec(s0, steps).pcs[t] == Idle
    ensures multiset(Exec(s0, steps).executed) + multiset(Refused(s0, steps)) == multiset(Asked(steps))
  {
    NoStrandedWork(s0, steps);
    forall job: Job
      ensures (multiset(Exec(s0, steps).executed) + multiset(Refused(s0, steps)))[job] == multiset(Asked(steps))[job]
    {
      AskedRun(s0, steps, job);
      NoneInFlight(s0.pcs, job);
      NoneInFlight(Exec(s0, steps).pcs, job);
    }
  }

  // ----- a thread that nobody interferes with

  /** The next n steps of thread t, while all others stand still and no enqueue runs out of memory. */
  ghost function Alone(s: State, t: nat, n: nat): State
    decreases n
  {
    if n == 0 || !Enabled(s, t, Go(true)) then s else Alone(Next(s, t, Go(true)), t, n - 1)
  }

  /** Holding wq->lock it runs all jobs, oldest first, and leaves. */
  lemma {:induction false} Drains(s: State, t: nat)
    requires t < |s.pcs| && s.pcs[t] == PopWait && s.qLock == NoOne && s.wLock == Thread(t)
    ensures Alone(s, t, 3 * |s.queue| + 4)
            == s.(queue := [], executed := s.executed + Reversed(s.queue), wLock := NoOne, pcs := s.pcs[t := Idle])
    decreases |s.queue|
  {
    if s.queue == [] {
      LeavesEmpty(s, t);
    } else {
      RunsOne(s, t, 3 * (|s.queue| - 1) + 4);
      Drains(AfterOne(s, t), t);
      OneOfThem(s, t);
    }
  }

  lemma OneOfThem(s: State, t: nat)
    requires t < |s.pcs| && s.queue != []
    ensures var s1 := AfterOne(s, t); s1.executed + Reversed(s1.queue) == s.executed + Reversed(s.queue)
  {
    var n := |s.queue| - 1;
    assert s.queue == s.queue[..n] + [s.queue[n]];
    ReversedAppend(s.queue[..n], s.queue[n]);
  }

  ghost function AfterOne(s: State, t: nat): State
    requires t < |s.pcs| && s.queue != []
  {
    var n := |s.queue| - 1;
    s.(queue := s.queue[..n], executed := s.executed + [s.queue[n]])
  }

  lemma RunsOne(s: State, t: nat, m: nat)
    requires t < |s.pcs| && s.pcs[t] == PopWait && s.qLock == NoOne && s.wLock == Thread(t) && s.queue != []
    ensures Alone(s, t, m + 3) == Alone(AfterOne(s, t), t, m)
  {
    var n := |s.queue| - 1;
    var a := Next(s, t, Go(true));
    var b := Next(a, t, Go(true));
    assert b == s.(queue := s.queue[..n], pcs := s.pcs[t := Run(s.queue[n])]);
    var c := Next(b, t, Go(true));
    assert c.pcs == s.pcs;
    assert c == AfterOne(s, t);
    assert Alone(s, t, m + 3) == Alone(a, t, m + 2) == Alone(b, t, m + 1) == Alone(c, t, m);
  }

  lemma LeavesEmpty(s: State, t: nat)
    requires t < |s.pcs| && s.pcs[t] == PopWait && s.qLock == NoOne && s.wLock == Thread(t) && s.queue == []
    ensures Alone(s, t, 4) == s.(wLock := NoOne, pcs := s.pcs[t := Idle])
    ensures s.executed + Reversed(s.queue) == s.executed
  {
    var a := Next(s, t, Go(true));
    var b := Next(a, t, Go(true));
    var c := Next(b, t, Go(true));
    assert c == s.(wLock := NoOne, pcs := s.pcs[t := Check]);
    assert Next(c, t, Go(true)) == s.(wLock := NoOne, pcs := s.pcs[t := Idle]);
    assert Alone(s, t, 4) == Alone(a, t, 3) == Alone(b, t, 2) == Alone(c, t, 1);
  }

  /** A signal that finds wq->lock free runs all jobs in the queue in the order of popping, and returns. */
  lemma SignalRunsAll(s: State, t: nat)
    requires t < |s.pcs| && s.pcs[t] == Idle && s.qLock == NoOne && s.wLock == NoOne
    ensures Alone(Next(s, t, Signal), t, 3 * |s.queue| + 7)
            == s.(queue := [], executed := s.executed + Reversed(s.queue))
  {
    var c := Next(s, t, Signal);
    if s.queue == [] {
      assert Next(c, t, Go(true)).pcs == s.pcs;
    } else {
      ChecksIn(s, t, 3 * |s.queue| + 4);
      Drains(s.(pcs := s.pcs[t := PopWait], wLock := Thread(t)), t);
      assert s.pcs[t := PopWait][t := Idle] == s.pcs;
    }
  }

  lemma ChecksIn(s: State, t: nat, m: nat)
    requires t < |s.pcs| && s.wLock == NoOne && s.queue != []
    ensures Alone(At(s, t, Check), t, m + 3) == Alone(s.(pcs := s.pcs[t := PopWait], wLock := Thread(t)), t, m)
  {
    var c := At(s, t, Check);
    var a := Next(c, t, Go(true));
    var b := Next(a, t, Go(true));
    assert Next(b, t, Go(true)) == s.(pcs := s.pcs[t := PopWait], wLock := Thread(t));
    assert Alone(c, t, m + 3) == Alone(a, t, m + 2) == Alone(b, t, m + 1);
  }

  /** An enqueue that nobody interferes with runs its job at once, after those that were waiting. */
  lemma EnqueueRunsJob(s: State, t: nat, job: Job)
    requires t < |s.pcs| && s.pcs[t] == Idle && s.qLock == NoOne && s.wLock == NoOne && |s.queue| < s.cap
    ensures Alone(Next(s, t, Enqueue(job)), t, 3 * |s.queue| + 12)
            == s.(queue := [], executed := s.executed + Reversed(s.queue) + [job], enqueued := s.enqueued + [job])
  {
    var a := Next(s, t, Enqueue(job));
    var b := Next(a, t, Go(true));
    var s1 := s.(queue := [job] + s.queue, enqueued := s.enqueued + [job]);
    assert Next(b, t, Go(true)) == At(s1, t, Check) == Next(s1, t, Signal);
    SignalRunsAll(s1, t);
    ReversedPrepend(s.queue, job);
    assert Alone(a, t, 3 * |s.queue| + 12) == Alone(b, t, 3 * |s.queue| + 11);
    assert s1.executed + Reversed(s1.queue) == s.executed + Reversed(s.queue) + [job];
  }
}
