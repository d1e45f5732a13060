/**
 The work queue of src/xtypes/xworkq.c as interleaved steps of any number of threads.

 A thread enqueues a job under `q_lock` and then signals: while the queue looks non-empty it
 tries to take `wq->lock`, and if it gets the lock it runs jobs until a pop finds nothing,
 releases the lock and looks again. A thread that does not get the lock just leaves. A job may
 enqueue further jobs while it runs; if it also signals, it finds `wq->lock` taken and changes
 nothing, so that is no step. Memory
 is sequentially consistent; each step below is one shared-memory access or one critical
 section of a lock that is taken and released by steps of their own.
 */
module XWorkQ {
  import opened Seqs

  type Job = nat

  datatype Owner = NoOne | Thread(id: nat)

  datatype PC =
    | Idle               // not in a call
    | EnqWait(job: Job)  // xworkq_enqueue: spinning for q_lock
    | EnqCrit(job: Job)  // holds q_lock, about to append
    | Check              // xworkq_signal: about to read the count
    | TryRead            // xlock_try_lock: about to read the owner of wq->lock
    | TryCas             // saw no owner, about to compare and swap
    | PopWait            // holds wq->lock, spinning for q_lock
    | PopCrit            // holds both locks, about to pop
    | Run(job: Job)      // holds wq->lock, running the job
    | JobWait(job: Job, more: Job)  // the running job enqueues: spinning for q_lock
    | JobCrit(job: Job, more: Job)  // holds both locks, about to append
    | Release            // the pop found nothing: about to release wq->lock

  /** queue lists the jobs from the tail (last appended) to the head (next popped). */
  datatype State = State(
    queue: seq<Job>,
    cap: nat,
    qLock: Owner,
    wLock: Owner,
    pcs: seq<PC>,
    enqueued: seq<Job>,  // history: jobs appended, in order
    executed: seq<Job>,  // history: jobs that have run, in order
    grown: bool          // history: the queue was replaced by a larger one
  )

  /** What a thread, or the job it runs, does next: start one of the two calls, or make the next step of its call. */
  datatype Step = Enqueue(job: Job) | Signal | Go(memory: bool)

  ghost predicate Initial(s: State) {
    && s.queue == [] && s.cap == 8 && s.qLock == NoOne && s.wLock == NoOne
    && s.enqueued == [] && s.executed == [] && !s.grown
    && forall t | 0 <= t < |s.pcs| :: s.pcs[t] == Idle
  }

  ghost predicate Enabled(s: State, t: nat, step: Step) {
    && t < |s.pcs|
    && match step
       case Enqueue(_) => s.pcs[t].Idle? || s.pcs[t].Run?
       case Signal => s.pcs[t].Idle?
       case Go(_) => !s.pcs[t].Idle? && (Spins(s.pcs[t]) ==> s.qLock == NoOne)
  }

  predicate Spins(pc: PC) { pc.EnqWait? || pc.PopWait? || pc.JobWait? }

  function At(s: State, t: nat, pc: PC): State
    requires t < |s.pcs|
  {
    s.(pcs := s.pcs[t := pc])
  }

  /** __xworkq_enqueue inside q_lock: append, growing the queue first if it is full and there is memory. */
  ghost function Appended(s: State, t: nat, job: Job, memory: bool, done: PC, failed: PC): State
    requires t < |s.pcs|
  {
    var s1 := s.(qLock := NoOne, enqueued := s.enqueued + [job]);
    if |s.queue| < s.cap then At(s1, t, done).(queue := [job] + s.queue)
    else if memory then At(s1, t, done).(queue := [job] + Reversed(s.queue), cap := 2 * s.cap, grown := true)
    else At(s, t, failed).(qLock := NoOne)
  }

  ghost function Next(s: State, t: nat, step: Step): State
    requires Enabled(s, t, step)
  {
    match step
    case Enqueue(job) => At(s, t, if s.pcs[t].Run? then JobWait(s.pcs[t].job, job) else EnqWait(job))
    case Signal => At(s, t, Check)
    case Go(memory) => if UsesQueue(s.pcs[t]) then Work(s, t, memory) else Advance(s, t)
  }

  /** About to change the queue, or the list of jobs that have run. */
  predicate UsesQueue(pc: PC) { pc.EnqCrit? || pc.JobCrit? || pc.PopCrit? || pc.Run? }

  ghost function Work(s: State, t: nat, memory: bool): State
    requires t < |s.pcs| && UsesQueue(s.pcs[t])
  {
    match s.pcs[t]
    case EnqCrit(job) => Appended(s, t, job, memory, Check, Idle)
    case JobCrit(job, more) => Appended(s, t, more, memory, Run(job), Run(job))
    case PopCrit =>
      if s.queue == [] then At(s, t, Release).(qLock := NoOne)
      else
        var n := |s.queue| - 1;
        At(s, t, Run(s.queue[n])).(queue := s.queue[..n], qLock := NoOne)
    case Run(job) => At(s, t, PopWait).(executed := s.executed + [job])
  }

  ghost function Advance(s: State, t: nat): State
    requires t < |s.pcs| && !UsesQueue(s.pcs[t])
  {
    match s.pcs[t]
    case EnqWait(job) => At(s, t, EnqCrit(job)).(qLock := Thread(t))
    case JobWait(job, more) => At(s, t, JobCrit(job, more)).(qLock := Thread(t))
    case PopWait => At(s, t, PopCrit).(qLock := Thread(t))
    case Check => At(s, t, if s.queue == [] then Idle else TryRead)
    case TryRead => At(s, t, if s.wLock == NoOne then TryCas else Idle)
    case TryCas => if s.wLock == NoOne then At(s, t, PopWait).(wLock := Thread(t)) else At(s, t, Idle)
    case Release => At(s, t, Check).(wLock := NoOne)
    case Idle => s
  }

  // ----- runs

  ghost predicate IsRun(s: State, steps: seq<(nat, Step)>)
    decreases |steps|
  {
    steps == [] || (Enabled(s, steps[0].0, steps[0].1) && IsRun(Next(s, steps[0].0, steps[0].1), steps[1..]))
  }

  ghost function Exec(s: State, steps: seq<(nat, Step)>): State
    requires IsRun(s, steps)
    decreases |steps|
  {
    if steps == [] then s else Exec(Next(s, steps[0].0, steps[0].1), steps[1..])
  }

  // ----- the invariant

  predicate InCrit(pc: PC) { pc.EnqCrit? || pc.PopCrit? || pc.JobCrit? }

  /** A job is running; it may be enqueueing another one. */
  predicate Executing(pc: PC) { pc.Run? || pc.JobWait? || pc.JobCrit? }

  predicate HoldsLock(pc: PC) { pc.PopWait? || pc.PopCrit? || Executing(pc) || pc.Release? }

  /** The thread is inside xworkq_signal, and will not leave before it has looked at the queue again. */
  predicate Responsible(pc: PC) { pc.Check? || pc.TryRead? || pc.TryCas? || HoldsLock(pc) }

  ghost predicate LocksAgree(s: State) {
    && (s.qLock.Thread? ==> s.qLock.id < |s.pcs|)
    && (s.wLock.Thread? ==> s.wLock.id < |s.pcs|)
    && (forall t | 0 <= t < |s.pcs| :: InCrit(s.pcs[t]) <==> s.qLock == Thread(t))
    && (forall t | 0 <= t < |s.pcs| :: HoldsLock(s.pcs[t]) <==> s.wLock == Thread(t))
  }

  /** The job that is running, if any. */
  ghost function Running(s: State): seq<Job>
    requires s.wLock.Thread? ==> s.wLock.id < |s.pcs|
  {
    if s.wLock.Thread? && Executing(s.pcs[s.wLock.id]) then [s.pcs[s.wLock.id].job] else []
  }

  ghost predicate Watched(s: State) {
    s.queue != [] ==> exists t :: 0 <= t < |s.pcs| && Responsible(s.pcs[t])
  }

  /** Every job appended is in the queue, running, or done, as often as it was appended. */
  ghost predicate Conserved(s: State)
    requires LocksAgree(s)
  {
    multiset(s.enqueued) == multiset(s.executed) + multiset(Running(s)) + multiset(s.queue)
  }

  /** As long as the queue has not grown, jobs run in the order in which they were appended. */
  ghost predicate InOrder(s: State)
    requires LocksAgree(s)
  {
    !s.grown ==> s.enqueued == s.executed + Running(s) + Reversed(s.queue)
  }

  ghost predicate Inv(s: State) {
    && |s.queue| <= s.cap && s.cap > 0
    && LocksAgree(s)
    && Watched(s)
    && Conserved(s)
    && InOrder(s)
  }

  lemma InitialInv(s: State)
    requires Initial(s)
    ensures Inv(s)
  {
  }

  // ----- what one step changes

  /** Only the thread that moves changes, and it takes and releases only locks that are free or its own. */
  ghost predicate LockMoves(s: State, s': State, t: nat)
    requires t < |s.pcs| == |s'.pcs|
  {
    && s'.pcs == s.pcs[t := s'.pcs[t]]
    && (InCrit(s'.pcs[t]) <==> s'.qLock == Thread(t)) && (HoldsLock(s'.pcs[t]) <==> s'.wLock == Thread(t))
    && (s'.qLock == s.qLock || (s.qLock == NoOne && s'.qLock == Thread(t))
        || (s.qLock == Thread(t) && s'.qLock == NoOne))
    && (s'.wLock == s.wLock || (s.wLock == NoOne && s'.wLock == Thread(t))
        || (s.wLock == Thread(t) && s'.wLock == NoOne))
  }

  /** The thread runs the same job before and after, unless it takes one off the queue or finishes one. */
  ghost predicate JobMoves(s: State, s': State, t: nat, step: Step)
    requires t < |s.pcs| == |s'.pcs|
  {
    && (Executing(s'.pcs[t]) <==> Starts(s, t, step) || (Executing(s.pcs[t]) && !Finishes(s, t, step)))
    && (Starts(s, t, step) ==> HoldsLock(s.pcs[t]) && s'.pcs[t].job == s.queue[|s.queue| - 1])
    && (Executing(s.pcs[t]) && !Finishes(s, t, step) ==> s'.pcs[t].job == s.pcs[t].job)
  }

  /** The step takes a job off the queue to run it. */
  ghost predicate Starts(s: State, t: nat, step: Step)
    requires t < |s.pcs|
  {
    step.Go? && s.pcs[t].PopCrit? && s.queue != []
  }

  ghost predicate Finishes(s: State, t: nat, step: Step)
    requires t < |s.pcs|
  {
    step.Go? && s.pcs[t].Run?
  }

  /** The thread is about to append that job. */
  predicate Appends(pc: PC, job: Job) { pc == EnqCrit(job) || (pc.JobCrit? && pc.more == job) }

  /** The queue and the histories. */
  ghost predicate QueueMoves(s: State, s': State, t: nat, step: Step)
    requires t < |s.pcs|
  {
    if Starts(s, t, step) then
      s'.queue == s.queue[..|s.queue| - 1] && s'.enqueued == s.enqueued && s'.executed == s.executed
      && s'.grown == s.grown
    else if Finishes(s, t, step) then
      s'.queue == s.queue && s'.enqueued == s.enqueued && s'.executed == s.executed + [s.pcs[t].job]
      && s'.grown == s.grown
    else if s'.enqueued != s.enqueued then
      step.Go? && s'.queue != [] && Appends(s.pcs[t], s'.queue[0]) && s'.executed == s.executed
      && s'.enqueued == s.enqueued + [s'.queue[0]]
      && (s'.queue[1..] == s.queue || (s'.grown && s'.queue[1..] == Reversed(s.queue)))
      && (s.grown ==> s'.grown)
    else s'.queue == s.queue && s'.executed == s.executed && s'.grown == s.grown
  }

  ghost predicate CapMoves(s: State, s': State) {
    |s.queue| <= s.cap && s.cap > 0 ==> |s'.queue| <= s'.cap && s'.cap > 0
  }

  /** Whoever appends a job, or runs one, will look at the queue again. */
  ghost predicate WatchMoves(s: State, s': State, t: nat)
    requires t < |s.pcs| == |s'.pcs|
  {
    && (s'.queue != [] && s.queue == [] ==> Responsible(s'.pcs[t]))
    && (s'.queue != [] && Responsible(s.pcs[t]) ==>
        Responsible(s'.pcs[t]) || (s.wLock.Thread? && s.wLock.id != t && s'.wLock == s.wLock))
  }

  ghost predicate Moves(s: State, s': State, t: nat, step: Step)
    requires t < |s.pcs|
  {
    && |s'.pcs| == |s.pcs| && LockMoves(s, s', t) && JobMoves(s, s', t, step) && QueueMoves(s, s', t, step)
    && CapMoves(s, s') && WatchMoves(s, s', t)
  }

  lemma SpinMoves(s: State, t: nat, memory: bool)
    requires LocksAgree(s) && Enabled(s, t, Go(memory)) && Spins(s.pcs[t])
    ensures Moves(s, Advance(s, t), t, Go(memory))
  {
  }

  lemma LookMoves(s: State, t: nat, memory: bool)
    requires LocksAgree(s) && Enabled(s, t, Go(memory)) && !UsesQueue(s.pcs[t]) && !Spins(s.pcs[t])
    ensures Moves(s, Advance(s, t), t, Go(memory))
  {
  }

  lemma AppendMoves(s: State, t: nat, job: Job, memory: bool, done: PC, failed: PC)
    requires LocksAgree(s) && t < |s.pcs|
    requires || (s.pcs[t] == EnqCrit(job) && done == Check && failed == Idle)
             || (s.pcs[t].JobCrit? && s.pcs[t].more == job && done == failed == Run(s.pcs[t].job))
    ensures Moves(s, Appended(s, t, job, memory, done, failed), t, Go(memory))
  {
  }

  lemma WorkMoves(s: State, t: nat, memory: bool)
    requires LocksAgree(s) && t < |s.pcs| && (s.pcs[t].PopCrit? || s.pcs[t].Run?)
    ensures Moves(s, Work(s, t, memory), t, Go(memory))
  {
  }

  lemma CallMoves(s: State, t: nat, step: Step)
    requires LocksAgree(s) && Enabled(s, t, step) && !step.Go?
    ensures Moves(s, Next(s, t, step), t, step)
  {
  }

  lemma StepMoves(s: State, t: nat, step: Step)
    requires LocksAgree(s) && Enabled(s, t, step)
    ensures Moves(s, Next(s, t, step), t, step)
  {
    match step
    case Enqueue(_) => CallMoves(s, t, step);
    case Signal => CallMoves(s, t, step);
    case Go(memory) =>
      var pc := s.pcs[t];
      if Spins(pc) {
        SpinMoves(s, t, memory);
      } else if pc.EnqCrit? {
        AppendMoves(s, t, pc.job, memory, Check, Idle);
      } else if pc.JobCrit? {
        AppendMoves(s, t, pc.more, memory, Run(pc.job), Run(pc.job));
      } else if UsesQueue(pc) {
        WorkMoves(s, t, memory);
      } else {
        LookMoves(s, t, memory);
      }
  }

  // ----- the invariant is kept

  lemma LocksStep(s: State, s': State, t: nat)
    requires LocksAgree(s) && t < |s.pcs| == |s'.pcs| && LockMoves(s, s', t)
    ensures LocksAgree(s')
  {
    assert forall u | 0 <= u < |s.pcs| && u != t :: s'.pcs[u] == s.pcs[u];
  }

  /** No lost wakeup: whoever leaves the queue non-empty leaves a responsible thread behind. */
  lemma WatchedStep(s: State, s': State, t: nat)
    requires LocksAgree(s) && Watched(s) && t < |s.pcs| == |s'.pcs| && LockMoves(s, s', t) && WatchMoves(s, s', t)
    requires LocksAgree(s')
    ensures Watched(s')
  {
    if s'.queue != [] {
      if s.queue == [] || Responsible(s'.pcs[t]) {
        assert Responsible(s'.pcs[t]);
      } else {
        var u :| 0 <= u < |s.pcs| && Responsible(s.pcs[u]);
        assert Responsible(s'.pcs[if u != t then u else s.wLock.id]);
      }
    }
  }

  /** The running job after a step. */
  ghost predicate RunningMoves(s: State, s': State, t: nat, step: Step)
    requires LocksAgree(s) && LocksAgree(s') && t < |s.pcs|
  {
    && (Starts(s, t, step) ==> Running(s) == [] && Running(s') == [s.queue[|s.queue| - 1]])
    && (Finishes(s, t, step) ==> Running(s) == [s.pcs[t].job] && Running(s') == [])
    && (!Starts(s, t, step) && !Finishes(s, t, step) ==> Running(s') == Running(s))
  }

  lemma RunningStep(s: State, s': State, t: nat, step: Step)
    requires LocksAgree(s) && LocksAgree(s') && t < |s.pcs| == |s'.pcs|
    requires LockMoves(s, s', t) && JobMoves(s, s', t, step)
    ensures RunningMoves(s, s', t, step)
  {
    assert Executing(s.pcs[t]) ==> HoldsLock(s.pcs[t]);
    assert Executing(s'.pcs[t]) ==> HoldsLock(s'.pcs[t]);
  }

  lemma ConservedStep(s: State, s': State, t: nat, step: Step)
    requires LocksAgree(s) && LocksAgree(s') && t < |s.pcs| && Conserved(s)
    requires RunningMoves(s, s', t, step) && QueueMoves(s, s', t, step)
    ensures Conserved(s')
  {
    if Starts(s, t, step) {
      assert s.queue == s'.queue + [s.queue[|s.queue| - 1]];
      Regroup(multiset(s.executed), multiset([]), multiset(s'.queue), multiset([s.queue[|s.queue| - 1]]));
    } else if Finishes(s, t, step) {
      Regroup(multiset(s.executed), multiset([]), multiset(s.queue), multiset([s.pcs[t].job]));
    } else if s'.enqueued != s.enqueued {
      AppendConserves(s, s');
    }
  }

  lemma AppendConserves(s: State, s': State)
    requires LocksAgree(s) && LocksAgree(s') && Conserved(s) && Running(s') == Running(s) && s'.executed == s.executed
    requires s'.queue != [] && s'.enqueued == s.enqueued + [s'.queue[0]]
    requires s'.queue[1..] == s.queue || s'.queue[1..] == Reversed(s.queue)
    ensures Conserved(s')
  {
    ReversedKeepsElements(s.queue);
    assert s'.queue == [s'.queue[0]] + s'.queue[1..];
    Regroup(multiset(s.executed), multiset(Running(s)), multiset(s.queue), multiset([s'.queue[0]]));
  }

  lemma Regroup(x: multiset<Job>, r: multiset<Job>, q: multiset<Job>, j: multiset<Job>)
    ensures x + r + (q + j) == x + j + r + q == (x + j) + r + q == x + r + (j + q) == x + r + q + j
    ensures r == multiset{} ==> x + r + (q + j) == x + j + q == (x + j) + r + q
  {
  }

  /** Taking the oldest job off the queue and running it. */
  lemma StartOrder(done: seq<Job>, queue: seq<Job>, job: Job)
    ensures done + [] + Reversed(queue + [job]) == done + [job] + Reversed(queue)
  {
    ReversedAppend(queue, job);
  }

  /** Appending a job. */
  lemma AppendOrder(done: seq<Job>, running: seq<Job>, queue: seq<Job>, job: Job)
    ensures done + running + Reversed(queue) + [job] == done + running + Reversed([job] + queue)
  {
    ReversedPrepend(queue, job);
  }

  lemma InOrderStep(s: State, s': State, t: nat, step: Step)
    requires LocksAgree(s) && LocksAgree(s') && t < |s.pcs| && InOrder(s)
    requires RunningMoves(s, s', t, step) && QueueMoves(s, s', t, step)
    ensures InOrder(s')
  {
    if s'.grown {
    } else if Starts(s, t, step) {
      var job := s.queue[|s.queue| - 1];
      assert s.queue == s'.queue + [job];
      StartOrder(s.executed, s'.queue, job);
    } else if Finishes(s, t, step) {
      assert s.executed + [s.pcs[t].job] == s'.executed + [];
    } else if s'.enqueued != s.enqueued {
      assert s'.queue == [s'.queue[0]] + s.queue;
      AppendOrder(s.executed, Running(s), s.queue, s'.queue[0]);
    }
  }

  lemma InvStep(s: State, t: nat, step: Step)
    requires Inv(s) && Enabled(s, t, step)
    ensures Inv(Next(s, t, step))
  {
    StepMoves(s, t, step);
    MovesInv(s, Next(s, t, step), t, step);
  }

  lemma MovesInv(s: State, s': State, t: nat, step: Step)
    requires Inv(s) && t < |s.pcs| && Moves(s, s', t, step)
    ensures Inv(s')
  {
    LocksStep(s, s', t);
    WatchedStep(s, s', t);
    RunningStep(s, s', t, step);
    ConservedStep(s, s', t, step);
    InOrderStep(s, s', t, step);
  }

  lemma {:induction false} InvRun(s: State, steps: seq<(nat, Step)>)
    requires Inv(s) && IsRun(s, steps)
    ensures Inv(Exec(s, steps))
    decreases |steps|
  {
    if steps != [] {
      InvStep(s, steps[0].0, steps[0].1);
      InvRun(Next(s, steps[0].0, steps[0].1), steps[1..]);
    }
  }

  // ----- results

  /**
   No stranded work: in every run, whenever all calls have returned the queue is empty and
   every job that was appended has run, exactly as often as it was appended; in the order of
   appending, if the queue never had to grow.
   */
  lemma NoStrandedWork(s0: State, steps: seq<(nat, Step)>)
    requires Initial(s0) && IsRun(s0, steps)
    requires forall t | 0 <= t < |Exec(s0, steps).pcs| :: Exec(s0, steps).pcs[t] == Idle
    ensures var s := Exec(s0, steps);
            && s.queue == []
            && multiset(s.executed) == multiset(s.enqueued)
            && (!s.grown ==> s.executed == s.enqueued)
  {
    InitialInv(s0);
    InvRun(s0, steps);
    var s := Exec(s0, steps);
    assert Running(s) == [];
    if !s.grown {
      assert s.executed + [] + Reversed<Job>([]) == s.executed;
    }
  }

  /** At every moment of every run at most one thread is running a job. */
  lemma OneJobAtATime(s0: State, steps: seq<(nat, Step)>, t: nat, u: nat)
    requires Initial(s0) && IsRun(s0, steps)
    requires t < |Exec(s0, steps).pcs| && u < |Exec(s0, steps).pcs|
    requires Executing(Exec(s0, steps).pcs[t]) && Executing(Exec(s0, steps).pcs[u])
    ensures t == u
  {
    InitialInv(s0);
    InvRun(s0, steps);
  }

  // ----- every call returns

  /** How far a thread is from the end of its call, while no job is appended. */
  function Rank(pc: PC, empty: bool): nat {
    match pc
    case Idle => 0
    case EnqWait(_) => 9
    case EnqCrit(_) => 8
    case JobWait(_, _) => 9
    case JobCrit(_, _) => 8
    case Run(_) => 8
    case Check => if empty then 1 else 6
    case TryRead => if empty then 6 else 5
    case TryCas => if empty then 5 else 4
    case PopWait => if empty then 4 else 3
    case PopCrit => if empty then 3 else 2
    case Release => if empty then 2 else 7
  }

  /** A thread that may still append a job. */
  function Pending(pc: PC): nat { if pc.EnqWait? || pc.EnqCrit? || pc.JobWait? || pc.JobCrit? then 1 else 0 }

  ghost function RankSum(pcs: seq<PC>, empty: bool): (r: nat)
    ensures r <= 9 * |pcs|
  {
    if pcs == [] then 0 else Rank(pcs[0], empty) + RankSum(pcs[1..], empty)
  }

  ghost function PendingSum(pcs: seq<PC>): nat {
    if pcs == [] then 0 else Pending(pcs[0]) + PendingSum(pcs[1..])
  }

  lemma {:induction false} SumsUpdate(pcs: seq<PC>, t: nat, pc: PC, empty: bool)
    requires t < |pcs|
    ensures RankSum(pcs[t := pc], empty) == RankSum(pcs, empty) - Rank(pcs[t], empty) + Rank(pc, empty)
    ensures PendingSum(pcs[t := pc]) == PendingSum(pcs) - Pending(pcs[t]) + Pending(pc)
  {
    if t == 0 {
      assert pcs[0 := pc][1..] == pcs[1..];
    } else {
      SumsUpdate(pcs[1..], t - 1, pc, empty);
      assert pcs[t := pc][1..] == pcs[1..][t - 1 := pc];
    }
  }

  /** An upper bound for the number of steps until all calls have returned. */
  ghost function Measure(s: State): nat {
    var b := 9 * |s.pcs| + 1;
    PendingSum(s.pcs) * (2 * b) + |s.queue| * b + RankSum(s.pcs, s.queue == [])
  }

  lemma Weigh(p: nat, q: nat, r: nat, p': nat, q': nat, r': nat, b: nat)
    requires r < b && r' < b && q' <= q + 1
    requires p' < p || (p' == p && q' < q) || (p' == p && q' == q && r' < r)
    ensures p' * (2 * b) + q' * b + r' < p * (2 * b) + q * b + r
  {
    if p' < p {
      assert (p' + 1) * (2 * b) <= p * (2 * b);
      assert q' * b <= (q + 1) * b;
    } else if q' < q {
      assert (q' + 1) * b <= q * b;
    }
  }

  /** A step of a call settles a pending append, takes a job off, or advances the thread. */
  ghost predicate Progress(s: State, s': State, t: nat)
    requires t < |s.pcs| == |s'.pcs|
  {
    var p, p' := Pending(s.pcs[t]), Pending(s'.pcs[t]);
    && s'.pcs == s.pcs[t := s'.pcs[t]] && |s'.queue| <= |s.queue| + 1
    && (p' < p || (p' == p && |s'.queue| < |s.queue|)
        || (p' == p && s'.queue == s.queue && Rank(s'.pcs[t], s.queue == []) < Rank(s.pcs[t], s.queue == [])))
  }

  lemma WorkProgress(s: State, t: nat, memory: bool)
    requires t < |s.pcs| && UsesQueue(s.pcs[t])
    ensures |Work(s, t, memory).pcs| == |s.pcs| && Progress(s, Work(s, t, memory), t)
  {
  }

  lemma AdvanceProgress(s: State, t: nat)
    requires LocksAgree(s) && t < |s.pcs| && !UsesQueue(s.pcs[t]) && !s.pcs[t].Idle?
    ensures |Advance(s, t).pcs| == |s.pcs| && Progress(s, Advance(s, t), t)
  {
  }

  lemma StepProgress(s: State, t: nat, memory: bool)
    requires LocksAgree(s) && Enabled(s, t, Go(memory))
    ensures var s' := Next(s, t, Go(memory)); |s'.pcs| == |s.pcs| && Progress(s, s', t)
  {
    if UsesQueue(s.pcs[t]) { WorkProgress(s, t, memory); } else { AdvanceProgress(s, t); }
  }

  /** Every step of a call brings the calls nearer to their end. */
  lemma StepDecreases(s: State, t: nat, memory: bool)
    requires LocksAgree(s) && Enabled(s, t, Go(memory))
    ensures Measure(Next(s, t, Go(memory))) < Measure(s)
  {
    var s' := Next(s, t, Go(memory));
    StepProgress(s, t, memory);
    SumsUpdate(s.pcs, t, s'.pcs[t], s.queue == []);
    Weigh(PendingSum(s.pcs), |s.queue|, RankSum(s.pcs, s.queue == []),
          PendingSum(s'.pcs), |s'.queue|, RankSum(s'.pcs, s'.queue == []), 9 * |s.pcs| + 1);
  }

  ghost predicate NoNewCalls(steps: seq<(nat, Step)>) {
    forall i | 0 <= i < |steps| :: steps[i].1.Go?
  }

  /** Under every schedule the calls in progress end within Measure(s) steps, if no thread or job starts another. */
  lemma {:induction false} CallsEnd(s: State, steps: seq<(nat, Step)>)
    requires Inv(s) && IsRun(s, steps) && NoNewCalls(steps)
    ensures |steps| + Measure(Exec(s, steps)) <= Measure(s)
    decreases |steps|
  {
    if steps != [] {
      var t, step := steps[0].0, steps[0].1;
      StepDecreases(s, t, step.memory);
      InvStep(s, t, step);
      CallsEnd(Next(s, t, step), steps[1..]);
    }
  }

  /** No deadlock: while a call is in progress some thread can make a step. */
  lemma SomeoneCanStep(s: State)
    requires Inv(s) && exists t | 0 <= t < |s.pcs| :: s.pcs[t] != Idle
    ensures exists t :: Enabled(s, t, Go(true))
  {
    var t :| 0 <= t < |s.pcs| && s.pcs[t] != Idle;
    if s.qLock.Thread? {
      assert Enabled(s, s.qLock.id, Go(true));
    } else {
      assert Enabled(s, t, Go(true));
    }
  }
}
