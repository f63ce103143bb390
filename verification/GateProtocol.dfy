/**
  The gate under concurrency: any number of jobs pass through `enter`, run and
  release, while any number of cancel calls race them. Each step is one atomic
  action of the program: a critical section of the gate, a store or a load of
  one of the handle's flags, or a channel operation.
 */
module GateProtocol {
  import opened JobGate
  import opened Sequences

  type Job = nat
  type Thread = nat

  /** Where a job's goroutine stands in `enter` and around it. */
  datatype Pc =
    | Fresh      // not at the gate yet
    | Waiting    // blocked in the select
    | Leaving    // the select took the cancel branch; about to unlink
    | Passing    // the node was already popped; about to release
    | Starting   // has the slot; about to set started
    | Checking   // about to read cancelled
    | Declining  // saw the cancel; about to release
    | Running    // enter returned true
    | Left       // enter returned false
    | Done       // ran and released

  /** Where a cancel call stands. */
  datatype CancelPc = Begun | Marked | Signalled | SawQueued | Killing

  datatype Cancel = Cancel(job: Job, pc: CancelPc)

  datatype State = State(
    gate: Gate<Job>,
    pc: map<Job, Pc>,
    handed: set<Job>,      // nodes whose channel is closed
    started: set<Job>,
    cancelled: set<Job>,
    cancelCh: set<Job>,    // closed cancel channels
    cancels: map<Thread, Cancel>,
    arrivals: seq<Job>,    // history: order of the first critical sections
    grants: seq<Job>,      // history: order in which the slot was given
    unlinked: set<Job>)    // history: jobs removed from the queue

  const INIT := State(Gate([], false), map[], {}, {}, {}, {}, map[], [], [], {})

  datatype Step =
    | Arrive(job: Job)
    | TakeSlot(job: Job)
    | PickCancel(job: Job)
    | Unlink(job: Job)
    | PassOn(job: Job)
    | SetStarted(job: Job)
    | CheckCancelled(job: Job)
    | Decline(job: Job)
    | Finish(job: Job)
    | BeginCancel(thread: Thread, job: Job)
    | Mark(thread: Thread)
    | Signal(thread: Thread)
    | Look(thread: Thread)

  function At(s: State, j: Job): Pc {
    if j in s.pc then s.pc[j] else Fresh
  }

  function Go(s: State, j: Job, p: Pc): State {
    s.(pc := s.pc[j := p])
  }

  /** `release`: pops the oldest waiter and closes its channel, or frees the slot. */
  function Release(s: State): State {
    var q := s.gate.queue;
    if q != [] then s.(gate := Released(s.gate), handed := s.handed + {q[0]}, grants := s.grants + [q[0]])
    else s.(gate := Released(s.gate))
  }

  predicate CancelAt(s: State, t: Thread, p: CancelPc) {
    t in s.cancels && s.cancels[t].pc == p
  }

  predicate Enabled(s: State, step: Step) {
    match step
    case Arrive(j) => At(s, j) == Fresh
    case TakeSlot(j) => At(s, j) == Waiting && j in s.handed
    case PickCancel(j) => At(s, j) == Waiting && j in s.cancelCh
    case Unlink(j) => At(s, j) == Leaving
    case PassOn(j) => At(s, j) == Passing
    case SetStarted(j) => At(s, j) == Starting
    case CheckCancelled(j) => At(s, j) == Checking
    case Decline(j) => At(s, j) == Declining
    case Finish(j) => At(s, j) == Running
    case BeginCancel(t, _) => t !in s.cancels
    case Mark(t) => CancelAt(s, t, Begun)
    case Signal(t) => CancelAt(s, t, Marked)
    case Look(t) => CancelAt(s, t, Signalled)
  }

  function Advance(s: State, t: Thread, p: CancelPc): State
    requires t in s.cancels
  {
    s.(cancels := s.cancels[t := s.cancels[t].(pc := p)])
  }

  function Next(s: State, step: Step): State
    requires Enabled(s, step)
  {
    match step
    case Arrive(j) =>
      var s1 := s.(gate := Entered(s.gate, j), arrivals := s.arrivals + [j]);
      if s.gate.held then Go(s1, j, Waiting) else Go(s1, j, Starting).(grants := s.grants + [j])
    case TakeSlot(j) => Go(s, j, Starting)
    case PickCancel(j) => Go(s, j, Leaving)
    case Unlink(j) =>
      if j in s.gate.queue
      then Go(s, j, Left).(gate := Removed(s.gate, j), unlinked := s.unlinked + {j})
      else Go(s, j, Passing)
    case PassOn(j) => Release(Go(s, j, Left))
    case SetStarted(j) => Go(s, j, Checking).(started := s.started + {j})
    case CheckCancelled(j) => Go(s, j, if j in s.cancelled then Declining else Running)
    case Decline(j) => Release(Go(s, j, Left))
    case Finish(j) => Release(Go(s, j, Done))
    case BeginCancel(t, j) => s.(cancels := s.cancels[t := Cancel(j, Begun)])
    case Mark(t) => Advance(s, t, Marked).(cancelled := s.cancelled + {s.cancels[t].job})
    case Signal(t) => Advance(s, t, Signalled).(cancelCh := s.cancelCh + {s.cancels[t].job})
    case Look(t) => Advance(s, t, if s.cancels[t].job in s.started then Killing else SawQueued)
  }

  // ---- the invariant ----

  predicate Has(p: Pc) {
    p in {Passing, Starting, Checking, Declining, Running}
  }

  /** The slot belongs to `j`: it was handed over and not yet released. */
  predicate Owner(s: State, j: Job) {
    Has(At(s, j)) || (At(s, j) in {Waiting, Leaving} && j !in s.gate.queue)
  }

  /** At most one job has the slot, and `held` says exactly whether one does. */
  ghost predicate Exclusive(s: State) {
    && (forall i, j :: Owner(s, i) && Owner(s, j) ==> i == j)
    && (s.gate.held <==> exists j :: Owner(s, j))
    && (!s.gate.held ==> s.gate.queue == [])
  }

  ghost predicate Queued(s: State) {
    && (forall j <- s.gate.queue :: At(s, j) in {Waiting, Leaving})
    && (forall j :: At(s, j) in {Waiting, Leaving} ==> (j in s.handed <==> j !in s.gate.queue))
    && (forall j <- s.handed :: At(s, j) != Fresh)
  }

  ghost predicate Flags(s: State) {
    && s.cancelCh <= s.cancelled
    && (forall j :: At(s, j) in {Checking, Declining, Running, Done} ==> j in s.started)
    && (forall j :: At(s, j) == Leaving ==> j in s.cancelCh)
  }

  /** A cancel that took a job for merely queued has marked it, and the job never runs. */
  ghost predicate NoLostCancel(s: State) {
    forall t <- s.cancels ::
      var c := s.cancels[t];
      && (c.pc in {Marked, Signalled} ==> c.job in s.cancelled)
      && (c.pc == SawQueued ==> c.job in s.cancelled && At(s, c.job) !in {Running, Done})
      && (c.pc == Killing ==> c.job in s.cancelled && c.job in s.started)
  }

  /**
    First in, first out: the slots granted so far and then the queue are
    exactly the arrivals, in order, without those that a cancel unlinked.
   */
  ghost predicate Fifo(s: State) {
    && Distinct(s.arrivals)
    && (forall j :: j in s.arrivals <==> At(s, j) != Fresh)
    && Kept(s.arrivals, s.unlinked) == s.grants + s.gate.queue
    && (forall j <- s.unlinked :: j in s.cancelled && At(s, j) == Left)
  }

  ghost predicate Inv(s: State) {
    Exclusive(s) && Queued(s) && Flags(s) && NoLostCancel(s) && Fifo(s)
  }

  // ---- sequence lemmas ----

  lemma {:induction false} KeptWithout(q: seq<Job>, out: set<Job>, x: Job)
    requires Distinct(q) && x !in out
    ensures Kept(q, out + {x}) == Without(Kept(q, out), x)
  {
    if q != [] {
      KeptWithout(q[1..], out, x);
      if q[0] == x {
        assert x !in q[1..];
        KeptSame(q[1..], out, x);
      }
    }
  }

  lemma {:induction false} WithoutTail(a: seq<Job>, b: seq<Job>, x: Job)
    requires x !in a
    ensures Without(a + b, x) == a + Without(b, x)
  {
    if a != [] {
      assert (a + b)[1..] == a[1..] + b;
      WithoutTail(a[1..], b, x);
    } else {
      assert a + b == b;
    }
  }

  lemma {:induction false} WithoutIn(q: seq<Job>, x: Job, y: Job)
    requires Distinct(q)
    ensures y in Without(q, x) <==> y in q && y != x
  {
    if q != [] {
      assert q == [q[0]] + q[1..];
      assert q[0] !in q[1..];
      WithoutIn(q[1..], x, y);
    }
  }

  // ---- every step keeps the invariant ----

  /** Consequences of the history: waiters are distinct, and none was granted or unlinked. */
  lemma QueueFacts(s: State)
    requires Inv(s)
    ensures Distinct(s.gate.queue)
    ensures forall j <- s.gate.queue :: j !in s.grants && j !in s.unlinked && j in s.arrivals
  {
    KeptDistinct(s.arrivals, s.unlinked);
    DistinctParts(s.grants, s.gate.queue);
    forall j | j in s.gate.queue
      ensures j !in s.unlinked && j in s.arrivals
    {
      KeptIn(s.arrivals, s.unlinked, j);
    }
  }

  /** The owner leaves with `p` and releases: the oldest waiter, if any, is the next owner. */
  lemma ReleaseExclusive(s: State, j: Job, p: Pc)
    requires Inv(s) && Has(At(s, j)) && p in {Left, Done}
    ensures Exclusive(Release(Go(s, j, p)))
  {
    QueueFacts(s);
    var s' := Release(Go(s, j, p));
    var q := s.gate.queue;
    assert Owner(s, j) && j !in q;
    assert forall i :: i != j ==> At(s', i) == At(s, i);
    if q == [] {
      assert forall i :: Owner(s', i) ==> Owner(s, i) && i != j;
    } else {
      assert q == [q[0]] + q[1..];
      assert q[0] !in q[1..];
      assert Owner(s', q[0]);
      forall i | Owner(s', i)
        ensures i == q[0]
      {
        if i != q[0] {
          assert Owner(s, i) && i != j;
        }
      }
    }
  }

  lemma ReleaseQueued(s: State, j: Job, p: Pc)
    requires Inv(s) && Has(At(s, j)) && p in {Left, Done}
    ensures Queued(Release(Go(s, j, p))) && Fifo(Release(Go(s, j, p)))
  {
    QueueFacts(s);
    var s' := Release(Go(s, j, p));
    var q := s.gate.queue;
    assert j !in q;
    assert forall i :: i != j ==> At(s', i) == At(s, i);
    assert s.grants + q == s'.grants + s'.gate.queue;
    assert q != [] ==> q == [q[0]] + q[1..] && q[0] !in q[1..];
  }

  lemma ReleaseKeeps(s: State, j: Job, p: Pc)
    requires Inv(s) && Has(At(s, j)) && p in {Left, Done}
    requires p == Done ==> At(s, j) == Running
    ensures Inv(Release(Go(s, j, p)))
  {
    ReleaseExclusive(s, j, p);
    ReleaseQueued(s, j, p);
    assert forall i :: i != j ==> At(Release(Go(s, j, p)), i) == At(s, i);
  }

  lemma ArriveFifo(s: State, j: Job)
    requires Inv(s) && Enabled(s, Arrive(j))
    ensures Fifo(Next(s, Arrive(j)))
  {
    var s' := Next(s, Arrive(j));
    assert forall i :: At(s', i) != Fresh <==> At(s, i) != Fresh || i == j;
    KeptAppend(s.arrivals, s.unlinked, j);
    assert s.grants + s.gate.queue + [j] == s'.grants + s'.gate.queue;
  }

  lemma ArriveKeeps(s: State, j: Job)
    requires Inv(s) && Enabled(s, Arrive(j))
    ensures Inv(Next(s, Arrive(j)))
  {
    ArriveFifo(s, j);
    var s' := Next(s, Arrive(j));
    assert j !in s.gate.queue;
    assert forall i :: i != j ==> At(s', i) == At(s, i) && (Owner(s', i) <==> Owner(s, i));
    if s.gate.held {
      var o :| Owner(s, o);
      assert Owner(s', o) && !Owner(s', j);
    } else {
      assert Owner(s', j);
    }
  }

  lemma UnlinkFifo(s: State, j: Job)
    requires Inv(s) && Enabled(s, Unlink(j)) && j in s.gate.queue
    ensures Fifo(Next(s, Unlink(j)))
    ensures forall i :: i in Next(s, Unlink(j)).gate.queue <==> i in s.gate.queue && i != j
  {
    QueueFacts(s);
    var s' := Next(s, Unlink(j));
    forall i
      ensures i in s'.gate.queue <==> i in s.gate.queue && i != j
    {
      WithoutIn(s.gate.queue, j, i);
    }
    KeptWithout(s.arrivals, s.unlinked, j);
    WithoutTail(s.grants, s.gate.queue, j);
    assert forall i :: At(s', i) != Fresh <==> At(s, i) != Fresh;
  }

  lemma UnlinkKeeps(s: State, j: Job)
    requires Inv(s) && Enabled(s, Unlink(j))
    ensures Inv(Next(s, Unlink(j)))
  {
    var s' := Next(s, Unlink(j));
    assert forall i :: i != j ==> At(s', i) == At(s, i);
    if j in s.gate.queue {
      UnlinkFifo(s, j);
      assert s.gate.held;
    }
    forall i
      ensures Owner(s', i) <==> Owner(s, i)
    {
    }
  }

  /** Steps of one job that move neither the slot nor the queue. */
  lemma JobStepKeeps(s: State, step: Step)
    requires Inv(s) && Enabled(s, step)
    requires step.TakeSlot? || step.PickCancel? || step.SetStarted? || step.CheckCancelled?
    ensures Inv(Next(s, step))
  {
    var s' := Next(s, step);
    assert forall i :: i != step.job ==> At(s', i) == At(s, i);
    forall i
      ensures Owner(s', i) <==> Owner(s, i)
    {
    }
  }

  lemma CancelStepKeeps(s: State, step: Step)
    requires Inv(s) && Enabled(s, step)
    requires step.BeginCancel? || step.Mark? || step.Signal? || step.Look?
    ensures Inv(Next(s, step))
  {
    var s' := Next(s, step);
    assert forall i :: At(s', i) == At(s, i) && (Owner(s', i) <==> Owner(s, i));
  }

  lemma StepKeeps(s: State, step: Step)
    requires Inv(s) && Enabled(s, step)
    ensures Inv(Next(s, step))
  {
    match step
    case Arrive(j) => ArriveKeeps(s, j);
    case Unlink(j) => UnlinkKeeps(s, j);
    case PassOn(j) => ReleaseKeeps(s, j, Left);
    case Decline(j) => ReleaseKeeps(s, j, Left);
    case Finish(j) => ReleaseKeeps(s, j, Done);
    case BeginCancel(_, _) => CancelStepKeeps(s, step);
    case Mark(_) => CancelStepKeeps(s, step);
    case Signal(_) => CancelStepKeeps(s, step);
    case Look(_) => CancelStepKeeps(s, step);
    case _ => JobStepKeeps(s, step);
  }

  // ---- whole runs ----

  ghost predicate IsRun(run: seq<State>, steps: seq<Step>) {
    && |run| == |steps| + 1
    && run[0] == INIT
    && (forall i :: 0 <= i < |steps| ==> Enabled(run[i], steps[i]) && run[i + 1] == Next(run[i], steps[i]))
  }

  /** Safety: every state of every interleaving satisfies the invariant. */
  lemma {:induction false} EveryStateSafe(run: seq<State>, steps: seq<Step>, i: nat)
    requires IsRun(run, steps) && i < |run|
    ensures Inv(run[i])
  {
    if i > 0 {
      EveryStateSafe(run, steps, i - 1);
      StepKeeps(run[i - 1], steps[i - 1]);
    }
  }

  predicate QueuedCancel(s: State, t: Thread, j: Job) {
    CancelAt(s, t, SawQueued) && s.cancels[t].job == j
  }

  lemma QueuedCancelStep(s: State, step: Step, t: Thread, j: Job)
    requires Enabled(s, step) && QueuedCancel(s, t, j)
    ensures QueuedCancel(Next(s, step), t, j)
  {
  }

  lemma CancelStays(run: seq<State>, steps: seq<Step>, i: nat, k: nat, t: Thread, j: Job)
    requires IsRun(run, steps) && i <= k < |run| && QueuedCancel(run[i], t, j)
    ensures QueuedCancel(run[k], t, j)
  {
    var holds := seq(|run|, n requires 0 <= n < |run| => QueuedCancel(run[n], t, j));
    forall n | 0 <= n < |steps| && holds[n]
      ensures holds[n + 1]
    {
      QueuedCancelStep(run[n], steps[n], t, j);
    }
    Persists(holds, i, k);
  }

  predicate HasRun(s: State, j: Job) {
    At(s, j) in {Running, Done}
  }

  lemma RunningStep(s: State, step: Step, j: Job)
    requires Enabled(s, step) && HasRun(s, j)
    ensures HasRun(Next(s, step), j)
  {
  }

  lemma RunningStays(run: seq<State>, steps: seq<Step>, i: nat, k: nat, j: Job)
    requires IsRun(run, steps) && i <= k < |run| && HasRun(run[i], j)
    ensures HasRun(run[k], j)
  {
    var holds := seq(|run|, n requires 0 <= n < |run| => HasRun(run[n], j));
    forall n | 0 <= n < |steps| && holds[n]
      ensures holds[n + 1]
    {
      RunningStep(run[n], steps[n], j);
    }
    Persists(holds, i, k);
  }

  /**
    No cancel is lost at hand-off: once some cancel call has taken a job for
    merely queued, that job is not running at any point of the run, earlier
    or later, and never will have run.
   */
  lemma QueuedCancelNeverRuns(run: seq<State>, steps: seq<Step>, i: nat, k: nat, t: Thread)
    requires IsRun(run, steps) && i < |run| && k < |run|
    requires CancelAt(run[i], t, SawQueued)
    ensures At(run[k], run[i].cancels[t].job) !in {Running, Done}
  {
    var j := run[i].cancels[t].job;
    if i <= k {
      CancelStays(run, steps, i, k, t, j);
      EveryStateSafe(run, steps, k);
    } else {
      if HasRun(run[k], j) {
        RunningStays(run, steps, k, i, j);
        EveryStateSafe(run, steps, i);
        assert false;
      }
    }
  }

  /** Among jobs no cancel unlinked, an earlier arrival is granted the slot earlier. */
  lemma GrantedInArrivalOrder(s: State, a: nat, b: nat)
    requires Inv(s)
    requires a < b < |s.arrivals|
    requires s.arrivals[a] !in s.unlinked
    requires s.arrivals[b] in s.grants
    ensures exists i, k :: 0 <= i < k < |s.grants| && s.grants[i] == s.arrivals[a] && s.grants[k] == s.arrivals[b]
  {
    var kept := s.grants + s.gate.queue;
    var k :| 0 <= k < |s.grants| && s.grants[k] == s.arrivals[b];
    KeptIn(s.arrivals, s.unlinked, s.arrivals[b]);
    assert kept[k] == s.arrivals[b];
    var i, k' := KeptOrder(s.arrivals, s.unlinked, a, b);
    KeptDistinct(s.arrivals, s.unlinked);
    assert k' == k;
    assert s.grants[i] == kept[i];
  }

  // ---- who runs ----

  predicate Turned(p: Pc) {
    p in {Leaving, Passing, Declining, Left}
  }

  /** Only cancelled jobs turn away, only cancel calls cancel, and a call that got that far has closed the channel. */
  ghost predicate Fair(s: State) {
    && (forall j :: Turned(At(s, j)) ==> j in s.cancelled)
    && (forall j <- s.cancelled :: exists t :: t in s.cancels && s.cancels[t].job == j && s.cancels[t].pc != Begun)
    && (forall t <- s.cancels :: s.cancels[t].pc in {Signalled, SawQueued, Killing} ==> s.cancels[t].job in s.cancelCh)
  }

  lemma FairJobStep(s: State, step: Step)
    requires Flags(s) && Fair(s) && Enabled(s, step)
    requires !step.BeginCancel? && !step.Mark? && !step.Signal? && !step.Look?
    ensures Fair(Next(s, step))
  {
    var s' := Next(s, step);
    assert s'.cancelled == s.cancelled && s'.cancels == s.cancels && s'.cancelCh == s.cancelCh;
    forall j | Turned(At(s', j))
      ensures j in s.cancelled
    {
      assert j != step.job ==> At(s', j) == At(s, j);
      assert At(s, step.job) == Leaving ==> step.job in s.cancelCh;
    }
  }

  lemma FairCancelStep(s: State, step: Step)
    requires Flags(s) && NoLostCancel(s) && Fair(s) && Enabled(s, step)
    requires step.BeginCancel? || step.Mark? || step.Signal? || step.Look?
    ensures Fair(Next(s, step))
  {
    var s' := Next(s, step);
    assert forall j :: At(s', j) == At(s, j);
    forall j | j in s'.cancelled
      ensures exists t :: t in s'.cancels && s'.cancels[t].job == j && s'.cancels[t].pc != Begun
    {
      if j in s.cancelled {
        var t :| t in s.cancels && s.cancels[t].job == j && s.cancels[t].pc != Begun;
        assert t in s'.cancels && s'.cancels[t].job == j && s'.cancels[t].pc != Begun;
      } else {
        assert step.thread in s'.cancels;
      }
    }
  }

  lemma {:induction false} EveryStateFair(run: seq<State>, steps: seq<Step>, i: nat)
    requires IsRun(run, steps) && i < |run|
    ensures Fair(run[i])
  {
    if i > 0 {
      EveryStateFair(run, steps, i - 1);
      EveryStateSafe(run, steps, i - 1);
      var step := steps[i - 1];
      if step.BeginCancel? || step.Mark? || step.Signal? || step.Look? {
        FairCancelStep(run[i - 1], step);
      } else {
        FairJobStep(run[i - 1], step);
      }
    }
  }

  /** No cancel call for this job has been made. */
  predicate NoCall(s: State, j: Job) {
    forall t <- s.cancels :: s.cancels[t].job != j
  }

  lemma TurnedOrOn(p: Pc)
    ensures !Turned(p) <==> p in {Fresh, Waiting, Starting, Checking, Running, Done}
  {
    match p {
      case Fresh =>
      case _ =>
    }
  }

  /** A job nobody cancels never turns away: once it has arrived it is on its way to run, and settles only after running. */
  lemma UncancelledRuns(run: seq<State>, steps: seq<Step>, k: nat, j: Job)
    requires IsRun(run, steps) && k < |run| && NoCall(run[k], j)
    ensures j !in run[k].cancelled && At(run[k], j) in {Fresh, Waiting, Starting, Checking, Running, Done}
  {
    EveryStateFair(run, steps, k);
    TurnedOrOn(At(run[k], j));
  }

  /** A cancel call that has returned lets a waiting job leave the queue at once. */
  lemma CancelledCanLeave(run: seq<State>, steps: seq<Step>, k: nat, t: Thread)
    requires IsRun(run, steps) && k < |run| && (CancelAt(run[k], t, SawQueued) || CancelAt(run[k], t, Killing))
    ensures At(run[k], run[k].cancels[t].job) == Waiting ==> Enabled(run[k], PickCancel(run[k].cancels[t].job))
  {
    EveryStateFair(run, steps, k);
  }

  /** A call stays about the job it was made for. */
  lemma {:induction false} CallKeepsJob(run: seq<State>, steps: seq<Step>, i: nat, k: nat, t: Thread, j: Job)
    requires IsRun(run, steps) && i < k < |run| && steps[i] == BeginCancel(t, j)
    ensures t in run[k].cancels && run[k].cancels[t].job == j
  {
    if k > i + 1 {
      CallKeepsJob(run, steps, i, k - 1, t, j);
      assert run[k] == Next(run[k - 1], steps[k - 1]);
    }
  }

  lemma Extend(run: seq<State>, steps: seq<Step>, step: Step) returns (run': seq<State>, steps': seq<Step>)
    requires IsRun(run, steps) && Enabled(run[|run| - 1], step)
    ensures IsRun(run', steps') && run' == run + [Next(run[|run| - 1], step)] && steps' == steps + [step]
  {
    run', steps' := run + [Next(run[|run| - 1], step)], steps + [step];
    forall i | 0 <= i < |steps'|
      ensures Enabled(run'[i], steps'[i]) && run'[i + 1] == Next(run'[i], steps'[i])
    {
      if i < |steps| {
        assert run'[i] == run[i] && run'[i + 1] == run[i + 1] && steps'[i] == steps[i];
      }
    }
  }

  /** From any state a cancel call can be made and runs through: it kills a started job, and takes any other for queued. */
  lemma CancelCompletes(run: seq<State>, steps: seq<Step>, t: Thread, j: Job) returns (run': seq<State>, steps': seq<Step>)
    requires IsRun(run, steps) && t !in run[|run| - 1].cancels
    ensures IsRun(run', steps') && run <= run' && steps' == steps + [BeginCancel(t, j), Mark(t), Signal(t), Look(t)]
    ensures var s, s' := run[|run| - 1], run'[|run'| - 1];
            && t in s'.cancels && s'.cancels[t] == Cancel(j, if j in s.started then Killing else SawQueued)
            && j in s'.cancelled && j in s'.cancelCh && s'.pc == s.pc && s'.gate == s.gate
  {
    run', steps' := Extend(run, steps, BeginCancel(t, j));
    run', steps' := Extend(run', steps', Mark(t));
    run', steps' := Extend(run', steps', Signal(t));
    run', steps' := Extend(run', steps', Look(t));
  }

  /** From any state a job that has the slot and no cancel call can run to its end. */
  lemma OwnerCanFinish(run: seq<State>, steps: seq<Step>, j: Job) returns (run': seq<State>, steps': seq<Step>)
    requires IsRun(run, steps) && At(run[|run| - 1], j) == Starting && NoCall(run[|run| - 1], j)
    ensures IsRun(run', steps') && run <= run' && steps' == steps + [SetStarted(j), CheckCancelled(j), Finish(j)]
    ensures At(run'[|run'| - 1], j) == Done
  {
    EveryStateFair(run, steps, |run| - 1);
    run', steps' := Extend(run, steps, SetStarted(j));
    run', steps' := Extend(run', steps', CheckCancelled(j));
    assert At(run'[|run'| - 1], j) == Running;
    run', steps' := Extend(run', steps', Finish(j));
  }

  /** A fresh job that finds the gate free has the slot. */
  lemma FreeGateAdmits(run: seq<State>, steps: seq<Step>, j: Job) returns (run': seq<State>, steps': seq<Step>)
    requires IsRun(run, steps) && At(run[|run| - 1], j) == Fresh && !run[|run| - 1].gate.held
    ensures IsRun(run', steps') && run <= run' && At(run'[|run'| - 1], j) == Starting
    ensures run'[|run'| - 1].cancels == run[|run| - 1].cancels
  {
    run', steps' := Extend(run, steps, Arrive(j));
  }

  // ---- progress ----

  /** The job step waiting at a program counter, other than a blocked select. */
  function OwnStep(s: State, j: Job): Step {
    match At(s, j)
    case Fresh => Arrive(j)
    case Waiting => TakeSlot(j)
    case Leaving => Unlink(j)
    case Passing => PassOn(j)
    case Starting => SetStarted(j)
    case Checking => CheckCancelled(j)
    case Declining => Decline(j)
    case _ => Finish(j)
  }

  predicate Settled(p: Pc) {
    p in {Fresh, Left, Done}
  }

  /** No deadlock, and the slot is never dropped: while some job is unsettled, some unsettled job can step. */
  lemma NeverStuck(s: State, j: Job)
    requires Inv(s) && !Settled(At(s, j))
    ensures exists i :: !Settled(At(s, i)) && Enabled(s, OwnStep(s, i))
  {
    if At(s, j) == Waiting && j in s.gate.queue {
      var o :| Owner(s, o);
      assert Enabled(s, OwnStep(s, o));
    } else {
      assert Enabled(s, OwnStep(s, j));
    }
  }

  function Rank(p: Pc): nat {
    match p
    case Fresh => 6
    case Waiting => 5
    case Leaving => 4
    case Starting => 3
    case Passing => 1
    case Checking => 2
    case Declining => 1
    case Running => 1
    case Left => 0
    case Done => 0
  }

  /** Each job takes at most six steps: its own steps lower its rank, all others leave it alone. */
  lemma StepsAreBounded(s: State, step: Step, j: Job)
    requires Enabled(s, step)
    ensures var own := !step.BeginCancel? && !step.Mark? && !step.Signal? && !step.Look? && step.job == j;
            if own then Rank(At(Next(s, step), j)) < Rank(At(s, j))
            else At(Next(s, step), j) == At(s, j)
  {
  }
}
