/**
  Trigger suppression for one pipeline name: the hold and pending flags, the
  coordinators that schedule its head job, and the commits whose triggers
  arrive meanwhile. Several transactions may stage the same name, so any
  number of coordinators share the two flags.
 */
module TxHold {
  type Thread = nat

  datatype Pc =
    | Applying    // finish holds the name and applies its operations
    | Waiting     // committed; the coordinator waits for its dependencies
    | Clearing    // top of the loop: about to hold and clear pending
    | Scheduling  // about to read the heads and schedule
    | Releasing   // about to read pending and drop the hold
    | Over

  /** What happened, in order, as far as it matters for lost triggers. */
  datatype Event =
    | Suppressed(commit: string)   // a finished commit's trigger was held back
    | Passed(commit: string)       // the trigger went through
    | HeadRead                     // a head job was scheduled from the current heads

  datatype State = State(hold: bool, pending: bool, coords: map<Thread, Pc>, log: seq<Event>)

  datatype Step =
    | Hold(t: Thread)              // phase 2 of finish sets the hold
    | Commit(t: Thread)            // everything applied: the coordinator is bound to run
    | Drop(t: Thread)              // an operation failed, or the coordinator found no pipeline: both flags are cleared
    | Ready(t: Thread)             // every dependency has settled
    | Clear(t: Thread)
    | Schedule(t: Thread)
    | Release(t: Thread)
    | Note(commit: string)         // a finished commit reaches the trigger

  const INIT := State(false, false, map[], [])

  predicate At(s: State, t: Thread, p: Pc) {
    t in s.coords && s.coords[t] == p
  }

  predicate Enabled(s: State, step: Step) {
    match step
    case Hold(t) => t !in s.coords
    case Commit(t) => At(s, t, Applying)
    case Drop(t) => At(s, t, Applying) || At(s, t, Waiting)
    case Ready(t) => At(s, t, Waiting)
    case Clear(t) => At(s, t, Clearing)
    case Schedule(t) => At(s, t, Scheduling)
    case Release(t) => At(s, t, Releasing)
    case Note(_) => true
  }

  function Move(s: State, t: Thread, p: Pc): State {
    s.(coords := s.coords[t := p])
  }

  function Next(s: State, step: Step): State
    requires Enabled(s, step)
  {
    match step
    case Hold(t) => Move(s, t, Applying).(hold := true)
    case Commit(t) => Move(s, t, Waiting)
    case Drop(t) => Move(s, t, Over).(hold := false, pending := false)
    case Ready(t) => Move(s, t, Clearing)
    case Clear(t) => Move(s, t, Scheduling).(hold := true, pending := false)
    case Schedule(t) => Move(s, t, Releasing).(log := s.log + [HeadRead])
    case Release(t) => Move(s, t, if s.pending then Clearing else Over).(hold := false)
    case Note(c) =>
      if s.hold then s.(pending := true, log := s.log + [Suppressed(c)]) else s.(log := s.log + [Passed(c)])
  }

  // ---- who answers for a suppressed trigger ----

  /** `t` is to read the heads, unless it drops out. */
  predicate Ahead(s: State, t: Thread) {
    t in s.coords && s.coords[t] != Releasing && s.coords[t] != Over
  }

  /** `t` has committed and is yet to read the heads. */
  predicate Bound(s: State, t: Thread) {
    At(s, t, Waiting) || At(s, t, Clearing) || At(s, t, Scheduling)
  }

  ghost predicate ReadAfter(s: State, i: nat) {
    exists j :: i < j < |s.log| && s.log[j] == HeadRead
  }

  /** The pending mark stands, and a coordinator is about to look at it. */
  ghost predicate MarkSeen(s: State) {
    s.pending && exists t :: At(s, t, Releasing)
  }

  /** The trigger at `i` was read after, or some transaction may still read, or the mark forces a read. */
  ghost predicate Covered(s: State, i: nat) {
    ReadAfter(s, i) || (exists t :: Ahead(s, t)) || MarkSeen(s)
  }

  /** The same, counting on committed transactions only. */
  ghost predicate Answered(s: State, i: nat) {
    ReadAfter(s, i) || (exists t :: Bound(s, t)) || MarkSeen(s)
  }

  lemma ReadAfterGrows(s: State, s': State, i: nat)
    requires s.log <= s'.log && ReadAfter(s, i)
    ensures ReadAfter(s', i)
  {
    var j :| i < j < |s.log| && s.log[j] == HeadRead;
    assert s'.log[j] == HeadRead;
  }

  /** Another transaction on the name than `t` may still read. */
  ghost predicate OtherAhead(s: State, t: Thread) {
    exists u :: u != t && Ahead(s, u)
  }

  /** A drop leaves a trigger covered if it was read, or another transaction on the name is yet to read. */
  lemma DropCovers(s: State, t: Thread, i: nat)
    requires Enabled(s, Drop(t)) && (ReadAfter(s, i) || OtherAhead(s, t))
    ensures Covered(Next(s, Drop(t)), i)
  {
    var s' := Next(s, Drop(t));
    if ReadAfter(s, i) {
      ReadAfterGrows(s, s', i);
    } else {
      var u :| u != t && Ahead(s, u);
      assert Ahead(s', u);
    }
  }

  /** Every step keeps a trigger covered; a drop does so if the trigger was read or another is yet to read. */
  lemma StepCovers(s: State, step: Step, i: nat)
    requires Enabled(s, step) && i < |s.log| && Covered(s, i)
    requires step.Drop? ==> ReadAfter(s, i) || OtherAhead(s, step.t)
    ensures Covered(Next(s, step), i)
  {
    var s' := Next(s, step);
    if step.Drop? {
      DropCovers(s, step.t, i);
    } else if step.Schedule? {
      assert s'.log[|s.log|] == HeadRead;
    } else if ReadAfter(s, i) {
      ReadAfterGrows(s, s', i);
    } else if t :| Ahead(s, t) {
      assert Ahead(s', t);
    } else {
      var t :| At(s, t, Releasing);
      assert step.Clear? ==> Ahead(s, step.t);
      assert if step == Release(t) then Ahead(s', t) else At(s', t, Releasing);
    }
  }

  // ---- what every run keeps ----

  /** A hold has a transaction behind it. */
  ghost predicate Owned(s: State) {
    s.hold ==> exists t :: t in s.coords && s.coords[t] != Over
  }

  /** A mark without a hold has been read since, or a committed transaction is yet to read. */
  ghost predicate MarkKept(s: State) {
    s.pending && !s.hold ==>
      (exists t :: Bound(s, t)) || forall i :: 0 <= i < |s.log| && s.log[i].Suppressed? ==> ReadAfter(s, i)
  }

  lemma StepOwned(s: State, step: Step)
    requires Owned(s) && Enabled(s, step)
    ensures Owned(Next(s, step))
  {
    var s' := Next(s, step);
    match step
    case Note(_) =>
    case Drop(_) =>
    case Release(_) =>
    case _ => assert step.t in s'.coords && s'.coords[step.t] != Over;
      if s.hold {
        var t :| t in s.coords && s.coords[t] != Over;
        assert t in s'.coords && s'.coords[t] != Over;
      }
  }

  lemma StepMark(s: State, step: Step)
    requires MarkKept(s) && Enabled(s, step)
    ensures MarkKept(Next(s, step))
  {
    var s' := Next(s, step);
    if s'.pending && !s'.hold {
      if step.Release? || step.Commit? || step.Ready? {
        assert Bound(s', step.t);
      } else if step.Schedule? {
        assert s'.log[|s.log|] == HeadRead;
      } else if t :| Bound(s, t) {
        assert Bound(s', t);
      } else {
        forall i | 0 <= i < |s'.log| && s'.log[i].Suppressed?
          ensures ReadAfter(s', i)
        {
          assert i < |s.log| && s.log[i] == s'.log[i];
          ReadAfterGrows(s, s', i);
        }
      }
    }
  }

  // ---- aborts and committed transactions ----

  /**
    What an aborting transaction could test before it clears the flags: another
    committed one on the name is yet to read, or the name is not held, or no
    coordinator stands between its read and its look at the mark.
   */
  ghost predicate Harmless(s: State, t: Thread) {
    || (exists u :: u != t && Bound(s, u))
    || (At(s, t, Applying) && (!s.hold || forall u :: !At(s, u, Releasing)))
  }

  lemma StepAnswers(s: State, step: Step, i: nat)
    requires Enabled(s, step) && MarkKept(s) && i < |s.log| && s.log[i].Suppressed? && Answered(s, i)
    requires step.Drop? ==> Harmless(s, step.t)
    ensures Answered(Next(s, step), i)
  {
    var s' := Next(s, step);
    if step.Schedule? {
      assert s'.log[|s.log|] == HeadRead;
    } else if ReadAfter(s, i) {
      ReadAfterGrows(s, s', i);
    } else if step.Drop? {
      var u :| u != step.t && Bound(s, u);
      assert Bound(s', u);
    } else if t :| Bound(s, t) {
      assert Bound(s', t);
    } else {
      var t :| At(s, t, Releasing);
      assert step.Clear? ==> Bound(s, step.t);
      assert if step == Release(t) then Bound(s', t) else At(s', t, Releasing);
    }
  }

  /**
    Exactly when an abort cannot cost a committed transaction a trigger: with
    any trigger arriving just before it, whatever committed transactions
    answered for they still answer for after it, if and only if it is harmless.
   */
  lemma AbortExact(s: State, t: Thread)
    requires MarkKept(s) && At(s, t, Applying)
    ensures Harmless(s, t) <==>
              forall c, i {:trigger Answered(Next(Next(s, Note(c)), Drop(t)), i)} ::
                var s1 := Next(s, Note(c));
                0 <= i < |s1.log| && s1.log[i].Suppressed? && Answered(s1, i) ==> Answered(Next(s1, Drop(t)), i)
  {
    if Harmless(s, t) {
      forall c, i | var s1 := Next(s, Note(c)); 0 <= i < |s1.log| && s1.log[i].Suppressed? && Answered(s1, i)
        ensures Answered(Next(Next(s, Note(c)), Drop(t)), i)
      {
        var s1 := Next(s, Note(c));
        StepMark(s, Note(c));
        assert Harmless(s1, t) by {
          assert forall u, p :: At(s1, u, p) <==> At(s, u, p);
          if u :| u != t && Bound(s, u) {
            assert Bound(s1, u);
          }
        }
        StepAnswers(s1, Drop(t), i);
      }
    } else {
      var s1 := Next(s, Note(""));
      var s2 := Next(s1, Drop(t));
      var u :| At(s, u, Releasing);
      assert At(s1, u, Releasing) && s1.pending && s1.log[|s.log|].Suppressed?;
      assert Answered(s1, |s.log|);
      assert forall v :: Bound(s2, v) ==> v != t && Bound(s, v);
      assert !Answered(s2, |s.log|);
    }
  }

  // ---- whole runs ----

  ghost predicate AllOver(s: State) {
    forall t <- s.coords :: s.coords[t] == Over
  }

  ghost predicate IsRun(run: seq<State>, steps: seq<Step>) {
    && |run| == |steps| + 1
    && run[0] == INIT
    && (forall i :: 0 <= i < |steps| ==> Enabled(run[i], steps[i]) && run[i + 1] == Next(run[i], steps[i]))
  }

  lemma {:induction false} EveryStateKept(run: seq<State>, steps: seq<Step>, n: nat)
    requires IsRun(run, steps) && n < |run|
    ensures Owned(run[n]) && MarkKept(run[n])
  {
    if n > 0 {
      EveryStateKept(run, steps, n - 1);
      StepOwned(run[n - 1], steps[n - 1]);
      StepMark(run[n - 1], steps[n - 1]);
    }
  }

  /** Each drop after the trigger at `i` comes after a read of it, or while another transaction is yet to read. */
  ghost predicate DropsSpare(run: seq<State>, steps: seq<Step>, i: nat)
    requires |run| == |steps| + 1
  {
    forall m :: 0 <= m < |steps| && steps[m].Drop? && i < |run[m].log| ==>
      ReadAfter(run[m], i) || OtherAhead(run[m], steps[m].t)
  }

  lemma {:induction false} StaysCovered(run: seq<State>, steps: seq<Step>, n: nat, i: nat)
    requires IsRun(run, steps) && n < |run| && DropsSpare(run, steps, i)
    requires i < |run[n].log| && run[n].log[i].Suppressed?
    ensures Covered(run[n], i)
  {
    var s := run[n - 1];
    assert run[n] == Next(s, steps[n - 1]);
    if i < |s.log| {
      assert s.log <= run[n].log;
      StaysCovered(run, steps, n - 1, i);
      StepCovers(s, steps[n - 1], i);
    } else {
      EveryStateKept(run, steps, n - 1);
      var t :| t in s.coords && s.coords[t] != Over;
      assert Ahead(run[n], t) || At(run[n], t, Releasing);
    }
  }

  /**
    No suppressed trigger is lost: once the transactions are through, the
    trigger suppressed at `i` has been followed by a read of the heads. What
    other transactions and other triggers went through does not matter.
   */
  lemma SuppressedTriggerIsRead(run: seq<State>, steps: seq<Step>, i: nat)
    requires IsRun(run, steps) && AllOver(run[|run| - 1]) && DropsSpare(run, steps, i)
    requires i < |run[|run| - 1].log| && run[|run| - 1].log[i].Suppressed?
    ensures ReadAfter(run[|run| - 1], i)
  {
    StaysCovered(run, steps, |run| - 1, i);
  }

  /** Some transaction has committed and not released yet. */
  ghost predicate Committed(s: State) {
    exists t :: Bound(s, t) || At(s, t, Releasing)
  }

  lemma {:induction false} StaysAnswered(run: seq<State>, steps: seq<Step>, k: nat, n: nat)
    requires IsRun(run, steps) && k < n < |run|
    requires steps[k].Note? && run[k].hold && Committed(run[k])
    requires forall m :: k < m < n && steps[m].Drop? ==> Harmless(run[m], steps[m].t)
    ensures |run[k].log| < |run[n].log| && run[n].log[|run[k].log|].Suppressed?
    ensures Answered(run[n], |run[k].log|)
  {
    var i := |run[k].log|;
    if n == k + 1 {
      var t :| Bound(run[k], t) || At(run[k], t, Releasing);
      assert Bound(run[n], t) || At(run[n], t, Releasing);
    } else {
      StaysAnswered(run, steps, k, n - 1);
      EveryStateKept(run, steps, n - 1);
      StepAnswers(run[n - 1], steps[n - 1], i);
      assert run[n - 1].log <= run[n].log;
    }
  }

  /**
    A committed transaction's triggers: one suppressed while a transaction has
    committed and not released is read, as long as later aborts are harmless.
   */
  lemma CommittedTriggerIsRead(run: seq<State>, steps: seq<Step>, k: nat)
    requires IsRun(run, steps) && AllOver(run[|run| - 1]) && k < |steps|
    requires steps[k].Note? && run[k].hold && Committed(run[k])
    requires forall m :: k < m < |steps| && steps[m].Drop? ==> Harmless(run[m], steps[m].t)
    ensures ReadAfter(run[|run| - 1], |run[k].log|)
  {
    StaysAnswered(run, steps, k, |run| - 1);
  }

  /** Only transaction `t` is at work on the name. */
  predicate Alone(steps: seq<Step>, t: Thread) {
    forall step <- steps :: step.Note? || step.t == t
  }

  /**
    A transaction alone on its name holds it from the moment it starts to apply
    until its coordinator looks at the mark, and again after every clearing.
   */
  lemma {:induction false} HeldThroughout(run: seq<State>, steps: seq<Step>, n: nat, t: Thread)
    requires IsRun(run, steps) && n < |run| && Alone(steps, t)
    ensures forall u <- run[n].coords :: u == t
    ensures t in run[n].coords && run[n].coords[t] in {Applying, Waiting, Scheduling, Releasing} ==> run[n].hold
  {
    if n > 0 {
      HeldThroughout(run, steps, n - 1, t);
      assert steps[n - 1] in steps;
      assert run[n] == Next(run[n - 1], steps[n - 1]);
    }
  }

  lemma Extend(run: seq<State>, steps: seq<Step>, step: Step) returns (run': seq<State>, steps': seq<Step>)
    requires IsRun(run, steps) && Enabled(run[|run| - 1], step)
    ensures IsRun(run', steps') && run' == run + [Next(run[|run| - 1], step)] && steps' == steps + [step]
  {
    run', steps' := run + [Next(run[|run| - 1], step)], steps + [step];
    forall i | 0 <= i < |steps'|
      ensures Enabled(run'[i], steps'[i]) && run'[i + 1] == Next(run'[i], steps'[i])
    {
      if i < |steps| {
        assert run'[i] == run[i] && run'[i + 1] == run[i + 1] && steps'[i] == steps[i];
      }
    }
  }

  function Unfinished(m: map<Thread, Pc>): set<Thread> {
    set t | t in m && m[t] != Over
  }

  lemma OneLess(m: map<Thread, Pc>, t: Thread)
    requires t in m && m[t] != Over
    ensures |Unfinished(m[t := Over])| < |Unfinished(m)|
  {
    assert Unfinished(m[t := Over]) == Unfinished(m) - {t};
  }

  /** How a transaction that is not bound to read gets through. */
  function Leave(s: State, t: Thread): Step {
    if At(s, t, Applying) then Drop(t) else Release(t)
  }

  lemma LeaveUnread(s: State, t: Thread, i: nat)
    requires t in s.coords && s.coords[t] != Over && !Answered(s, i)
    ensures Enabled(s, Leave(s, t)) && !Answered(Next(s, Leave(s, t)), i)
    ensures Next(s, Leave(s, t)).coords == s.coords[t := Over] && Next(s, Leave(s, t)).log == s.log
  {
    assert !Bound(s, t) && (At(s, t, Releasing) ==> !s.pending);
    var s' := Next(s, Leave(s, t));
    assert forall u :: Bound(s', u) ==> Bound(s, u);
    assert forall u :: At(s', u, Releasing) ==> At(s, u, Releasing);
  }

  /** A trigger nobody answers for stays unread when every transaction left drops or releases. */
  lemma {:induction false} FinishUnread(run: seq<State>, steps: seq<Step>, i: nat) returns (run': seq<State>, steps': seq<Step>)
    requires IsRun(run, steps) && i < |run[|run| - 1].log| && !Answered(run[|run| - 1], i)
    ensures IsRun(run', steps') && run <= run' && steps <= steps'
    ensures AllOver(run'[|run'| - 1]) && !ReadAfter(run'[|run'| - 1], i)
    decreases |Unfinished(run[|run| - 1].coords)|
  {
    var s := run[|run| - 1];
    if AllOver(s) {
      return run, steps;
    }
    var t :| t in s.coords && s.coords[t] != Over;
    LeaveUnread(s, t, i);
    run', steps' := Extend(run, steps, Leave(s, t));
    OneLess(s.coords, t);
    run', steps' := FinishUnread(run', steps', i);
  }

  /**
    Every abort that is not harmless can lose a committed transaction's
    trigger: the run goes on with a trigger suppressed right before the abort,
    and ends without a read of it.
   */
  lemma AbortCanLose(run: seq<State>, steps: seq<Step>, t: Thread, c: string) returns (run': seq<State>, steps': seq<Step>)
    requires IsRun(run, steps) && At(run[|run| - 1], t, Applying) && !Harmless(run[|run| - 1], t)
    ensures IsRun(run', steps') && run <= run' && steps + [Note(c), Drop(t)] <= steps'
    ensures run[|run| - 1].hold && Committed(run[|run| - 1])
    ensures AllOver(run'[|run'| - 1]) && !ReadAfter(run'[|run'| - 1], |run[|run| - 1].log|)
  {
    var s := run[|run| - 1];
    run', steps' := Extend(run, steps, Note(c));
    run', steps' := Extend(run', steps', Drop(t));
    var s2 := run'[|run'| - 1];
    assert forall u :: Bound(s2, u) ==> u != t && Bound(s, u);
    run', steps' := FinishUnread(run', steps', |s.log|);
  }

  /** One transaction commits and reads the heads. */
  lemma FirstRead() returns (run: seq<State>, steps: seq<Step>)
    ensures IsRun(run, steps) && run[|run| - 1] == State(true, false, map[0 := Releasing], [HeadRead])
  {
    run, steps := [INIT], [];
    run, steps := Extend(run, steps, Hold(0));
    run, steps := Extend(run, steps, Commit(0));
    run, steps := Extend(run, steps, Ready(0));
    run, steps := Extend(run, steps, Clear(0));
    run, steps := Extend(run, steps, Schedule(0));
  }

  /**
    A committed transaction can lose a trigger to a failing one: the second
    transaction on the name aborts after the first has read the heads, and
    takes the pending mark of a trigger suppressed since with it.
   */
  lemma AbortLosesTriggers(c: string) returns (run: seq<State>, steps: seq<Step>, k: nat)
    ensures IsRun(run, steps) && AllOver(run[|run| - 1])
    ensures k < |steps| && steps[k] == Note(c) && run[k].hold && Committed(run[k])
    ensures !ReadAfter(run[|run| - 1], |run[k].log|)
  {
    run, steps := FirstRead();
    run, steps := Extend(run, steps, Hold(1));
    k := |steps|;
    assert At(run[k], 0, Releasing) && At(run[k], 1, Applying) && forall u :: !Bound(run[k], u);
    run, steps := AbortCanLose(run, steps, 1, c);
  }

  // ---- the shared flags ----

  /** The daemon's flags for all names, each access one section under their mutex. */
  class Flags {
    var hold: set<string>
    var pending: set<string>

    constructor ()
      ensures hold == {} && pending == {}
    {
      hold, pending := {}, {};
    }

    /** One name's view of a state: its flags, with the coordinators and the log of the step system. */
    ghost function Of(name: string, coords: map<Thread, Pc>, log: seq<Event>): State
      reads this
    {
      State(name in hold, name in pending, coords, log)
    }

    ghost predicate OthersAs(name: string, hold': set<string>, pending': set<string>)
      reads this
    {
      forall n :: n != name ==> (n in hold <==> n in hold') && (n in pending <==> n in pending')
    }

    method NoteTrigger(name: string, commit: string, ghost coords: map<Thread, Pc>, ghost log: seq<Event>) returns (suppressed: bool)
      modifies this
      ensures var s' := Next(old(Of(name, coords, log)), Note(commit));
              Of(name, coords, s'.log) == s' && |s'.log| == |log| + 1 && (suppressed <==> s'.log[|log|].Suppressed?)
      ensures OthersAs(name, old(hold), old(pending))
    {
      suppressed := name in hold;
      if suppressed {
        pending := pending + {name};
      }
    }

    /** `finish` holds the name before it applies anything. */
    method SetHold(name: string, ghost t: Thread, ghost coords: map<Thread, Pc>, ghost log: seq<Event>)
      requires t !in coords
      modifies this
      ensures var s' := Next(old(Of(name, coords, log)), Hold(t)); Of(name, s'.coords, s'.log) == s'
      ensures OthersAs(name, old(hold), old(pending))
    {
      hold := hold + {name};
    }

    /** `txAbortHolds` and `txUnhold`, for one name. */
    method Unhold(name: string, ghost t: Thread, ghost coords: map<Thread, Pc>, ghost log: seq<Event>)
      requires At(Of(name, coords, log), t, Applying) || At(Of(name, coords, log), t, Waiting)
      modifies this
      ensures var s' := Next(old(Of(name, coords, log)), Drop(t)); Of(name, s'.coords, s'.log) == s'
      ensures OthersAs(name, old(hold), old(pending))
    {
      hold := hold - {name};
      pending := pending - {name};
    }

    method ClearPending(name: string, ghost t: Thread, ghost coords: map<Thread, Pc>, ghost log: seq<Event>)
      requires At(Of(name, coords, log), t, Clearing)
      modifies this
      ensures var s' := Next(old(Of(name, coords, log)), Clear(t)); Of(name, s'.coords, s'.log) == s'
      ensures OthersAs(name, old(hold), old(pending))
    {
      hold := hold + {name};
      pending := pending - {name};
    }

    method ReadAndRelease(name: string, ghost t: Thread, ghost coords: map<Thread, Pc>, ghost log: seq<Event>) returns (again: bool)
      requires At(Of(name, coords, log), t, Releasing)
      modifies this
      ensures var s' := Next(old(Of(name, coords, log)), Release(t));
              Of(name, s'.coords, s'.log) == s' && (again <==> s'.coords[t] == Clearing)
      ensures OthersAs(name, old(hold), old(pending))
    {
      again := name in pending;
      hold := hold - {name};
    }
  }
}
