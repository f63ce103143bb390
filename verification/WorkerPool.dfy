/**
  The datum worker pool as a step system: a coordinator feeds bounded
  per-worker channels round robin, workers run one datum at a time with
  retries, and cancels and restart requests arrive at any moment.
 */
module WorkerPool {
  import opened Datums
  import opened Sequences

  datatype Config = Config(todo: seq<Datum>, workers: nat, bound: nat, tries: nat, transform: Digest)

  datatype Worker =
    | Idle
    | AtCheck(i: nat, attempt: nat)    // top of the attempt loop for datum i
    | InAttempt(i: nat, attempt: nat)  // the container is running
    | Ended

  datatype State = State(
    fed: nat,                 // datums handed to the channels so far
    closed: bool,
    chans: seq<seq<nat>>,
    workers: seq<Worker>,
    table: Table,
    blobs: Blobs,
    done: set<nat>,           // history: settled datums
    cancelled: bool,
    budget: nat,              // restart requests still to come
    pending: set<string>)     // restart requests not yet seen

  datatype Step =
    | Feed
    | Close
    | Take(w: nat)
    | End(w: nat)
    | SeeCancel(w: nat)
    | SeeRestart(w: nat)
    | Exhaust(w: nat)
    | Begin(w: nat)
    | AttemptFails(w: nat)
    | AttemptCompletes(w: nat, outcome: Outcome)
    | Cancel
    | RequestRestart(id: string)

  /** The pool is sized by the parallelism, never above the number of datums. */
  predicate Valid(c: Config) {
    0 < c.workers <= |c.todo| && 0 < c.bound && 0 < c.tries
  }

  ghost predicate DistinctIds(todo: seq<Datum>) {
    forall i, k :: 0 <= i < k < |todo| ==> todo[i].id != todo[k].id
  }

  /** The worker a datum is fed to: round robin. */
  function Home(c: Config, i: nat): (w: nat)
    requires c.workers > 0
    ensures w < c.workers
  {
    if i < c.workers then i else Home(c, i - c.workers)
  }

  lemma RemainderUnique(x: nat, n: nat, q: nat, r: nat)
    requires n > 0 && x == n * q + r && r < n
    ensures x % n == r
  {
    var q', r' := x / n, x % n;
    assert x == n * q' + r';
    if q' > q {
      Spread(n, q', q);
    } else if q' < q {
      Spread(n, q, q');
    }
  }

  lemma ModStep(i: nat, n: nat)
    requires n > 0
    ensures (i + n) % n == i % n
  {
    var q := i / n;
    assert n * (q + 1) == n * q + n;
    RemainderUnique(i + n, n, q + 1, i % n);
  }

  lemma {:induction false} HomeIsRoundRobin(c: Config, i: nat)
    requires c.workers > 0
    ensures Home(c, i) == i % c.workers
  {
    if i >= c.workers {
      HomeIsRoundRobin(c, i - c.workers);
      ModStep(i - c.workers, c.workers);
    }
  }

  function Init(c: Config, table: Table, blobs: Blobs, budget: nat): State {
    State(0, false, seq(c.workers, _ => []), seq(c.workers, _ => Idle), table, blobs, {}, false, budget, {})
  }

  predicate Checking(c: Config, s: State, w: nat) {
    w < |s.workers| && s.workers[w].AtCheck? && s.workers[w].i < |c.todo|
  }

  predicate Attempting(c: Config, s: State, w: nat) {
    w < |s.workers| && s.workers[w].InAttempt? && s.workers[w].i < |c.todo|
  }

  predicate Enabled(c: Config, s: State, step: Step)
    requires Valid(c) && |s.chans| == |s.workers| == c.workers
  {
    match step
    case Feed => s.fed < |c.todo| && |s.chans[Home(c, s.fed)]| < c.bound
    case Close => s.fed == |c.todo| && !s.closed
    case Take(w) => w < c.workers && s.workers[w].Idle? && s.chans[w] != [] && s.chans[w][0] < |c.todo|
    case End(w) => w < c.workers && s.workers[w].Idle? && s.chans[w] == [] && s.closed
    case SeeCancel(w) => Checking(c, s, w) && s.cancelled
    case SeeRestart(w) => Checking(c, s, w) && !s.cancelled && c.todo[s.workers[w].i].id in s.pending
    case Exhaust(w) =>
      Checking(c, s, w) && !s.cancelled && c.todo[s.workers[w].i].id !in s.pending && s.workers[w].attempt > c.tries
    case Begin(w) =>
      Checking(c, s, w) && !s.cancelled && c.todo[s.workers[w].i].id !in s.pending && s.workers[w].attempt <= c.tries
    case AttemptFails(w) => Attempting(c, s, w)
    case AttemptCompletes(w, o) => Attempting(c, s, w) && Completed(o)
    case Cancel => !s.cancelled
    case RequestRestart(id) => s.budget > 0 && id !in s.pending
  }

  /** `setDatum`: one record of the shared table, written under its mutex. */
  function SetDatum(c: Config, s: State, i: nat, w: nat, o: Outcome, files: seq<FileRef>): State
    requires i < |c.todo|
  {
    var stamp := if Completed(o) then c.transform else NO_TRANSFORM;
    s.(table := s.table[c.todo[i].id := Rec(c.todo[i].hash, o, files, stamp, w)])
  }

  function Settle(s: State, w: nat, i: nat): State
    requires w < |s.workers|
  {
    s.(workers := s.workers[w := Idle], done := s.done + {i})
  }

  function Next(run: Program, c: Config, s: State, step: Step): State
    requires Valid(c) && |s.chans| == |s.workers| == c.workers && Enabled(c, s, step)
  {
    match step
    case Feed =>
      var w := Home(c, s.fed);
      s.(fed := s.fed + 1, chans := s.chans[w := s.chans[w] + [s.fed]])
    case Close => s.(closed := true)
    case Take(w) =>
      var i := s.chans[w][0];
      SetDatum(c, s, i, w, InProgress, []).(chans := s.chans[w := s.chans[w][1..]], workers := s.workers[w := AtCheck(i, 1)])
    case End(w) => s.(workers := s.workers[w := Ended])
    case SeeCancel(w) =>
      var i := s.workers[w].i;
      Settle(SetDatum(c, s, i, w, Failed, []), w, i)
    case SeeRestart(w) =>
      var i := s.workers[w].i;
      SetDatum(c, s, i, w, InProgress, []).(workers := s.workers[w := AtCheck(i, 1)], pending := s.pending - {c.todo[i].id})
    case Exhaust(w) =>
      var i := s.workers[w].i;
      Settle(SetDatum(c, s, i, w, Failed, []), w, i)
    case Begin(w) => s.(workers := s.workers[w := InAttempt(s.workers[w].i, s.workers[w].attempt)])
    case AttemptFails(w) => s.(workers := s.workers[w := AtCheck(s.workers[w].i, s.workers[w].attempt + 1)])
    case AttemptCompletes(w, o) =>
      var i := s.workers[w].i;
      var files := run(c.transform, c.todo[i]);
      Settle(SetDatum(c, s, i, w, o, Stored(files)), w, i).(blobs := WriteBlobs(s.blobs, files))
    case Cancel => s.(cancelled := true)
    case RequestRestart(id) => s.(budget := s.budget - 1, pending := s.pending + {id})
  }

  // ---- where each datum is ----

  predicate Flies(w: Worker, i: nat) {
    (w.AtCheck? || w.InAttempt?) && w.i == i
  }

  predicate Busy(w: Worker) {
    w.AtCheck? || w.InAttempt?
  }

  /** Channel `w` holds, in order and within its bound, fed datums of worker `w` that nobody took. */
  ghost predicate ChannelOk(c: Config, s: State, w: nat)
    requires c.workers > 0 && w < |s.chans| == |s.workers|
  {
    var q := s.chans[w];
    && |q| <= c.bound
    && (forall k :: 0 <= k < |q| ==> q[k] < s.fed && Home(c, q[k]) == w && q[k] !in s.done && !Flies(s.workers[w], q[k]))
    && (forall k, l :: 0 <= k < l < |q| ==> q[k] < q[l])
  }

  ghost predicate WorkerOk(c: Config, s: State, w: nat)
    requires c.workers > 0 && w < |s.chans| == |s.workers|
  {
    && (Busy(s.workers[w]) ==>
          s.workers[w].i < s.fed && Home(c, s.workers[w].i) == w && s.workers[w].i !in s.done)
    && (Busy(s.workers[w]) ==> 1 <= s.workers[w].attempt <= c.tries + 1)
    && (s.workers[w].InAttempt? ==> s.workers[w].attempt <= c.tries)
    && (s.workers[w].Ended? ==> s.closed && s.chans[w] == [])
  }

  /** Settled, in flight and queued datums make up exactly the fed ones, each in one place. */
  ghost predicate Partition(c: Config, s: State)
    requires c.workers > 0
  {
    && |s.chans| == |s.workers| == c.workers
    && s.fed <= |c.todo| && (s.closed ==> s.fed == |c.todo|)
    && (forall i <- s.done :: i < s.fed)
    && (forall w :: 0 <= w < c.workers ==> ChannelOk(c, s, w))
    && (forall w :: 0 <= w < c.workers ==> WorkerOk(c, s, w))
    && (forall i :: 0 <= i < s.fed ==>
          i in s.done || i in s.chans[Home(c, i)] || Flies(s.workers[Home(c, i)], i))
  }

  /** The record of datum `i`, as far as the pool has brought it. */
  ghost predicate RecordOk(c: Config, s: State, start: Table, i: nat)
    requires c.workers > 0 && |s.workers| == c.workers && i < |c.todo|
  {
    var d := c.todo[i];
    if i in s.done then
      && d.id in s.table && s.table[d.id].hash == d.hash
      && (Completed(s.table[d.id].outcome) ==> s.table[d.id].transform == c.transform)
      && s.table[d.id].outcome != InProgress && s.table[d.id].worker == Home(c, i)
    else if Flies(s.workers[Home(c, i)], i) then d.id in s.table && s.table[d.id].outcome == InProgress
    else (d.id in s.table <==> d.id in start) && (d.id in start ==> s.table[d.id] == start[d.id])
  }

  /** Datums outside this job keep their records. */
  ghost predicate OthersKept(c: Config, s: State, start: Table) {
    forall id :: (forall d <- c.todo :: d.id != id) ==>
      (id in s.table <==> id in start) && (id in start ==> s.table[id] == start[id])
  }

  ghost predicate Records(run: Program, c: Config, s: State, start: Table)
    requires c.workers > 0 && |s.workers| == c.workers
  {
    && TrueTable(run, s.blobs, s.table)
    && (forall i :: 0 <= i < |c.todo| ==> RecordOk(c, s, start, i))
    && OthersKept(c, s, start)
  }

  ghost predicate Inv(run: Program, c: Config, s: State, start: Table) {
    Valid(c) && DistinctIds(c.todo) && Partition(c, s) && Records(run, c, s, start)
  }

  // ---- the places are kept ----

  lemma FeedPlaces(run: Program, c: Config, s: State)
    requires Valid(c) && Partition(c, s) && Enabled(c, s, Feed)
    ensures Partition(c, Next(run, c, s, Feed))
  {
    var s', h := Next(run, c, s, Feed), Home(c, s.fed);
    assert s'.chans[h] == s.chans[h] + [s.fed];
    forall w | 0 <= w < c.workers
      ensures ChannelOk(c, s', w)
    {
      assert ChannelOk(c, s, w) && WorkerOk(c, s, w);
      assert w != h ==> s'.chans[w] == s.chans[w];
    }
    forall w | 0 <= w < c.workers
      ensures WorkerOk(c, s', w)
    {
      assert WorkerOk(c, s, w);
    }
    forall i | 0 <= i < s'.fed
      ensures i in s'.done || i in s'.chans[Home(c, i)] || Flies(s'.workers[Home(c, i)], i)
    {
    }
  }

  /** A channel and its worker, when another worker's step left them alone. */
  lemma OtherPlaces(c: Config, s: State, s': State, v: nat)
    requires c.workers > 0 && v < |s.chans| == |s.workers| == |s'.chans| == |s'.workers|
    requires ChannelOk(c, s, v) && WorkerOk(c, s, v)
    requires s'.chans[v] == s.chans[v] && s'.workers[v] == s.workers[v]
    requires s'.fed == s.fed && s'.closed == s.closed && s'.done == s.done
    ensures ChannelOk(c, s', v) && WorkerOk(c, s', v)
  {
  }

  lemma TakenPlaces(c: Config, s: State, s': State, w: nat)
    requires c.workers > 0 && w < |s.chans| == |s.workers| == |s'.chans| == |s'.workers| && c.tries > 0
    requires ChannelOk(c, s, w) && s.chans[w] != []
    requires s'.fed == s.fed && s'.closed == s.closed && s'.done == s.done
    requires s'.chans[w] == s.chans[w][1..] && s'.workers[w] == AtCheck(s.chans[w][0], 1)
    ensures ChannelOk(c, s', w) && WorkerOk(c, s', w)
  {
    var q := s.chans[w];
    assert forall k :: 0 <= k < |q| - 1 ==> q[1..][k] == q[k + 1];
  }

  /** A worker takes the head of its channel. */
  lemma TakePlaces(c: Config, s: State, s': State, w: nat)
    requires Valid(c) && Partition(c, s)
    requires w < c.workers && s.workers[w].Idle? && s.chans[w] != []
    requires s'.fed == s.fed && s'.closed == s.closed && s'.done == s.done
    requires s'.chans == s.chans[w := s.chans[w][1..]] && s'.workers == s.workers[w := AtCheck(s.chans[w][0], 1)]
    ensures Partition(c, s')
  {
    var q := s.chans[w];
    forall v | 0 <= v < c.workers
      ensures ChannelOk(c, s', v) && WorkerOk(c, s', v)
    {
      assert ChannelOk(c, s, v) && WorkerOk(c, s, v);
      if v == w {
        TakenPlaces(c, s, s', w);
      } else {
        OtherPlaces(c, s, s', v);
      }
    }
    assert q == [q[0]] + q[1..];
    forall i | 0 <= i < s.fed
      ensures i in s'.done || i in s'.chans[Home(c, i)] || Flies(s'.workers[Home(c, i)], i)
    {
      assert i in s.done || i in s.chans[Home(c, i)] || Flies(s.workers[Home(c, i)], i);
    }
  }

  /** A worker settles the datum it holds. */
  lemma SettlePlaces(c: Config, s: State, s': State, w: nat)
    requires Valid(c) && Partition(c, s)
    requires w < c.workers && Busy(s.workers[w])
    requires s'.fed == s.fed && s'.closed == s.closed && s'.chans == s.chans
    requires s'.workers == s.workers[w := Idle] && s'.done == s.done + {s.workers[w].i}
    ensures Partition(c, s')
  {
    assert WorkerOk(c, s, w) && ChannelOk(c, s, w);
    forall v | 0 <= v < c.workers
      ensures ChannelOk(c, s', v) && WorkerOk(c, s', v)
    {
      assert ChannelOk(c, s, v) && WorkerOk(c, s, v);
    }
    forall i | 0 <= i < s.fed
      ensures i in s'.done || i in s'.chans[Home(c, i)] || Flies(s'.workers[Home(c, i)], i)
    {
    }
  }

  /** A worker keeps the datum it holds, or ends with an empty closed channel. */
  lemma KeepPlaces(c: Config, s: State, s': State, w: nat, next: Worker)
    requires Valid(c) && Partition(c, s) && w < c.workers
    requires s'.fed == s.fed && s'.closed == s.closed && s'.chans == s.chans && s'.done == s.done
    requires s'.workers == s.workers[w := next]
    requires if next.Ended? then s.workers[w].Idle? && s.closed && s.chans[w] == [] else
               && Busy(s.workers[w]) && Busy(next) && next.i == s.workers[w].i
               && 1 <= next.attempt <= c.tries + 1 && (next.InAttempt? ==> next.attempt <= c.tries)
    ensures Partition(c, s')
  {
    assert WorkerOk(c, s, w);
    forall v | 0 <= v < c.workers
      ensures ChannelOk(c, s', v) && WorkerOk(c, s', v)
    {
      assert ChannelOk(c, s, v) && WorkerOk(c, s, v);
    }
    forall i | 0 <= i < s.fed
      ensures i in s'.done || i in s'.chans[Home(c, i)] || Flies(s'.workers[Home(c, i)], i)
    {
    }
  }

  lemma OutsidePlaces(run: Program, c: Config, s: State, step: Step)
    requires Valid(c) && Partition(c, s) && Enabled(c, s, step)
    requires step.Close? || step.Cancel? || step.RequestRestart?
    ensures Partition(c, Next(run, c, s, step))
  {
    var s' := Next(run, c, s, step);
    forall w | 0 <= w < c.workers
      ensures ChannelOk(c, s', w) && WorkerOk(c, s', w)
    {
      assert ChannelOk(c, s, w) && WorkerOk(c, s, w);
    }
  }

  lemma SettleStepPlaces(run: Program, c: Config, s: State, step: Step)
    requires Valid(c) && Partition(c, s) && Enabled(c, s, step)
    requires step.SeeCancel? || step.Exhaust? || step.AttemptCompletes?
    ensures Partition(c, Next(run, c, s, step))
  {
    SettlePlaces(c, s, Next(run, c, s, step), step.w);
  }

  lemma KeepStepPlaces(run: Program, c: Config, s: State, step: Step)
    requires Valid(c) && Partition(c, s) && Enabled(c, s, step)
    requires step.End? || step.SeeRestart? || step.Begin? || step.AttemptFails?
    ensures Partition(c, Next(run, c, s, step))
  {
    var s' := Next(run, c, s, step);
    assert WorkerOk(c, s, step.w);
    KeepPlaces(c, s, s', step.w, s'.workers[step.w]);
  }

  lemma StepPlaces(run: Program, c: Config, s: State, step: Step)
    requires Valid(c) && Partition(c, s) && Enabled(c, s, step)
    ensures Partition(c, Next(run, c, s, step))
  {
    match step
    case Feed => FeedPlaces(run, c, s);
    case Take(w) => TakePlaces(c, s, Next(run, c, s, step), w);
    case Close => OutsidePlaces(run, c, s, step);
    case Cancel => OutsidePlaces(run, c, s, step);
    case RequestRestart(_) => OutsidePlaces(run, c, s, step);
    case SeeCancel(_) => SettleStepPlaces(run, c, s, step);
    case Exhaust(_) => SettleStepPlaces(run, c, s, step);
    case AttemptCompletes(_, _) => SettleStepPlaces(run, c, s, step);
    case _ => KeepStepPlaces(run, c, s, step);
  }

  // ---- the records are kept ----

  lemma {:induction false} CompleteKeepsTable(run: Program, c: Config, s: State, i: nat, w: nat, o: Outcome)
    requires i < |c.todo| && TrueTable(run, s.blobs, s.table)
    ensures var files := run(c.transform, c.todo[i]);
            TrueTable(run, WriteBlobs(s.blobs, files), SetDatum(c, s, i, w, o, Stored(files)).table)
  {
    var files := run(c.transform, c.todo[i]);
    WriteBlobsGrows(s.blobs, files);
    StoredReadsBack(s.blobs, files);
    GrownKeepsTable(run, s.blobs, WriteBlobs(s.blobs, files), s.table);
  }

  lemma StepTable(run: Program, c: Config, s: State, step: Step)
    requires Valid(c) && |s.chans| == |s.workers| == c.workers && Enabled(c, s, step)
    requires TrueTable(run, s.blobs, s.table)
    ensures TrueTable(run, Next(run, c, s, step).blobs, Next(run, c, s, step).table)
    ensures Grown(s.blobs, Next(run, c, s, step).blobs)
  {
    if step.AttemptCompletes? {
      CompleteKeepsTable(run, c, s, s.workers[step.w].i, step.w, step.outcome);
      WriteBlobsGrows(s.blobs, run(c.transform, c.todo[s.workers[step.w].i]));
    }
  }

  /** A step that writes at most datum `i`'s record, and moves only datum `i`. */
  lemma RecordsKept(run: Program, c: Config, s: State, s': State, start: Table, i: nat)
    requires Inv(run, c, s, start) && Partition(c, s')
    requires i < |c.todo| && RecordOk(c, s', start, i)
    requires TrueTable(run, s'.blobs, s'.table)
    requires forall id :: id != c.todo[i].id ==>
               (id in s'.table <==> id in s.table) && (id in s.table ==> s'.table[id] == s.table[id])
    requires forall k :: 0 <= k < |c.todo| && k != i ==>
               (k in s'.done <==> k in s.done) && (Flies(s'.workers[Home(c, k)], k) <==> Flies(s.workers[Home(c, k)], k))
    ensures Records(run, c, s', start)
  {
    forall k | 0 <= k < |c.todo| && k != i
      ensures RecordOk(c, s', start, k)
    {
      assert RecordOk(c, s, start, k) && c.todo[k].id != c.todo[i].id;
    }
    forall id | forall d <- c.todo :: d.id != id
      ensures (id in s'.table <==> id in start) && (id in start ==> s'.table[id] == start[id])
    {
      assert c.todo[i] in c.todo && id != c.todo[i].id;
    }
  }

  lemma TakeRecords(run: Program, c: Config, s: State, start: Table, w: nat)
    requires Inv(run, c, s, start) && Enabled(c, s, Take(w))
    ensures Records(run, c, Next(run, c, s, Take(w)), start)
  {
    StepPlaces(run, c, s, Take(w));
    StepTable(run, c, s, Take(w));
    var i := s.chans[w][0];
    assert ChannelOk(c, s, w) && WorkerOk(c, s, w);
    RecordsKept(run, c, s, Next(run, c, s, Take(w)), start, i);
  }

  lemma SettleElsewhere(c: Config, s: State, s': State, w: nat, i: nat)
    requires Valid(c) && |s.workers| == c.workers && w < c.workers && Flies(s.workers[w], i)
    requires s'.workers == s.workers[w := Idle] && s'.done == s.done + {i}
    ensures forall k :: 0 <= k < |c.todo| && k != i ==>
              (k in s'.done <==> k in s.done) && (Flies(s'.workers[Home(c, k)], k) <==> Flies(s.workers[Home(c, k)], k))
  {
  }

  lemma SettleRecords(run: Program, c: Config, s: State, start: Table, step: Step)
    requires Inv(run, c, s, start) && Enabled(c, s, step)
    requires step.SeeCancel? || step.Exhaust? || step.AttemptCompletes?
    ensures Records(run, c, Next(run, c, s, step), start)
  {
    StepPlaces(run, c, s, step);
    StepTable(run, c, s, step);
    var s', i := Next(run, c, s, step), s.workers[step.w].i;
    assert WorkerOk(c, s, step.w);
    assert RecordOk(c, s', start, i);
    SettleElsewhere(c, s, s', step.w, i);
    RecordsKept(run, c, s, s', start, i);
  }

  lemma LoopRecords(run: Program, c: Config, s: State, start: Table, step: Step)
    requires Inv(run, c, s, start) && Enabled(c, s, step)
    requires step.SeeRestart? || step.Begin? || step.AttemptFails?
    ensures Records(run, c, Next(run, c, s, step), start)
  {
    StepPlaces(run, c, s, step);
    StepTable(run, c, s, step);
    var i := s.workers[step.w].i;
    assert WorkerOk(c, s, step.w) && RecordOk(c, s, start, i);
    RecordsKept(run, c, s, Next(run, c, s, step), start, i);
  }

  /** Steps that write no record and move no datum in or out of flight. */
  lemma QuietRecords(run: Program, c: Config, s: State, start: Table, step: Step)
    requires Inv(run, c, s, start) && Enabled(c, s, step)
    requires step.Feed? || step.Close? || step.End? || step.Cancel? || step.RequestRestart?
    ensures Records(run, c, Next(run, c, s, step), start)
  {
    var s' := Next(run, c, s, step);
    forall i | 0 <= i < |c.todo|
      ensures RecordOk(c, s', start, i)
    {
      assert RecordOk(c, s, start, i);
    }
  }

  /** Every step of the pool keeps the invariant. */
  lemma StepKeeps(run: Program, c: Config, s: State, start: Table, step: Step)
    requires Inv(run, c, s, start) && Enabled(c, s, step)
    ensures Inv(run, c, Next(run, c, s, step), start)
  {
    StepPlaces(run, c, s, step);
    match step
    case Take(w) => TakeRecords(run, c, s, start, w);
    case SeeCancel(_) => SettleRecords(run, c, s, start, step);
    case Exhaust(_) => SettleRecords(run, c, s, start, step);
    case AttemptCompletes(_, _) => SettleRecords(run, c, s, start, step);
    case SeeRestart(_) => LoopRecords(run, c, s, start, step);
    case Begin(_) => LoopRecords(run, c, s, start, step);
    case AttemptFails(_) => LoopRecords(run, c, s, start, step);
    case _ => QuietRecords(run, c, s, start, step);
  }

  /** The pool before its first step. */
  ghost predicate Fresh(s: State) {
    s.done == {} && forall w :: 0 <= w < |s.workers| ==> s.workers[w].Idle?
  }

  lemma InitHolds(run: Program, c: Config, table: Table, blobs: Blobs, budget: nat)
    requires Valid(c) && DistinctIds(c.todo) && TrueTable(run, blobs, table)
    ensures Inv(run, c, Init(c, table, blobs, budget), table) && Fresh(Init(c, table, blobs, budget))
  {
    var s := Init(c, table, blobs, budget);
    assert forall w :: 0 <= w < c.workers ==> ChannelOk(c, s, w) && WorkerOk(c, s, w);
    assert forall i :: 0 <= i < |c.todo| ==> RecordOk(c, s, table, i);
  }

  // ---- whole runs ----

  ghost predicate IsRun(run: Program, c: Config, states: seq<State>, steps: seq<Step>) {
    && Valid(c) && |states| == |steps| + 1
    && (forall i :: 0 <= i < |states| ==> |states[i].chans| == |states[i].workers| == c.workers)
    && (forall i :: 0 <= i < |steps| ==> Enabled(c, states[i], steps[i]) && states[i + 1] == Next(run, c, states[i], steps[i]))
  }

  lemma Extend(run: Program, c: Config, states: seq<State>, steps: seq<Step>, step: Step)
    requires IsRun(run, c, states, steps) && Enabled(c, states[|states| - 1], step)
    ensures IsRun(run, c, states + [Next(run, c, states[|states| - 1], step)], steps + [step])
  {
    var last := Next(run, c, states[|states| - 1], step);
    var states', steps' := states + [last], steps + [step];
    assert |last.chans| == |last.workers| == c.workers;
    forall i | 0 <= i < |steps'|
      ensures Enabled(c, states'[i], steps'[i]) && states'[i + 1] == Next(run, c, states'[i], steps'[i])
    {
      if i < |steps| {
        assert states'[i] == states[i] && states'[i + 1] == states[i + 1] && steps'[i] == steps[i];
      }
    }
  }

  lemma {:induction false} RunKeeps(run: Program, c: Config, states: seq<State>, steps: seq<Step>, start: Table, n: nat)
    requires IsRun(run, c, states, steps) && n < |states|
    requires Inv(run, c, states[0], start)
    ensures Inv(run, c, states[n], start)
    ensures Grown(states[0].blobs, states[n].blobs)
  {
    if n > 0 {
      RunKeeps(run, c, states, steps, start, n - 1);
      StepKeeps(run, c, states[n - 1], start, steps[n - 1]);
      StepTable(run, c, states[n - 1], steps[n - 1]);
    }
  }

  /** The pool has drained: the channels are closed and every worker has returned. */
  predicate Finished(c: Config, s: State) {
    s.closed && forall w :: 0 <= w < |s.workers| ==> s.workers[w].Ended?
  }

  /** What `runDatums` reports: some datum of this job ended failed. */
  ghost predicate AnyFailed(c: Config, s: State) {
    exists d :: d in c.todo && d.id in s.table && s.table[d.id].outcome == Failed
  }

  ghost predicate SettledAs(c: Config, s: State, i: nat)
    requires c.workers > 0 && i < |c.todo|
  {
    && i in s.done
    && c.todo[i].id in s.table
    && s.table[c.todo[i].id].outcome != InProgress
    && s.table[c.todo[i].id].worker == i % c.workers
    && s.table[c.todo[i].id].hash == c.todo[i].hash
    && (Completed(s.table[c.todo[i].id].outcome) ==> s.table[c.todo[i].id].transform == c.transform)
  }

  lemma SettledAtEnd(run: Program, c: Config, s: State, start: Table, i: nat)
    requires Inv(run, c, s, start) && Finished(c, s) && i < |c.todo|
    ensures SettledAs(c, s, i)
  {
    assert WorkerOk(c, s, Home(c, i)) && s.workers[Home(c, i)].Ended?;
    assert RecordOk(c, s, start, i);
    HomeIsRoundRobin(c, i);
  }

  /**
    At the end every datum is settled, by the worker it was fed to, under its
    own content digest; a failure is reported exactly when some datum did not
    complete.
   */
  lemma FinishedSettlesAll(run: Program, c: Config, s: State, start: Table)
    requires Inv(run, c, s, start) && Finished(c, s)
    ensures forall i :: 0 <= i < |c.todo| ==> SettledAs(c, s, i)
    ensures !AnyFailed(c, s) <==> forall d <- c.todo :: d.id in s.table && Completed(s.table[d.id].outcome)
  {
    forall i | 0 <= i < |c.todo|
      ensures SettledAs(c, s, i)
    {
      SettledAtEnd(run, c, s, start, i);
    }
    forall d | d in c.todo
      ensures d.id in s.table && s.table[d.id].outcome != InProgress
    {
      var i :| 0 <= i < |c.todo| && c.todo[i] == d;
      assert SettledAs(c, s, i);
    }
  }

  /** The step a busy worker can take. */
  function WorkerStep(c: Config, s: State, w: nat): Step
    requires w < |s.workers| && Busy(s.workers[w]) && s.workers[w].i < |c.todo|
  {
    if s.workers[w].InAttempt? then AttemptFails(w)
    else if s.cancelled then SeeCancel(w)
    else if c.todo[s.workers[w].i].id in s.pending then SeeRestart(w)
    else if s.workers[w].attempt > c.tries then Exhaust(w)
    else Begin(w)
  }

  // ---- how often a datum is tried ----

  predicate HeldBy(s: State, w: nat, i: nat) {
    w < |s.workers| && Flies(s.workers[w], i)
  }

  /** A worker starts on datum `i`: it takes it, or answers a request to restart it. */
  predicate Starts(s: State, step: Step, i: nat) {
    || (step.Take? && step.w < |s.chans| && s.chans[step.w] != [] && s.chans[step.w][0] == i)
    || (step.SeeRestart? && HeldBy(s, step.w, i))
  }

  /** An attempt on datum `i` fails. */
  predicate Fails(s: State, step: Step, i: nat) {
    step.AttemptFails? && HeldBy(s, step.w, i)
  }

  /** The failed attempts on datum `i` since a worker last started on it. */
  function Tries(states: seq<State>, steps: seq<Step>, n: nat, i: nat): nat
    requires n <= |steps| < |states|
  {
    if n == 0 || Starts(states[n - 1], steps[n - 1], i) then 0
    else Tries(states, steps, n - 1, i) + if Fails(states[n - 1], steps[n - 1], i) then 1 else 0
  }

  function TriesAt(states: seq<State>, steps: seq<Step>, n: nat): nat -> nat
    requires n <= |steps| < |states|
  {
    i => Tries(states, steps, n, i)
  }

  /** Attempts are numbered by the failures before them, and only a datum that had them all failed by itself. */
  ghost predicate Counted(c: Config, s: State, t: nat -> nat) {
    && (forall w :: 0 <= w < |s.workers| && Busy(s.workers[w]) ==> s.workers[w].attempt == t(s.workers[w].i) + 1)
    && (forall i :: 0 <= i < |c.todo| ==> t(i) <= c.tries)
    && (forall i <- s.done :: i < |c.todo| && c.todo[i].id in s.table && s.table[c.todo[i].id].outcome == Failed && !s.cancelled ==>
          t(i) == c.tries)
  }

  /** `t'` counts one step further. */
  ghost predicate Counts(s: State, step: Step, t: nat -> nat, t': nat -> nat) {
    forall i :: t'(i) == if Starts(s, step, i) then 0 else t(i) + if Fails(s, step, i) then 1 else 0
  }

  /** A settled datum stays settled, and its record is final. */
  lemma SettledStays(run: Program, c: Config, s: State, start: Table, step: Step, i: nat)
    requires Inv(run, c, s, start) && Enabled(c, s, step) && i in s.done && i < |c.todo|
    ensures var s' := Next(run, c, s, step);
            && i in s'.done && c.todo[i].id in s.table && c.todo[i].id in s'.table
            && s'.table[c.todo[i].id] == s.table[c.todo[i].id]
  {
    assert RecordOk(c, s, start, i);
    if step.Take? {
      assert ChannelOk(c, s, step.w);
      assert c.todo[s.chans[step.w][0]].id != c.todo[i].id;
    } else if step.SeeCancel? || step.SeeRestart? || step.Exhaust? || step.AttemptCompletes? {
      assert WorkerOk(c, s, step.w);
      assert c.todo[s.workers[step.w].i].id != c.todo[i].id;
    }
  }

  /** Steps that neither start nor settle a datum nor end an attempt. */
  lemma CountedQuiet(run: Program, c: Config, s: State, start: Table, step: Step, t: nat -> nat, t': nat -> nat)
    requires Inv(run, c, s, start) && Enabled(c, s, step) && Counted(c, s, t) && Counts(s, step, t, t')
    requires step.Feed? || step.Close? || step.End? || step.Begin? || step.Cancel? || step.RequestRestart?
    ensures Counted(c, Next(run, c, s, step), t')
  {
    assert forall i :: t'(i) == t(i);
  }

  /** A worker starts on a datum: its first attempt is next. */
  lemma CountedStart(run: Program, c: Config, s: State, start: Table, step: Step, t: nat -> nat, t': nat -> nat, i: nat)
    requires Inv(run, c, s, start) && Enabled(c, s, step) && Counted(c, s, t) && Counts(s, step, t, t')
    requires (step.Take? && i == s.chans[step.w][0]) || (step.SeeRestart? && i == s.workers[step.w].i)
    ensures Counted(c, Next(run, c, s, step), t')
  {
    var s', w := Next(run, c, s, step), step.w;
    assert ChannelOk(c, s, w) && WorkerOk(c, s, w);
    assert forall k :: k != i ==> t'(k) == t(k);
    assert t'(i) == 0 && i !in s.done;
    forall v | 0 <= v < |s'.workers| && Busy(s'.workers[v])
      ensures s'.workers[v].attempt == t'(s'.workers[v].i) + 1
    {
      if v != w {
        assert WorkerOk(c, s, v);
      }
    }
    forall k | k in s'.done && k < |c.todo|
      ensures c.todo[k].id in s.table && s'.table[c.todo[k].id] == s.table[c.todo[k].id] && k != i
    {
      SettledStays(run, c, s, start, step, k);
    }
  }

  lemma CountedFail(run: Program, c: Config, s: State, start: Table, w: nat, t: nat -> nat, t': nat -> nat)
    requires Inv(run, c, s, start) && Enabled(c, s, AttemptFails(w)) && Counted(c, s, t) && Counts(s, AttemptFails(w), t, t')
    ensures Counted(c, Next(run, c, s, AttemptFails(w)), t')
  {
    var s', i := Next(run, c, s, AttemptFails(w)), s.workers[w].i;
    assert WorkerOk(c, s, w);
    assert forall k :: k != i ==> t'(k) == t(k);
    assert t'(i) == t(i) + 1;
    forall v | 0 <= v < |s'.workers| && Busy(s'.workers[v])
      ensures s'.workers[v].attempt == t'(s'.workers[v].i) + 1
    {
      if v != w {
        assert WorkerOk(c, s, v);
      }
    }
  }

  lemma CountedSettle(c: Config, s: State, s': State, w: nat, t: nat -> nat)
    requires Counted(c, s, t) && w < |s.workers| && Busy(s.workers[w])
    requires s'.workers == s.workers[w := Idle] && s'.done == s.done + {s.workers[w].i} && s'.cancelled == s.cancelled
    requires forall k <- s.done :: k < |c.todo| ==>
               c.todo[k].id in s.table && c.todo[k].id in s'.table && s'.table[c.todo[k].id] == s.table[c.todo[k].id]
    requires var i := s.workers[w].i;
             i < |c.todo| && c.todo[i].id in s'.table && s'.table[c.todo[i].id].outcome == Failed && !s.cancelled ==> t(i) == c.tries
    ensures Counted(c, s', t)
  {
  }

  lemma CountedSettleStep(run: Program, c: Config, s: State, start: Table, step: Step, t: nat -> nat)
    requires Inv(run, c, s, start) && Enabled(c, s, step) && Counted(c, s, t)
    requires step.SeeCancel? || step.Exhaust? || step.AttemptCompletes?
    ensures Counted(c, Next(run, c, s, step), t)
  {
    assert WorkerOk(c, s, step.w);
    forall k | k in s.done && k < |c.todo|
      ensures c.todo[k].id in s.table && c.todo[k].id in Next(run, c, s, step).table
      ensures Next(run, c, s, step).table[c.todo[k].id] == s.table[c.todo[k].id]
    {
      SettledStays(run, c, s, start, step, k);
    }
    CountedSettle(c, s, Next(run, c, s, step), step.w, t);
  }

  lemma CountedSame(c: Config, s: State, t: nat -> nat, t': nat -> nat)
    requires Counted(c, s, t) && forall i :: t'(i) == t(i)
    ensures Counted(c, s, t')
  {
  }

  lemma StepCounted(run: Program, c: Config, s: State, start: Table, step: Step, t: nat -> nat, t': nat -> nat)
    requires Inv(run, c, s, start) && Enabled(c, s, step) && Counted(c, s, t) && Counts(s, step, t, t')
    ensures Counted(c, Next(run, c, s, step), t')
  {
    match step
    case Take(w) => CountedStart(run, c, s, start, step, t, t', s.chans[w][0]);
    case SeeRestart(w) => CountedStart(run, c, s, start, step, t, t', s.workers[w].i);
    case AttemptFails(w) => CountedFail(run, c, s, start, w, t, t');
    case SeeCancel(_) =>
      CountedSettleStep(run, c, s, start, step, t);
      CountedSame(c, Next(run, c, s, step), t, t');
    case Exhaust(_) =>
      CountedSettleStep(run, c, s, start, step, t);
      CountedSame(c, Next(run, c, s, step), t, t');
    case AttemptCompletes(_, _) =>
      CountedSettleStep(run, c, s, start, step, t);
      CountedSame(c, Next(run, c, s, step), t, t');
    case _ => CountedQuiet(run, c, s, start, step, t, t');
  }

  lemma {:induction false} RunCounted(run: Program, c: Config, states: seq<State>, steps: seq<Step>, start: Table, n: nat)
    requires IsRun(run, c, states, steps) && n < |states|
    requires Inv(run, c, states[0], start) && Fresh(states[0])
    ensures Counted(c, states[n], TriesAt(states, steps, n))
  {
    if n > 0 {
      RunCounted(run, c, states, steps, start, n - 1);
      RunKeeps(run, c, states, steps, start, n - 1);
      var t, t' := TriesAt(states, steps, n - 1), TriesAt(states, steps, n);
      assert Counts(states[n - 1], steps[n - 1], t, t');
      StepCounted(run, c, states[n - 1], start, steps[n - 1], t, t');
    }
  }

  /**
    Neither fewer nor more tries: in every run, no datum sees more failed
    attempts than it has tries, and one that failed in a job that was not
    cancelled has had exactly that many.
   */
  lemma TriesExact(run: Program, c: Config, states: seq<State>, steps: seq<Step>, start: Table, n: nat, i: nat)
    requires IsRun(run, c, states, steps) && n < |states| && i < |c.todo|
    requires Inv(run, c, states[0], start) && Fresh(states[0])
    ensures Tries(states, steps, n, i) <= c.tries
    ensures i in states[n].done && !states[n].cancelled && c.todo[i].id in states[n].table
            && states[n].table[c.todo[i].id].outcome == Failed ==>
              Tries(states, steps, n, i) == c.tries
  {
    RunCounted(run, c, states, steps, start, n);
    assert TriesAt(states, steps, n)(i) == Tries(states, steps, n, i);
  }

  // ---- what is recorded is final ----

  lemma {:induction false} RecordFinal(run: Program, c: Config, states: seq<State>, steps: seq<Step>, start: Table, m: nat, n: nat, i: nat)
    requires IsRun(run, c, states, steps) && Inv(run, c, states[0], start) && m <= n < |states|
    requires i in states[m].done && i < |c.todo|
    ensures i in states[n].done && c.todo[i].id in states[m].table && c.todo[i].id in states[n].table
    ensures states[n].table[c.todo[i].id] == states[m].table[c.todo[i].id]
  {
    RunKeeps(run, c, states, steps, start, m);
    if m == n {
      assert RecordOk(c, states[n], start, i);
    } else {
      RecordFinal(run, c, states, steps, start, m, n - 1, i);
      RunKeeps(run, c, states, steps, start, n - 1);
      SettledStays(run, c, states[n - 1], start, steps[n - 1], i);
    }
  }

  /** A completed attempt's outcome and files are the datum's record from then on. */
  lemma OutcomeRecorded(run: Program, c: Config, states: seq<State>, steps: seq<Step>, start: Table, m: nat, n: nat, w: nat, o: Outcome)
    requires IsRun(run, c, states, steps) && Inv(run, c, states[0], start) && m < n < |states|
    requires steps[m] == AttemptCompletes(w, o)
    ensures var d := c.todo[states[m].workers[w].i];
            d.id in states[n].table && states[n].table[d.id] == Rec(d.hash, o, Stored(run(c.transform, d)), c.transform, w)
  {
    var i := states[m].workers[w].i;
    assert states[m + 1] == Next(run, c, states[m], steps[m]);
    RecordFinal(run, c, states, steps, start, m + 1, n, i);
  }

  /** A datum given up, after its last try or on a cancel, is recorded failed from then on. */
  lemma FailureRecorded(run: Program, c: Config, states: seq<State>, steps: seq<Step>, start: Table, m: nat, n: nat, w: nat)
    requires IsRun(run, c, states, steps) && Inv(run, c, states[0], start) && m < n < |states|
    requires steps[m] == Exhaust(w) || steps[m] == SeeCancel(w)
    ensures var d := c.todo[states[m].workers[w].i];
            d.id in states[n].table && states[n].table[d.id] == Rec(d.hash, Failed, [], NO_TRANSFORM, w)
  {
    var i := states[m].workers[w].i;
    assert states[m + 1] == Next(run, c, states[m], steps[m]);
    RecordFinal(run, c, states, steps, start, m + 1, n, i);
  }

  /** The outside may cancel or ask for a restart at any moment, and an attempt may end in any way. */
  lemma AnythingMayHappen(c: Config, s: State, id: string, w: nat)
    requires Valid(c) && |s.chans| == |s.workers| == c.workers
    ensures Enabled(c, s, Cancel) <==> !s.cancelled
    ensures Enabled(c, s, RequestRestart(id)) <==> s.budget > 0 && id !in s.pending
    ensures w < c.workers && s.workers[w].InAttempt? && s.workers[w].i < |c.todo| ==>
              Enabled(c, s, AttemptFails(w)) && Enabled(c, s, AttemptCompletes(w, Success)) && Enabled(c, s, AttemptCompletes(w, Recovered))
  {
  }

  /** What a worker does at the top of its loop: a cancel comes first, then a restart, then the count of tries. */
  lemma LoopOrder(c: Config, s: State, w: nat)
    requires Valid(c) && |s.chans| == |s.workers| == c.workers
    requires w < c.workers && s.workers[w].AtCheck? && s.workers[w].i < |c.todo|
    ensures Enabled(c, s, SeeCancel(w)) <==> s.cancelled
    ensures Enabled(c, s, SeeRestart(w)) <==> !s.cancelled && c.todo[s.workers[w].i].id in s.pending
    ensures Enabled(c, s, Begin(w)) || Enabled(c, s, Exhaust(w)) <==> !s.cancelled && c.todo[s.workers[w].i].id !in s.pending
    ensures !(Enabled(c, s, Begin(w)) && Enabled(c, s, Exhaust(w)))
  {
  }

  lemma CancelStays(run: Program, c: Config, s: State, step: Step)
    requires Valid(c) && |s.chans| == |s.workers| == c.workers && Enabled(c, s, step) && (s.cancelled || step.Cancel?)
    ensures Next(run, c, s, step).cancelled
  {
  }

  /** A cancel is for good, and no attempt begins after it. */
  lemma {:induction false} NoWorkAfterCancel(run: Program, c: Config, states: seq<State>, steps: seq<Step>, m: nat, n: nat)
    requires IsRun(run, c, states, steps) && m < n < |states| && steps[m].Cancel?
    ensures states[n].cancelled && (n < |steps| ==> !steps[n].Begin? && !steps[n].SeeRestart?)
  {
    if m + 1 < n {
      NoWorkAfterCancel(run, c, states, steps, m, n - 1);
    }
    CancelStays(run, c, states[n - 1], steps[n - 1]);
    if n < |steps| {
      assert Enabled(c, states[n], steps[n]);
    }
  }

  lemma RequestStays(run: Program, c: Config, s: State, step: Step, id: string)
    requires Valid(c) && |s.chans| == |s.workers| == c.workers && Enabled(c, s, step)
    requires id in s.pending || step == RequestRestart(id)
    requires step.SeeRestart? ==> c.todo[s.workers[step.w].i].id != id
    ensures id in Next(run, c, s, step).pending
  {
  }

  /** A restart request waits until its own datum's worker answers it. */
  lemma {:induction false} RestartWaits(run: Program, c: Config, states: seq<State>, steps: seq<Step>, m: nat, n: nat, id: string)
    requires IsRun(run, c, states, steps) && m < n < |states| && steps[m] == RequestRestart(id)
    requires forall k :: m < k < n && steps[k].SeeRestart? ==> c.todo[states[k].workers[steps[k].w].i].id != id
    ensures id in states[n].pending
  {
    if m + 1 < n {
      RestartWaits(run, c, states, steps, m, n - 1, id);
    }
    RequestStays(run, c, states[n - 1], steps[n - 1], id);
  }

  // ---- progress ----

  /** No deadlock: until the pool has drained, the coordinator or a worker can step. */
  lemma NeverStuck(run: Program, c: Config, s: State, start: Table)
    requires Inv(run, c, s, start) && !Finished(c, s)
    ensures exists step: Step :: !step.Cancel? && !step.RequestRestart? && Enabled(c, s, step)
  {
    if w :| 0 <= w < c.workers && Busy(s.workers[w]) {
      assert WorkerOk(c, s, w);
      var step := WorkerStep(c, s, w);
      assert Enabled(c, s, step);
    } else if w :| 0 <= w < c.workers && s.chans[w] != [] {
      assert WorkerOk(c, s, w) && ChannelOk(c, s, w);
      assert Enabled(c, s, Take(w));
    } else if s.fed < |c.todo| {
      assert s.chans[Home(c, s.fed)] == [];
      assert Enabled(c, s, Feed);
    } else if !s.closed {
      assert Enabled(c, s, Close);
    } else {
      var w :| 0 <= w < c.workers && !s.workers[w].Ended?;
      assert Enabled(c, s, End(w));
    }
  }

  // ---- termination ----

  /** Steps datum `i` may still need, if nobody asks for a restart. */
  function Weight(c: Config, s: State, i: nat): nat
    requires c.workers > 0 && |s.workers| == c.workers
  {
    var w := s.workers[Home(c, i)];
    if i in s.done then 0
    else if i >= s.fed then 2 * c.tries + 6
    else if !Flies(w, i) then 2 * c.tries + 5
    else if w.AtCheck? then (if w.attempt <= c.tries then 2 * (c.tries + 1 - w.attempt) + 2 else 2)
    else if w.attempt <= c.tries then 2 * (c.tries + 1 - w.attempt) + 1
    else 1
  }

  function Work(c: Config, s: State, n: nat): nat
    requires c.workers > 0 && |s.workers| == c.workers
  {
    if n == 0 then 0 else Work(c, s, n - 1) + Weight(c, s, n - 1)
  }

  function Awake(ws: seq<Worker>): nat {
    if ws == [] then 0 else Awake(ws[..|ws| - 1]) + if ws[|ws| - 1].Ended? then 0 else 1
  }

  /** What the outside can still do: one cancel, and the restart requests not yet answered. */
  function Outside(s: State): nat {
    2 * s.budget + |s.pending| + if s.cancelled then 0 else 1
  }

  function Open(s: State): nat {
    Awake(s.workers) + if s.closed then 0 else 1
  }

  lemma {:induction false} WorkMoves(c: Config, s: State, s': State, n: nat, k: nat)
    requires c.workers > 0 && |s.workers| == |s'.workers| == c.workers
    requires forall i :: 0 <= i < n && i != k ==> Weight(c, s', i) == Weight(c, s, i)
    requires k < n ==> Weight(c, s', k) < Weight(c, s, k)
    ensures if k < n then Work(c, s', n) < Work(c, s, n) else Work(c, s', n) == Work(c, s, n)
  {
    if n > 0 {
      WorkMoves(c, s, s', n - 1, k);
    }
  }

  lemma {:induction false} OneSleeps(ws: seq<Worker>, w: nat)
    requires w < |ws| && !ws[w].Ended?
    ensures Awake(ws[w := Ended]) < Awake(ws)
  {
    var init := ws[..|ws| - 1];
    if w == |ws| - 1 {
      assert ws[w := Ended][..w] == init;
    } else {
      assert ws[w := Ended][..|ws| - 1] == init[w := Ended];
      OneSleeps(init, w);
    }
  }

  lemma FeedAdvances(run: Program, c: Config, s: State)
    requires Valid(c) && Partition(c, s) && Enabled(c, s, Feed)
    ensures Work(c, Next(run, c, s, Feed), |c.todo|) < Work(c, s, |c.todo|)
  {
    assert WorkerOk(c, s, Home(c, s.fed));
    WorkMoves(c, s, Next(run, c, s, Feed), |c.todo|, s.fed);
  }

  /** Worker `w` moves datum `k` closer to settled. */
  lemma DatumAdvances(c: Config, s: State, s': State, w: nat, next: Worker, k: nat)
    requires Valid(c) && |s.workers| == c.workers && w < c.workers && k < |c.todo|
    requires s'.fed == s.fed && s'.workers == s.workers[w := next]
    requires s'.done == s.done || s'.done == s.done + {k}
    requires forall i :: i != k ==> !Flies(s.workers[w], i) && !Flies(next, i)
    requires Weight(c, s', k) < Weight(c, s, k)
    ensures Work(c, s', |c.todo|) < Work(c, s, |c.todo|)
  {
    forall i | 0 <= i < |c.todo| && i != k
      ensures Weight(c, s', i) == Weight(c, s, i)
    {
      assert !Flies(s.workers[w], i) && !Flies(next, i);
    }
    WorkMoves(c, s, s', |c.todo|, k);
  }

  lemma WorkerAdvances(run: Program, c: Config, s: State, start: Table, step: Step)
    requires Inv(run, c, s, start) && Enabled(c, s, step)
    requires step.SeeCancel? || step.Exhaust? || step.Begin? || step.AttemptFails? || step.AttemptCompletes?
    ensures Work(c, Next(run, c, s, step), |c.todo|) < Work(c, s, |c.todo|)
  {
    var s' := Next(run, c, s, step);
    assert WorkerOk(c, s, step.w);
    DatumAdvances(c, s, s', step.w, s'.workers[step.w], s.workers[step.w].i);
  }

  lemma TakeAdvances(run: Program, c: Config, s: State, start: Table, w: nat)
    requires Inv(run, c, s, start) && Enabled(c, s, Take(w))
    ensures Work(c, Next(run, c, s, Take(w)), |c.todo|) < Work(c, s, |c.todo|)
  {
    var s' := Next(run, c, s, Take(w));
    assert ChannelOk(c, s, w);
    DatumAdvances(c, s, s', w, s'.workers[w], s.chans[w][0]);
  }

  /** Every step, the environment's included, lowers a lexicographic measure: no run goes on forever. */
  lemma EveryStepDecreases(run: Program, c: Config, s: State, start: Table, step: Step)
    requires Inv(run, c, s, start) && Enabled(c, s, step)
    ensures var s' := Next(run, c, s, step);
            var n := |c.todo|;
            || Outside(s') < Outside(s)
            || (Outside(s') == Outside(s) && Work(c, s', n) < Work(c, s, n))
            || (Outside(s') == Outside(s) && Work(c, s', n) == Work(c, s, n) && Open(s') < Open(s))
  {
    var s' := Next(run, c, s, step);
    match step
    case Cancel =>
    case RequestRestart(_) =>
    case SeeRestart(_) =>
    case Close => WorkMoves(c, s, s', |c.todo|, |c.todo|);
    case End(w) =>
      WorkMoves(c, s, s', |c.todo|, |c.todo|);
      OneSleeps(s.workers, w);
    case Feed => FeedAdvances(run, c, s);
    case Take(w) => TakeAdvances(run, c, s, start, w);
    case _ => WorkerAdvances(run, c, s, start, step);
  }
}
