/**
  Flushing a set of commits: the jobs downstream of every one of them. The
  program walks an index from commits to consuming jobs with a queue and a
  cursor; the definition it refines is a least fixpoint over the job graph.
 */
module FlushClosure {
  import opened Sequences

  type Id = string
  type Commit = string

  const NONE: Commit := ""

  datatype Job = Job(id: Id, inputs: seq<Commit>, output: Commit, stats: Commit)

  // ---- the plain definition ----

  /** `b` consumes what `a` produced, and produces an output itself. */
  predicate Feeds(a: Job, b: Job) {
    && b.output != NONE
    && ((a.output != NONE && a.output in b.inputs) || (a.stats != NONE && a.stats in b.inputs))
  }

  ghost predicate Closed(jobs: seq<Job>, start: Commit, s: set<Job>) {
    && (forall j :: j in jobs && start in j.inputs ==> j in s)
    && (forall a, b :: a in s && b in jobs && Feeds(a, b) ==> b in s)
  }

  /** Membership in the least closed set: the jobs downstream of `start`. */
  ghost predicate Downstream(jobs: seq<Job>, start: Commit, j: Job) {
    forall s: set<Job> {:trigger Closed(jobs, start, s)} :: Closed(jobs, start, s) ==> j in s
  }

  ghost predicate Chain(jobs: seq<Job>, start: Commit, p: seq<Job>) {
    && |p| > 0 && (forall j <- p :: j in jobs)
    && start in p[0].inputs
    && (forall i :: 0 <= i < |p| - 1 ==> Feeds(p[i], p[i + 1]))
  }

  ghost predicate Reached(jobs: seq<Job>, start: Commit, j: Job) {
    exists p :: Chain(jobs, start, p) && p[|p| - 1] == j
  }

  lemma ReachedStep(jobs: seq<Job>, start: Commit, a: Job, b: Job)
    requires Reached(jobs, start, a) && b in jobs && Feeds(a, b)
    ensures Reached(jobs, start, b)
  {
    var p :| Chain(jobs, start, p) && p[|p| - 1] == a;
    var q := p + [b];
    assert Chain(jobs, start, q) && q[|q| - 1] == b;
  }

  lemma {:induction false} ChainInside(jobs: seq<Job>, start: Commit, p: seq<Job>, s: set<Job>)
    requires Chain(jobs, start, p) && Closed(jobs, start, s)
    ensures p[|p| - 1] in s
  {
    if |p| > 1 {
      var q := p[..|p| - 1];
      assert Chain(jobs, start, q);
      ChainInside(jobs, start, q, s);
      assert Feeds(q[|q| - 1], p[|p| - 1]);
    }
  }

  /** The fixpoint is reachability along consumption chains. */
  lemma DownstreamIsReachability(jobs: seq<Job>, start: Commit, j: Job)
    ensures Downstream(jobs, start, j) <==> Reached(jobs, start, j)
  {
    if Reached(jobs, start, j) {
      var p :| Chain(jobs, start, p) && p[|p| - 1] == j;
      forall s: set<Job> | Closed(jobs, start, s)
        ensures j in s
      {
        ChainInside(jobs, start, p, s);
      }
    }
    if Downstream(jobs, start, j) {
      var s := set k <- jobs | Reached(jobs, start, k);
      forall k | k in jobs && start in k.inputs
        ensures k in s
      {
        assert Chain(jobs, start, [k]);
      }
      forall a, b | a in s && b in jobs && Feeds(a, b)
        ensures b in s
      {
        ReachedStep(jobs, start, a, b);
      }
      assert Closed(jobs, start, s);
    }
  }

  // ---- the index ----

  ghost predicate UniqueIds(jobs: seq<Job>) {
    forall i, k :: 0 <= i < k < |jobs| ==> jobs[i].id != jobs[k].id
  }

  ghost predicate Named(byId: map<Id, Job>, jobs: seq<Job>) {
    && (forall id <- byId :: byId[id] in jobs && byId[id].id == id)
    && (forall j <- jobs :: j.id in byId && byId[j.id] == j)
  }

  ghost predicate Listed(byCommit: map<Commit, seq<Id>>, byId: map<Id, Job>) {
    forall c, id :: id in Get(byCommit, c) <==> id in byId && c in byId[id].inputs
  }

  method AddInputs(byCommit: map<Commit, seq<Id>>, j: Job) returns (r: map<Commit, seq<Id>>)
    ensures forall c, id :: id in Get(r, c) <==> id in Get(byCommit, c) || (id == j.id && c in j.inputs)
  {
    r := byCommit;
    for k := 0 to |j.inputs|
      invariant forall c, id :: id in Get(r, c) <==> id in Get(byCommit, c) || (id == j.id && c in j.inputs[..k])
    {
      var c := j.inputs[k];
      assert j.inputs[..k + 1] == j.inputs[..k] + [c];
      r := r[c := Get(r, c) + [j.id]];
    }
    assert j.inputs[..|j.inputs|] == j.inputs;
  }

  method Index(jobs: seq<Job>) returns (byId: map<Id, Job>, byCommit: map<Commit, seq<Id>>)
    requires UniqueIds(jobs)
    ensures Named(byId, jobs) && Listed(byCommit, byId)
  {
    byId, byCommit := map[], map[];
    for i := 0 to |jobs|
      invariant Named(byId, jobs[..i]) && Listed(byCommit, byId)
    {
      var j := jobs[i];
      assert jobs[..i + 1] == jobs[..i] + [j];
      assert j.id !in byId;
      byId := byId[j.id := j];
      byCommit := AddInputs(byCommit, j);
    }
    assert jobs[..|jobs|] == jobs;
  }

  // ---- one commit's walk ----

  datatype Walk = Walk(seen: set<Id>, ord: seq<Id>, queued: set<Commit>, queue: seq<Commit>)

  function Queue(w: Walk, c: Commit): Walk {
    if c != NONE && c !in w.queued then w.(queued := w.queued + {c}, queue := w.queue + [c]) else w
  }

  /** Marks the job and queues the commits it produced, each once. */
  function Enqueue(w: Walk, j: Job): Walk {
    if j.id in w.seen then w
    else Queue(Queue(w.(seen := w.seen + {j.id}, ord := w.ord + [j.id]), j.output), j.stats)
  }

  ghost predicate Tidy(w: Walk) {
    Distinct(w.ord) && Elements(w.ord) == w.seen && Distinct(w.queue) && Elements(w.queue) == w.queued
  }

  /** Produced by a job the walk has marked. */
  ghost predicate Made(byId: map<Id, Job>, seen: set<Id>, c: Commit) {
    exists id :: id in seen && id in byId && (byId[id].output == c || byId[id].stats == c)
  }

  ghost predicate Sound(jobs: seq<Job>, byId: map<Id, Job>, start: Commit, w: Walk) {
    && Tidy(w)
    && (forall id <- w.seen :: id in byId && Downstream(jobs, start, byId[id]))
    && (forall c <- w.queue :: c != NONE && Made(byId, w.seen, c))
    && (forall id <- w.seen :: (byId[id].output != NONE ==> byId[id].output in w.queued)
                            && (byId[id].stats != NONE ==> byId[id].stats in w.queued))
  }

  lemma MadeGrows(byId: map<Id, Job>, a: set<Id>, b: set<Id>, c: Commit)
    requires Made(byId, a, c) && a <= b
    ensures Made(byId, b, c)
  {
  }

  lemma EnqueueSound(jobs: seq<Job>, byId: map<Id, Job>, start: Commit, w: Walk, j: Job)
    requires Named(byId, jobs) && Sound(jobs, byId, start, w)
    requires j in jobs && Downstream(jobs, start, j)
    ensures var w' := Enqueue(w, j);
            Sound(jobs, byId, start, w') && w'.seen == w.seen + {j.id} && w.queue <= w'.queue
  {
    var w' := Enqueue(w, j);
    if j.id !in w.seen {
      assert Elements(w'.ord) == Elements(w.ord) + {j.id};
      forall c | c in w'.queue
        ensures c != NONE && Made(byId, w'.seen, c)
      {
        if c in w.queue {
          MadeGrows(byId, w.seen, w'.seen, c);
        } else {
          assert j.id in w'.seen && byId[j.id] == j;
        }
      }
    }
  }

  /** A consumer of a queued commit is downstream. */
  lemma ConsumerDownstream(jobs: seq<Job>, byId: map<Id, Job>, start: Commit, w: Walk, c: Commit, j: Job)
    requires Named(byId, jobs) && Sound(jobs, byId, start, w)
    requires c in w.queue && j in jobs && c in j.inputs && j.output != NONE
    ensures Downstream(jobs, start, j)
  {
    var id :| id in w.seen && id in byId && (byId[id].output == c || byId[id].stats == c);
    assert Feeds(byId[id], j);
  }

  ghost predicate ConsumersSeen(byId: map<Id, Job>, w: Walk, c: Commit) {
    forall id :: id in byId && c in byId[id].inputs && byId[id].output != NONE ==> id in w.seen
  }

  method EnqueueDirect(jobs: seq<Job>, byId: map<Id, Job>, byCommit: map<Commit, seq<Id>>, start: Commit) returns (w: Walk)
    requires Named(byId, jobs) && Listed(byCommit, byId)
    ensures Sound(jobs, byId, start, w)
    ensures forall j :: j in jobs && start in j.inputs ==> j.id in w.seen
  {
    w := Walk({}, [], {}, []);
    var direct := Get(byCommit, start);
    for i := 0 to |direct|
      invariant Sound(jobs, byId, start, w)
      invariant forall id <- direct[..i] :: id in w.seen
    {
      assert direct[..i + 1] == direct[..i] + [direct[i]];
      assert direct[i] in direct;
      EnqueueSound(jobs, byId, start, w, byId[direct[i]]);
      w := Enqueue(w, byId[direct[i]]);
    }
    assert direct[..|direct|] == direct;
  }

  method FollowOne(jobs: seq<Job>, byId: map<Id, Job>, byCommit: map<Commit, seq<Id>>, start: Commit, w: Walk, c: Commit)
    returns (w': Walk)
    requires Named(byId, jobs) && Listed(byCommit, byId)
    requires Sound(jobs, byId, start, w) && c in w.queue
    ensures Sound(jobs, byId, start, w')
    ensures w.seen <= w'.seen && w.queue <= w'.queue
    ensures ConsumersSeen(byId, w', c)
  {
    w' := w;
    var next := Get(byCommit, c);
    for i := 0 to |next|
      invariant Sound(jobs, byId, start, w')
      invariant w.seen <= w'.seen && w.queue <= w'.queue
      invariant forall id <- next[..i] :: id in byId && (byId[id].output != NONE ==> id in w'.seen)
    {
      assert next[..i + 1] == next[..i] + [next[i]];
      assert next[i] in next;
      var j := byId[next[i]];
      if j.output != NONE {
        ConsumerDownstream(jobs, byId, start, w', c, j);
        EnqueueSound(jobs, byId, start, w', j);
        w' := Enqueue(w', j);
      }
    }
    assert next[..|next|] == next;
  }

  lemma QueueFits(jobs: seq<Job>, byId: map<Id, Job>, start: Commit, w: Walk, all: set<Commit>)
    requires Named(byId, jobs) && Sound(jobs, byId, start, w)
    requires all == (set j <- jobs :: j.output) + (set j <- jobs :: j.stats)
    ensures |w.queue| <= |all|
  {
    DistinctSize(w.queue);
    assert forall c <- w.queue :: Made(byId, w.seen, c);
    SubsetSize(Elements(w.queue), all);
  }

  /** A finished walk has marked a closed set, hence the whole fixpoint. */
  lemma WalkComplete(jobs: seq<Job>, byId: map<Id, Job>, start: Commit, w: Walk)
    requires Named(byId, jobs) && Sound(jobs, byId, start, w)
    requires forall j :: j in jobs && start in j.inputs ==> j.id in w.seen
    requires forall i :: 0 <= i < |w.queue| ==> ConsumersSeen(byId, w, w.queue[i])
    ensures forall id <- byId :: id in w.seen <==> Downstream(jobs, start, byId[id])
  {
    var s := set id <- w.seen :: byId[id];
    forall a, b | a in s && b in jobs && Feeds(a, b)
      ensures b in s
    {
      var c := if a.output != NONE && a.output in b.inputs then a.output else a.stats;
      assert c in Elements(w.queue);
      var i :| 0 <= i < |w.queue| && w.queue[i] == c;
      assert ConsumersSeen(byId, w, w.queue[i]);
      assert b.id in w.seen;
    }
    assert Closed(jobs, start, s);
  }

  method Closure(jobs: seq<Job>, byId: map<Id, Job>, byCommit: map<Commit, seq<Id>>, start: Commit) returns (ord: seq<Id>)
    requires Named(byId, jobs) && Listed(byCommit, byId)
    ensures Distinct(ord)
    ensures forall id :: id in ord <==> id in byId && Downstream(jobs, start, byId[id])
  {
    var w := EnqueueDirect(jobs, byId, byCommit, start);
    ghost var all := (set j <- jobs :: j.output) + (set j <- jobs :: j.stats);
    var qpos := 0;
    while qpos < |w.queue|
      invariant qpos <= |w.queue|
      invariant Sound(jobs, byId, start, w)
      invariant forall j :: j in jobs && start in j.inputs ==> j.id in w.seen
      invariant forall i :: 0 <= i < qpos ==> ConsumersSeen(byId, w, w.queue[i])
      decreases |all| - qpos
    {
      QueueFits(jobs, byId, start, w, all);
      w := FollowOne(jobs, byId, byCommit, start, w, w.queue[qpos]);
      qpos := qpos + 1;
    }
    WalkComplete(jobs, byId, start, w);
    ord := w.ord;
    assert forall id :: id in ord <==> id in Elements(ord);
  }

  // ---- the intersection ----

  ghost predicate InAll(closures: seq<seq<Id>>, id: Id) {
    forall m :: 0 <= m < |closures| ==> id in closures[m]
  }

  /**
    The jobs downstream of every given commit, each once. An empty set of
    commits has no downstream jobs.
   */
  method DownstreamJobsSet(jobs: seq<Job>, commits: seq<Commit>) returns (out: seq<Job>)
    requires UniqueIds(jobs)
    ensures Distinct(out)
    ensures forall j :: j in out <==> commits != [] && j in jobs && forall c <- commits :: Downstream(jobs, c, j)
  {
    out := [];
    if commits == [] {
      return;
    }
    var byId, byCommit := Index(jobs);
    var closures: seq<seq<Id>> := [];
    for i := 0 to |commits|
      invariant |closures| == i && forall k :: 0 <= k < i ==> Distinct(closures[k])
      invariant forall k, id :: 0 <= k < i ==> (id in closures[k] <==> id in byId && Downstream(jobs, commits[k], byId[id]))
    {
      var ord := Closure(jobs, byId, byCommit, commits[i]);
      closures := closures + [ord];
    }
    var first := closures[0];
    for n := 0 to |first|
      invariant forall j <- out :: j in jobs && j.id in first[..n]
      invariant Distinct(out)
      invariant forall id <- first[..n] :: byId[id] in out <==> InAll(closures, id)
    {
      var id := first[n];
      assert first[..n + 1] == first[..n] + [id];
      assert id !in first[..n];
      assert id in closures[0];
      var ok := true;
      for k := 1 to |closures|
        invariant ok <==> forall m :: 0 <= m < k ==> id in closures[m]
      {
        if id !in closures[k] {
          ok := false;
        }
      }
      assert ok <==> InAll(closures, id);
      if ok {
        out := out + [byId[id]];
      }
    }
    assert first[..|first|] == first;
    forall j
      ensures j in out <==> j in jobs && forall c <- commits :: Downstream(jobs, c, j)
    {
      if j in jobs {
        assert InAll(closures, j.id) <==> forall k :: 0 <= k < |commits| ==> Downstream(jobs, commits[k], j);
      }
    }
  }
}
