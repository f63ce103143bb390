/**
  Event triggers: the derivation graph behind a pairing of input heads, the
  consistency test over its source commits, and the duplicate check made under
  the trigger mutex while jobs settle concurrently.
 */
module Trigger {
  import opened Sequences

  type Id = string

  const NONE: Id := ""

  datatype JobState = Queued | Running | Success | Failure | Killed

  datatype Job = Job(pipeline: string, state: JobState, inputs: seq<Id>, output: Id)

  datatype Commit = Commit(repo: string, branch: string)

  // ---- the derivation graph ----

  /** The first listed job that produced the commit. */
  function ByOutput(jobs: seq<Job>, c: Id): Option<Job> {
    if jobs == [] then None
    else if jobs[0].output == c then Some(jobs[0])
    else ByOutput(jobs[1..], c)
  }

  /** The producer is the first listed job with that output, and there is none only if no job has it. */
  lemma {:induction false} ByOutputFirst(jobs: seq<Job>, c: Id)
    ensures ByOutput(jobs, c).None? <==> forall j <- jobs :: j.output != c
    ensures ByOutput(jobs, c).Some? ==>
              exists k :: 0 <= k < |jobs| && jobs[k] == ByOutput(jobs, c).value && jobs[k].output == c
                       && forall i :: 0 <= i < k ==> jobs[i].output != c
  {
    if jobs != [] {
      assert jobs == [jobs[0]] + jobs[1..];
      if jobs[0].output == c {
        assert jobs[0] == ByOutput(jobs, c).value;
      } else {
        ByOutputFirst(jobs[1..], c);
        if ByOutput(jobs, c).Some? {
          var k :| 0 <= k < |jobs[1..]| && jobs[1..][k] == ByOutput(jobs[1..], c).value && jobs[1..][k].output == c
                   && forall i :: 0 <= i < k ==> jobs[1..][i].output != c;
          assert jobs[k + 1] == jobs[1..][k];
          assert forall i :: 0 < i < k + 1 ==> jobs[i] == jobs[1..][i - 1];
        }
      }
    }
  }

  function Sources(jobs: seq<Job>, c: Id): seq<Id> {
    match ByOutput(jobs, c)
    case Some(j) => j.inputs
    case None => []
  }

  predicate Leaf(jobs: seq<Job>, c: Id) {
    ByOutput(jobs, c).None?
  }

  ghost predicate DerivationPath(jobs: seq<Job>, p: seq<Id>) {
    |p| > 0 && forall i :: 0 <= i < |p| - 1 ==> p[i + 1] in Sources(jobs, p[i])
  }

  /** `x` is `c` or one of the commits `c` derives from, at any distance. */
  ghost predicate DerivesFrom(jobs: seq<Job>, c: Id, x: Id) {
    exists p :: DerivationPath(jobs, p) && p[0] == c && p[|p| - 1] == x
  }

  /** The source commits of `c`: what it derives from that no job produced. */
  ghost predicate SourceLeaf(jobs: seq<Job>, c: Id, x: Id) {
    DerivesFrom(jobs, c, x) && Leaf(jobs, x)
  }

  lemma DerivesSelf(jobs: seq<Job>, c: Id)
    ensures DerivesFrom(jobs, c, c)
  {
    assert DerivationPath(jobs, [c]);
  }

  lemma DerivesThrough(jobs: seq<Job>, c: Id, y: Id, x: Id)
    requires y in Sources(jobs, c) && DerivesFrom(jobs, y, x)
    ensures DerivesFrom(jobs, c, x)
  {
    var p :| DerivationPath(jobs, p) && p[0] == y && p[|p| - 1] == x;
    var q := [c] + p;
    assert forall i :: 0 < i < |q| ==> q[i] == p[i - 1];
    assert DerivationPath(jobs, q) && q[0] == c && q[|q| - 1] == x;
  }

  ghost predicate SourceClosed(jobs: seq<Job>, s: set<Id>) {
    forall x, y :: x in s && y in Sources(jobs, x) ==> y in s
  }

  lemma {:induction false} PathInside(jobs: seq<Job>, s: set<Id>, p: seq<Id>)
    requires DerivationPath(jobs, p) && SourceClosed(jobs, s) && p[0] in s
    ensures p[|p| - 1] in s
  {
    if |p| > 1 {
      PathInside(jobs, s, p[1..]);
    }
  }

  ghost predicate Covers(jobs: seq<Job>, all: set<Id>) {
    forall c, y :: y in Sources(jobs, c) ==> y in all
  }

  /** What a depth-first call adds: a set of new commits, closed up to what was seen. */
  ghost predicate Explored(jobs: seq<Job>, seen: set<Id>, seen': set<Id>, leaves: seq<Id>) {
    && seen <= seen'
    && (forall x, y :: x in seen' && x !in seen && y in Sources(jobs, x) ==> y in seen')
    && (forall x :: x in leaves <==> x in seen' && x !in seen && Leaf(jobs, x))
    && Distinct(leaves)
  }

  lemma ExploredThen(jobs: seq<Job>, a: set<Id>, b: set<Id>, c: set<Id>, l: seq<Id>, m: seq<Id>)
    requires Explored(jobs, a, b, l) && Explored(jobs, b, c, m)
    ensures Explored(jobs, a, c, l + m)
  {
    assert (forall x <- l :: x in b) && (forall x <- m :: x !in b);
    assert forall i :: 0 <= i < |m| ==> m[i] in m;
  }

  /**
    Expands a commit to its leaf sources. `seen` is shared along the recursion,
    so the walk ends on every job graph, cyclic ones included.
   */
  method Expand(jobs: seq<Job>, c: Id, seen: set<Id>, ghost all: set<Id>) returns (leaves: seq<Id>, seen': set<Id>)
    requires Covers(jobs, all) && c in all && seen <= all
    ensures Explored(jobs, seen, seen', leaves)
    ensures c in seen' && seen' <= all
    ensures forall x :: x in seen' && x !in seen ==> DerivesFrom(jobs, c, x)
    decreases |all - seen|
  {
    if c in seen {
      return [], seen;
    }
    seen' := seen + {c};
    DerivesSelf(jobs, c);
    var producer := ByOutput(jobs, c);
    if producer.None? {
      return [c], seen';
    }
    leaves := [];
    var ins := producer.value.inputs;
    SubsetSize(all - seen', all - seen);
    for i := 0 to |ins|
      invariant seen + {c} <= seen' <= all
      invariant Explored(jobs, seen + {c}, seen', leaves)
      invariant forall y <- ins[..i] :: y in seen'
      invariant forall x :: x in seen' && x !in seen ==> DerivesFrom(jobs, c, x)
    {
      assert ins[..i + 1] == ins[..i] + [ins[i]];
      assert ins[i] in Sources(jobs, c);
      SubsetSize(all - seen', all - (seen + {c}));
      ghost var before := seen';
      ghost var had := leaves;
      var more;
      more, seen' := Expand(jobs, ins[i], seen', all);
      leaves := leaves + more;
      ExploredThen(jobs, seen + {c}, before, seen', had, more);
      forall x | x in seen' && x !in before
        ensures DerivesFrom(jobs, c, x)
      {
        DerivesThrough(jobs, c, ins[i], x);
      }
    }
    assert ins[..|ins|] == ins;
  }

  ghost function AllInputs(jobs: seq<Job>): set<Id> {
    if jobs == [] then {} else Elements(jobs[0].inputs) + AllInputs(jobs[1..])
  }

  lemma {:induction false} InputCovered(jobs: seq<Job>, c: Id, y: Id)
    requires y in Sources(jobs, c)
    ensures y in AllInputs(jobs)
  {
    if jobs != [] && jobs[0].output != c {
      InputCovered(jobs[1..], c, y);
    }
  }

  lemma CoversAll(jobs: seq<Job>)
    ensures Covers(jobs, AllInputs(jobs))
  {
    forall c, y | y in Sources(jobs, c)
      ensures y in AllInputs(jobs)
    {
      InputCovered(jobs, c, y);
    }
  }

  /** The leaf sources of a commit, each once: exactly those the derivation graph reaches. */
  method ProvenanceOf(jobs: seq<Job>, c: Id) returns (leaves: seq<Id>)
    ensures Distinct(leaves)
    ensures forall x :: x in leaves <==> SourceLeaf(jobs, c, x)
  {
    ghost var all := {c} + AllInputs(jobs);
    CoversAll(jobs);
    var seen;
    leaves, seen := Expand(jobs, c, {}, all);
    assert SourceClosed(jobs, seen);
    forall x | DerivesFrom(jobs, c, x)
      ensures x in seen
    {
      var p :| DerivationPath(jobs, p) && p[0] == c && p[|p| - 1] == x;
      PathInside(jobs, seen, p);
    }
  }

  // ---- pairing consistency ----

  /** A stored source commit behind some nonempty head. */
  ghost predicate BehindHeads(jobs: seq<Job>, commits: map<Id, Commit>, heads: seq<Id>, x: Id) {
    x in commits && exists h :: h in heads && h != NONE && SourceLeaf(jobs, h, x)
  }

  /** No two source commits behind the heads are different revisions of one branch. */
  ghost predicate Consistent(jobs: seq<Job>, commits: map<Id, Commit>, heads: seq<Id>) {
    forall x, y ::
      BehindHeads(jobs, commits, heads, x) && BehindHeads(jobs, commits, heads, y) && commits[x] == commits[y] ==> x == y
  }

  /** Repository names hold no separator, as the store's name check demands. */
  ghost predicate ValidNames(commits: map<Id, Commit>) {
    forall c <- commits :: '/' !in commits[c].repo
  }

  function Key(c: Commit): string {
    c.repo + "/" + c.branch
  }

  lemma KeyInjective(a: Commit, b: Commit)
    requires '/' !in a.repo && '/' !in b.repo
    ensures Key(a) == Key(b) <==> a == b
  {
    if Key(a) == Key(b) {
      var n, m := |a.repo|, |b.repo|;
      assert Key(a)[n] == '/' && Key(b)[m] == '/';
      assert forall i :: 0 <= i < n ==> Key(a)[i] == a.repo[i] && Key(a)[i] != '/';
      assert forall i :: 0 <= i < m ==> Key(b)[i] == b.repo[i] && Key(b)[i] != '/';
      assert a.repo == Key(a)[..n] && b.repo == Key(b)[..m];
      assert a.branch == Key(a)[n + 1..] && b.branch == Key(b)[m + 1..];
    }
  }

  /** `sources` holds, per branch key, the one revision met so far among `met`. */
  ghost predicate Recorded(commits: map<Id, Commit>, met: set<Id>, sources: map<string, Id>) {
    && (forall x :: x in met && x in commits ==> Key(commits[x]) in sources && sources[Key(commits[x])] == x)
    && (forall k <- sources :: sources[k] in met && sources[k] in commits && Key(commits[sources[k]]) == k)
  }

  /** Adds one head's leaves; fails on the first branch met at another revision. */
  method Record(commits: map<Id, Commit>, leaves: seq<Id>, sources: map<string, Id>, ghost met: set<Id>)
    returns (ok: bool, sources': map<string, Id>)
    requires ValidNames(commits) && Recorded(commits, met, sources)
    ensures ok ==> Recorded(commits, met + Elements(leaves), sources')
    ensures !ok ==> exists x, y :: x in met + Elements(leaves) && y in leaves && x in commits && y in commits
                                && x != y && commits[x] == commits[y]
  {
    sources' := sources;
    for i := 0 to |leaves|
      invariant Recorded(commits, met + Elements(leaves[..i]), sources')
    {
      var leaf := leaves[i];
      assert leaves[..i + 1] == leaves[..i] + [leaf];
      assert Elements(leaves[..i + 1]) == Elements(leaves[..i]) + {leaf};
      if leaf in commits {
        var k := Key(commits[leaf]);
        if k in sources' && sources'[k] != leaf {
          KeyInjective(commits[sources'[k]], commits[leaf]);
          assert sources'[k] in met + Elements(leaves);
          return false, sources';
        }
        sources' := sources'[k := leaf];
      }
    }
    assert leaves[..|leaves|] == leaves;
    return true, sources';
  }

  /** True exactly when the heads' source commits agree on every branch. */
  method PairingConsistent(jobs: seq<Job>, commits: map<Id, Commit>, heads: seq<Id>) returns (ok: bool)
    requires ValidNames(commits)
    ensures ok <==> Consistent(jobs, commits, heads)
  {
    var sources := map[];
    ghost var met := {};
    for i := 0 to |heads|
      invariant Recorded(commits, met, sources)
      invariant forall x :: x in met <==> exists h :: h in heads[..i] && h != NONE && SourceLeaf(jobs, h, x)
    {
      var h := heads[i];
      assert heads[..i + 1] == heads[..i] + [h];
      if h != NONE {
        var leaves := ProvenanceOf(jobs, h);
        var good;
        good, sources := Record(commits, leaves, sources, met);
        if !good {
          ghost var x, y :| x in met + Elements(leaves) && y in leaves && x in commits && y in commits
                         && x != y && commits[x] == commits[y];
          assert h in heads && forall g <- heads[..i] :: g in heads;
          assert BehindHeads(jobs, commits, heads, x) && BehindHeads(jobs, commits, heads, y);
          return false;
        }
        met := met + Elements(leaves);
      }
    }
    assert heads[..|heads|] == heads;
    forall x, y | BehindHeads(jobs, commits, heads, x) && BehindHeads(jobs, commits, heads, y) && commits[x] == commits[y]
      ensures x == y
    {
      assert x in met && y in met;
    }
    return true;
  }

  // ---- the duplicate check ----

  /** The job has not settled. */
  predicate Active(j: Job) {
    j.state !in {Success, Failure, Killed}
  }

  ghost function InputSet(heads: seq<Id>): set<Id> {
    set h <- heads | h != NONE
  }

  /** Some unsettled job of the pipeline consumes exactly these inputs. */
  ghost predicate Busy(jobs: seq<Job>, pipeline: string, ins: set<Id>) {
    exists j :: j in jobs && j.pipeline == pipeline && Active(j) && Elements(j.inputs) == ins
  }

  ghost predicate WellFormed(jobs: seq<Job>) {
    forall j <- jobs :: Distinct(j.inputs) && NONE !in j.inputs
  }

  /** A record's distinct inputs all lie in a set of the same size exactly when they are that set. */
  lemma SameInputs(ins: seq<Id>, s: set<Id>)
    requires Distinct(ins)
    ensures |ins| == |s| && (forall x <- ins :: x in s) <==> Elements(ins) == s
  {
    DistinctSize(ins);
    if |ins| == |s| && (forall x <- ins :: x in s) {
      SubsetSize(Elements(ins), s);
    }
  }

  method HasRunningJobWithInputs(jobs: seq<Job>, pipeline: string, heads: seq<Id>) returns (found: bool)
    requires WellFormed(jobs)
    ensures found <==> Busy(jobs, pipeline, InputSet(heads))
  {
    var ins := set h <- heads | h != NONE;
    for i := 0 to |jobs|
      invariant !Busy(jobs[..i], pipeline, ins)
    {
      var j := jobs[i];
      assert jobs[..i + 1] == jobs[..i] + [j];
      SameInputs(j.inputs, ins);
      if j.pipeline == pipeline && (j.state == Running || j.state == Queued) && |j.inputs| == |ins| {
        var all := true;
        for k := 0 to |j.inputs|
          invariant all <==> forall x <- j.inputs[..k] :: x in ins
        {
          assert j.inputs[..k + 1] == j.inputs[..k] + [j.inputs[k]];
          if j.inputs[k] !in ins {
            all := false;
          }
        }
        assert j.inputs[..|j.inputs|] == j.inputs;
        if all {
          assert j in jobs;
          return true;
        }
      }
    }
    assert jobs[..|jobs|] == jobs;
    return false;
  }

  /** A new record's inputs: the nonempty heads, each once, in side order. */
  function NewInputs(heads: seq<Id>): (r: seq<Id>)
    ensures Distinct(r) && NONE !in r && Elements(r) == InputSet(heads)
  {
    if heads == [] then []
    else
      var r := NewInputs(heads[..|heads| - 1]);
      var h := heads[|heads| - 1];
      assert heads == heads[..|heads| - 1] + [h];
      assert InputSet(heads) == InputSet(heads[..|heads| - 1]) + if h != NONE then {h} else {};
      if h != NONE && h !in r then assert Elements(r + [h]) == Elements(r) + {h}; r + [h]
      else assert h in r || h == NONE; r
  }

  /** The inputs are in side order: each stands behind those whose head comes before its own. */
  lemma {:induction false} NewInputsOrder(heads: seq<Id>, i: nat, j: nat)
    requires i < j < |NewInputs(heads)|
    ensures exists a :: 0 <= a < |heads| && heads[a] == NewInputs(heads)[i] && NewInputs(heads)[j] !in heads[..a + 1]
  {
    var init := heads[..|heads| - 1];
    var r := NewInputs(init);
    if j < |r| {
      NewInputsOrder(init, i, j);
      var a :| 0 <= a < |init| && init[a] == r[i] && r[j] !in init[..a + 1];
      assert heads[a] == init[a] && heads[..a + 1] == init[..a + 1];
    } else {
      var h := heads[|heads| - 1];
      assert NewInputs(heads) == r + [h] && h !in r && h != NONE;
      assert h in init ==> h in InputSet(init);
      assert r[i] in Elements(r);
      var a :| 0 <= a < |init| && init[a] == r[i];
      assert heads[a] == init[a] && heads[..a + 1] == init[..a + 1];
    }
  }

  function NewRecord(pipeline: string, heads: seq<Id>): Job {
    Job(pipeline, Queued, NewInputs(heads), NONE)
  }

  /** No two unsettled jobs of one pipeline consume the same inputs. */
  ghost predicate OnePerPairing(jobs: seq<Job>) {
    forall i, k :: 0 <= i < k < |jobs| && Active(jobs[i]) && Active(jobs[k]) && jobs[i].pipeline == jobs[k].pipeline ==>
      Elements(jobs[i].inputs) != Elements(jobs[k].inputs)
  }

  lemma RecordKeeps(jobs: seq<Job>, pipeline: string, heads: seq<Id>)
    requires WellFormed(jobs) && !Busy(jobs, pipeline, InputSet(heads))
    ensures WellFormed([NewRecord(pipeline, heads)] + jobs)
    ensures OnePerPairing(jobs) ==> OnePerPairing([NewRecord(pipeline, heads)] + jobs)
  {
    var more := [NewRecord(pipeline, heads)] + jobs;
    assert forall i :: 0 < i < |more| ==> more[i] == jobs[i - 1] && jobs[i - 1] in jobs;
  }

  /** A recorded job refuses the next trigger for its pairing. */
  lemma RecordBlocks(jobs: seq<Job>, pipeline: string, heads: seq<Id>)
    ensures Busy([NewRecord(pipeline, heads)] + jobs, pipeline, InputSet(heads))
  {
    var j := NewRecord(pipeline, heads);
    assert j in [j] + jobs && Active(j) && Elements(j.inputs) == InputSet(heads);
  }

  class Daemon {
    var jobs: seq<Job>
    var commits: map<Id, Commit>

    constructor (commits: map<Id, Commit>)
      ensures this.commits == commits && jobs == []
    {
      this.commits := commits;
      jobs := [];
    }

    /** The section under the trigger mutex: check, pair, record. */
    method TriggerPairing(pipeline: string, heads: seq<Id>) returns (spawned: bool)
      requires WellFormed(jobs) && ValidNames(commits)
      modifies this`jobs
      ensures spawned <==> !Busy(old(jobs), pipeline, InputSet(heads)) && Consistent(old(jobs), commits, heads)
      ensures jobs == if spawned then [NewRecord(pipeline, heads)] + old(jobs) else old(jobs)
      ensures WellFormed(jobs)
      ensures OnePerPairing(old(jobs)) ==> OnePerPairing(jobs)
      ensures spawned ==> Busy(jobs, pipeline, InputSet(heads))
    {
      var busy := HasRunningJobWithInputs(jobs, pipeline, heads);
      if busy {
        return false;
      }
      var ok := PairingConsistent(jobs, commits, heads);
      if !ok {
        return false;
      }
      RecordKeeps(jobs, pipeline, heads);
      RecordBlocks(jobs, pipeline, heads);
      jobs := [NewRecord(pipeline, heads)] + jobs;
      return true;
    }
  }

  // ---- every interleaving of triggers with the rest of the daemon ----

  /** How far the holder of the trigger mutex has come. */
  datatype Lock =
    | Free
    | Checked(pipeline: string, heads: seq<Id>)   // no duplicate found
    | Paired(pipeline: string, heads: seq<Id>)    // found consistent

  datatype State = State(jobs: seq<Job>, commits: map<Id, Commit>, lock: Lock)

  datatype Step =
    | Check(pipeline: string, heads: seq<Id>)
    | Pair
    | Save
    | Settle(k: nat, to: Job)             // a job's own record moves on
    | Forget(k: nat)                      // a job record is deleted
    | Write(commits: map<Id, Commit>)     // the commit store changes

  ghost predicate Enabled(s: State, step: Step) {
    match step
    case Check(_, _) => s.lock.Free?
    case Pair => s.lock.Checked?
    case Save => s.lock.Paired?
    case Settle(k, to) =>
      k < |s.jobs| && to.pipeline == s.jobs[k].pipeline && to.inputs == s.jobs[k].inputs && (Active(to) ==> Active(s.jobs[k]))
    case Forget(k) => k < |s.jobs|
    case Write(_) => true
  }

  ghost function Next(s: State, step: Step): State
    requires Enabled(s, step)
  {
    match step
    case Check(p, heads) => if Busy(s.jobs, p, InputSet(heads)) then s else s.(lock := Checked(p, heads))
    case Pair =>
      s.(lock := if Consistent(s.jobs, s.commits, s.lock.heads) then Paired(s.lock.pipeline, s.lock.heads) else Free)
    case Save => s.(jobs := [NewRecord(s.lock.pipeline, s.lock.heads)] + s.jobs, lock := Free)
    case Settle(k, to) => s.(jobs := s.jobs[k := to])
    case Forget(k) => s.(jobs := s.jobs[..k] + s.jobs[k + 1..])
    case Write(commits) => s.(commits := commits)
  }

  /** The duplicate check stays true until the record is saved: others can only settle. */
  ghost predicate Inv(s: State) {
    && WellFormed(s.jobs)
    && OnePerPairing(s.jobs)
    && (!s.lock.Free? ==> !Busy(s.jobs, s.lock.pipeline, InputSet(s.lock.heads)))
  }

  lemma FewerKeeps(jobs: seq<Job>, k: nat)
    requires k < |jobs| && WellFormed(jobs) && OnePerPairing(jobs)
    ensures var less := jobs[..k] + jobs[k + 1..];
            WellFormed(less) && OnePerPairing(less) && forall j <- less :: j in jobs
  {
    var less := jobs[..k] + jobs[k + 1..];
    assert forall i :: 0 <= i < |less| ==> less[i] == jobs[if i < k then i else i + 1];
  }

  lemma SettleKeeps(s: State, k: nat, to: Job)
    requires Inv(s) && Enabled(s, Settle(k, to))
    ensures Inv(Next(s, Settle(k, to)))
  {
    var s' := Next(s, Settle(k, to));
    assert s.jobs[k] in s.jobs;
    forall j | j in s'.jobs && Active(j)
      ensures exists i :: i in s.jobs && Active(i) && i.pipeline == j.pipeline && i.inputs == j.inputs
    {
      if j !in s.jobs {
        assert j == to;
      }
    }
  }

  lemma StepKeeps(s: State, step: Step)
    requires Inv(s) && Enabled(s, step)
    ensures Inv(Next(s, step))
  {
    match step
    case Save => RecordKeeps(s.jobs, s.lock.pipeline, s.lock.heads);
    case Settle(k, to) => SettleKeeps(s, k, to);
    case Forget(k) => FewerKeeps(s.jobs, k);
    case _ =>
  }

  ghost predicate IsRun(run: seq<State>, steps: seq<Step>) {
    && |run| == |steps| + 1
    && run[0].jobs == [] && run[0].lock.Free?
    && (forall i :: 0 <= i < |steps| ==> Enabled(run[i], steps[i]) && run[i + 1] == Next(run[i], steps[i]))
  }

  /**
    Over every interleaving, no two unsettled jobs of one pipeline have the
    same input set.
   */
  lemma {:induction false} NeverTwoForOnePairing(run: seq<State>, steps: seq<Step>, n: nat)
    requires IsRun(run, steps) && n < |run|
    ensures Inv(run[n]) && OnePerPairing(run[n].jobs)
  {
    if n > 0 {
      NeverTwoForOnePairing(run, steps, n - 1);
      StepKeeps(run[n - 1], steps[n - 1]);
    }
  }

  lemma Extend(run: seq<State>, steps: seq<Step>, step: Step) returns (run': seq<State>, steps': seq<Step>)
    requires IsRun(run, steps) && Enabled(run[|run| - 1], step)
    ensures IsRun(run', steps') && run' == run + [Next(run[|run| - 1], step)] && steps' == steps + [step]
  {
    run', steps' := run + [Next(run[|run| - 1], step)], steps + [step];
    forall i | 0 <= i < |steps'|
      ensures Enabled(run'[i], steps'[i]) && run'[i + 1] == Next(run'[i], steps'[i])
    {
      if i < |steps| {
        assert run'[i] == run[i] && run'[i + 1] == run[i + 1] && steps'[i] == steps[i];
      }
    }
  }

  /** From any state with the mutex free, a pairing that is new and consistent goes through, and is then refused. */
  lemma TriggerGoesThrough(run: seq<State>, steps: seq<Step>, p: string, heads: seq<Id>) returns (run': seq<State>, steps': seq<Step>)
    requires IsRun(run, steps) && run[|run| - 1].lock.Free?
    requires !Busy(run[|run| - 1].jobs, p, InputSet(heads)) && Consistent(run[|run| - 1].jobs, run[|run| - 1].commits, heads)
    ensures IsRun(run', steps') && run <= run' && steps' == steps + [Check(p, heads), Pair, Save]
    ensures var s, s' := run[|run| - 1], run'[|run'| - 1];
            && |s'.jobs| == |s.jobs| + 1 && s'.jobs[1..] == s.jobs && s'.lock.Free?
            && s'.jobs[0].pipeline == p && s'.jobs[0].state == Queued && s'.jobs[0].output == NONE
            && s'.jobs[0].inputs == NewInputs(heads) && Busy(s'.jobs, p, InputSet(heads))
  {
    run', steps' := Extend(run, steps, Check(p, heads));
    run', steps' := Extend(run', steps', Pair);
    run', steps' := Extend(run', steps', Save);
    RecordBlocks(run[|run| - 1].jobs, p, heads);
  }

  /** When the one unsettled job of a pairing settles, or its record goes, the pairing can be triggered again. */
  lemma SettledFrees(s: State, k: nat, to: Job)
    requires Inv(s) && k < |s.jobs| && Active(s.jobs[k])
    requires to.pipeline == s.jobs[k].pipeline && to.inputs == s.jobs[k].inputs && !Active(to)
    ensures Enabled(s, Settle(k, to)) && !Busy(Next(s, Settle(k, to)).jobs, s.jobs[k].pipeline, Elements(s.jobs[k].inputs))
    ensures Enabled(s, Forget(k)) && !Busy(Next(s, Forget(k)).jobs, s.jobs[k].pipeline, Elements(s.jobs[k].inputs))
  {
    var j := s.jobs[k];
    forall i | 0 <= i < |s.jobs| && i != k
      ensures !(s.jobs[i].pipeline == j.pipeline && Active(s.jobs[i]) && Elements(s.jobs[i].inputs) == Elements(j.inputs))
    {
      assert i < k || k < i;
    }
    var less := s.jobs[..k] + s.jobs[k + 1..];
    assert forall i :: 0 <= i < |less| ==> less[i] == s.jobs[if i < k then i else i + 1];
  }

  /** A store write is what later pairings are judged by. */
  lemma WriteShows(s: State, commits: map<Id, Commit>)
    ensures Enabled(s, Write(commits)) && Next(s, Write(commits)) == s.(commits := commits)
  {
  }

  // ---- consistent when recorded ----

  /** Settling a job that keeps its output leaves every commit's producer with the same inputs. */
  lemma {:induction false} SettleKeepsSources(jobs: seq<Job>, k: nat, to: Job, c: Id)
    requires k < |jobs| && to.inputs == jobs[k].inputs && to.output == jobs[k].output
    ensures Sources(jobs[k := to], c) == Sources(jobs, c) && (Leaf(jobs[k := to], c) <==> Leaf(jobs, c))
  {
    if k > 0 && jobs[0].output != c {
      assert jobs[k := to][1..] == jobs[1..][k - 1 := to];
      SettleKeepsSources(jobs[1..], k - 1, to, c);
    } else if k == 0 {
      assert jobs[k := to][1..] == jobs[1..];
    }
  }

  lemma {:induction false} SettleOther(jobs: seq<Job>, k: nat, to: Job, c: Id)
    requires k < |jobs| && c != jobs[k].output && c != to.output
    ensures ByOutput(jobs[k := to], c) == ByOutput(jobs, c)
  {
    if k > 0 {
      assert jobs[k := to][1..] == jobs[1..][k - 1 := to];
      if jobs[0].output != c {
        SettleOther(jobs[1..], k - 1, to, c);
      }
    } else {
      assert jobs[k := to][1..] == jobs[1..];
    }
  }

  lemma {:induction false} ForgetOther(jobs: seq<Job>, k: nat, c: Id)
    requires k < |jobs| && c != jobs[k].output
    ensures ByOutput(jobs[..k] + jobs[k + 1..], c) == ByOutput(jobs, c)
  {
    var less := jobs[..k] + jobs[k + 1..];
    if k > 0 {
      assert less[1..] == jobs[1..][..k - 1] + jobs[1..][k..];
      if jobs[0].output != c {
        ForgetOther(jobs[1..], k - 1, c);
      }
    } else {
      assert less == jobs[1..];
    }
  }

  /** Some head derives from `x`. */
  ghost predicate Derived(jobs: seq<Job>, heads: seq<Id>, x: Id) {
    exists h :: h in heads && h != NONE && DerivesFrom(jobs, h, x)
  }

  lemma {:induction false} SourcesListed(jobs: seq<Job>, c: Id)
    requires WellFormed(jobs)
    ensures NONE !in Sources(jobs, c)
  {
    if jobs != [] {
      assert jobs[0] in jobs && forall j <- jobs[1..] :: j in jobs;
      SourcesListed(jobs[1..], c);
    }
  }

  lemma {:induction false} PathAvoidsNone(jobs: seq<Job>, p: seq<Id>)
    requires WellFormed(jobs) && DerivationPath(jobs, p) && p[0] != NONE
    ensures p[|p| - 1] != NONE
  {
    if |p| > 1 {
      SourcesListed(jobs, p[|p| - 2]);
    }
  }

  lemma NoneUnderived(jobs: seq<Job>, heads: seq<Id>)
    requires WellFormed(jobs)
    ensures !Derived(jobs, heads, NONE)
  {
    if Derived(jobs, heads, NONE) {
      var h :| h in heads && h != NONE && DerivesFrom(jobs, h, NONE);
      var p :| DerivationPath(jobs, p) && p[0] == h && p[|p| - 1] == NONE;
      PathAvoidsNone(jobs, p);
    }
  }

  /** Everything the heads derive from has the same producer's inputs, or none, in both listings. */
  ghost predicate SameBehind(jobs: seq<Job>, jobs': seq<Job>, heads: seq<Id>) {
    forall x :: Derived(jobs, heads, x) ==> Sources(jobs', x) == Sources(jobs, x) && (Leaf(jobs', x) <==> Leaf(jobs, x))
  }

  lemma PathSnoc(jobs: seq<Job>, p: seq<Id>)
    requires |p| > 1
    ensures DerivationPath(jobs, p) <==> DerivationPath(jobs, p[..|p| - 1]) && p[|p| - 1] in Sources(jobs, p[|p| - 2])
  {
    var init := p[..|p| - 1];
    assert forall i :: 0 <= i < |init| ==> init[i] == p[i];
    if DerivationPath(jobs, init) && p[|p| - 1] in Sources(jobs, p[|p| - 2]) {
      forall i | 0 <= i < |p| - 1
        ensures p[i + 1] in Sources(jobs, p[i])
      {
        assert i < |init| - 1 ==> init[i + 1] in Sources(jobs, init[i]);
      }
    }
  }

  lemma {:induction false} PathStays(jobs: seq<Job>, jobs': seq<Job>, heads: seq<Id>, p: seq<Id>)
    requires SameBehind(jobs, jobs', heads) && p != [] && p[0] in heads && p[0] != NONE
    ensures DerivationPath(jobs', p) <==> DerivationPath(jobs, p)
  {
    if |p| > 1 {
      var init := p[..|p| - 1];
      PathStays(jobs, jobs', heads, init);
      PathSnoc(jobs, p);
      PathSnoc(jobs', p);
      if DerivationPath(jobs, init) {
        assert init[0] == p[0] && init[|init| - 1] == p[|p| - 2];
        assert DerivesFrom(jobs, p[0], p[|p| - 2]);
        assert Derived(jobs, heads, p[|p| - 2]);
      }
    }
  }

  lemma LeavesStay(jobs: seq<Job>, jobs': seq<Job>, heads: seq<Id>, h: Id, x: Id)
    requires SameBehind(jobs, jobs', heads) && h in heads && h != NONE && SourceLeaf(jobs', h, x)
    ensures SourceLeaf(jobs, h, x) && Derived(jobs, heads, x)
  {
    var p :| DerivationPath(jobs', p) && p[0] == h && p[|p| - 1] == x;
    PathStays(jobs, jobs', heads, p);
  }

  /** Both stores agree on everything the heads derive from. */
  ghost predicate SameCommits(jobs: seq<Job>, heads: seq<Id>, commits: map<Id, Commit>, commits': map<Id, Commit>) {
    forall x :: Derived(jobs, heads, x) ==> (x in commits' <==> x in commits) && (x in commits ==> commits'[x] == commits[x])
  }

  lemma StaysConsistent(jobs: seq<Job>, jobs': seq<Job>, commits: map<Id, Commit>, commits': map<Id, Commit>, heads: seq<Id>)
    requires SameBehind(jobs, jobs', heads) && SameCommits(jobs, heads, commits, commits')
    requires Consistent(jobs, commits, heads)
    ensures Consistent(jobs', commits', heads)
  {
    forall x | BehindHeads(jobs', commits', heads, x)
      ensures BehindHeads(jobs, commits, heads, x) && commits'[x] == commits[x]
    {
      var h :| h in heads && h != NONE && SourceLeaf(jobs', h, x);
      LeavesStay(jobs, jobs', heads, h, x);
    }
  }

  /** The job's output, if it has one, is nothing the heads derive from. */
  ghost predicate Beside(s: State, output: Id)
    requires !s.lock.Free?
  {
    output == NONE || !Derived(s.jobs, s.lock.heads, output)
  }

  /**
    A step that leaves alone what the lock's heads derive from: a settlement
    that keeps its output, or sets one no head derives from; the removal of a
    record whose output no head derives from; a store write that changes no
    commit they derive from.
   */
  ghost predicate Quiet(s: State, step: Step) {
    && !s.lock.Free?
    && match step
       case Settle(k, to) =>
         k < |s.jobs| && (to.output == s.jobs[k].output || (Beside(s, s.jobs[k].output) && Beside(s, to.output)))
       case Forget(k) => k < |s.jobs| && Beside(s, s.jobs[k].output)
       case Write(commits) => SameCommits(s.jobs, s.lock.heads, s.commits, commits)
       case _ => false
  }

  lemma SettleBehind(jobs: seq<Job>, k: nat, to: Job, heads: seq<Id>)
    requires k < |jobs| && to.inputs == jobs[k].inputs
    requires to.output == jobs[k].output || (!Derived(jobs, heads, jobs[k].output) && !Derived(jobs, heads, to.output))
    ensures SameBehind(jobs, jobs[k := to], heads)
  {
    forall x | Derived(jobs, heads, x)
      ensures Sources(jobs[k := to], x) == Sources(jobs, x) && (Leaf(jobs[k := to], x) <==> Leaf(jobs, x))
    {
      if to.output == jobs[k].output {
        SettleKeepsSources(jobs, k, to, x);
      } else {
        SettleOther(jobs, k, to, x);
      }
    }
  }

  lemma ForgetBehind(jobs: seq<Job>, k: nat, heads: seq<Id>)
    requires k < |jobs| && !Derived(jobs, heads, jobs[k].output)
    ensures SameBehind(jobs, jobs[..k] + jobs[k + 1..], heads)
  {
    forall x | Derived(jobs, heads, x)
      ensures ByOutput(jobs[..k] + jobs[k + 1..], x) == ByOutput(jobs, x)
    {
      ForgetOther(jobs, k, x);
    }
  }

  lemma QuietBehind(s: State, step: Step)
    requires Inv(s) && Enabled(s, step) && Quiet(s, step)
    ensures SameBehind(s.jobs, Next(s, step).jobs, s.lock.heads)
    ensures SameCommits(s.jobs, s.lock.heads, s.commits, Next(s, step).commits)
  {
    NoneUnderived(s.jobs, s.lock.heads);
    match step
    case Settle(k, to) => SettleBehind(s.jobs, k, to, s.lock.heads);
    case Forget(k) => ForgetBehind(s.jobs, k, s.lock.heads);
    case _ =>
  }

  /** The holder of the mutex found its pairing consistent, and it still is if only quiet steps came since. */
  lemma {:induction false} PairedAgrees(run: seq<State>, steps: seq<Step>, n: nat) returns (m: nat)
    requires IsRun(run, steps) && n < |run| && run[n].lock.Paired?
    ensures m < n && steps[m].Pair?
    ensures Consistent(run[m].jobs, run[m].commits, run[n].lock.heads)
    ensures forall i :: m < i <= n ==> run[i].lock == run[n].lock
    ensures (forall i :: m < i < n ==> Quiet(run[i], steps[i])) ==> Consistent(run[n].jobs, run[n].commits, run[n].lock.heads)
  {
    assert run[n] == Next(run[n - 1], steps[n - 1]);
    if steps[n - 1].Pair? {
      m := n - 1;
    } else {
      m := PairedAgrees(run, steps, n - 1);
      if forall i :: m < i < n ==> Quiet(run[i], steps[i]) {
        var s := run[n - 1];
        assert Quiet(s, steps[n - 1]);
        NeverTwoForOnePairing(run, steps, n - 1);
        QuietBehind(s, steps[n - 1]);
        StaysConsistent(s.jobs, run[n].jobs, s.commits, run[n].commits, s.lock.heads);
      }
    }
  }

  /**
    Every record the trigger saves lists exactly the heads that were found
    consistent earlier under the same lock; and they are consistent when the
    record is saved, if nothing happened in between to what they derive from.
   */
  lemma SavedPairingsAgree(run: seq<State>, steps: seq<Step>, n: nat) returns (m: nat)
    requires IsRun(run, steps) && n < |steps| && steps[n].Save?
    ensures run[n].lock.Paired? && run[n + 1].jobs == [NewRecord(run[n].lock.pipeline, run[n].lock.heads)] + run[n].jobs
    ensures Elements(run[n + 1].jobs[0].inputs) == InputSet(run[n].lock.heads)
    ensures m < n && steps[m].Pair? && Consistent(run[m].jobs, run[m].commits, run[n].lock.heads)
    ensures forall i :: m < i <= n ==> run[i].lock == run[n].lock
    ensures (forall i :: m < i < n ==> Quiet(run[i], steps[i])) ==> Consistent(run[n].jobs, run[n].commits, run[n].lock.heads)
  {
    m := PairedAgrees(run, steps, n);
  }
}
