/**
  Deleting a commit: the derived closure over job records, and the repair of
  parent links and branch heads around the removed commits.

  A commit id is a string; the empty string stands for "none", as in the
  store's records.
 */
module CommitGraph {
  import opened Sequences

  type Id = string

  const NONE: Id := ""

  datatype Commit = Commit(repo: string, branch: string, parent: Id)

  /** A job record: what it consumed, its output, and its statistics commit if it wrote one. */
  datatype Job = Job(id: Id, inputs: seq<Id>, output: Id, stats: Id)

  /** One branch ref file: the repository and the branch. */
  datatype Ref = Ref(repo: string, branch: string)

  // ---- what the stored graph looks like ----

  /** `rank` witnesses that the parent links have no cycle. */
  ghost predicate Ranked(commits: map<Id, Commit>, rank: map<Id, nat>) {
    forall c <- commits ::
      c in rank && (commits[c].parent in commits ==>
                      commits[c].parent in rank && rank[commits[c].parent] < rank[c])
  }

  /** A stored parent belongs to its child's repository, and a stored head to its ref's. */
  ghost predicate SameRepo(commits: map<Id, Commit>, heads: map<Ref, Id>) {
    && (forall c <- commits :: commits[c].parent in commits ==>
          commits[commits[c].parent].repo == commits[c].repo)
    && (forall r <- heads :: heads[r] in commits ==> commits[heads[r]].repo == r.repo)
  }

  /** The stored commits from `id` back to the root of its branch, newest first. */
  ghost function History(commits: map<Id, Commit>, rank: map<Id, nat>, id: Id): seq<Id>
    requires Ranked(commits, rank)
    decreases if id in commits then rank[id] + 1 else 0
  {
    if id in commits then [id] + History(commits, rank, commits[id].parent) else []
  }

  ghost predicate ParentPath(commits: map<Id, Commit>, p: seq<Id>) {
    && |p| > 0
    && (forall i :: 0 <= i < |p| ==> p[i] in commits)
    && (forall i :: 0 <= i < |p| - 1 ==> commits[p[i]].parent == p[i + 1])
  }

  /** `a` is `c` itself or one of its ancestors. */
  ghost predicate Ancestor(commits: map<Id, Commit>, a: Id, c: Id) {
    exists p :: ParentPath(commits, p) && p[0] == c && p[|p| - 1] == a
  }

  // ---- the derived closure ----

  /** Some job consumed `ic` and produced `out`. */
  ghost predicate Produces(jobs: seq<Job>, ic: Id, out: Id) {
    exists j :: j in jobs && ic in j.inputs && j.output == out
  }

  /** Closed under "a job consumed a member, so its output is a member". */
  ghost predicate Closed(jobs: seq<Job>, s: set<Id>) {
    forall ic, out :: ic in s && Produces(jobs, ic, out) ==> out in s
  }

  /** No closed set holding the target can miss a member of `s`. */
  ghost predicate InsideEvery(jobs: seq<Job>, target: Id, s: set<Id>) {
    forall t: set<Id> {:trigger Closed(jobs, t)} :: target in t && Closed(jobs, t) ==> s <= t
  }

  ghost predicate LeastClosed(jobs: seq<Job>, target: Id, s: set<Id>) {
    && target in s
    && Closed(jobs, s)
    && InsideEvery(jobs, target, s)
  }

  predicate Consumes(j: Job, deleted: set<Id>) {
    exists ic :: ic in j.inputs && ic in deleted
  }

  function Surviving(jobs: seq<Job>, deleted: set<Id>): (r: seq<Job>) {
    if jobs == [] then []
    else if Consumes(jobs[0], deleted) then Surviving(jobs[1..], deleted)
    else [jobs[0]] + Surviving(jobs[1..], deleted)
  }

  // ---- the repaired graph ----

  ghost function Nearest(commits: map<Id, Commit>, rank: map<Id, nat>, deleted: set<Id>, id: Id): Id
    requires Ranked(commits, rank)
    decreases if id in commits then rank[id] + 1 else 0
  {
    if id == NONE then NONE
    else if id !in deleted then id
    else if id !in commits then NONE
    else Nearest(commits, rank, deleted, commits[id].parent)
  }

  ghost function PrunedCommits(commits: map<Id, Commit>, rank: map<Id, nat>, deleted: set<Id>): map<Id, Commit>
    requires Ranked(commits, rank)
  {
    map c | c in commits && c !in deleted ::
      commits[c].(parent := Nearest(commits, rank, deleted, commits[c].parent))
  }

  ghost function PrunedHeads(commits: map<Id, Commit>, rank: map<Id, nat>, deleted: set<Id>, heads: map<Ref, Id>): map<Ref, Id>
    requires Ranked(commits, rank)
  {
    map r | r in heads && (heads[r] == NONE || Nearest(commits, rank, deleted, heads[r]) != NONE) ::
      Nearest(commits, rank, deleted, heads[r])
  }

  // ---- lemmas about the repaired graph ----

  /** The nearest survivor stands for exactly the surviving part of the history. */
  lemma {:induction false} NearestHistory(commits: map<Id, Commit>, rank: map<Id, nat>, deleted: set<Id>, id: Id)
    requires Ranked(commits, rank)
    requires NONE !in commits
    ensures var n := Nearest(commits, rank, deleted, id);
            && (n != NONE ==> n !in deleted)
            && (n in commits ==> id in commits && rank[n] <= rank[id])
            && Kept(History(commits, rank, id), deleted) == Kept(History(commits, rank, n), deleted)
    decreases if id in commits then rank[id] + 1 else 0
  {
    if id != NONE && id in deleted && id in commits {
      var h := History(commits, rank, id);
      assert h[1..] == History(commits, rank, commits[id].parent);
      NearestHistory(commits, rank, deleted, commits[id].parent);
    }
  }

  /** The old rank still orders the repaired links. */
  lemma PrunedRanked(commits: map<Id, Commit>, rank: map<Id, nat>, deleted: set<Id>)
    requires Ranked(commits, rank)
    requires NONE !in commits
    ensures Ranked(PrunedCommits(commits, rank, deleted), rank)
  {
    var after := PrunedCommits(commits, rank, deleted);
    forall c | c in after
      ensures c in rank && (after[c].parent in after ==>
                              after[c].parent in rank && rank[after[c].parent] < rank[c])
    {
      NearestHistory(commits, rank, deleted, commits[c].parent);
    }
  }

  /**
    Surgery theorem: after the deletion every id's history is its old history
    with the removed commits taken out, in the same order.
   */
  lemma {:induction false} HistoryPruned(commits: map<Id, Commit>, rank: map<Id, nat>, deleted: set<Id>, id: Id)
    requires Ranked(commits, rank)
    requires NONE !in commits
    requires id !in deleted
    ensures Ranked(PrunedCommits(commits, rank, deleted), rank)
    ensures History(PrunedCommits(commits, rank, deleted), rank, id)
         == Kept(History(commits, rank, id), deleted)
    decreases if id in commits then rank[id] + 1 else 0
  {
    PrunedRanked(commits, rank, deleted);
    if id in commits {
      var after := PrunedCommits(commits, rank, deleted);
      var p := commits[id].parent;
      var n := Nearest(commits, rank, deleted, p);
      NearestHistory(commits, rank, deleted, p);
      assert History(commits, rank, id)[1..] == History(commits, rank, p);
      if n != NONE || n !in deleted {
        HistoryPruned(commits, rank, deleted, n);
      } else {
        assert History(after, rank, n) == [] == Kept(History(commits, rank, n), deleted);
      }
    }
  }

  /** Branch heads follow: a repaired head has the surviving part of the old head's history. */
  lemma HeadHistoryPruned(commits: map<Id, Commit>, rank: map<Id, nat>, deleted: set<Id>, heads: map<Ref, Id>, r: Ref)
    requires Ranked(commits, rank)
    requires NONE !in commits && r in heads
    ensures var after := PrunedCommits(commits, rank, deleted);
            var heads' := PrunedHeads(commits, rank, deleted, heads);
            var kept := Kept(History(commits, rank, heads[r]), deleted);
            && Ranked(after, rank)
            && (r in heads' ==> heads'[r] == NONE || heads'[r] !in deleted)
            && (r in heads' ==> History(after, rank, heads'[r]) == kept)
            && (r !in heads' ==> kept == [])
  {
    PrunedRanked(commits, rank, deleted);
    var n := Nearest(commits, rank, deleted, heads[r]);
    NearestHistory(commits, rank, deleted, heads[r]);
    if n != NONE {
      HistoryPruned(commits, rank, deleted, n);
    }
  }

  /** The nearest survivor stays in the repository. */
  lemma {:induction false} NearestRepo(commits: map<Id, Commit>, rank: map<Id, nat>, heads: map<Ref, Id>, deleted: set<Id>, id: Id, repo: string)
    requires Ranked(commits, rank) && SameRepo(commits, heads) && NONE !in commits
    requires id in commits ==> commits[id].repo == repo
    ensures var n := Nearest(commits, rank, deleted, id); n in commits ==> commits[n].repo == repo
    decreases if id in commits then rank[id] + 1 else 0
  {
    if id != NONE && id in deleted && id in commits {
      NearestRepo(commits, rank, heads, deleted, commits[id].parent, repo);
    }
  }

  /** Repaired links and heads stay in their repositories, so the store can be pruned again. */
  lemma PrunedSameRepo(commits: map<Id, Commit>, rank: map<Id, nat>, heads: map<Ref, Id>, deleted: set<Id>)
    requires Ranked(commits, rank) && SameRepo(commits, heads) && NONE !in commits
    ensures SameRepo(PrunedCommits(commits, rank, deleted), PrunedHeads(commits, rank, deleted, heads))
  {
    var after, heads' := PrunedCommits(commits, rank, deleted), PrunedHeads(commits, rank, deleted, heads);
    forall c | c in after && after[c].parent in after
      ensures after[after[c].parent].repo == after[c].repo
    {
      NearestRepo(commits, rank, heads, deleted, commits[c].parent, commits[c].repo);
    }
    forall r | r in heads' && heads'[r] in after
      ensures after[heads'[r]].repo == r.repo
    {
      NearestRepo(commits, rank, heads, deleted, heads[r], r.repo);
    }
  }

  // ---- what becomes of each link, head and record ----

  /** Every link that is not empty leads to a stored commit. */
  ghost predicate Complete(commits: map<Id, Commit>, heads: map<Ref, Id>) {
    && (forall c <- commits :: commits[c].parent != NONE ==> commits[c].parent in commits)
    && (forall r <- heads :: heads[r] != NONE ==> heads[r] in commits)
  }

  /** The first of a history's commits that survives, or none. */
  ghost function FirstKept(history: seq<Id>, deleted: set<Id>): Id {
    if Kept(history, deleted) == [] then NONE else Kept(history, deleted)[0]
  }

  lemma {:induction false} NearestIsFirst(commits: map<Id, Commit>, rank: map<Id, nat>, heads: map<Ref, Id>, deleted: set<Id>, id: Id)
    requires Ranked(commits, rank) && Complete(commits, heads) && NONE !in commits
    requires id == NONE || id in commits
    ensures Nearest(commits, rank, deleted, id) == FirstKept(History(commits, rank, id), deleted)
    decreases if id in commits then rank[id] + 1 else 0
  {
    if id != NONE {
      assert History(commits, rank, id)[1..] == History(commits, rank, commits[id].parent);
      NearestIsFirst(commits, rank, heads, deleted, commits[id].parent);
    }
  }

  /** The repaired store's commits: the survivors, each as it was but for its parent. */
  lemma PrunedExactly(commits: map<Id, Commit>, rank: map<Id, nat>, heads: map<Ref, Id>, deleted: set<Id>, c: Id)
    requires Ranked(commits, rank) && Complete(commits, heads) && NONE !in commits
    ensures var after := PrunedCommits(commits, rank, deleted);
            && (c in after <==> c in commits && c !in deleted)
            && (c in after ==> after[c].repo == commits[c].repo && after[c].branch == commits[c].branch)
            && (c in after ==> after[c].parent == FirstKept(History(commits, rank, commits[c].parent), deleted))
  {
    if c in commits {
      NearestIsFirst(commits, rank, heads, deleted, commits[c].parent);
    }
  }

  lemma {:induction false} HistoryStored(commits: map<Id, Commit>, rank: map<Id, nat>, id: Id)
    requires Ranked(commits, rank)
    ensures forall c <- History(commits, rank, id) :: c in commits
    decreases if id in commits then rank[id] + 1 else 0
  {
    if id in commits {
      HistoryStored(commits, rank, commits[id].parent);
    }
  }

  /**
    The repaired refs: a ref goes exactly when it had a head and nothing of that
    head's history survives; otherwise it has the newest survivor of it.
   */
  lemma HeadsExactly(commits: map<Id, Commit>, rank: map<Id, nat>, heads: map<Ref, Id>, deleted: set<Id>, r: Ref)
    requires Ranked(commits, rank) && Complete(commits, heads) && NONE !in commits
    ensures var heads' := PrunedHeads(commits, rank, deleted, heads);
            && (r in heads' <==>
                  r in heads && (heads[r] == NONE || exists c :: c in History(commits, rank, heads[r]) && c !in deleted))
            && (r in heads' ==> heads'[r] == FirstKept(History(commits, rank, heads[r]), deleted))
            && (r in heads' && heads[r] != NONE ==> heads'[r] != NONE && heads'[r] !in deleted)
  {
    if r in heads {
      var h := History(commits, rank, heads[r]);
      NearestIsFirst(commits, rank, heads, deleted, heads[r]);
      HistoryStored(commits, rank, heads[r]);
      if Kept(h, deleted) != [] {
        var first := Kept(h, deleted)[0];
        assert first in Kept(h, deleted);
        KeptIn(h, deleted, first);
      }
      forall c | c in h && c !in deleted
        ensures Kept(h, deleted) != []
      {
        KeptIn(h, deleted, c);
      }
    }
  }

  lemma FirstKeptStored(commits: map<Id, Commit>, rank: map<Id, nat>, deleted: set<Id>, id: Id)
    requires Ranked(commits, rank)
    ensures var n := FirstKept(History(commits, rank, id), deleted); n != NONE ==> n in commits && n !in deleted
  {
    var kept := Kept(History(commits, rank, id), deleted);
    HistoryStored(commits, rank, id);
    if kept != [] {
      assert kept[0] in kept;
      KeptIn(History(commits, rank, id), deleted, kept[0]);
    }
  }

  /** No link or head is left dangling. */
  lemma PrunedComplete(commits: map<Id, Commit>, rank: map<Id, nat>, heads: map<Ref, Id>, deleted: set<Id>)
    requires Ranked(commits, rank) && Complete(commits, heads) && NONE !in commits
    ensures Complete(PrunedCommits(commits, rank, deleted), PrunedHeads(commits, rank, deleted, heads))
  {
    var after, heads' := PrunedCommits(commits, rank, deleted), PrunedHeads(commits, rank, deleted, heads);
    forall c | c in after && after[c].parent != NONE
      ensures after[c].parent in after
    {
      PrunedExactly(commits, rank, heads, deleted, c);
      FirstKeptStored(commits, rank, deleted, commits[c].parent);
    }
    forall r | r in heads' && heads'[r] != NONE
      ensures heads'[r] in after
    {
      HeadsExactly(commits, rank, heads, deleted, r);
      FirstKeptStored(commits, rank, deleted, heads[r]);
    }
  }

  /** Each record is kept or dropped by its own inputs alone, in the order of the listing. */
  lemma {:induction false} SurvivingConcat(before: seq<Job>, j: Job, after: seq<Job>, deleted: set<Id>)
    ensures Surviving(before + [j] + after, deleted)
         == Surviving(before, deleted)
            + (if exists ic <- j.inputs :: ic in deleted then [] else [j])
            + Surviving(after, deleted)
  {
    var all := before + [j] + after;
    if before == [] {
      assert all[1..] == after;
    } else {
      assert all[1..] == before[1..] + [j] + after;
      SurvivingConcat(before[1..], j, after, deleted);
    }
  }

  lemma {:induction false} HistoryHasPath(commits: map<Id, Commit>, rank: map<Id, nat>, a: Id, c: Id) returns (p: seq<Id>)
    requires Ranked(commits, rank) && a in History(commits, rank, c)
    ensures ParentPath(commits, p) && p[0] == c && p[|p| - 1] == a
    decreases if c in commits then rank[c] + 1 else 0
  {
    if a == c {
      p := [c];
    } else {
      var q := HistoryHasPath(commits, rank, a, commits[c].parent);
      p := [c] + q;
      assert forall i :: 0 < i < |p| ==> p[i] == q[i - 1];
    }
  }

  lemma {:induction false} PathInHistory(commits: map<Id, Commit>, rank: map<Id, nat>, p: seq<Id>)
    requires Ranked(commits, rank) && ParentPath(commits, p)
    ensures p[|p| - 1] in History(commits, rank, p[0])
  {
    if |p| > 1 {
      var q := p[1..];
      assert forall i :: 0 <= i < |q| ==> q[i] == p[i + 1];
      PathInHistory(commits, rank, q);
      assert History(commits, rank, p[0]) == [p[0]] + History(commits, rank, q[0]);
    }
  }

  lemma HistoryIsAncestry(commits: map<Id, Commit>, rank: map<Id, nat>, a: Id, c: Id)
    requires Ranked(commits, rank)
    ensures a in History(commits, rank, c) <==> Ancestor(commits, a, c)
  {
    if a in History(commits, rank, c) {
      var p := HistoryHasPath(commits, rank, a, c);
    }
    if Ancestor(commits, a, c) {
      var p :| ParentPath(commits, p) && p[0] == c && p[|p| - 1] == a;
      PathInHistory(commits, rank, p);
    }
  }

  /** Between any two survivors, ancestry is the same before and after. */
  lemma AncestryPreserved(commits: map<Id, Commit>, rank: map<Id, nat>, deleted: set<Id>, a: Id, c: Id)
    requires Ranked(commits, rank)
    requires NONE !in commits
    requires a !in deleted && c !in deleted
    ensures Ancestor(commits, a, c) <==> Ancestor(PrunedCommits(commits, rank, deleted), a, c)
  {
    HistoryPruned(commits, rank, deleted, c);
    KeptIn(History(commits, rank, c), deleted, a);
    HistoryIsAncestry(commits, rank, a, c);
    HistoryIsAncestry(PrunedCommits(commits, rank, deleted), rank, a, c);
  }

  lemma {:induction false} SurvivingMembers(jobs: seq<Job>, deleted: set<Id>, j: Job)
    ensures j in Surviving(jobs, deleted) <==> j in jobs && !Consumes(j, deleted)
  {
    if jobs != [] {
      assert jobs == [jobs[0]] + jobs[1..];
      SurvivingMembers(jobs[1..], deleted, j);
    }
  }

  /**
    A job with no output adds only the "none" id to the closure: over the
    jobs that did produce a commit, the real members are again the least set.
   */
  lemma NoneIsHarmless(jobs: seq<Job>, producing: seq<Job>, target: Id, s: set<Id>)
    requires LeastClosed(jobs, target, s)
    requires target != NONE
    requires forall j <- jobs :: NONE !in j.inputs
    requires forall j :: j in producing <==> j in jobs && j.output != NONE
    ensures LeastClosed(producing, target, s - {NONE})
  {
    forall t: set<Id> | target in t && Closed(producing, t)
      ensures s - {NONE} <= t
    {
      forall ic, out | ic in t + {NONE} && Produces(jobs, ic, out)
        ensures out in t + {NONE}
      {
        assert out != NONE ==> Produces(producing, ic, out);
      }
      assert Closed(jobs, t + {NONE});
    }
  }

  // ---- the store and its deletion ----

  /** `index` lists, under each input commit, the outputs of the jobs in `jobs` that consumed it. */
  ghost predicate Indexes(index: map<Id, seq<Id>>, jobs: seq<Job>) {
    forall ic, out :: out in Get(index, ic) <==> Produces(jobs, ic, out)
  }

  /** Removes the deleted records and writes the captured parent repairs. */
  function ApplyParents(commits: map<Id, Commit>, deleted: set<Id>, fixes: map<Id, Id>): map<Id, Commit> {
    map c | c in commits && c !in deleted ::
      if c in fixes then commits[c].(parent := fixes[c]) else commits[c]
  }

  /** Moves each captured head, or removes the ref when no ancestor survived. */
  function ApplyHeads(heads: map<Ref, Id>, fixes: map<Ref, Id>): map<Ref, Id> {
    map r | r in heads && (r in fixes ==> fixes[r] != NONE) ::
      if r in fixes then fixes[r] else heads[r]
  }

  lemma ParentsRepaired(commits: map<Id, Commit>, rank: map<Id, nat>, deleted: set<Id>, fixes: map<Id, Id>)
    requires Ranked(commits, rank)
    requires forall c :: c in fixes <==> c in commits && c !in deleted && commits[c].parent != NONE && commits[c].parent in deleted
    requires forall c <- fixes :: fixes[c] == Nearest(commits, rank, deleted, commits[c].parent)
    ensures ApplyParents(commits, deleted, fixes) == PrunedCommits(commits, rank, deleted)
  {
    var after, spec := ApplyParents(commits, deleted, fixes), PrunedCommits(commits, rank, deleted);
    assert after.Keys == spec.Keys;
    forall c | c in after
      ensures after[c] == spec[c]
    {
    }
  }

  lemma HeadsRepaired(commits: map<Id, Commit>, rank: map<Id, nat>, deleted: set<Id>, heads: map<Ref, Id>, fixes: map<Ref, Id>)
    requires Ranked(commits, rank)
    requires forall r :: r in fixes <==> r in heads && heads[r] != NONE && heads[r] in deleted
    requires forall r <- fixes :: fixes[r] == Nearest(commits, rank, deleted, heads[r])
    ensures ApplyHeads(heads, fixes) == PrunedHeads(commits, rank, deleted, heads)
  {
    var after, spec := ApplyHeads(heads, fixes), PrunedHeads(commits, rank, deleted, heads);
    forall r
      ensures r in after <==> r in spec
      ensures r in after ==> after[r] == spec[r]
    {
    }
  }

  // ---- statistics commits ----

  /** Some job consumed `ic` and wrote `out` as its output or as its statistics. */
  ghost predicate Derives(jobs: seq<Job>, ic: Id, out: Id) {
    exists j :: j in jobs && ic in j.inputs && (j.output == out || (j.stats == out && out != NONE))
  }

  ghost predicate DerivedClosed(jobs: seq<Job>, s: set<Id>) {
    forall ic, out :: ic in s && Derives(jobs, ic, out) ==> out in s
  }

  /** Everything derived from the target, as the description of the deletion promises. */
  ghost predicate LeastDerived(jobs: seq<Job>, target: Id, s: set<Id>) {
    && target in s
    && DerivedClosed(jobs, s)
    && (forall t: set<Id> {:trigger DerivedClosed(jobs, t)} :: target in t && DerivedClosed(jobs, t) ==> s <= t)
  }

  /** The statistics commit of a job, if it wrote one, goes with the rest. */
  predicate StatsTaken(j: Job, s: set<Id>) {
    j.stats == NONE || j.stats in s
  }

  lemma DerivedClosedIsClosed(jobs: seq<Job>, t: set<Id>)
    requires DerivedClosed(jobs, t)
    ensures Closed(jobs, t)
  {
    forall ic, out | ic in t && Produces(jobs, ic, out)
      ensures out in t
    {
      assert Derives(jobs, ic, out);
    }
  }

  /**
    The walk removes everything derived exactly when no job that consumed a
    removed commit leaves a statistics commit behind.
   */
  lemma StatsFollowedExactly(jobs: seq<Job>, target: Id, s: set<Id>)
    requires LeastClosed(jobs, target, s)
    ensures LeastDerived(jobs, target, s) <==> forall j <- jobs :: Consumes(j, s) ==> StatsTaken(j, s)
  {
    if LeastDerived(jobs, target, s) {
      forall j | j in jobs && Consumes(j, s)
        ensures StatsTaken(j, s)
      {
        var ic :| ic in j.inputs && ic in s;
        assert j.stats != NONE ==> Derives(jobs, ic, j.stats);
      }
    }
    if forall j <- jobs :: Consumes(j, s) ==> StatsTaken(j, s) {
      forall ic, out | ic in s && Derives(jobs, ic, out)
        ensures out in s
      {
        var j :| j in jobs && ic in j.inputs && (j.output == out || (j.stats == out && out != NONE));
        assert Consumes(j, s) && (j.output == out ==> Produces(jobs, ic, out));
      }
      forall t: set<Id> | target in t && DerivedClosed(jobs, t)
        ensures s <= t
      {
        DerivedClosedIsClosed(jobs, t);
      }
    }
  }

  /**
    A job whose statistics feed another job: deleting its input removes its
    output, while the statistics commit and the job that consumed it stay.
   */
  lemma StatsStayBehind() returns (jobs: seq<Job>, s: set<Id>)
    ensures LeastClosed(jobs, "in", s) && !LeastDerived(jobs, "in", s)
    ensures exists j, k :: j in jobs && Consumes(j, s) && j.stats != NONE && j.stats !in s
                        && k in Surviving(jobs, s) && j.stats in k.inputs
  {
    var j, k := Job("j", ["in"], "out", "stats"), Job("k", ["stats"], "report", NONE);
    jobs, s := [j, k], {"in", "out"};
    assert Produces(jobs, "in", "out") by {
      assert j in jobs && "in" in j.inputs;
    }
    forall ic, out | ic in s && Produces(jobs, ic, out)
      ensures out in s
    {
      var x :| x in jobs && ic in x.inputs && x.output == out;
      assert x == j;
    }
    assert Consumes(j, s) by {
      assert "in" in j.inputs;
    }
    assert !StatsTaken(j, s);
    StatsFollowedExactly(jobs, "in", s);
    SurvivingMembers(jobs, s, k);
    assert j in jobs && k in jobs && !Consumes(k, s);
  }

  // ---- the closure walk ----

  lemma IndexGrows(before: map<Id, seq<Id>>, index: map<Id, seq<Id>>, jobs: seq<Job>, j: Job)
    requires Indexes(before, jobs)
    requires forall ic, out :: out in Get(index, ic) <==>
               out in Get(before, ic) || (ic in j.inputs && out == j.output)
    ensures Indexes(index, jobs + [j])
  {
    forall ic, out
      ensures Produces(jobs + [j], ic, out) <==> Produces(jobs, ic, out) || (ic in j.inputs && out == j.output)
    {
      assert j in jobs + [j] && forall k <- jobs :: k in jobs + [j];
    }
  }

  lemma StaysInside(jobs: seq<Job>, index: map<Id, seq<Id>>, target: Id, s: set<Id>, cur: Id)
    requires Indexes(index, jobs)
    requires InsideEvery(jobs, target, s) && cur in s
    ensures InsideEvery(jobs, target, s + Elements(Get(index, cur)))
    ensures forall x <- Get(index, cur) :: exists j :: j in jobs && j.output == x
  {
    assert forall x <- Get(index, cur) :: Produces(jobs, cur, x);
  }

  /** The walk so far: everything found was derived, and only queued commits may miss their consumers. */
  ghost predicate Walking(jobs: seq<Job>, index: map<Id, seq<Id>>, target: Id, deleted: set<Id>, queue: seq<Id>) {
    && target in deleted
    && (forall x <- queue :: x in deleted)
    && (forall x, out :: x in deleted && x !in queue && out in Get(index, x) ==> out in deleted)
    && InsideEvery(jobs, target, deleted)
  }

  lemma WalkGoesOn(jobs: seq<Job>, index: map<Id, seq<Id>>, target: Id, deleted: set<Id>, queue: seq<Id>, deleted': set<Id>, queue': seq<Id>)
    requires Walking(jobs, index, target, deleted, queue) && queue != []
    requires deleted' == deleted + Elements(Get(index, queue[|queue| - 1]))
    requires queue[..|queue| - 1] <= queue'
    requires forall x <- queue' :: x in queue || x in deleted'
    requires forall x <- deleted' :: x in deleted || x in queue'
    requires InsideEvery(jobs, target, deleted')
    ensures Walking(jobs, index, target, deleted', queue')
  {
    var base, cur := queue[..|queue| - 1], queue[|queue| - 1];
    forall x | x in queue
      ensures x in queue' || x == cur
    {
      var k :| 0 <= k < |queue| && queue[k] == x;
      assert k < |base| ==> queue'[k] == base[k] == x;
    }
  }

  lemma Shrinks(all: set<Id>, a: set<Id>, b: set<Id>)
    requires a < b <= all
    ensures |all - b| < |all - a|
  {
    assert all - b < all - a by {
      var x :| x in b && x !in a;
      assert x in all - a && x !in all - b;
    }
    SubsetSize(all - b, all - a);
  }

  // ---- the deletion ----

  class Store {
    var commits: map<Id, Commit>
    var heads: map<Ref, Id>
    var jobs: seq<Job>

    constructor (commits: map<Id, Commit>, heads: map<Ref, Id>, jobs: seq<Job>)
      ensures this.commits == commits && this.heads == heads && this.jobs == jobs
    {
      this.commits, this.heads, this.jobs := commits, heads, jobs;
    }

    method IndexByInput() returns (index: map<Id, seq<Id>>)
      ensures Indexes(index, jobs)
    {
      index := map[];
      for i := 0 to |jobs|
        invariant Indexes(index, jobs[..i])
      {
        var j := jobs[i];
        var before := index;
        for k := 0 to |j.inputs|
          invariant forall ic, out :: out in Get(index, ic) <==>
                      out in Get(before, ic) || (ic in j.inputs[..k] && out == j.output)
        {
          var ic := j.inputs[k];
          assert j.inputs[..k + 1] == j.inputs[..k] + [ic];
          index := index[ic := Get(index, ic) + [j.output]];
        }
        assert j.inputs[..|j.inputs|] == j.inputs;
        assert jobs[..i + 1] == jobs[..i] + [j];
        IndexGrows(before, index, jobs[..i], j);
      }
      assert jobs[..|jobs|] == jobs;
    }

    /** One step of the walk: marks the outputs of `cur`'s consumers and stacks the new ones. */
    static method Push(outs: seq<Id>, deleted: set<Id>, queue: seq<Id>) returns (deleted': set<Id>, queue': seq<Id>)
      ensures deleted' == deleted + Elements(outs)
      ensures queue <= queue' && (deleted' == deleted ==> queue' == queue)
      ensures forall x <- queue' :: x in queue || x in deleted'
      ensures forall x <- deleted' :: x in deleted || x in queue'
    {
      deleted', queue' := deleted, queue;
      for k := 0 to |outs|
        invariant deleted' == deleted + Elements(outs[..k])
        invariant queue <= queue' && (deleted' == deleted ==> queue' == queue)
        invariant forall x <- queue' :: x in queue || x in deleted'
        invariant forall x <- deleted' :: x in deleted || x in queue'
      {
        assert outs[..k + 1] == outs[..k] + [outs[k]];
        if outs[k] !in deleted' {
          deleted' := deleted' + {outs[k]};
          queue' := queue' + [outs[k]];
        }
      }
      assert outs[..|outs|] == outs;
    }

    /** The deletion set: the target and everything derived from it, found by a stack walk. */
    method DerivedClosure(target: Id) returns (deleted: set<Id>)
      ensures LeastClosed(jobs, target, deleted)
    {
      var byInput := IndexByInput();
      deleted := {target};
      var queue := [target];
      ghost var all := {target} + set j <- jobs :: j.output;
      while |queue| > 0
        invariant deleted <= all
        invariant Walking(jobs, byInput, target, deleted, queue)
        decreases |all - deleted|, |queue|
      {
        var cur := queue[|queue| - 1];
        var base := queue[..|queue| - 1];
        ghost var before := deleted;
        StaysInside(jobs, byInput, target, deleted, cur);
        ghost var was := queue;
        deleted, queue := Push(Get(byInput, cur), deleted, base);
        WalkGoesOn(jobs, byInput, target, before, was, deleted, queue);
        if deleted != before {
          Shrinks(all, before, deleted);
        }
      }
    }

    /** The ancestor walk shared by the head and the parent repairs. */
    method NearestSurvivor(repo: string, start: Id, deleted: set<Id>, ghost rank: map<Id, nat>) returns (n: Id)
      requires Ranked(commits, rank)
      requires SameRepo(commits, heads)
      requires start in commits ==> commits[start].repo == repo
      ensures n == Nearest(commits, rank, deleted, start)
    {
      n := NONE;
      var cur := start;
      while cur != NONE
        invariant cur in commits ==> commits[cur].repo == repo
        invariant n == NONE
        invariant Nearest(commits, rank, deleted, cur) == Nearest(commits, rank, deleted, start)
        decreases if cur in commits then rank[cur] + 1 else 0
      {
        if cur !in deleted {
          n := cur;
          break;
        }
        if cur !in commits || commits[cur].repo != repo || commits[cur].parent == NONE {
          break;
        }
        cur := commits[cur].parent;
      }
    }

    method HeadFixes(deleted: set<Id>, ghost rank: map<Id, nat>) returns (fixes: map<Ref, Id>)
      requires Ranked(commits, rank)
      requires SameRepo(commits, heads)
      ensures fixes.Keys == set r | r in heads && heads[r] != NONE && heads[r] in deleted
      ensures forall r <- fixes :: fixes[r] == Nearest(commits, rank, deleted, heads[r])
    {
      fixes := map[];
      var todo := heads.Keys;
      while todo != {}
        invariant todo <= heads.Keys
        invariant fixes.Keys == set r | r in heads.Keys - todo && heads[r] != NONE && heads[r] in deleted
        invariant forall r <- fixes :: fixes[r] == Nearest(commits, rank, deleted, heads[r])
      {
        var r :| r in todo;
        todo := todo - {r};
        if heads[r] != NONE && heads[r] in deleted {
          var n := NearestSurvivor(r.repo, heads[r], deleted, rank);
          fixes := fixes[r := n];
        }
      }
    }

    method ParentFixes(deleted: set<Id>, ghost rank: map<Id, nat>) returns (fixes: map<Id, Id>)
      requires Ranked(commits, rank)
      requires SameRepo(commits, heads)
      ensures fixes.Keys == set c | c in commits && c !in deleted && commits[c].parent != NONE && commits[c].parent in deleted
      ensures forall c <- fixes :: fixes[c] == Nearest(commits, rank, deleted, commits[c].parent)
    {
      fixes := map[];
      var todo := commits.Keys;
      while todo != {}
        invariant todo <= commits.Keys
        invariant fixes.Keys == set c | c in commits.Keys - todo && c !in deleted && commits[c].parent != NONE && commits[c].parent in deleted
        invariant forall c <- fixes :: fixes[c] == Nearest(commits, rank, deleted, commits[c].parent)
      {
        var c :| c in todo;
        todo := todo - {c};
        if c !in deleted && commits[c].parent != NONE && commits[c].parent in deleted {
          var n := NearestSurvivor(commits[c].repo, commits[c].parent, deleted, rank);
          fixes := fixes[c := n];
        }
      }
    }

    method RemoveJobs(deleted: set<Id>)
      modifies this`jobs
      ensures jobs == Surviving(old(jobs), deleted)
    {
      var rest := jobs;
      jobs := [];
      while rest != []
        invariant jobs + Surviving(rest, deleted) == Surviving(old(jobs), deleted)
      {
        var j := rest[0];
        rest := rest[1..];
        var hit := false;
        for k := 0 to |j.inputs|
          invariant hit <==> exists ic :: ic in j.inputs[..k] && ic in deleted
        {
          assert j.inputs[..k + 1] == j.inputs[..k] + [j.inputs[k]];
          if j.inputs[k] in deleted {
            hit := true;
          }
        }
        assert j.inputs[..|j.inputs|] == j.inputs;
        if !hit {
          jobs := jobs + [j];
        }
      }
    }

    /**
      Removes `target` and everything derived from it. A missing target is
      reported and changes nothing.
     */
    method DeleteCommit(target: Id, ghost rank: map<Id, nat>) returns (ok: bool, deleted: set<Id>)
      requires Ranked(commits, rank)
      requires SameRepo(commits, heads)
      modifies this
      ensures NONE !in old(commits) ==> NONE !in commits && Ranked(commits, rank) && SameRepo(commits, heads)
      ensures ok <==> target in old(commits)
      ensures !ok ==> commits == old(commits) && heads == old(heads) && jobs == old(jobs)
      ensures ok ==> LeastClosed(old(jobs), target, deleted)
      ensures ok ==> jobs == Surviving(old(jobs), deleted)
      ensures ok ==> commits == PrunedCommits(old(commits), rank, deleted)
      ensures ok ==> heads == PrunedHeads(old(commits), rank, deleted, old(heads))
    {
      deleted := {};
      ok := target in commits;
      if !ok {
        return;
      }
      deleted := DerivedClosure(target);
      RemoveJobs(deleted);
      var hfix := HeadFixes(deleted, rank);
      var pfix := ParentFixes(deleted, rank);
      ParentsRepaired(commits, rank, deleted, pfix);
      HeadsRepaired(commits, rank, deleted, heads, hfix);
      if NONE !in commits {
        PrunedRanked(commits, rank, deleted);
        PrunedSameRepo(commits, rank, heads, deleted);
      }
      commits := ApplyParents(commits, deleted, pfix);
      heads := ApplyHeads(heads, hfix);
    }
  }
}
