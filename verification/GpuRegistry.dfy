/**
  GPU devices: the registry leases concrete device indices of one host to a
  job, and the job's pool slices its lease by worker.
 */
module GpuRegistry {
  import opened Sequences
  import opened Sorting

  type Name = string
  type Job = nat

  datatype Host = Host(labels: set<string>, gpus: seq<int>)

  /** The devices of one host that are out on lease. */
  function BusyOn(busy: map<Name, set<int>>, n: Name): set<int> {
    if n in busy then busy[n] else {}
  }

  // ---- choosing a host ----

  /** A host's free devices, in the order it reported them. */
  function Free(gpus: seq<int>, taken: set<int>): seq<int> {
    Kept(gpus, taken)
  }

  predicate IntLess(a: int, b: int) {
    a < b
  }

  lemma IntsOrdered()
    ensures TotalOrder(IntLess)
  {
  }

  datatype Candidate = Candidate(name: Name, free: seq<int>)

  predicate Eligible(hosts: map<Name, Host>, live: set<Name>, tag: string, n: Name) {
    n in hosts && n in live && (tag == "" || tag in hosts[n].labels)
  }

  /** For a GPU request the emptiest host comes first, otherwise plain name order. */
  predicate Before(want: nat, a: Candidate, b: Candidate) {
    if want > 0 && |a.free| != |b.free| then |a.free| > |b.free| else StringLess(a.name, b.name)
  }

  /** The free devices a host offers, lowest index first. */
  function Offer(hosts: map<Name, Host>, busy: map<Name, set<int>>, n: Name): seq<int>
    requires n in hosts
  {
    Sort(IntLess, Free(hosts[n].gpus, BusyOn(busy, n)))
  }

  ghost predicate DistinctGpus(hosts: map<Name, Host>) {
    forall n <- hosts :: Distinct(hosts[n].gpus)
  }

  lemma OfferMembers(hosts: map<Name, Host>, busy: map<Name, set<int>>, n: Name)
    requires n in hosts
    ensures forall g :: g in Offer(hosts, busy, n) <==> g in hosts[n].gpus && g !in BusyOn(busy, n)
  {
    var taken := BusyOn(busy, n);
    SortKeeps(IntLess, Free(hosts[n].gpus, taken));
    forall g
      ensures g in Free(hosts[n].gpus, taken) <==> g in hosts[n].gpus && g !in taken
    {
      KeptIn(hosts[n].gpus, taken, g);
    }
  }

  lemma OfferFacts(hosts: map<Name, Host>, busy: map<Name, set<int>>, n: Name)
    requires n in hosts && Distinct(hosts[n].gpus)
    ensures forall i, j :: 0 <= i < j < |Offer(hosts, busy, n)| ==> Offer(hosts, busy, n)[i] < Offer(hosts, busy, n)[j]
    ensures Distinct(Offer(hosts, busy, n))
    ensures forall g :: g in Offer(hosts, busy, n) <==> g in hosts[n].gpus && g !in BusyOn(busy, n)
  {
    IntsOrdered();
    KeptDistinct(hosts[n].gpus, BusyOn(busy, n));
    SortCorrect(IntLess, Free(hosts[n].gpus, BusyOn(busy, n)));
    OfferMembers(hosts, busy, n);
  }

  /** A free device that the host reported twice is offered twice. */
  lemma RepeatOffered(hosts: map<Name, Host>, busy: map<Name, set<int>>, n: Name, i: nat, j: nat)
    requires n in hosts && i < j < |hosts[n].gpus|
    requires hosts[n].gpus[i] == hosts[n].gpus[j] && hosts[n].gpus[i] !in BusyOn(busy, n)
    ensures !Distinct(Offer(hosts, busy, n))
  {
    var free, offer := Free(hosts[n].gpus, BusyOn(busy, n)), Offer(hosts, busy, n);
    var a, b := KeptOrder(hosts[n].gpus, BusyOn(busy, n), i, j);
    RepeatedSize(free, a, b);
    SortKeeps(IntLess, free);
    assert Elements(offer) == Elements(free);
    if Distinct(offer) {
      DistinctSize(offer);
    }
  }

  /** `n` can serve the request. */
  predicate Serves(hosts: map<Name, Host>, busy: map<Name, set<int>>, live: set<Name>, tag: string, want: nat, n: Name) {
    Eligible(hosts, live, tag, n) && |Offer(hosts, busy, n)| >= want
  }

  /**
    `c` can serve the request, and is the choice among all hosts that could: for
    devices the one with the most free, and the first by name among equals.
   */
  ghost predicate FirstChoice(hosts: map<Name, Host>, busy: map<Name, set<int>>, live: set<Name>, tag: string, want: nat, c: Candidate) {
    && Serves(hosts, busy, live, tag, want, c.name) && c.free == Offer(hosts, busy, c.name)
    && (forall n :: Serves(hosts, busy, live, tag, want, n) && n != c.name ==>
          if want > 0 && |Offer(hosts, busy, n)| != |c.free| then |Offer(hosts, busy, n)| < |c.free| else StringLess(c.name, n))
  }

  // ---- the placement order ----

  lemma BeforeStrict(want: nat)
    ensures StrictOrder((a: Candidate, b: Candidate) => Before(want, a, b))
  {
    StringsOrdered();
  }

  lemma CandidatesSorted(want: nat, cands: seq<Candidate>)
    requires Distinct(cands)
    ensures var sorted := Sort((a, b) => Before(want, a, b), cands);
            && (forall c :: c in sorted <==> c in cands)
            && (forall i, j :: 0 <= i < j < |sorted| ==> !Before(want, sorted[j], sorted[i]))
  {
    var less := (a, b) => Before(want, a, b);
    BeforeStrict(want);
    SortCorrect(less, cands);
    var sorted := Sort(less, cands);
    forall i, j | 0 <= i < j < |sorted|
      ensures !Before(want, sorted[j], sorted[i])
    {
      assert !less(sorted[j], sorted[i]);
    }
  }

  ghost predicate Offers(hosts: map<Name, Host>, busy: map<Name, set<int>>, live: set<Name>, tag: string, cands: seq<Candidate>) {
    forall c :: c in cands <==> Eligible(hosts, live, tag, c.name) && c.free == Offer(hosts, busy, c.name)
  }

  /** The first candidate with enough devices precedes every other host that could serve. */
  lemma Chosen(hosts: map<Name, Host>, busy: map<Name, set<int>>, live: set<Name>, tag: string, want: nat,
               cands: seq<Candidate>, sorted: seq<Candidate>, i: nat)
    requires Offers(hosts, busy, live, tag, cands)
    requires forall c :: c in sorted <==> c in cands
    requires forall a, b :: 0 <= a < b < |sorted| ==> !Before(want, sorted[b], sorted[a])
    requires i < |sorted| && |sorted[i].free| >= want
    requires forall k :: 0 <= k < i ==> |sorted[k].free| < want
    ensures FirstChoice(hosts, busy, live, tag, want, sorted[i])
  {
    StringsOrdered();
    assert sorted[i] in cands;
    forall n | Serves(hosts, busy, live, tag, want, n) && n != sorted[i].name
      ensures Before(want, sorted[i], Candidate(n, Offer(hosts, busy, n)))
    {
      var c := Candidate(n, Offer(hosts, busy, n));
      assert c in cands && c in sorted;
      var k :| 0 <= k < |sorted| && sorted[k] == c;
      assert i < k;
    }
  }

  lemma NoneServes(hosts: map<Name, Host>, busy: map<Name, set<int>>, live: set<Name>, tag: string, want: nat,
                   cands: seq<Candidate>, sorted: seq<Candidate>)
    requires Offers(hosts, busy, live, tag, cands)
    requires forall c :: c in sorted <==> c in cands
    requires forall k :: 0 <= k < |sorted| ==> |sorted[k].free| < want
    ensures forall n :: !Serves(hosts, busy, live, tag, want, n)
  {
    forall n | Eligible(hosts, live, tag, n)
      ensures |Offer(hosts, busy, n)| < want
    {
      var c := Candidate(n, Offer(hosts, busy, n));
      assert c in cands && c in sorted;
    }
  }

  // ---- leases over whole runs ----

  datatype Lease = Lease(host: Name, gpus: seq<int>, want: nat)

  /** The registry's devices together with the jobs that hold them. */
  datatype Fleet = Fleet(hosts: map<Name, Host>, busy: map<Name, set<int>>, leases: map<Job, Lease>)

  ghost predicate Holds(f: Fleet, j: Job, n: Name, g: int) {
    j in f.leases && f.leases[j].host == n && g in f.leases[j].gpus
  }

  /** Leases have the requested size in different devices, are disjoint, and make up exactly the busy devices. */
  ghost predicate Exact(f: Fleet) {
    && (forall j <- f.leases :: Distinct(f.leases[j].gpus) && |f.leases[j].gpus| == f.leases[j].want)
    && (forall n, g :: g in BusyOn(f.busy, n) <==> exists j :: Holds(f, j, n, g))
    && (forall j, k, n, g :: Holds(f, j, n, g) && Holds(f, k, n, g) ==> j == k)
  }

  ghost predicate Inv(f: Fleet) {
    DistinctGpus(f.hosts) && Exact(f)
  }

  datatype Step =
    | Heartbeat(name: Name, labels: set<string>, gpus: seq<int>)
    | Reserve(job: Job, tag: string, want: nat, live: set<Name>, host: Name)
    | Settle(job: Job)

  /** Every leased device of the host is among those reported. */
  ghost predicate ReportsLeased(f: Fleet, name: Name, gpus: seq<int>) {
    forall g <- BusyOn(f.busy, name) :: g in gpus
  }

  ghost predicate Reports(f: Fleet, name: Name, gpus: seq<int>) {
    Distinct(gpus) && ReportsLeased(f, name, gpus)
  }

  ghost predicate Enabled(f: Fleet, step: Step) {
    match step
    case Heartbeat(n, _, gpus) => Reports(f, n, gpus)
    case Reserve(j, tag, want, live, host) => j !in f.leases && Serves(f.hosts, f.busy, live, tag, want, host)
    case Settle(j) => j in f.leases
  }

  /** The busy map after a heartbeat of `name`, as a relation on device sets. */
  ghost function Refreshed(busy: map<Name, set<int>>, name: Name, gpus: seq<int>): map<Name, set<int>> {
    busy[name := set g <- gpus | g in BusyOn(busy, name)]
  }

  ghost function Beat(f: Fleet, name: Name, labels: set<string>, gpus: seq<int>): Fleet {
    f.(hosts := f.hosts[name := Host(labels, gpus)], busy := Refreshed(f.busy, name, gpus))
  }

  ghost function Next(f: Fleet, step: Step): Fleet
    requires Enabled(f, step)
  {
    match step
    case Heartbeat(n, labels, gpus) => Beat(f, n, labels, gpus)
    case Reserve(j, tag, want, live, host) =>
      var got := Offer(f.hosts, f.busy, host)[..want];
      f.(busy := f.busy[host := BusyOn(f.busy, host) + Elements(got)], leases := f.leases[j := Lease(host, got, want)])
    case Settle(j) =>
      var l := f.leases[j];
      f.(busy := f.busy[l.host := BusyOn(f.busy, l.host) - Elements(l.gpus)], leases := f.leases - {j})
  }

  /** Equal up to how an unleased host is written in the busy map. */
  ghost predicate Same(f: Fleet, g: Fleet) {
    f.hosts == g.hosts && f.leases == g.leases && forall n :: BusyOn(f.busy, n) == BusyOn(g.busy, n)
  }

  lemma SameKeeps(f: Fleet, g: Fleet)
    requires Exact(f) && Same(f, g)
    ensures Exact(g)
  {
    assert forall j, n, d :: Holds(f, j, n, d) <==> Holds(g, j, n, d);
    forall n, d
      ensures d in BusyOn(g.busy, n) <==> exists j :: Holds(g, j, n, d)
    {
      assert BusyOn(f.busy, n) == BusyOn(g.busy, n);
      assert (exists j :: Holds(f, j, n, d)) <==> exists j :: Holds(g, j, n, d);
    }
  }

  /** A heartbeat leaves the leases exact if and only if it reports every leased device. */
  lemma HeartbeatLeases(f: Fleet, name: Name, labels: set<string>, gpus: seq<int>)
    requires Exact(f)
    ensures Exact(Beat(f, name, labels, gpus)) <==> ReportsLeased(f, name, gpus)
  {
    var f' := Beat(f, name, labels, gpus);
    assert forall j, n, g :: Holds(f', j, n, g) <==> Holds(f, j, n, g);
    assert forall n :: n != name ==> BusyOn(f'.busy, n) == BusyOn(f.busy, n);
    if ReportsLeased(f, name, gpus) {
      forall g
        ensures g in BusyOn(f'.busy, name) <==> g in BusyOn(f.busy, name)
      {
        assert g in f'.busy[name] <==> g in gpus && g in BusyOn(f.busy, name);
      }
      forall n, g
        ensures g in BusyOn(f'.busy, n) <==> exists j :: Holds(f', j, n, g)
      {
        assert g in BusyOn(f'.busy, n) <==> g in BusyOn(f.busy, n);
        assert (exists j :: Holds(f, j, n, g)) <==> exists j :: Holds(f', j, n, g);
      }
    } else {
      var g :| g in BusyOn(f.busy, name) && g !in gpus;
      var j :| Holds(f, j, name, g);
      assert Holds(f', j, name, g) && g !in BusyOn(f'.busy, name);
    }
  }

  /** A heartbeat leaves every host's indices distinct if and only if it reports none twice. */
  lemma HeartbeatIndices(f: Fleet, name: Name, labels: set<string>, gpus: seq<int>)
    requires DistinctGpus(f.hosts)
    ensures DistinctGpus(Beat(f, name, labels, gpus).hosts) <==> Distinct(gpus)
  {
    var hosts := Beat(f, name, labels, gpus).hosts;
    assert hosts[name].gpus == gpus;
    assert forall n <- hosts :: n != name ==> n in f.hosts && hosts[n] == f.hosts[n];
  }

  /** A reservation leaves the leases exact if and only if it takes no index twice. */
  lemma ReserveExact(f: Fleet, step: Step)
    requires Exact(f) && Enabled(f, step) && step.Reserve?
    ensures Exact(Next(f, step)) <==> Distinct(Offer(f.hosts, f.busy, step.host)[..step.want])
  {
    var f' := Next(f, step);
    OfferMembers(f.hosts, f.busy, step.host);
    var got := Offer(f.hosts, f.busy, step.host)[..step.want];
    assert f'.leases[step.job] == Lease(step.host, got, step.want);
    if Distinct(got) {
      assert forall g <- got :: g in Offer(f.hosts, f.busy, step.host) && g !in BusyOn(f.busy, step.host);
      forall j, n, g
        ensures Holds(f', j, n, g) <==> if j == step.job then n == step.host && g in got else Holds(f, j, n, g)
      {
      }
      forall n, g
        ensures g in BusyOn(f'.busy, n) <==> exists j :: Holds(f', j, n, g)
      {
        if g in BusyOn(f.busy, n) {
          var j :| Holds(f, j, n, g);
          assert Holds(f', j, n, g);
        } else if n == step.host && g in got {
          assert Holds(f', step.job, n, g);
        }
      }
      forall j, g | g in got
        ensures !Holds(f, j, step.host, g)
      {
        assert g !in BusyOn(f.busy, step.host);
      }
    }
  }

  lemma ReserveKeeps(f: Fleet, step: Step)
    requires Inv(f) && Enabled(f, step) && step.Reserve?
    ensures Inv(Next(f, step))
  {
    OfferFacts(f.hosts, f.busy, step.host);
    ReserveExact(f, step);
  }

  /**
    A host that reports a free device twice: a job that asks for all it offers
    is given that device twice.
   */
  lemma RepeatLeasedTwice(f: Fleet, step: Step, i: nat, j: nat)
    requires Exact(f) && Enabled(f, step) && step.Reserve?
    requires i < j < |f.hosts[step.host].gpus| && f.hosts[step.host].gpus[i] == f.hosts[step.host].gpus[j]
    requires f.hosts[step.host].gpus[i] !in BusyOn(f.busy, step.host)
    requires step.want == |Offer(f.hosts, f.busy, step.host)|
    ensures !Distinct(Next(f, step).leases[step.job].gpus) && !Exact(Next(f, step))
  {
    RepeatOffered(f.hosts, f.busy, step.host, i, j);
    var offer := Offer(f.hosts, f.busy, step.host);
    assert offer[..step.want] == offer;
    ReserveExact(f, step);
  }

  lemma SettleKeeps(f: Fleet, j: Job)
    requires Inv(f) && Enabled(f, Settle(j))
    ensures Inv(Next(f, Settle(j)))
  {
    var f' := Next(f, Settle(j));
    forall k, n, g
      ensures Holds(f', k, n, g) <==> k != j && Holds(f, k, n, g)
    {
    }
    forall n, g
      ensures g in BusyOn(f'.busy, n) <==> exists k :: Holds(f', k, n, g)
    {
      if g in BusyOn(f'.busy, n) {
        assert g in BusyOn(f.busy, n) && !Holds(f, j, n, g);
        var k :| Holds(f, k, n, g);
        assert Holds(f', k, n, g);
      }
      if k :| Holds(f', k, n, g) {
        assert Holds(f, k, n, g) && !Holds(f, j, n, g) && g in BusyOn(f.busy, n);
      }
    }
  }

  ghost predicate IsRun(run: seq<Fleet>, steps: seq<Step>) {
    && |run| == |steps| + 1
    && run[0] == Fleet(map[], map[], map[])
    && (forall i :: 0 <= i < |steps| ==> Enabled(run[i], steps[i]) && Same(Next(run[i], steps[i]), run[i + 1]))
  }

  /** In every run, leases stay disjoint, exact in size, and equal to the busy devices. */
  lemma {:induction false} LeasesStayExact(run: seq<Fleet>, steps: seq<Step>, n: nat)
    requires IsRun(run, steps) && n < |run|
    ensures Inv(run[n])
  {
    if n > 0 {
      LeasesStayExact(run, steps, n - 1);
      var f, step := run[n - 1], steps[n - 1];
      match step {
        case Heartbeat(name, labels, gpus) =>
          HeartbeatLeases(f, name, labels, gpus);
          HeartbeatIndices(f, name, labels, gpus);
        case Reserve(_, _, _, _, _) => ReserveKeeps(f, step);
        case Settle(j) => SettleKeeps(f, j);
      }
      SameKeeps(Next(f, step), run[n]);
    }
  }

  // ---- worker slices ----

  /** The devices one pool worker's attempt may use: its slot of the job's lease. */
  function Slice(gpus: seq<int>, per: nat, worker: nat): seq<int> {
    var start := worker * per;
    if start + per <= |gpus| then gpus[start..start + per] else []
  }

  lemma SliceInside(gpus: seq<int>, per: nat, w: nat)
    ensures forall g <- Slice(gpus, per, w) :: g in gpus
  {
  }

  /** A lease of parallelism times devices-per-datum gives every worker its full share. */
  lemma SliceFits(gpus: seq<int>, workers: nat, per: nat, w: nat)
    requires |gpus| == per * workers && w < workers
    ensures |Slice(gpus, per, w)| == per
  {
    Spread(per, workers, w);
    assert per * w == w * per;
  }

  /** The first `n` workers' slices, one after another. */
  function Slices(gpus: seq<int>, per: nat, n: nat): seq<int> {
    if n == 0 then [] else Slices(gpus, per, n - 1) + Slice(gpus, per, n - 1)
  }

  /** The workers share out the lease in order, with nothing left over. */
  lemma {:induction false} SlicesRejoin(gpus: seq<int>, per: nat, workers: nat, n: nat)
    requires |gpus| == per * workers && n <= workers
    ensures per * n <= |gpus| && Slices(gpus, per, n) == gpus[..per * n]
  {
    if n > 0 {
      SlicesRejoin(gpus, per, workers, n - 1);
      Spread(per, n, n - 1);
      if n < workers {
        Spread(per, workers, n);
      }
      assert per * (n - 1) == (n - 1) * per && per * n == per * (n - 1) + per;
      assert gpus[..per * n] == gpus[..per * (n - 1)] + gpus[per * (n - 1)..per * n];
    }
  }

  lemma RangesDisjoint(gpus: seq<int>, lo: nat, hi: nat, per: nat)
    requires Distinct(gpus) && lo + per <= hi && hi + per <= |gpus|
    ensures Elements(gpus[lo..lo + per]) !! Elements(gpus[hi..hi + per])
  {
    var a, b := gpus[lo..lo + per], gpus[hi..hi + per];
    forall i, k | 0 <= i < |a| && 0 <= k < |b|
      ensures a[i] != b[k]
    {
      assert a[i] == gpus[lo + i] && b[k] == gpus[hi + k];
    }
  }

  lemma SlicesDisjoint(gpus: seq<int>, per: nat, v: nat, w: nat)
    requires Distinct(gpus) && v < w
    ensures Elements(Slice(gpus, per, v)) !! Elements(Slice(gpus, per, w))
  {
    var lo, hi := v * per, w * per;
    Spread(per, w, v);
    assert per * v == lo && per * w == hi;
    if hi + per <= |gpus| {
      RangesDisjoint(gpus, lo, hi, per);
    }
  }

  /**
    From any state of a run, a heartbeat that reports a free device twice leaves
    all leases exact, but the next job that reserves everything the host offers,
    one device per datum, has two workers on the same device.
   */
  lemma RepeatShared(f: Fleet, name: Name, labels: set<string>, gpus: seq<int>, job: Job, i: nat, j: nat) returns (v: nat, w: nat)
    requires Inv(f) && ReportsLeased(f, name, gpus) && job !in f.leases
    requires i < j < |gpus| && gpus[i] == gpus[j] && gpus[i] !in BusyOn(f.busy, name)
    ensures var f1 := Beat(f, name, labels, gpus);
            var step := Reserve(job, "", |Offer(f1.hosts, f1.busy, name)|, {name}, name);
            && Exact(f1) && Enabled(f1, step) && v < w < step.want
            && Slice(Next(f1, step).leases[job].gpus, 1, v) == Slice(Next(f1, step).leases[job].gpus, 1, w) != []
  {
    var f1 := Beat(f, name, labels, gpus);
    HeartbeatLeases(f, name, labels, gpus);
    var step := Reserve(job, "", |Offer(f1.hosts, f1.busy, name)|, {name}, name);
    assert gpus[i] !in BusyOn(f1.busy, name);
    RepeatLeasedTwice(f1, step, i, j);
    var got := Next(f1, step).leases[job].gpus;
    v, w :| 0 <= v < w < |got| && got[v] == got[w];
  }

  /**
    No two attempts share a device: whichever jobs and workers they belong to,
    attempts on one host use disjoint devices.
   */
  lemma AttemptsNeverShare(f: Fleet, j: Job, k: Job, per: nat, per': nat, v: nat, w: nat)
    requires Inv(f) && j in f.leases && k in f.leases
    requires j != k || (v != w && per == per')
    requires f.leases[j].host == f.leases[k].host
    ensures Elements(Slice(f.leases[j].gpus, per, v)) !! Elements(Slice(f.leases[k].gpus, per', w))
  {
    var n, a, b := f.leases[j].host, f.leases[j].gpus, f.leases[k].gpus;
    if j == k {
      if v < w {
        SlicesDisjoint(a, per, v, w);
      } else {
        SlicesDisjoint(a, per, w, v);
      }
    } else {
      SliceInside(a, per, v);
      SliceInside(b, per', w);
      forall g | g in Slice(a, per, v)
        ensures g !in Slice(b, per', w)
      {
        assert Holds(f, j, n, g) && !Holds(f, k, n, g);
      }
    }
  }

  // ---- the registry ----

  class Registry {
    var hosts: map<Name, Host>
    var busy: map<Name, set<int>>

    constructor ()
      ensures hosts == map[] && busy == map[]
    {
      hosts, busy := map[], map[];
    }

    /** The registry with the leases its jobs hold. */
    ghost function Of(leases: map<Job, Lease>): Fleet
      reads this
    {
      Fleet(hosts, busy, leases)
    }

    /** A heartbeat: capacity is replaced, and leases survive for the devices still reported. */
    method Register(name: Name, labels: set<string>, gpus: seq<int>, ghost leases: map<Job, Lease>)
      modifies this
      ensures Same(Beat(old(Of(leases)), name, labels, gpus), Of(leases))
      ensures Reports(old(Of(leases)), name, gpus) ==> Same(Next(old(Of(leases)), Heartbeat(name, labels, gpus)), Of(leases))
      ensures hosts == old(hosts)[name := Host(labels, gpus)]
      ensures BusyOn(busy, name) == set g <- gpus | g in BusyOn(old(busy), name)
      ensures forall n :: n != name ==> BusyOn(busy, n) == BusyOn(old(busy), n)
    {
      hosts := hosts[name := Host(labels, gpus)];
      if name in busy {
        var keep := set g <- gpus | g in busy[name];
        if keep == {} {
          busy := busy - {name};
        } else {
          busy := busy[name := keep];
        }
      }
      ghost var kept := set g <- gpus | g in BusyOn(old(busy), name);
      assert BusyOn(busy, name) == kept == Refreshed(old(busy), name, gpus)[name];
    }

    method Candidates(tag: string, live: set<Name>) returns (cands: seq<Candidate>)
      ensures Distinct(cands)
      ensures Offers(hosts, busy, live, tag, cands)
    {
      cands := [];
      var todo := hosts.Keys;
      while todo != {}
        invariant todo <= hosts.Keys
        invariant Distinct(cands)
        invariant forall c :: c in cands <==>
                    c.name !in todo && Eligible(hosts, live, tag, c.name) && c.free == Offer(hosts, busy, c.name)
      {
        var n :| n in todo;
        todo := todo - {n};
        if n in live && (tag == "" || tag in hosts[n].labels) {
          cands := cands + [Candidate(n, Offer(hosts, busy, n))];
        }
      }
    }

    /** The first host, in placement order, with enough free devices. */
    method Choose(tag: string, want: nat, live: set<Name>) returns (pick: Option<Candidate>)
      ensures pick.Some? <==> exists n :: Serves(hosts, busy, live, tag, want, n)
      ensures pick.Some? ==> FirstChoice(hosts, busy, live, tag, want, pick.value)
    {
      var cands := Candidates(tag, live);
      var sorted := Sort((a, b) => Before(want, a, b), cands);
      CandidatesSorted(want, cands);
      for i := 0 to |sorted|
        invariant forall k :: 0 <= k < i ==> |sorted[k].free| < want
      {
        if |sorted[i].free| >= want {
          Chosen(hosts, busy, live, tag, want, cands, sorted, i);
          return Some(sorted[i]);
        }
      }
      NoneServes(hosts, busy, live, tag, want, cands, sorted);
      return None;
    }

    /** Marks devices of one host as leased. */
    method Mark(name: Name, gpus: seq<int>)
      modifies this`busy
      ensures BusyOn(busy, name) == BusyOn(old(busy), name) + Elements(gpus)
      ensures forall n :: n != name ==> BusyOn(busy, n) == BusyOn(old(busy), n)
    {
      var b := BusyOn(busy, name);
      for k := 0 to |gpus|
        invariant b == BusyOn(busy, name) + Elements(gpus[..k])
      {
        assert gpus[..k + 1] == gpus[..k] + [gpus[k]];
        b := b + {gpus[k]};
      }
      assert gpus[..|gpus|] == gpus;
      busy := busy[name := b];
    }

    /**
      Reserves `want` devices on the first host, in placement order, that has
      them free: the lowest free indices. With no such host nothing changes.
     */
    method PickAndReserve(tag: string, want: nat, live: set<Name>, ghost job: Job, ghost leases: map<Job, Lease>)
      returns (ok: bool, host: Name, got: seq<int>)
      modifies this`busy
      ensures ok && job !in leases ==>
                && Enabled(old(Of(leases)), Reserve(job, tag, want, live, host))
                && Same(Next(old(Of(leases)), Reserve(job, tag, want, live, host)), Of(leases[job := Lease(host, got, want)]))
      ensures ok <==> exists n :: Serves(hosts, old(busy), live, tag, want, n)
      ensures ok ==> host in hosts && FirstChoice(hosts, old(busy), live, tag, want, Candidate(host, Offer(hosts, old(busy), host)))
      ensures ok ==> host in live && (tag == "" || tag in hosts[host].labels)
      ensures !ok ==> forall n :: n in hosts && n in live && (tag == "" || tag in hosts[n].labels) ==> |Offer(hosts, busy, n)| < want
      ensures ok ==> got == Offer(hosts, old(busy), host)[..want]
      ensures !ok ==> busy == old(busy)
      ensures ok ==> BusyOn(busy, host) == BusyOn(old(busy), host) + Elements(got)
      ensures ok ==> forall n :: n != host ==> BusyOn(busy, n) == BusyOn(old(busy), n)
    {
      var pick := Choose(tag, want, live);
      if pick.None? {
        forall n | Eligible(hosts, live, tag, n)
          ensures |Offer(hosts, busy, n)| < want
        {
          assert !Serves(hosts, busy, live, tag, want, n);
        }
        return false, "", [];
      }
      ok, host, got := true, pick.value.name, pick.value.free[..want];
      assert Serves(hosts, busy, live, tag, want, host);
      ghost var c := Candidate(host, Offer(hosts, busy, host));
      assert FirstChoice(hosts, busy, live, tag, want, c) by {
        assert pick.value == c;
      }
      Mark(host, got);
      assert c == Candidate(host, Offer(hosts, old(busy), host));
      assert FirstChoice(hosts, old(busy), live, tag, want, c);
    }

    method Release(name: Name, gpus: seq<int>, ghost job: Job, ghost leases: map<Job, Lease>)
      modifies this`busy
      ensures job in leases && leases[job].host == name && leases[job].gpus == gpus ==>
                Same(Next(old(Of(leases)), Settle(job)), Of(leases - {job}))
      ensures BusyOn(busy, name) == BusyOn(old(busy), name) - Elements(gpus)
      ensures forall n :: n != name ==> BusyOn(busy, n) == BusyOn(old(busy), n)
    {
      if |gpus| == 0 || name !in busy {
        return;
      }
      var b := busy[name];
      for k := 0 to |gpus|
        invariant b == busy[name] - Elements(gpus[..k])
      {
        assert gpus[..k + 1] == gpus[..k] + [gpus[k]];
        b := b - {gpus[k]};
      }
      assert gpus[..|gpus|] == gpus;
      if b == {} {
        busy := busy - {name};
      } else {
        busy := busy[name := b];
      }
    }

    method Drop(name: Name)
      modifies this
      ensures hosts == old(hosts) - {name} && busy == old(busy) - {name}
    {
      hosts := hosts - {name};
      busy := busy - {name};
    }
  }
}
