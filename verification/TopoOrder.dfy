/**
  The transaction's dependency order: Kahn's algorithm over the staged
  pipeline names, with a dependency counted as often as it is listed.
 */
module TopoOrder {
  import opened Sequences
  import opened Sorting

  type Name = string

  function Deps(deps: map<Name, seq<Name>>, n: Name): seq<Name> {
    if n in deps then deps[n] else []
  }

  // ---- what the order must be ----

  /** A closed walk along dependencies inside the staged names. */
  ghost predicate Cycle(names: set<Name>, deps: map<Name, seq<Name>>, p: seq<Name>) {
    && |p| >= 2 && p[0] == p[|p| - 1]
    && (forall i :: 0 <= i < |p| ==> p[i] in names)
    && (forall i :: 0 <= i < |p| - 1 ==> p[i + 1] in Deps(deps, p[i]))
  }

  ghost predicate Acyclic(names: set<Name>, deps: map<Name, seq<Name>>) {
    forall p :: !Cycle(names, deps, p)
  }

  /** Every dependency is itself a staged name. */
  ghost predicate Inside(names: set<Name>, deps: map<Name, seq<Name>>) {
    forall n, d :: n in names && d in Deps(deps, n) ==> d in names
  }

  ghost predicate DepsFirst(deps: map<Name, seq<Name>>, order: seq<Name>) {
    forall i, d :: 0 <= i < |order| && d in Deps(deps, order[i]) ==> d in order[..i]
  }

  /** Each staged name once, every dependency before its consumer. */
  ghost predicate TopologicalOrder(names: set<Name>, deps: map<Name, seq<Name>>, order: seq<Name>) {
    Distinct(order) && Elements(order) == names && DepsFirst(deps, order)
  }

  lemma {:induction false} Positions(names: set<Name>, order: seq<Name>, p: seq<Name>) returns (at: seq<nat>)
    requires Elements(order) == names && forall x <- p :: x in names
    ensures |at| == |p| && forall i :: 0 <= i < |p| ==> at[i] < |order| && order[at[i]] == p[i]
  {
    if p == [] {
      at := [];
    } else {
      var last := p[|p| - 1];
      assert last in Elements(order);
      var k :| 0 <= k < |order| && order[k] == last;
      at := Positions(names, order, p[..|p| - 1]);
      at := at + [k];
    }
  }

  lemma {:induction false} Falls(at: seq<nat>, k: nat)
    requires k < |at| && forall i :: 0 <= i < |at| - 1 ==> at[i + 1] < at[i]
    ensures k > 0 ==> at[k] < at[0]
  {
    if k > 1 {
      Falls(at, k - 1);
    }
  }

  /** An order leaves no room for a cycle: positions fall along dependencies. */
  lemma OrderIsAcyclic(names: set<Name>, deps: map<Name, seq<Name>>, order: seq<Name>)
    requires TopologicalOrder(names, deps, order)
    ensures Acyclic(names, deps) && Inside(names, deps)
  {
    forall p
      ensures !Cycle(names, deps, p)
    {
      if Cycle(names, deps, p) {
        var at := Positions(names, order, p);
        forall i | 0 <= i < |p| - 1
          ensures at[i + 1] < at[i]
        {
          assert p[i + 1] in order[..at[i]];
          var k :| 0 <= k < at[i] && order[k] == p[i + 1];
        }
        Falls(at, |p| - 1);
      }
    }
    forall n, d | n in names && d in Deps(deps, n)
      ensures d in names
    {
      var i :| 0 <= i < |order| && order[i] == n;
      assert d in order[..i];
      assert d in Elements(order);
    }
  }

  ghost predicate NeedsOne(deps: map<Name, seq<Name>>, x: Name, s: set<Name>) {
    exists d :: d in Deps(deps, x) && d in s
  }

  ghost predicate Stuck(deps: map<Name, seq<Name>>, s: set<Name>) {
    forall x {:trigger NeedsOne(deps, x, s)} :: x in s ==> NeedsOne(deps, x, s)
  }

  lemma {:induction false} Walk(deps: map<Name, seq<Name>>, stuck: set<Name>, n: nat) returns (w: seq<Name>)
    requires stuck != {} && n > 0
    requires Stuck(deps, stuck)
    ensures |w| == n && (forall x <- w :: x in stuck)
    ensures forall i :: 0 <= i < |w| - 1 ==> w[i + 1] in Deps(deps, w[i])
  {
    if n == 1 {
      var x :| x in stuck;
      w := [x];
    } else {
      w := Walk(deps, stuck, n - 1);
      assert NeedsOne(deps, w[n - 2], stuck);
      var d :| d in Deps(deps, w[n - 2]) && d in stuck;
      w := w + [d];
    }
  }

  /** A nonempty set in which everyone depends on a member has a cycle. */
  lemma StuckSetHasCycle(names: set<Name>, deps: map<Name, seq<Name>>, stuck: set<Name>)
    requires stuck != {} && stuck <= names
    requires Stuck(deps, stuck)
    ensures !Acyclic(names, deps)
  {
    var walk := Walk(deps, stuck, |stuck| + 1);
    var i, j := Pigeonhole(walk, stuck);
    var p := walk[i..j + 1];
    assert forall k :: 0 <= k < |p| ==> p[k] == walk[i + k];
    assert Cycle(names, deps, p);
  }

  // ---- counting unmet dependencies ----

  /** How often `x` is listed in `q`. */
  function Times(q: seq<Name>, x: Name): nat {
    if q == [] then 0
    else Times(q[..|q| - 1], x) + if q[|q| - 1] == x then 1 else 0
  }

  /** How many entries of `ds`, repetitions counted, are not done. */
  function Open(ds: seq<Name>, done: set<Name>): nat {
    if ds == [] then 0
    else Open(ds[..|ds| - 1], done) + if ds[|ds| - 1] in done then 0 else 1
  }

  lemma TimesPrefix(q: seq<Name>, k: nat, x: Name)
    requires k < |q|
    ensures Times(q[..k + 1], x) == Times(q[..k], x) + if q[k] == x then 1 else 0
  {
    assert q[..k + 1][..k] == q[..k];
  }

  lemma TimesAppend(q: seq<Name>, y: Name, x: Name)
    ensures Times(q + [y], x) == Times(q, x) + if y == x then 1 else 0
  {
    assert (q + [y])[..|q|] == q;
  }

  lemma {:induction false} TimesIn(q: seq<Name>, x: Name)
    ensures Times(q, x) > 0 <==> x in q
  {
    if q != [] {
      assert q == q[..|q| - 1] + [q[|q| - 1]];
      TimesIn(q[..|q| - 1], x);
    }
  }

  lemma {:induction false} TimesMonotone(q: seq<Name>, k: nat, x: Name)
    requires k <= |q|
    ensures Times(q[..k], x) <= Times(q, x)
    decreases |q| - k
  {
    if k < |q| {
      TimesPrefix(q, k, x);
      TimesMonotone(q, k + 1, x);
    } else {
      assert q[..k] == q;
    }
  }

  lemma {:induction false} OpenAfter(ds: seq<Name>, done: set<Name>, x: Name)
    requires x !in done
    ensures Open(ds, done) == Open(ds, done + {x}) + Times(ds, x)
  {
    if ds != [] {
      OpenAfter(ds[..|ds| - 1], done, x);
    }
  }

  lemma {:induction false} OpenZero(ds: seq<Name>, done: set<Name>)
    ensures Open(ds, done) == 0 <==> forall d <- ds :: d in done
  {
    if ds != [] {
      assert ds == ds[..|ds| - 1] + [ds[|ds| - 1]];
      OpenZero(ds[..|ds| - 1], done);
    }
  }

  lemma {:induction false} OpenNone(ds: seq<Name>)
    ensures Open(ds, {}) == |ds|
  {
    if ds != [] {
      OpenNone(ds[..|ds| - 1]);
    }
  }

  // ---- the algorithm ----

  /** `consumers[d]` lists `n` as often as `n` lists `d`. */
  ghost predicate Consumers(seen: set<Name>, deps: map<Name, seq<Name>>, consumers: map<Name, seq<Name>>) {
    && (forall d, n :: n in seen ==> Times(Deps(consumers, d), n) == Times(Deps(deps, n), d))
    && (forall d, n :: n !in seen ==> Times(Deps(consumers, d), n) == 0)
  }

  /** Lists `name` under each of its dependencies. */
  method AddConsumer(consumers: map<Name, seq<Name>>, name: Name, ds: seq<Name>) returns (added: map<Name, seq<Name>>)
    ensures forall d, n :: Times(Deps(added, d), n) == Times(Deps(consumers, d), n) + if n == name then Times(ds, d) else 0
  {
    added := consumers;
    assert forall d :: Times(ds[..0], d) == 0;
    for k := 0 to |ds|
      invariant forall d, n :: Times(Deps(added, d), n) ==
                  Times(Deps(consumers, d), n) + if n == name then Times(ds[..k], d) else 0
    {
      var was := Deps(added, ds[k]);
      ghost var prev := added;
      added := added[ds[k] := was + [name]];
      forall d, n
        ensures Times(Deps(added, d), n) ==
                Times(Deps(consumers, d), n) + if n == name then Times(ds[..k + 1], d) else 0
      {
        TimesPrefix(ds, k, d);
        TimesAppend(was, name, n);
        assert d != ds[k] ==> Deps(added, d) == Deps(prev, d);
      }
    }
    assert ds[..|ds|] == ds;
  }

  lemma OneMoreConsumer(seen: set<Name>, deps: map<Name, seq<Name>>, consumers: map<Name, seq<Name>>,
                        added: map<Name, seq<Name>>, name: Name)
    requires Consumers(seen, deps, consumers) && name !in seen
    requires forall d, n :: Times(Deps(added, d), n) ==
               Times(Deps(consumers, d), n) + if n == name then Times(Deps(deps, name), d) else 0
    ensures Consumers(seen + {name}, deps, added)
  {
  }

  method CountDeps(names: set<Name>, deps: map<Name, seq<Name>>)
    returns (consumers: map<Name, seq<Name>>, indeg: map<Name, nat>)
    ensures Consumers(names, deps, consumers)
    ensures indeg.Keys == names && forall n <- names :: indeg[n] == |Deps(deps, n)|
  {
    consumers, indeg := map[], map[];
    var todo := names;
    while todo != {}
      invariant todo <= names
      invariant Consumers(names - todo, deps, consumers)
      invariant indeg.Keys == names - todo && forall n <- indeg :: indeg[n] == |Deps(deps, n)|
    {
      var name :| name in todo;
      indeg := indeg[name := |Deps(deps, name)|];
      var added := AddConsumer(consumers, name, Deps(deps, name));
      ghost var seen := names - todo;
      OneMoreConsumer(seen, deps, consumers, added, name);
      consumers := added;
      todo := todo - {name};
      assert names - todo == seen + {name};
    }
    assert names - todo == names;
  }

  ghost predicate Counted(names: set<Name>, deps: map<Name, seq<Name>>, indeg: map<Name, nat>, done: set<Name>) {
    indeg.Keys == names && forall n <- names :: indeg[n] == Open(Deps(deps, n), done)
  }

  /** The names placed or ready are exactly those with no unmet dependency, each once. */
  ghost predicate ReadyExact(indeg: map<Name, nat>, placed: seq<Name>) {
    Distinct(placed) && forall n :: n in placed <==> n in indeg && indeg[n] == 0
  }

  lemma NowReady(indeg: map<Name, nat>, indeg': map<Name, nat>, placed: seq<Name>, c: Name)
    requires ReadyExact(indeg, placed)
    requires c in indeg && indeg[c] == 1 && indeg' == indeg[c := 0]
    ensures ReadyExact(indeg', placed + [c])
  {
  }

  /** One placed name settles its consumers' counts; the ones that reach zero become ready. */
  method Settle(names: set<Name>, cs: seq<Name>, indeg: map<Name, nat>, ready: seq<Name>, ghost order: seq<Name>)
    returns (indeg': map<Name, nat>, ready': seq<Name>)
    requires indeg.Keys == names
    requires forall c <- cs :: c in names
    requires forall n <- names :: Times(cs, n) <= indeg[n]
    requires ReadyExact(indeg, order + ready)
    ensures indeg'.Keys == names
    ensures forall n <- names :: indeg'[n] + Times(cs, n) == indeg[n]
    ensures ReadyExact(indeg', order + ready') && ready <= ready'
  {
    indeg', ready' := indeg, ready;
    for k := 0 to |cs|
      invariant indeg'.Keys == names
      invariant forall n <- names :: indeg'[n] + Times(cs[..k], n) == indeg[n]
      invariant ReadyExact(indeg', order + ready') && ready <= ready'
    {
      var c := cs[k];
      forall n
        ensures Times(cs[..k + 1], n) == Times(cs[..k], n) + if c == n then 1 else 0
      {
        TimesPrefix(cs, k, n);
      }
      TimesMonotone(cs, k + 1, c);
      ghost var prev := indeg';
      indeg' := indeg'[c := indeg'[c] - 1];
      if indeg'[c] == 0 {
        NowReady(prev, indeg', order + ready', c);
        assert order + (ready' + [c]) == (order + ready') + [c];
        ready' := ready' + [c];
      }
    }
    assert cs[..|cs|] == cs;
  }

  /** The names without dependencies, in name order. */
  ghost predicate Roots(names: set<Name>, deps: map<Name, seq<Name>>, roots: seq<Name>) {
    && Distinct(roots) && SortedBy(StringLess, roots)
    && (forall n :: n in roots <==> n in names && Deps(deps, n) == [])
  }

  method ZeroNames(indeg: map<Name, nat>) returns (ready: seq<Name>)
    ensures ReadyExact(indeg, ready) && SortedBy(StringLess, ready)
  {
    ready := SortedListing(set n | n in indeg && indeg[n] == 0);
  }

  /** The state between two rounds. */
  ghost predicate Placing(names: set<Name>, deps: map<Name, seq<Name>>, indeg: map<Name, nat>, order: seq<Name>, ready: seq<Name>) {
    && Counted(names, deps, indeg, Elements(order))
    && ReadyExact(indeg, order + ready)
    && DepsFirst(deps, order)
  }

  /** The head of the ready queue is a new name whose dependencies are all placed. */
  lemma PlaceNext(names: set<Name>, deps: map<Name, seq<Name>>, indeg: map<Name, nat>, order: seq<Name>, ready: seq<Name>)
    requires Counted(names, deps, indeg, Elements(order))
    requires ReadyExact(indeg, order + ready) && ready != []
    requires DepsFirst(deps, order)
    ensures |order| < |names| && ready[0] in names && ready[0] !in order
    ensures DepsFirst(deps, order + [ready[0]])
  {
    var name := ready[0];
    var placed := order + ready;
    assert placed[|order|] == name && forall i :: 0 <= i < |order| ==> placed[i] == order[i];
    assert name in placed;
    DistinctSize(placed);
    assert forall x <- placed :: x in names;
    SubsetSize(Elements(placed), names);
    OpenZero(Deps(deps, name), Elements(order));
    forall i, d | 0 <= i < |order + [name]| && d in Deps(deps, (order + [name])[i])
      ensures d in (order + [name])[..i]
    {
      if i < |order| {
        assert (order + [name])[..i] == order[..i];
      } else {
        assert d in Elements(order);
        assert (order + [name])[..i] == order;
      }
    }
  }

  /** Placing `name` lowers each consumer's count by its number of listings. */
  lemma PlaceCounts(names: set<Name>, deps: map<Name, seq<Name>>, consumers: map<Name, seq<Name>>,
                    indeg: map<Name, nat>, order: seq<Name>, name: Name)
    requires Consumers(names, deps, consumers)
    requires Counted(names, deps, indeg, Elements(order))
    requires name in names && name !in order
    ensures forall c <- Deps(consumers, name) :: c in names
    ensures forall n <- names ::
              Open(Deps(deps, n), Elements(order + [name])) + Times(Deps(consumers, name), n) == indeg[n]
  {
    assert Elements(order + [name]) == Elements(order) + {name};
    forall n | n in names
      ensures Open(Deps(deps, n), Elements(order + [name])) + Times(Deps(consumers, name), n) == indeg[n]
    {
      OpenAfter(Deps(deps, n), Elements(order), name);
    }
    forall c | c in Deps(consumers, name)
      ensures c in names
    {
      TimesIn(Deps(consumers, name), c);
    }
  }

  /** With nothing ready, a name not placed waits for another one. */
  lemma LeftoverStuck(names: set<Name>, deps: map<Name, seq<Name>>, indeg: map<Name, nat>, order: seq<Name>)
    requires Counted(names, deps, indeg, Elements(order))
    requires ReadyExact(indeg, order)
    requires Inside(names, deps)
    ensures Stuck(deps, names - Elements(order))
  {
    var left := names - Elements(order);
    forall x | x in left
      ensures NeedsOne(deps, x, left)
    {
      OpenZero(Deps(deps, x), Elements(order));
      var d :| d in Deps(deps, x) && d !in Elements(order);
      assert d in left;
    }
  }

  lemma ProperRest(part: set<Name>, whole: set<Name>)
    requires part <= whole && |part| != |whole|
    ensures whole - part != {}
  {
    assert whole == part + (whole - part);
  }

  /** With nothing ready, either every name is placed or the rest is stuck. */
  lemma Finished(names: set<Name>, deps: map<Name, seq<Name>>, indeg: map<Name, nat>, order: seq<Name>)
    requires Counted(names, deps, indeg, Elements(order))
    requires ReadyExact(indeg, order)
    requires DepsFirst(deps, order)
    ensures |order| == |names| ==> TopologicalOrder(names, deps, order)
    ensures |order| == |names| <==> Acyclic(names, deps) && Inside(names, deps)
  {
    DistinctSize(order);
    assert Elements(order) <= names;
    SubsetSize(Elements(order), names);
    if |order| == |names| {
      OrderIsAcyclic(names, deps, order);
    } else if Inside(names, deps) {
      LeftoverStuck(names, deps, indeg, order);
      ProperRest(Elements(order), names);
      StuckSetHasCycle(names, deps, names - Elements(order));
    }
  }

  /** One round: the head of the ready queue is placed and its consumers are settled. */
  method PlaceOne(names: set<Name>, deps: map<Name, seq<Name>>, consumers: map<Name, seq<Name>>,
                  indeg: map<Name, nat>, order: seq<Name>, ready: seq<Name>)
    returns (indeg': map<Name, nat>, order': seq<Name>, ready': seq<Name>)
    requires Consumers(names, deps, consumers)
    requires Placing(names, deps, indeg, order, ready) && ready != []
    ensures Placing(names, deps, indeg', order', ready')
    ensures |order'| == |order| + 1 && |order| < |names|
    ensures order + ready <= order' + ready'
  {
    var name := ready[0];
    PlaceNext(names, deps, indeg, order, ready);
    PlaceCounts(names, deps, consumers, indeg, order, name);
    order' := order + [name];
    assert order + ready == order' + ready[1..];
    indeg', ready' := Settle(names, Deps(consumers, name), indeg, ready[1..], order');
  }

  ghost predicate RootsFirst(names: set<Name>, deps: map<Name, seq<Name>>, order: seq<Name>) {
    exists k :: 0 <= k <= |order| && Roots(names, deps, order[..k])
  }

  lemma RootsLead(names: set<Name>, deps: map<Name, seq<Name>>, roots: seq<Name>, order: seq<Name>)
    requires Roots(names, deps, roots) && roots <= order
    ensures RootsFirst(names, deps, order)
  {
    assert order[..|roots|] == roots;
  }

  /** Counts the dependencies and lines up the names without any. */
  method Begin(names: set<Name>, deps: map<Name, seq<Name>>)
    returns (consumers: map<Name, seq<Name>>, indeg: map<Name, nat>, ready: seq<Name>)
    ensures Consumers(names, deps, consumers)
    ensures Placing(names, deps, indeg, [], ready) && Roots(names, deps, ready)
  {
    consumers, indeg := CountDeps(names, deps);
    forall n | n in names
      ensures indeg[n] == Open(Deps(deps, n), {})
    {
      OpenNone(Deps(deps, n));
    }
    ready := ZeroNames(indeg);
    ghost var none: seq<Name> := [];
    assert none + ready == ready && Elements(none) == {};
  }

  /**
    The staged names in dependency order, or a failure. It fails exactly when
    the dependency graph has a cycle (or, for a caller that lists one, a
    dependency that is not staged); a dependency may be listed any number of
    times. The names without dependencies come first, in name order.
   */
  method Order(names: set<Name>, deps: map<Name, seq<Name>>) returns (r: Option<seq<Name>>)
    ensures r.Some? ==> TopologicalOrder(names, deps, r.value)
    ensures r.Some? <==> Acyclic(names, deps) && Inside(names, deps)
    ensures r.Some? ==> RootsFirst(names, deps, r.value)
  {
    var consumers, indeg, ready := Begin(names, deps);
    var order: seq<Name> := [];
    ghost var roots := ready;
    assert order + ready == ready;
    while |ready| > 0
      invariant Placing(names, deps, indeg, order, ready) && roots <= order + ready
      decreases |names| - |order|
    {
      indeg, order, ready := PlaceOne(names, deps, consumers, indeg, order, ready);
    }
    assert order + ready == order;
    Finished(names, deps, indeg, order);
    RootsLead(names, deps, roots, order);
    if |order| != |names| {
      return None;
    }
    return Some(order);
  }
}
