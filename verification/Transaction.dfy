/**
  Finishing a transaction: validate every staged operation against the live
  pipelines, then apply them in staged order, and undo the applied ones in
  reverse order if any of them fails.
 */
module Transaction {
  import opened Sequences
  import TopoOrder

  type Name = string

  /** A pipeline definition: its name, the repositories it reads, its statistics flag, and the rest. */
  datatype Spec = Spec(name: Name, inputs: seq<Name>, stats: bool, body: string)

  datatype Rec = Rec(spec: Spec, version: nat, stopped: bool)

  datatype Op =
    | Create(spec: Spec)
    | Update(spec: Spec, baseline: nat)

  datatype VersionKey = VersionKey(name: Name, version: nat)

  // ---- what a client sees of the live pipelines ----

  datatype Seen = Seen(spec: Spec, version: nat)

  ghost function View(live: map<Name, Rec>): map<Name, Seen> {
    map n | n in live :: Seen(live[n].spec, live[n].version)
  }

  /** Each live version has its archived copy. */
  ghost predicate Archived(live: map<Name, Rec>, archive: map<VersionKey, Rec>) {
    forall n <- live ::
      var k := VersionKey(n, live[n].version);
      k in archive && archive[k].spec == live[n].spec && archive[k].version == live[n].version
  }

  ghost predicate Touches(ops: seq<Op>, n: Name) {
    exists op :: op in ops && op.spec.name == n
  }

  // ---- phase 1: the predicted versions ----

  function PredictOp(live: map<Name, Rec>, st: map<Name, nat>, op: Op): Option<map<Name, nat>> {
    var n := op.spec.name;
    match op
    case Create(_) => if n in st || n in live then None else Some(st[n := 1])
    case Update(_, baseline) =>
      if n in st then Some(st[n := st[n] + 1])
      else if n in live && live[n].version == baseline then Some(st[n := baseline + 1])
      else None
  }

  /** The version each staged name will have, or a refusal. */
  function Predict(live: map<Name, Rec>, ops: seq<Op>): Option<map<Name, nat>> {
    if ops == [] then Some(map[])
    else
      var st := Predict(live, ops[..|ops| - 1]);
      if st.None? then None else PredictOp(live, st.value, ops[|ops| - 1])
  }

  lemma {:induction false} PredictPrefix(live: map<Name, Rec>, ops: seq<Op>, k: nat)
    requires k <= |ops| && Predict(live, ops).Some?
    ensures Predict(live, ops[..k]).Some?
    decreases |ops|
  {
    if k < |ops| {
      var init := ops[..|ops| - 1];
      PredictPrefix(live, init, k);
      assert init[..k] == ops[..k];
    } else {
      assert ops[..k] == ops;
    }
  }

  lemma {:induction false} PredictTouched(live: map<Name, Rec>, ops: seq<Op>, n: Name)
    requires Predict(live, ops).Some?
    ensures n in Predict(live, ops).value <==> Touches(ops, n)
  {
    if ops != [] {
      var init, last := ops[..|ops| - 1], ops[|ops| - 1];
      PredictTouched(live, init, n);
      assert ops == init + [last];
      assert Touches(ops, n) <==> Touches(init, n) || last.spec.name == n;
    }
  }

  function VersionOf(live: map<Name, Rec>, n: Name): nat {
    if n in live then live[n].version else 0
  }

  function Times(ops: seq<Op>, n: Name): nat {
    if ops == [] then 0 else Times(ops[..|ops| - 1], n) + if ops[|ops| - 1].spec.name == n then 1 else 0
  }

  /** The check of the `i`-th operation, on the live pipelines and the operations before it. */
  ghost predicate Admits(live: map<Name, Rec>, ops: seq<Op>, i: nat)
    requires i < |ops|
  {
    var n := ops[i].spec.name;
    if ops[i].Create? then n !in live && !Touches(ops[..i], n)
    else Touches(ops[..i], n) || (n in live && live[n].version == ops[i].baseline)
  }

  lemma {:induction false} TimesTouched(ops: seq<Op>, n: Name)
    ensures Times(ops, n) > 0 <==> Touches(ops, n)
  {
    if ops != [] {
      var init, last := ops[..|ops| - 1], ops[|ops| - 1];
      TimesTouched(init, n);
      assert ops == init + [last];
      assert Touches(ops, n) <==> Touches(init, n) || last.spec.name == n;
    }
  }

  /**
    Phase 1 admits the operations exactly when every create is new and every
    first update finds the version it was staged against; each name then
    rises by as many versions as operations were staged on it.
   */
  lemma {:induction false} PredictExact(live: map<Name, Rec>, ops: seq<Op>)
    ensures Predict(live, ops).Some? <==> forall i :: 0 <= i < |ops| ==> Admits(live, ops, i)
    ensures Predict(live, ops).Some? ==>
              forall n <- Predict(live, ops).value :: Predict(live, ops).value[n] == VersionOf(live, n) + Times(ops, n)
  {
    if ops != [] {
      var k := |ops| - 1;
      var init := ops[..k];
      PredictExact(live, init);
      forall i | 0 <= i < k
        ensures Admits(live, ops, i) <==> Admits(live, init, i)
      {
        assert init[..i] == ops[..i];
      }
      if Predict(live, init).Some? {
        PredictTouched(live, init, ops[k].spec.name);
        TimesTouched(init, ops[k].spec.name);
        assert Admits(live, ops, k) <==> Predict(live, ops).Some?;
        assert (forall i :: 0 <= i < |ops| ==> Admits(live, ops, i)) <==> Admits(live, ops, k);
      } else {
        var i :| 0 <= i < k && !Admits(live, init, i);
        assert !Admits(live, ops, i);
      }
    }
  }

  /** Versions start at one. */
  ghost predicate Numbered(live: map<Name, Rec>) {
    forall n <- live :: live[n].version > 0
  }

  /** Phase 1 admits the operation on its own. */
  ghost predicate Passes(op: Op, now: map<Name, Rec>) {
    Predict(now, [op]).Some?
  }

  lemma PassesAlone(op: Op, now: map<Name, Rec>)
    ensures Passes(op, now) <==>
              if op.Create? then op.spec.name !in now else op.spec.name in now && now[op.spec.name].version == op.baseline
  {
    PredictExact(now, [op]);
    assert !Touches([op][..0], op.spec.name);
    assert Admits(now, [op], 0) <==> Passes(op, now);
  }

  /** What phase 1 guarantees about the first operation on a name. */
  lemma FirstTouch(live: map<Name, Rec>, ops: seq<Op>, i: nat)
    requires i < |ops| && Predict(live, ops).Some?
    requires !Touches(ops[..i], ops[i].spec.name)
    ensures ops[i].Create? ==> ops[i].spec.name !in live
    ensures ops[i].Update? ==> ops[i].spec.name in live && live[ops[i].spec.name].version == ops[i].baseline
  {
    PredictPrefix(live, ops, i + 1);
    assert ops[..i + 1][..i] == ops[..i];
    PredictTouched(live, ops[..i], ops[i].spec.name);
  }

  /** A create is always the first operation on its name, which is not live. */
  lemma CreateIsNew(live: map<Name, Rec>, ops: seq<Op>, i: nat)
    requires i < |ops| && Predict(live, ops).Some? && ops[i].Create?
    ensures ops[i].spec.name !in live && !Touches(ops[..i], ops[i].spec.name)
  {
    PredictPrefix(live, ops, i + 1);
    assert ops[..i + 1][..i] == ops[..i];
    PredictTouched(live, ops[..i], ops[i].spec.name);
  }

  /** A pipeline changed since its first update was staged: the transaction is refused. */
  lemma OutsideChangeRefused(live: map<Name, Rec>, ops: seq<Op>, i: nat)
    requires i < |ops| && ops[i].Update? && !Touches(ops[..i], ops[i].spec.name)
    requires ops[i].spec.name in live ==> live[ops[i].spec.name].version != ops[i].baseline
    ensures Predict(live, ops).None?
  {
    if Predict(live, ops).Some? {
      FirstTouch(live, ops, i);
    }
  }

  // ---- phase 2: the effect of applying ----

  /** An update may not switch the statistics off. */
  predicate Applicable(live: map<Name, Rec>, op: Op) {
    op.Create? || (op.spec.name in live && (live[op.spec.name].spec.stats ==> op.spec.stats))
  }

  function Applied(live: map<Name, Rec>, op: Op): map<Name, Rec>
    requires Applicable(live, op)
  {
    var n := op.spec.name;
    if op.Create? then live[n := Rec(op.spec, 1, false)]
    else live[n := Rec(op.spec, live[n].version + 1, live[n].stopped)]
  }

  function LastSpec(ops: seq<Op>, n: Name): Option<Spec> {
    if ops == [] then None
    else if ops[|ops| - 1].spec.name == n then Some(ops[|ops| - 1].spec)
    else LastSpec(ops[..|ops| - 1], n)
  }

  /** The names in `st` have its versions and the definitions in `specs`; the others are as before. */
  ghost predicate Matches(before: map<Name, Rec>, st: map<Name, nat>, specs: Name -> Option<Spec>, live: map<Name, Rec>) {
    && (forall n <- st :: n in live && live[n].version == st[n] && Some(live[n].spec) == specs(n))
    && (forall n <- st :: live[n].stopped <==> n in before && before[n].stopped)
    && (forall n :: n !in st ==> (n in live <==> n in before) && (n in live ==> live[n] == before[n]))
  }

  function LastSpecs(ops: seq<Op>): Name -> Option<Spec> {
    n => LastSpec(ops, n)
  }

  /** After applying `ops` to `before`: predicted versions and last specs, others as they were. */
  ghost predicate AppliedState(before: map<Name, Rec>, ops: seq<Op>, live: map<Name, Rec>)
    requires Predict(before, ops).Some?
  {
    Matches(before, Predict(before, ops).value, LastSpecs(ops), live)
  }

  ghost predicate VersionsGrow(before: map<Name, Rec>, live: map<Name, Rec>) {
    forall n <- before :: n in live && live[n].version >= before[n].version
  }

  /** Applying one operation gives its name the version phase 1 counted and its definition, and touches no other. */
  lemma ApplyOne(before: map<Name, Rec>, st: map<Name, nat>, specs: Name -> Option<Spec>, op: Op, live: map<Name, Rec>, specs': Name -> Option<Spec>)
    requires Applicable(live, op) && PredictOp(before, st, op).Some? && Matches(before, st, specs, live)
    requires op.Create? ==> op.spec.name !in before
    requires forall n :: specs'(n) == if op.spec.name == n then Some(op.spec) else specs(n)
    ensures Matches(before, PredictOp(before, st, op).value, specs', Applied(live, op))
  {
  }

  lemma OneMore(before: map<Name, Rec>, ops: seq<Op>, k: nat)
    requires k < |ops| && Predict(before, ops).Some?
    ensures Predict(before, ops[..k]).Some? && Predict(before, ops[..k + 1]).Some?
    ensures Predict(before, ops[..k + 1]) == PredictOp(before, Predict(before, ops[..k]).value, ops[k])
  {
    PredictPrefix(before, ops, k);
    PredictPrefix(before, ops, k + 1);
    assert ops[..k + 1][..k] == ops[..k] && ops[..k + 1][k] == ops[k];
  }

  lemma LastSpecNext(ops: seq<Op>, k: nat, n: Name)
    requires k < |ops|
    ensures LastSpec(ops[..k + 1], n) == if ops[k].spec.name == n then Some(ops[k].spec) else LastSpec(ops[..k], n)
  {
    assert ops[..k + 1][..k] == ops[..k] && ops[..k + 1][k] == ops[k];
  }

  lemma ApplyNext(before: map<Name, Rec>, ops: seq<Op>, live: map<Name, Rec>, k: nat)
    requires k < |ops| && Predict(before, ops).Some? && Predict(before, ops[..k]).Some?
    requires AppliedState(before, ops[..k], live) && Applicable(live, ops[k])
    ensures Predict(before, ops[..k + 1]).Some?
    ensures AppliedState(before, ops[..k + 1], Applied(live, ops[k]))
  {
    OneMore(before, ops, k);
    if ops[k].Create? {
      CreateIsNew(before, ops, k);
    }
    forall n
      ensures LastSpecs(ops[..k + 1])(n) == if ops[k].spec.name == n then Some(ops[k].spec) else LastSpecs(ops[..k])(n)
    {
      LastSpecNext(ops, k, n);
    }
    ApplyOne(before, Predict(before, ops[..k]).value, LastSpecs(ops[..k]), ops[k], live, LastSpecs(ops[..k + 1]));
  }

  lemma VersionsStillGrow(before: map<Name, Rec>, ops: seq<Op>, live: map<Name, Rec>, k: nat)
    requires k < |ops| && Predict(before, ops).Some?
    requires VersionsGrow(before, live) && Applicable(live, ops[k])
    ensures VersionsGrow(before, Applied(live, ops[k]))
  {
    if ops[k].Create? {
      CreateIsNew(before, ops, k);
    }
  }

  /** Every operation finds its pipeline updatable and its save succeeds. */
  predicate AppliesAll(live: map<Name, Rec>, ops: seq<Op>, saves: seq<bool>)
    requires |ops| == |saves|
    decreases |ops|
  {
    ops == [] || (Applicable(live, ops[0]) && saves[0] && AppliesAll(Applied(live, ops[0]), ops[1..], saves[1..]))
  }

  // ---- the dependency graph of the staged names ----

  /** The last staged definition of every name. */
  function Final(ops: seq<Op>): map<Name, Spec> {
    if ops == [] then map[] else Final(ops[..|ops| - 1])[ops[|ops| - 1].spec.name := ops[|ops| - 1].spec]
  }

  /** The other staged pipelines a definition reads, as often as it reads them. */
  function StagedInputs(names: set<Name>, name: Name, inputs: seq<Name>): seq<Name> {
    if inputs == [] then []
    else
      var rest := StagedInputs(names, name, inputs[..|inputs| - 1]);
      var i := inputs[|inputs| - 1];
      if i in names && i != name then rest + [i] else rest
  }

  function Dependencies(final: map<Name, Spec>): map<Name, seq<Name>> {
    map n | n in final :: StagedInputs(final.Keys, n, final[n].inputs)
  }

  /** Each input is a staged pipeline's output or an existing repository. */
  predicate InputsResolve(ops: seq<Op>, staged: set<Name>, repos: set<Name>) {
    forall op <- ops :: forall i <- op.spec.inputs :: i in staged || i in repos
  }

  // ---- the same, said of the operations directly ----

  lemma {:induction false} LastSpecIs(ops: seq<Op>, n: Name, i: nat)
    requires i < |ops| && ops[i].spec.name == n && forall k :: i < k < |ops| ==> ops[k].spec.name != n
    ensures LastSpec(ops, n) == Some(ops[i].spec)
  {
    if i < |ops| - 1 {
      LastSpecIs(ops[..|ops| - 1], n, i);
    }
  }

  lemma {:induction false} LastSpecTouched(ops: seq<Op>, n: Name)
    ensures LastSpec(ops, n).Some? <==> Touches(ops, n)
  {
    if ops != [] {
      var init, last := ops[..|ops| - 1], ops[|ops| - 1];
      LastSpecTouched(init, n);
      assert ops == init + [last];
      assert Touches(ops, n) <==> Touches(init, n) || last.spec.name == n;
    }
  }

  /** The final definitions are those of the last operation on each name. */
  lemma {:induction false} FinalExact(ops: seq<Op>, n: Name)
    ensures n in Final(ops) <==> Touches(ops, n)
    ensures n in Final(ops) ==> Some(Final(ops)[n]) == LastSpec(ops, n)
  {
    LastSpecTouched(ops, n);
    if ops != [] {
      FinalExact(ops[..|ops| - 1], n);
    }
  }

  /** A definition's dependencies are the other staged pipelines it reads, as often as it reads them. */
  lemma {:induction false} StagedInputsExact(names: set<Name>, name: Name, inputs: seq<Name>, d: Name)
    ensures TopoOrder.Times(StagedInputs(names, name, inputs), d)
         == if d in names && d != name then TopoOrder.Times(inputs, d) else 0
  {
    if inputs != [] {
      var k := |inputs| - 1;
      var rest := StagedInputs(names, name, inputs[..k]);
      StagedInputsExact(names, name, inputs[..k], d);
      TopoOrder.TimesAppend(rest, inputs[k], d);
    }
  }

  /** The last staged definition of `a` reads `b`, another staged pipeline. */
  ghost predicate Reads(ops: seq<Op>, a: Name, b: Name) {
    LastSpec(ops, a).Some? && b in LastSpec(ops, a).value.inputs && Touches(ops, b) && a != b
  }

  ghost predicate ReadCycle(ops: seq<Op>, p: seq<Name>) {
    |p| >= 2 && p[0] == p[|p| - 1] && forall i :: 0 <= i < |p| - 1 ==> Reads(ops, p[i], p[i + 1])
  }

  lemma DependsExactly(ops: seq<Op>, a: Name, b: Name)
    ensures b in TopoOrder.Deps(Dependencies(Final(ops)), a) <==> Reads(ops, a, b)
  {
    var final := Final(ops);
    FinalExact(ops, a);
    FinalExact(ops, b);
    LastSpecTouched(ops, a);
    if a in final {
      StagedInputsExact(final.Keys, a, final[a].inputs, b);
      TopoOrder.TimesIn(StagedInputs(final.Keys, a, final[a].inputs), b);
      TopoOrder.TimesIn(final[a].inputs, b);
    }
  }

  /** The order exists exactly when no staged definitions read each other in a circle. */
  lemma AcyclicExactly(ops: seq<Op>)
    ensures TopoOrder.Acyclic(Final(ops).Keys, Dependencies(Final(ops))) <==> forall p :: !ReadCycle(ops, p)
  {
    var names, deps := Final(ops).Keys, Dependencies(Final(ops));
    forall p
      ensures TopoOrder.Cycle(names, deps, p) <==> ReadCycle(ops, p)
    {
      if |p| >= 2 {
        forall i | 0 <= i < |p| - 1
          ensures p[i + 1] in TopoOrder.Deps(deps, p[i]) <==> Reads(ops, p[i], p[i + 1])
        {
          DependsExactly(ops, p[i], p[i + 1]);
        }
        if ReadCycle(ops, p) {
          forall i | 0 <= i < |p|
            ensures p[i] in names
          {
            var k := if i < |p| - 1 then i else 0;
            assert p[k] == p[i] && Reads(ops, p[k], p[k + 1]);
            LastSpecTouched(ops, p[k]);
            FinalExact(ops, p[k]);
          }
        }
      }
    }
  }

  /** The name's statistics are on, after the operations in `ops`. */
  ghost predicate StatsOn(live: map<Name, Rec>, ops: seq<Op>, n: Name) {
    if LastSpec(ops, n).Some? then LastSpec(ops, n).value.stats else n in live && live[n].spec.stats
  }

  /** The `i`-th operation's record is written: the write succeeds, and it is no update that switches statistics off. */
  ghost predicate Written(live: map<Name, Rec>, ops: seq<Op>, saves: seq<bool>, i: nat)
    requires i < |ops| == |saves|
  {
    saves[i] && (ops[i].Update? && StatsOn(live, ops[..i], ops[i].spec.name) ==> ops[i].spec.stats)
  }

  /** When a transaction commits, said of its operations one by one. */
  ghost predicate Commits(live: map<Name, Rec>, repos: set<Name>, ops: seq<Op>, saves: seq<bool>)
    requires |ops| == |saves|
  {
    && ops != []
    && (forall i :: 0 <= i < |ops| ==> Admits(live, ops, i))
    && (forall i, d :: 0 <= i < |ops| && d in ops[i].spec.inputs ==> d in repos || Touches(ops, d))
    && (forall p :: !ReadCycle(ops, p))
    && (forall i :: 0 <= i < |ops| ==> Written(live, ops, saves, i))
  }

  /** What a committed transaction leaves, name by name. */
  ghost predicate Committed(before: map<Name, Rec>, ops: seq<Op>, live: map<Name, Rec>) {
    forall n ::
      if Touches(ops, n) then
        && n in live && live[n].version == VersionOf(before, n) + Times(ops, n)
        && Some(live[n].spec) == LastSpec(ops, n)
        && (live[n].stopped <==> n in before && before[n].stopped)
      else (n in live <==> n in before) && (n in live ==> live[n] == before[n])
  }

  lemma AppliedCommitted(before: map<Name, Rec>, ops: seq<Op>, live: map<Name, Rec>)
    requires Predict(before, ops).Some? && AppliedState(before, ops, live)
    ensures Committed(before, ops, live)
  {
    PredictExact(before, ops);
    forall n
      ensures Touches(ops, n) <==> n in Predict(before, ops).value
    {
      PredictTouched(before, ops, n);
    }
  }

  lemma ApplicableExactly(before: map<Name, Rec>, ops: seq<Op>, live: map<Name, Rec>, k: nat)
    requires k < |ops| && Predict(before, ops).Some? && Predict(before, ops[..k]).Some?
    requires AppliedState(before, ops[..k], live)
    ensures Applicable(live, ops[k]) <==> (ops[k].Update? && StatsOn(before, ops[..k], ops[k].spec.name) ==> ops[k].spec.stats)
  {
    var n := ops[k].spec.name;
    PredictTouched(before, ops[..k], n);
    LastSpecTouched(ops[..k], n);
    PredictExact(before, ops);
    assert Admits(before, ops, k);
  }

  lemma {:induction false} AppliesExactly(before: map<Name, Rec>, ops: seq<Op>, saves: seq<bool>, live: map<Name, Rec>, k: nat)
    requires k <= |ops| == |saves| && Predict(before, ops).Some? && Predict(before, ops[..k]).Some?
    requires AppliedState(before, ops[..k], live)
    ensures AppliesAll(live, ops[k..], saves[k..]) <==> forall i :: k <= i < |ops| ==> Written(before, ops, saves, i)
    decreases |ops| - k
  {
    if k < |ops| {
      ApplicableExactly(before, ops, live, k);
      assert ops[k..][1..] == ops[k + 1..] && saves[k..][1..] == saves[k + 1..];
      if Applicable(live, ops[k]) {
        ApplyNext(before, ops, live, k);
        AppliesExactly(before, ops, saves, Applied(live, ops[k]), k + 1);
      }
      assert Written(before, ops, saves, k) <==> saves[k] && Applicable(live, ops[k]);
      assert (forall i :: k <= i < |ops| ==> Written(before, ops, saves, i)) <==>
             Written(before, ops, saves, k) && forall i :: k + 1 <= i < |ops| ==> Written(before, ops, saves, i);
    }
  }

  lemma AppliesFromStart(live: map<Name, Rec>, ops: seq<Op>, saves: seq<bool>)
    requires |ops| == |saves| && Predict(live, ops).Some?
    ensures AppliesAll(live, ops, saves) <==> forall i :: 0 <= i < |ops| ==> Written(live, ops, saves, i)
  {
    assert ops[..0] == [] && ops[0..] == ops && saves[0..] == saves;
    AppliesExactly(live, ops, saves, live, 0);
  }

  lemma ResolvesExactly(live: map<Name, Rec>, ops: seq<Op>, repos: set<Name>)
    requires Predict(live, ops).Some?
    ensures InputsResolve(ops, Predict(live, ops).value.Keys, repos) <==>
              forall i, d :: 0 <= i < |ops| && d in ops[i].spec.inputs ==> d in repos || Touches(ops, d)
  {
    var staged := Predict(live, ops).value.Keys;
    forall d
      ensures d in staged <==> Touches(ops, d)
    {
      PredictTouched(live, ops, d);
    }
    if InputsResolve(ops, staged, repos) {
      forall i, d | 0 <= i < |ops| && d in ops[i].spec.inputs
        ensures d in repos || Touches(ops, d)
      {
        assert ops[i] in ops;
      }
    }
  }

  lemma DependenciesInside(ops: seq<Op>)
    ensures TopoOrder.Inside(Final(ops).Keys, Dependencies(Final(ops)))
  {
    forall n, d | n in Final(ops).Keys && d in TopoOrder.Deps(Dependencies(Final(ops)), n)
      ensures d in Final(ops).Keys
    {
      DependsExactly(ops, n, d);
      FinalExact(ops, d);
    }
  }

  // ---- undoing ----

  ghost predicate Agrees(before: map<Name, Rec>, live: map<Name, Rec>, n: Name) {
    (n in live <==> n in before) && (n in live ==> live[n].spec == before[n].spec && live[n].version == before[n].version)
  }

  lemma UntouchedAgree(before: map<Name, Rec>, ops: seq<Op>, live: map<Name, Rec>)
    requires Predict(before, ops).Some? && AppliedState(before, ops, live)
    ensures forall n :: !Touches(ops, n) ==> Agrees(before, live, n)
  {
    forall n | !Touches(ops, n)
      ensures Agrees(before, live, n)
    {
      PredictTouched(before, ops, n);
    }
  }

  /** What is archived depends on the view alone. */
  lemma StillArchived(before: map<Name, Rec>, live: map<Name, Rec>, archive: map<VersionKey, Rec>)
    requires Archived(before, archive) && forall n :: Agrees(before, live, n)
    ensures Archived(live, archive)
  {
    forall n | n in live
      ensures Agrees(before, live, n)
    {
    }
  }

  lemma SameView(before: map<Name, Rec>, live: map<Name, Rec>)
    requires forall n :: Agrees(before, live, n)
    ensures View(live) == View(before)
  {
    var a, b := View(live), View(before);
    forall n
      ensures n in a <==> n in b
      ensures n in a ==> a[n] == b[n]
    {
      assert Agrees(before, live, n);
    }
  }

  lemma UndoStep(ops: seq<Op>, i: nat, before: map<Name, Rec>, was: map<Name, Rec>, live: map<Name, Rec>)
    requires i < |ops|
    requires forall n :: !Touches(ops[..i + 1], n) ==> Agrees(before, was, n)
    requires forall n :: n != ops[i].spec.name ==> (n in live <==> n in was) && (n in live ==> live[n] == was[n])
    requires !Touches(ops[..i], ops[i].spec.name) ==> Agrees(before, live, ops[i].spec.name)
    ensures forall n :: !Touches(ops[..i], n) ==> Agrees(before, live, n)
  {
    forall n | !Touches(ops[..i], n)
      ensures Agrees(before, live, n)
    {
      if n != ops[i].spec.name {
        assert ops[..i + 1] == ops[..i] + [ops[i]];
        assert !Touches(ops[..i + 1], n);
        assert Agrees(before, was, n);
      }
    }
  }

  // ---- the control plane ----

  class Control {
    var live: map<Name, Rec>
    var archive: map<VersionKey, Rec>
    var repos: set<Name>

    constructor ()
      ensures live == map[] && archive == map[] && repos == {}
    {
      live, archive, repos := map[], map[], {};
    }

    /**
      Stages one operation. At finish a create passes exactly when the name is
      still free, and an update exactly when the pipeline existed when it was
      staged and has the same version still.
     */
    method Stage(spec: Spec, update: bool) returns (op: Op)
      ensures op.spec == spec && (op.Update? <==> update)
      ensures forall now: map<Name, Rec> :: Numbered(now) ==>
                (Passes(op, now) <==>
                 if update then spec.name in live && spec.name in now && now[spec.name].version == live[spec.name].version
                 else spec.name !in now)
    {
      if update {
        var baseline := 0;
        if spec.name in live {
          baseline := live[spec.name].version;
        }
        op := Update(spec, baseline);
      } else {
        op := Create(spec);
      }
      forall now: map<Name, Rec> | Numbered(now)
        ensures Passes(op, now) <==>
                if update then spec.name in live && spec.name in now && now[spec.name].version == live[spec.name].version
                else spec.name !in now
      {
        PassesAlone(op, now);
      }
    }

    method Validate(ops: seq<Op>) returns (st: Option<map<Name, nat>>)
      ensures st == Predict(live, ops)
    {
      var acc := map[];
      for i := 0 to |ops|
        invariant Predict(live, ops[..i]) == Some(acc)
      {
        assert ops[..i + 1][..i] == ops[..i];
        var r := PredictOp(live, acc, ops[i]);
        if r.None? {
          if Predict(live, ops).Some? {
            PredictPrefix(live, ops, i + 1);
          }
          return None;
        }
        acc := r.value;
      }
      assert ops[..|ops|] == ops;
      return Some(acc);
    }

    /** One operation's apply: the archive copy is written first, then the live record, which may fail. */
    method ApplyOp(op: Op, saves: bool, ghost before: map<Name, Rec>) returns (ok: bool)
      requires Archived(before, archive) && VersionsGrow(before, live)
      requires op.Create? ==> op.spec.name !in before
      modifies this`live, this`archive
      ensures old(Archived(live, archive)) && (op.Create? ==> op.spec.name !in old(live)) ==> Archived(live, archive)
      ensures ok <==> saves && Applicable(old(live), op)
      ensures ok ==> live == Applied(old(live), op)
      ensures !ok ==> live == old(live)
      ensures Archived(before, archive)
    {
      var n := op.spec.name;
      if !Applicable(live, op) {
        return false;
      }
      var rec := Applied(live, op)[n];
      archive := archive[VersionKey(n, rec.version) := rec];
      if saves {
        live := live[n := rec];
      }
      return saves;
    }

    /**
      Finishes the transaction. It commits exactly when every check of phase 1
      passes and every operation applies; then each staged name has its
      predicted version and its last staged definition. Otherwise the live
      names, definitions and versions are as before. `saves` says which record
      writes succeed.
     */
    method Finish(ops: seq<Op>, saves: seq<bool>) returns (ok: bool)
      requires |saves| == |ops| && Archived(live, archive)
      modifies this`live, this`archive
      ensures ok <==> Commits(old(live), repos, ops, saves)
      ensures ok ==> Committed(old(live), ops, live)
      ensures !ok ==> View(live) == View(old(live))
      ensures Archived(live, archive)
    {
      var st := Validate(ops);
      PredictExact(live, ops);
      if st.Some? {
        ResolvesExactly(live, ops, repos);
        AppliesFromStart(live, ops, saves);
      }
      if ops == [] || st.None? || !InputsResolve(ops, st.value.Keys, repos) {
        return false;
      }
      var final := Final(ops);
      var order := TopoOrder.Order(final.Keys, Dependencies(final));
      DependenciesInside(ops);
      AcyclicExactly(ops);
      if order.None? {
        return false;
      }
      ghost var before := live;
      ok := ApplyAll(ops, saves);
      if ok {
        AppliedCommitted(before, ops, live);
      }
    }

    method ApplyAll(ops: seq<Op>, saves: seq<bool>) returns (ok: bool)
      requires |saves| == |ops| && Archived(live, archive) && Predict(live, ops).Some?
      modifies this`live, this`archive
      ensures ok <==> AppliesAll(old(live), ops, saves)
      ensures ok ==> AppliedState(old(live), ops, live)
      ensures !ok ==> View(live) == View(old(live))
      ensures Archived(live, archive)
    {
      ghost var before := live;
      for k := 0 to |ops|
        invariant Archived(before, archive) && Archived(live, archive) && VersionsGrow(before, live)
        invariant Predict(before, ops[..k]).Some? && AppliedState(before, ops[..k], live)
        invariant AppliesAll(before, ops, saves) == AppliesAll(live, ops[k..], saves[k..])
      {
        assert ops[k..][1..] == ops[k + 1..] && saves[k..][1..] == saves[k + 1..];
        if ops[k].Create? {
          CreateIsNew(before, ops, k);
          PredictTouched(before, ops[..k], ops[k].spec.name);
        }
        ghost var was := live;
        ok := ApplyOp(ops[k], saves[k], before);
        if !ok {
          UntouchedAgree(before, ops[..k], live);
          Rollback(ops, k, before);
          return;
        }
        ApplyNext(before, ops, was, k);
        VersionsStillGrow(before, ops, was, k);
      }
      assert ops[..|ops|] == ops;
      ok := true;
    }

    /**
      Undoes the applied operations, newest first: a created pipeline is
      removed with its archive, an updated one is restored from the archived
      copy of the version its operation was staged against.
     */
    method Rollback(ops: seq<Op>, applied: nat, ghost before: map<Name, Rec>)
      requires applied <= |ops| && Predict(before, ops).Some?
      requires Archived(before, archive)
      requires forall n :: !Touches(ops[..applied], n) ==> Agrees(before, live, n)
      modifies this`live, this`archive
      ensures View(live) == View(before) && Archived(live, archive)
      ensures forall i, k :: 0 <= i < applied && ops[i].Create? && k in archive ==> k.name != ops[i].spec.name
    {
      var i := applied;
      while i > 0
        invariant 0 <= i <= applied
        invariant Archived(before, archive)
        invariant forall n :: !Touches(ops[..i], n) ==> Agrees(before, live, n)
        invariant forall j, k :: i <= j < applied && ops[j].Create? && k in archive ==> k.name != ops[j].spec.name
      {
        i := i - 1;
        var op := ops[i];
        ghost var was := live;
        assert ops[..i + 1] == ops[..i] + [op];
        if op.Create? {
          CreateIsNew(before, ops, i);
        } else if !Touches(ops[..i], op.spec.name) {
          FirstTouch(before, ops, i);
        }
        RollbackOp(op, before);
        UndoStep(ops, i, before, was, live);
      }
      assert forall n :: !Touches(ops[..0], n);
      SameView(before, live);
      StillArchived(before, live, archive);
    }

    method RollbackOp(op: Op, ghost before: map<Name, Rec>)
      requires Archived(before, archive)
      modifies this`live, this`archive
      ensures forall n :: n != op.spec.name ==> (n in live <==> n in old(live)) && (n in live ==> live[n] == old(live)[n])
      ensures op.Create? ==> op.spec.name !in live && forall k <- archive :: k.name != op.spec.name
      ensures forall k <- archive :: k in old(archive)
      ensures op.Update? && op.spec.name in before && op.baseline == before[op.spec.name].version ==>
                Agrees(before, live, op.spec.name)
      ensures op.Update? || op.spec.name !in before ==> Archived(before, archive)
    {
      var n := op.spec.name;
      match op
      case Create(_) =>
        live := live - {n};
        archive := map k | k in archive && k.name != n :: archive[k];
      case Update(_, baseline) =>
        if VersionKey(n, baseline) in archive {
          live := live[n := archive[VersionKey(n, baseline)]];
        }
    }
  }
}
