/**
  Chunking a side's datums: by a target count or by a target size in bytes.
  A chunk is a run of neighbouring datums merged into one.
 */
module Chunking {
  import opened Sequences
  import opened Enumerate

  /** A target datum count, or else a target size; a value that is not positive is unset. */
  datatype ChunkSpec = ChunkSpec(number: int, bytes: int)

  predicate Unset(spec: Option<ChunkSpec>) {
    spec.None? || (spec.value.number <= 0 && spec.value.bytes <= 0)
  }

  function Files(sides: seq<Side>): seq<string> {
    if sides == [] then [] else Files(sides[..|sides| - 1]) + sides[|sides| - 1].files
  }

  /** The joined identity of a chunk's members. */
  function JoinedId(sides: seq<Side>): string {
    if sides == [] then ""
    else
      var id := JoinedId(sides[..|sides| - 1]);
      (if id != "" then id + "," else id) + sides[|sides| - 1].id
  }

  function Merge(sides: seq<Side>): Side {
    Side(JoinedId(sides), Files(sides))
  }

  lemma {:induction false} JoinedNonempty(sides: seq<Side>)
    requires sides != [] && forall s <- sides :: s.id != ""
    ensures JoinedId(sides) != ""
  {
    assert sides[|sides| - 1] in sides;
  }

  /** A chunk's identity lists its members' identities, separated by commas. */
  lemma {:induction false} JoinedConcat(a: seq<Side>, b: seq<Side>)
    requires a != [] && b != [] && (forall s <- a :: s.id != "") && (forall s <- b :: s.id != "")
    ensures JoinedId(a + b) == JoinedId(a) + "," + JoinedId(b)
    ensures |b| == 1 ==> JoinedId(b) == b[0].id
  {
    var init, last := b[..|b| - 1], b[|b| - 1];
    assert (a + b)[..|a + b| - 1] == a + init;
    if init == [] {
      assert a + init == a;
      JoinedNonempty(a);
    } else {
      assert forall s <- init :: s in b;
      JoinedConcat(a, init);
      JoinedNonempty(init);
    }
  }

  function Flatten(groups: seq<seq<Side>>): seq<Side> {
    if groups == [] then [] else Flatten(groups[..|groups| - 1]) + groups[|groups| - 1]
  }

  function MergeAll(groups: seq<seq<Side>>): seq<Side> {
    seq(|groups|, i requires 0 <= i < |groups| => Merge(groups[i]))
  }

  lemma {:induction false} FilesConcat(a: seq<Side>, b: seq<Side>)
    ensures Files(a + b) == Files(a) + Files(b)
  {
    if b == [] {
      assert a + b == a;
    } else {
      assert (a + b)[..|a + b| - 1] == a + b[..|b| - 1];
      FilesConcat(a, b[..|b| - 1]);
    }
  }

  /** Merging a grouping keeps the file sequence. */
  lemma {:induction false} MergeKeepsFiles(groups: seq<seq<Side>>)
    ensures Files(MergeAll(groups)) == Files(Flatten(groups))
  {
    if groups != [] {
      var init, last := groups[..|groups| - 1], groups[|groups| - 1];
      MergeKeepsFiles(init);
      assert MergeAll(groups)[..|groups| - 1] == MergeAll(init);
      FilesConcat(Flatten(init), last);
    }
  }

  lemma FlattenSnoc(groups: seq<seq<Side>>, g: seq<Side>)
    ensures Flatten(groups + [g]) == Flatten(groups) + g
  {
    assert (groups + [g])[..|groups|] == groups;
  }

  function Total(sides: seq<Side>, size: Side -> nat): nat {
    if sides == [] then 0 else Total(sides[..|sides| - 1], size) + size(sides[|sides| - 1])
  }

  /** Within the limit, unless a single member already exceeds it. */
  predicate Fits(group: seq<Side>, size: Side -> nat, limit: nat) {
    |group| == 1 || Total(group, size) <= limit
  }

  /** Each chunk was closed because the next member no longer fitted. */
  predicate Full(groups: seq<seq<Side>>, size: Side -> nat, limit: nat) {
    forall i :: 0 < i < |groups| ==> groups[i] != [] && Total(groups[i - 1], size) + size(groups[i][0]) > limit
  }

  /** A grouping of `sides` into nonempty runs. */
  ghost predicate Grouping(sides: seq<Side>, groups: seq<seq<Side>>) {
    Flatten(groups) == sides && forall g <- groups :: g != []
  }

  // ---- by count ----

  /** `per` added `k` times. */
  function Times(per: nat, k: nat): nat {
    if k == 0 then 0 else Times(per, k - 1) + per
  }

  /** Chunks of `per` members, the last one of what is left. */
  predicate Even(groups: seq<seq<Side>>, per: nat) {
    && (forall k :: 0 <= k < |groups| - 1 ==> |groups[k]| == per)
    && (|groups| > 0 ==> |groups[|groups| - 1]| <= per)
  }

  /** Runs of `per` members; only the last may be shorter. */
  method GroupEvery(sides: seq<Side>, per: nat) returns (groups: seq<seq<Side>>)
    requires per > 0
    ensures Grouping(sides, groups)
    ensures |groups| > 0 ==> Times(per, |groups|) < |sides| + per
    ensures Even(groups, per) && (sides == [] ==> groups == [])
  {
    groups := [];
    var i := 0;
    while i < |sides|
      invariant 0 <= i && Grouping(sides[..if i <= |sides| then i else |sides|], groups)
      invariant forall k :: 0 <= k < |groups| && (k < |groups| - 1 || i <= |sides|) ==> |groups[k]| == per
      invariant |groups| > 0 ==> |groups[|groups| - 1]| <= per
      invariant i == Times(per, |groups|) && (|groups| > 0 ==> i < |sides| + per)
      decreases |sides| - i
    {
      var end := i + per;
      if end > |sides| {
        end := |sides|;
      }
      FlattenSnoc(groups, sides[i..end]);
      assert sides[..i] + sides[i..end] == sides[..end];
      groups := groups + [sides[i..end]];
      i := i + per;
    }
    assert sides[..|sides|] == sides;
  }

  lemma {:induction false} TimesIsProduct(per: nat, k: nat)
    ensures Times(per, k) == per * k
  {
    if k > 0 {
      TimesIsProduct(per, k - 1);
    }
  }

  lemma FewEnough(n: nat, number: nat, per: nat, k: nat)
    requires number > 0 && (per == (n + number - 1) / number || (per == 1 && n == 0)) && per > 0
    requires k > 0 ==> Times(per, k) < n + per
    ensures k <= number
  {
    TimesIsProduct(per, k);
    assert per * number >= n;
    if k > number {
      Spread(per, k, number);
    }
  }

  /** The members per chunk: the fewest with which `number` chunks take them all. */
  function Share(n: nat, number: nat): nat
    requires number > 0
  {
    (n + number - 1) / number
  }

  lemma ShareIsLeast(n: nat, number: nat, per: nat)
    requires number > 0
    ensures per * number >= n <==> per >= Share(n, number)
  {
    var s := Share(n, number);
    assert s * number >= n && (s > 0 ==> (s - 1) * number < n);
    if per >= s {
      assert per * number >= s * number by {
        if per > s {
          Spread(number, per, s);
          assert number * per == per * number && number * s == s * number;
        }
      }
    } else {
      assert (s - 1) * number >= per * number by {
        if s - 1 > per {
          Spread(number, s - 1, per);
          assert number * (s - 1) == (s - 1) * number && number * per == per * number;
        }
      }
    }
  }

  method GroupByCount(sides: seq<Side>, number: nat) returns (groups: seq<seq<Side>>)
    requires number > 0
    ensures Grouping(sides, groups) && |groups| <= number && Even(groups, Share(|sides|, number))
  {
    var per := (|sides| + number - 1) / number;
    if per < 1 {
      per := 1;
    }
    groups := GroupEvery(sides, per);
    FewEnough(|sides|, number, per, |groups|);
  }

  // ---- by size ----

  lemma FullGrows(groups: seq<seq<Side>>, cur: seq<Side>, s: Side, size: Side -> nat, limit: nat)
    requires cur != [] && Full(groups + [cur], size, limit)
    ensures Full(groups + [cur + [s]], size, limit)
  {
    var was, now := groups + [cur], groups + [cur + [s]];
    forall i | 0 < i < |now|
      ensures now[i] != [] && Total(now[i - 1], size) + size(now[i][0]) > limit
    {
      assert was[i] != [] && was[i - 1] == now[i - 1] && was[i][0] == now[i][0];
    }
  }

  lemma FullCloses(groups: seq<seq<Side>>, s: Side, size: Side -> nat, limit: nat)
    requires Full(groups, size, limit)
    requires |groups| > 0 ==> Total(groups[|groups| - 1], size) + size(s) > limit
    ensures Full(groups + [[s]], size, limit)
  {
    var now := groups + [[s]];
    forall i | 0 < i < |now|
      ensures now[i] != [] && Total(now[i - 1], size) + size(now[i][0]) > limit
    {
      assert now[i - 1] == groups[i - 1];
      if i < |groups| {
        assert now[i] == groups[i];
      }
    }
  }

  method GroupBySize(sides: seq<Side>, size: Side -> nat, limit: nat) returns (groups: seq<seq<Side>>)
    ensures Grouping(sides, groups)
    ensures (forall g <- groups :: Fits(g, size, limit)) && Full(groups, size, limit)
  {
    groups := [];
    var cur: seq<Side> := [];
    var curSize := 0;
    for i := 0 to |sides|
      invariant Flatten(groups) + cur == sides[..i]
      invariant forall g <- groups :: g != [] && Fits(g, size, limit)
      invariant curSize == Total(cur, size)
      invariant if cur == [] then groups == [] else Fits(cur, size, limit) && Full(groups + [cur], size, limit)
    {
      var s := sides[i];
      assert sides[..i + 1] == sides[..i] + [s];
      assert (cur + [s])[..|cur|] == cur;
      if |cur| > 0 && curSize + size(s) > limit {
        FlattenSnoc(groups, cur);
        FullCloses(groups + [cur], s, size, limit);
        groups := groups + [cur];
        cur, curSize := [s], size(s);
      } else {
        if cur != [] {
          FullGrows(groups, cur, s, size, limit);
        }
        cur, curSize := cur + [s], curSize + size(s);
      }
      assert cur[..|cur| - 1] + [s] == cur;
    }
    assert sides[..|sides|] == sides;
    if |cur| > 0 {
      FlattenSnoc(groups, cur);
      groups := groups + [cur];
    }
  }

  /**
    The chunks of a side. Files are never split, dropped or reordered; a count
    is not exceeded; a size is exceeded only by a chunk of one member.
   */
  method ChunkSideDatums(sides: seq<Side>, spec: Option<ChunkSpec>, size: Side -> nat)
    returns (out: seq<Side>, groups: seq<seq<Side>>)
    ensures Files(out) == Files(sides)
    ensures spec.None? || (spec.value.number <= 0 && spec.value.bytes <= 0) ==> out == sides
    ensures spec.Some? && (spec.value.number > 0 || spec.value.bytes > 0) ==> out == MergeAll(groups) && Grouping(sides, groups)
    ensures spec.Some? && spec.value.number > 0 ==>
              |out| <= spec.value.number && Even(groups, Share(|sides|, spec.value.number))
    ensures spec.Some? && spec.value.number <= 0 && spec.value.bytes > 0 ==>
              (forall g <- groups :: Fits(g, size, spec.value.bytes)) && Full(groups, size, spec.value.bytes)
  {
    if Unset(spec) {
      return sides, [];
    }
    if spec.value.number > 0 {
      groups := GroupByCount(sides, spec.value.number);
    } else {
      groups := GroupBySize(sides, size, spec.value.bytes);
    }
    MergeKeepsFiles(groups);
    out := MergeAll(groups);
  }
}
