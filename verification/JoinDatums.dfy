/**
  Datums that combine several input sides: the cross product, and the join on
  a captured key. The program buckets each member's files by key; the
  definition it refines ranges over all tuples of files.
 */
module JoinDatums {
  import opened Sequences
  import opened Sorting

  /** One file of one input side. */
  datatype Side = Side(name: string, path: string)

  /** An input side of a join: its files, and whether its unmatched files are kept. */
  datatype Member = Member(name: string, outer: bool, files: seq<string>)

  /** The captured join key of a member's file, if its glob and selector give one. */
  type KeyOf = (nat, string) -> Option<string>

  // ---- products ----

  function Prepend(x: Side, ts: seq<seq<Side>>): seq<seq<Side>> {
    if ts == [] then [] else [[x] + ts[0]] + Prepend(x, ts[1..])
  }

  function Spreads(xs: seq<Side>, ts: seq<seq<Side>>): seq<seq<Side>> {
    if xs == [] then [] else Prepend(xs[0], ts) + Spreads(xs[1..], ts)
  }

  /** One choice per list, the first list varying slowest. */
  function Product(lists: seq<seq<Side>>): seq<seq<Side>> {
    if lists == [] then [[]] else Spreads(lists[0], Product(lists[1..]))
  }

  ghost predicate Picks(lists: seq<seq<Side>>, t: seq<Side>) {
    |t| == |lists| && forall i :: 0 <= i < |lists| ==> t[i] in lists[i]
  }

  lemma {:induction false} PrependFacts(x: Side, ts: seq<seq<Side>>)
    ensures |Prepend(x, ts)| == |ts|
    ensures forall i :: 0 <= i < |ts| ==> Prepend(x, ts)[i] == [x] + ts[i]
  {
    if ts != [] {
      PrependFacts(x, ts[1..]);
    }
  }

  lemma PrependIn(x: Side, ts: seq<seq<Side>>, t: seq<Side>)
    ensures t in Prepend(x, ts) <==> t != [] && t[0] == x && t[1..] in ts
  {
    PrependFacts(x, ts);
    var p := Prepend(x, ts);
    if t in p {
      var i :| 0 <= i < |p| && p[i] == t;
      assert t[1..] == ts[i];
    }
    if t != [] && t[0] == x && t[1..] in ts {
      var i :| 0 <= i < |ts| && ts[i] == t[1..];
      assert t == [x] + t[1..] == p[i];
    }
  }

  lemma PrependDistinct(x: Side, ts: seq<seq<Side>>)
    requires Distinct(ts)
    ensures Distinct(Prepend(x, ts))
  {
    PrependFacts(x, ts);
    forall i, j | 0 <= i < j < |ts|
      ensures [x] + ts[i] != [x] + ts[j]
    {
      assert ts[i] == ([x] + ts[i])[1..] && ts[j] == ([x] + ts[j])[1..];
    }
  }

  lemma {:induction false} SpreadsIn(xs: seq<Side>, ts: seq<seq<Side>>, t: seq<Side>)
    ensures t in Spreads(xs, ts) <==> t != [] && t[0] in xs && t[1..] in ts
  {
    if xs != [] {
      SpreadsIn(xs[1..], ts, t);
      PrependIn(xs[0], ts, t);
      assert xs == [xs[0]] + xs[1..];
    }
  }

  lemma {:induction false} SpreadsSize(xs: seq<Side>, ts: seq<seq<Side>>)
    ensures |Spreads(xs, ts)| == |xs| * |ts|
  {
    if xs != [] {
      SpreadsSize(xs[1..], ts);
      PrependFacts(xs[0], ts);
      assert |xs| * |ts| == |ts| + |xs[1..]| * |ts|;
    }
  }

  lemma {:induction false} SpreadsDistinct(xs: seq<Side>, ts: seq<seq<Side>>)
    requires Distinct(xs) && Distinct(ts)
    ensures Distinct(Spreads(xs, ts))
  {
    if xs != [] {
      SpreadsDistinct(xs[1..], ts);
      PrependDistinct(xs[0], ts);
      assert xs[0] !in xs[1..];
      forall t | t in Spreads(xs[1..], ts)
        ensures t !in Prepend(xs[0], ts)
      {
        PrependIn(xs[0], ts, t);
        SpreadsIn(xs[1..], ts, t);
      }
      DistinctConcat(Prepend(xs[0], ts), Spreads(xs[1..], ts));
    }
  }

  function Sizes(lists: seq<seq<Side>>): nat {
    if lists == [] then 1 else |lists[0]| * Sizes(lists[1..])
  }

  /** The product is exact: every choice once, and as many as the sizes multiply to. */
  lemma {:induction false} ProductExact(lists: seq<seq<Side>>)
    ensures forall t :: t in Product(lists) <==> Picks(lists, t)
    ensures |Product(lists)| == Sizes(lists)
    ensures (forall l <- lists :: Distinct(l)) ==> Distinct(Product(lists))
  {
    if lists == [] {
      forall t
        ensures t in Product(lists) <==> Picks(lists, t)
      {
        assert Picks(lists, t) <==> t == [];
      }
    } else {
      var rest := lists[1..];
      ProductExact(rest);
      SpreadsSize(lists[0], Product(rest));
      if forall l <- lists :: Distinct(l) {
        assert (forall l <- rest :: l in lists) && lists[0] in lists;
        SpreadsDistinct(lists[0], Product(rest));
      }
      forall t
        ensures t in Product(lists) <==> Picks(lists, t)
      {
        SpreadsIn(lists[0], Product(rest), t);
        if t != [] {
          assert Picks(lists, t) <==> t[0] in lists[0] && Picks(rest, t[1..]) by {
            assert forall i :: 0 <= i < |rest| && |t| == |lists| ==> t[i + 1] == t[1..][i] && lists[i + 1] == rest[i];
          }
        }
      }
    }
  }

  lemma {:induction false} SpreadsConcat(x: seq<Side>, y: seq<Side>, ts: seq<seq<Side>>)
    ensures Spreads(x + y, ts) == Spreads(x, ts) + Spreads(y, ts)
  {
    if x == [] {
      assert x + y == y;
    } else {
      assert (x + y)[1..] == x[1..] + y;
      SpreadsConcat(x[1..], y, ts);
    }
  }

  /** The order of the product: the first list varies slowest, the others as in their own product. */
  lemma ProductOrder(x: seq<Side>, s: Side, y: seq<Side>, rest: seq<seq<Side>>)
    ensures Product([x + [s] + y] + rest) == Product([x] + rest) + Product([[s]] + rest) + Product([y] + rest)
    ensures |Product([[s]] + rest)| == |Product(rest)|
    ensures forall k :: 0 <= k < |Product(rest)| ==> Product([[s]] + rest)[k] == [s] + Product(rest)[k]
  {
    var ts := Product(rest);
    assert ([x + [s] + y] + rest)[1..] == rest && ([x] + rest)[1..] == rest && ([[s]] + rest)[1..] == rest && ([y] + rest)[1..] == rest;
    SpreadsConcat(x + [s], y, ts);
    SpreadsConcat(x, [s], ts);
    assert [s][1..] == [] && Spreads([s], ts) == Prepend(s, ts) + [];
    PrependFacts(s, ts);
  }

  // ---- the join, by definition ----

  ghost predicate MemberFile(members: seq<Member>, i: nat, s: Side) {
    i < |members| && s.name == members[i].name && s.path in members[i].files
  }

  /** One file of every member, all with the key `k`. */
  ghost predicate JoinedOn(members: seq<Member>, key: KeyOf, k: string, t: seq<Side>) {
    |t| == |members| && forall i :: 0 <= i < |t| ==> MemberFile(members, i, t[i]) && key(i, t[i].path) == Some(k)
  }

  ghost predicate Joined(members: seq<Member>, key: KeyOf, t: seq<Side>) {
    members != [] && exists k :: JoinedOn(members, key, k, t)
  }

  ghost predicate HasKey(members: seq<Member>, key: KeyOf, i: nat, k: string)
    requires i < |members|
  {
    exists s :: MemberFile(members, i, s) && key(i, s.path) == Some(k)
  }

  /** Every member has a file with this key. */
  ghost predicate InAll(members: seq<Member>, key: KeyOf, k: string) {
    forall i :: 0 <= i < |members| ==> HasKey(members, key, i, k)
  }

  /** A file of an outer member whose key is not in every member. */
  ghost predicate Unmatched(members: seq<Member>, key: KeyOf, i: nat, s: Side) {
    && MemberFile(members, i, s) && members[i].outer
    && key(i, s.path).Some? && !InAll(members, key, key(i, s.path).value)
  }

  // ---- the join, by buckets ----

  type Bucket = map<string, seq<Side>>

  ghost predicate BucketOf(members: seq<Member>, key: KeyOf, i: nat, b: Bucket) {
    && (forall k, s :: s in Get(b, k) <==> MemberFile(members, i, s) && key(i, s.path) == Some(k))
    && (forall k :: Distinct(Get(b, k)))
  }

  /** The bucket after the files seen so far. */
  ghost predicate Bucketed(name: string, seen: seq<string>, keyed: string -> Option<string>, b: Bucket) {
    && (forall k, s :: s in Get(b, k) <==> s.name == name && s.path in seen && keyed(s.path) == Some(k))
    && (forall k :: Distinct(Get(b, k)))
    && (forall k <- b :: b[k] != [])
  }

  lemma Bucketing(name: string, seen: seq<string>, keyed: string -> Option<string>, b: Bucket, p: string)
    requires Bucketed(name, seen, keyed, b) && p !in seen
    ensures keyed(p).None? ==> Bucketed(name, seen + [p], keyed, b)
    ensures keyed(p).Some? ==>
              Bucketed(name, seen + [p], keyed, b[keyed(p).value := Get(b, keyed(p).value) + [Side(name, p)]])
  {
    if keyed(p).Some? {
      var at := keyed(p).value;
      var b' := b[at := Get(b, at) + [Side(name, p)]];
      assert Side(name, p) !in Get(b, at);
      forall k
        ensures Distinct(Get(b', k))
      {
        assert Distinct(Get(b, k));
      }
      forall k: string, s: Side
        ensures s in Get(b', k) <==> s.name == name && s.path in seen + [p] && keyed(s.path) == Some(k)
      {
        assert s in Get(b', k) <==> s in Get(b, k) || (k == at && s == Side(name, p));
      }
    }
  }

  method FillBucket(members: seq<Member>, key: KeyOf, i: nat) returns (b: Bucket)
    requires i < |members| && Distinct(members[i].files)
    ensures BucketOf(members, key, i, b)
    ensures forall k <- b :: b[k] != []
  {
    b := map[];
    var m := members[i];
    ghost var keyed := (p: string) => key(i, p);
    for n := 0 to |m.files|
      invariant Bucketed(m.name, m.files[..n], keyed, b)
    {
      var p := m.files[n];
      Bucketing(m.name, m.files[..n], keyed, b, p);
      assert m.files[..n + 1] == m.files[..n] + [p];
      var k := key(i, p);
      if k.Some? {
        b := b[k.value := Get(b, k.value) + [Side(m.name, p)]];
      }
    }
    assert m.files[..|m.files|] == m.files;
  }

  ghost predicate Filled(members: seq<Member>, key: KeyOf, buckets: seq<Bucket>) {
    && |buckets| == |members|
    && (forall i :: 0 <= i < |members| ==> BucketOf(members, key, i, buckets[i]))
    && (forall i, k :: 0 <= i < |members| && k in buckets[i] ==> buckets[i][k] != [])
  }

  /** The members' lists for one key. */
  function ListsFor(buckets: seq<Bucket>, k: string): seq<seq<Side>> {
    seq(|buckets|, i requires 0 <= i < |buckets| => Get(buckets[i], k))
  }

  predicate Everywhere(buckets: seq<Bucket>, k: string) {
    forall b <- buckets :: Get(b, k) != []
  }

  lemma EverywhereIsInAll(members: seq<Member>, key: KeyOf, buckets: seq<Bucket>, k: string)
    requires Filled(members, key, buckets)
    ensures Everywhere(buckets, k) <==> InAll(members, key, k)
  {
    if Everywhere(buckets, k) {
      forall i | 0 <= i < |members|
        ensures HasKey(members, key, i, k)
      {
        assert buckets[i] in buckets;
        var s := Get(buckets[i], k)[0];
        assert BucketOf(members, key, i, buckets[i]) && s in Get(buckets[i], k);
        assert MemberFile(members, i, s);
      }
    }
    if InAll(members, key, k) {
      forall i | 0 <= i < |buckets|
        ensures Get(buckets[i], k) != []
      {
        assert HasKey(members, key, i, k);
        var s :| MemberFile(members, i, s) && key(i, s.path) == Some(k);
        assert s in Get(buckets[i], k);
      }
    }
  }

  lemma PicksJoined(members: seq<Member>, key: KeyOf, buckets: seq<Bucket>, k: string, t: seq<Side>)
    requires Filled(members, key, buckets)
    ensures Picks(ListsFor(buckets, k), t) <==> JoinedOn(members, key, k, t)
  {
    var lists := ListsFor(buckets, k);
    if |t| == |members| {
      forall i | 0 <= i < |t|
        ensures t[i] in lists[i] <==> MemberFile(members, i, t[i]) && key(i, t[i].path) == Some(k)
      {
        assert lists[i] == Get(buckets[i], k) && BucketOf(members, key, i, buckets[i]);
      }
    }
  }

  lemma ListsDistinct(members: seq<Member>, key: KeyOf, buckets: seq<Bucket>, k: string)
    requires Filled(members, key, buckets)
    ensures forall l <- ListsFor(buckets, k) :: Distinct(l)
  {
    var lists := ListsFor(buckets, k);
    forall i | 0 <= i < |lists|
      ensures Distinct(lists[i])
    {
      assert lists[i] == Get(buckets[i], k) && BucketOf(members, key, i, buckets[i]);
    }
  }

  /** One key's product is the tuples joined on it, each once. */
  lemma ProductForKey(members: seq<Member>, key: KeyOf, buckets: seq<Bucket>, k: string)
    requires Filled(members, key, buckets)
    ensures Distinct(Product(ListsFor(buckets, k)))
    ensures forall t :: t in Product(ListsFor(buckets, k)) <==> JoinedOn(members, key, k, t)
  {
    ProductExact(ListsFor(buckets, k));
    ListsDistinct(members, key, buckets, k);
    forall t
      ensures t in Product(ListsFor(buckets, k)) <==> JoinedOn(members, key, k, t)
    {
      PicksJoined(members, key, buckets, k, t);
    }
  }

  function TupleKey(key: KeyOf, t: seq<Side>): string {
    if t != [] && key(0, t[0].path).Some? then key(0, t[0].path).value else ""
  }

  /** Tuples of a smaller key come first. */
  ghost predicate KeysOrdered(key: KeyOf, out: seq<seq<Side>>) {
    forall i, j :: 0 <= i < j < |out| ==> !StringLess(TupleKey(key, out[j]), TupleKey(key, out[i]))
  }

  lemma AppendOrdered(key: KeyOf, out: seq<seq<Side>>, more: seq<seq<Side>>, k: string)
    requires KeysOrdered(key, out) && (forall t <- more :: TupleKey(key, t) == k)
    requires forall t <- out :: !StringLess(k, TupleKey(key, t))
    ensures KeysOrdered(key, out + more)
  {
    StringTrichotomy(k, k);
    var all := out + more;
    forall i, j | 0 <= i < j < |all|
      ensures !StringLess(TupleKey(key, all[j]), TupleKey(key, all[i]))
    {
      if j >= |out| {
        assert all[j] == more[j - |out|] && all[j] in more;
        assert all[i] in out || all[i] in more;
      }
    }
  }

  lemma KeysBefore(members: seq<Member>, key: KeyOf, keys: seq<string>, n: nat, out: seq<seq<Side>>)
    requires members != [] && n < |keys| && SortedBy(StringLess, keys)
    requires forall t <- out :: exists k :: k in keys[..n] && JoinedOn(members, key, k, t)
    ensures forall t <- out :: !StringLess(keys[n], TupleKey(key, t))
  {
    forall t: seq<Side> | t in out
      ensures !StringLess(keys[n], TupleKey(key, t))
    {
      var k :| k in keys[..n] && JoinedOn(members, key, k, t);
      var i :| 0 <= i < n && keys[i] == k;
      assert key(0, t[0].path) == Some(k);
    }
  }

  /** The inner datums: each joined tuple once, in key order. */
  method InnerDatums(members: seq<Member>, key: KeyOf, buckets: seq<Bucket>, keys: seq<string>) returns (out: seq<seq<Side>>)
    requires |members| > 0 && Filled(members, key, buckets)
    requires Distinct(keys) && SortedBy(StringLess, keys) && forall k :: k in keys <==> InAll(members, key, k)
    ensures Distinct(out) && KeysOrdered(key, out)
    ensures forall t :: t in out <==> Joined(members, key, t)
  {
    out := [];
    for n := 0 to |keys|
      invariant Distinct(out) && KeysOrdered(key, out)
      invariant forall t :: t in out <==> exists k :: k in keys[..n] && JoinedOn(members, key, k, t)
    {
      var k := keys[n];
      assert keys[..n + 1] == keys[..n] + [k] && k !in keys[..n];
      ProductForKey(members, key, buckets, k);
      var more := Product(ListsFor(buckets, k));
      forall t: seq<Side> | t in more
        ensures t !in out
      {
        assert key(0, t[0].path) == Some(k);
      }
      DistinctConcat(out, more);
      KeysBefore(members, key, keys, n, out);
      AppendOrdered(key, out, more, k);
      ghost var before := out;
      out := out + more;
      forall t
        ensures t in out <==> exists x :: x in keys[..n + 1] && JoinedOn(members, key, x, t)
      {
        if t in before {
          var x :| x in keys[..n] && JoinedOn(members, key, x, t);
          assert x in keys[..n + 1];
        } else if t in more {
          assert k in keys[..n + 1];
        }
      }
    }
    assert keys[..|keys|] == keys;
    forall t | Joined(members, key, t)
      ensures t in out
    {
      var k :| JoinedOn(members, key, k, t);
      assert InAll(members, key, k) by {
        forall i | 0 <= i < |members|
          ensures HasKey(members, key, i, k)
        {
          assert MemberFile(members, i, t[i]);
        }
      }
    }
  }

  /** One member's unmatched files, each a datum of its own. */
  method OuterDatums(members: seq<Member>, key: KeyOf, i: nat, b: Bucket, inner: set<string>) returns (out: seq<Side>)
    requires i < |members| && members[i].outer && BucketOf(members, key, i, b)
    requires forall k :: k in inner <==> InAll(members, key, k)
    ensures Distinct(out)
    ensures forall s :: s in out <==> Unmatched(members, key, i, s)
  {
    out := [];
    var todo := b.Keys;
    while todo != {}
      invariant todo <= b.Keys
      invariant Distinct(out)
      invariant forall s :: s in out <==> exists k :: k in b && k !in todo && k !in inner && s in b[k]
    {
      var k :| k in todo;
      if k !in inner {
        forall s | s in b[k]
          ensures s !in out
        {
          assert s in Get(b, k);
          forall x | x in b && s in b[x]
            ensures x == k
          {
            assert s in Get(b, x);
            assert key(i, s.path) == Some(x) && key(i, s.path) == Some(k);
          }
        }
        assert Distinct(Get(b, k));
        DistinctConcat(out, b[k]);
        out := out + b[k];
      }
      todo := todo - {k};
    }
    forall s
      ensures s in out <==> Unmatched(members, key, i, s)
    {
      if s in out {
        var k :| k in b && k !in inner && s in b[k];
        assert s in Get(b, k);
      }
      if Unmatched(members, key, i, s) {
        var k := key(i, s.path).value;
        assert s in Get(b, k);
      }
    }
  }

  /** Every member's bucket, and all keys seen. */
  method FillAll(members: seq<Member>, key: KeyOf) returns (buckets: seq<Bucket>, keySet: set<string>)
    requires forall m <- members :: Distinct(m.files)
    ensures Filled(members, key, buckets)
    ensures forall n, k :: 0 <= n < |members| && k in buckets[n] ==> k in keySet
  {
    buckets, keySet := [], {};
    for i := 0 to |members|
      invariant |buckets| == i
      invariant forall n :: 0 <= n < i ==> BucketOf(members, key, n, buckets[n])
      invariant forall n, k :: 0 <= n < i && k in buckets[n] ==> buckets[n][k] != []
      invariant forall n, k :: 0 <= n < i && k in buckets[n] ==> k in keySet
    {
      assert members[i] in members;
      var b := FillBucket(members, key, i);
      buckets := buckets + [b];
      keySet := keySet + b.Keys;
    }
  }

  method AllOuters(members: seq<Member>, key: KeyOf, buckets: seq<Bucket>, inner: set<string>) returns (outers: seq<seq<Side>>)
    requires Filled(members, key, buckets)
    requires forall k :: k in inner <==> InAll(members, key, k)
    ensures |outers| == |members|
    ensures forall i :: 0 <= i < |members| ==> Distinct(outers[i]) && (!members[i].outer ==> outers[i] == [])
    ensures forall i, s :: 0 <= i < |members| ==> (s in outers[i] <==> Unmatched(members, key, i, s))
  {
    outers := [];
    for i := 0 to |members|
      invariant |outers| == i
      invariant forall n :: 0 <= n < i ==> Distinct(outers[n]) && (!members[n].outer ==> outers[n] == [])
      invariant forall n, s :: 0 <= n < i ==> (s in outers[n] <==> Unmatched(members, key, n, s))
    {
      var single: seq<Side> := [];
      if members[i].outer {
        single := OuterDatums(members, key, i, buckets[i], inner);
      }
      outers := outers + [single];
    }
  }

  /**
    The join's datums: first the inner ones, then each outer member's
    unmatched files. Together they are the relational join, nothing twice and
    nothing else.
   */
  method Join(members: seq<Member>, key: KeyOf) returns (inner: seq<seq<Side>>, outers: seq<seq<Side>>)
    requires forall m <- members :: Distinct(m.files)
    ensures Distinct(inner) && KeysOrdered(key, inner) && forall t :: t in inner <==> Joined(members, key, t)
    ensures |outers| == |members|
    ensures forall i :: 0 <= i < |members| ==> Distinct(outers[i]) && (!members[i].outer ==> outers[i] == [])
    ensures forall i, s :: 0 <= i < |members| ==> (s in outers[i] <==> Unmatched(members, key, i, s))
  {
    if members == [] {
      return [], [];
    }
    var buckets, keySet := FillAll(members, key);
    var innerKeys := set k | k in keySet && Everywhere(buckets, k);
    forall k
      ensures k in innerKeys <==> InAll(members, key, k)
    {
      EverywhereIsInAll(members, key, buckets, k);
      if Everywhere(buckets, k) {
        assert buckets[0] in buckets && k in buckets[0];
      }
    }
    var keys := SortedListing(innerKeys);
    inner := InnerDatums(members, key, buckets, keys);
    outers := AllOuters(members, key, buckets, innerKeys);
  }
}
