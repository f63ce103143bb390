/** Facts about sequences and finite sets that several components share. */
module Sequences {
  datatype Option<+T> = None | Some(value: T)

  ghost predicate Distinct<T>(q: seq<T>) {
    forall i, j :: 0 <= i < j < |q| ==> q[i] != q[j]
  }

  ghost function Elements<T>(q: seq<T>): set<T> {
    set x <- q
  }

  /** `q` without the members of `out`, in the same order. */
  function Kept<T(==)>(q: seq<T>, out: set<T>): seq<T> {
    if q == [] then []
    else if q[0] in out then Kept(q[1..], out)
    else [q[0]] + Kept(q[1..], out)
  }

  /** What `index` lists under `k`; nothing for an unknown key. */
  function Get<K, V>(index: map<K, seq<V>>, k: K): seq<V> {
    if k in index then index[k] else []
  }

  lemma {:induction false} KeptIn<T>(q: seq<T>, out: set<T>, x: T)
    ensures x in Kept(q, out) <==> x in q && x !in out
  {
    if q != [] {
      assert q == [q[0]] + q[1..];
      KeptIn(q[1..], out, x);
    }
  }

  lemma {:induction false} KeptDistinct<T>(q: seq<T>, out: set<T>)
    requires Distinct(q)
    ensures Distinct(Kept(q, out))
  {
    if q != [] {
      KeptDistinct(q[1..], out);
      KeptIn(q[1..], out, q[0]);
      assert q[0] !in q[1..];
    }
  }

  lemma {:induction false} KeptAppend<T>(q: seq<T>, out: set<T>, x: T)
    ensures Kept(q + [x], out) == Kept(q, out) + if x in out then [] else [x]
  {
    if q != [] {
      assert (q + [x])[1..] == q[1..] + [x];
      KeptAppend(q[1..], out, x);
    }
  }

  lemma {:induction false} KeptSame<T>(q: seq<T>, out: set<T>, x: T)
    requires x !in q
    ensures Kept(q, out + {x}) == Kept(q, out)
  {
    if q != [] {
      KeptSame(q[1..], out, x);
    }
  }

  /** Keeping does not change the order. */
  lemma {:induction false} KeptOrder<T>(q: seq<T>, out: set<T>, a: nat, b: nat) returns (i: nat, k: nat)
    requires a < b < |q| && q[a] !in out && q[b] !in out
    ensures i < k < |Kept(q, out)| && Kept(q, out)[i] == q[a] && Kept(q, out)[k] == q[b]
  {
    var rest := Kept(q[1..], out);
    if a == 0 {
      KeptIn(q[1..], out, q[b]);
      assert q[1..][b - 1] == q[b];
      var m :| 0 <= m < |rest| && rest[m] == q[b];
      i, k := 0, m + 1;
    } else {
      i, k := KeptOrder(q[1..], out, a - 1, b - 1);
      if q[0] !in out {
        i, k := i + 1, k + 1;
      }
    }
  }

  lemma {:induction false} SubsetSize<T>(a: set<T>, b: set<T>)
    requires a <= b
    ensures |a| <= |b|
    ensures |a| == |b| ==> a == b
  {
    assert |b - a| == |b| - |a|;
    if a != b {
      var x :| x in b - a;
    }
  }

  lemma {:induction false} DistinctSize<T>(q: seq<T>)
    requires Distinct(q)
    ensures |Elements(q)| == |q|
  {
    if q != [] {
      var last := q[|q| - 1];
      var init := q[..|q| - 1];
      DistinctSize(init);
      assert q == init + [last];
      assert last !in Elements(init);
      assert Elements(q) == Elements(init) + {last};
    }
  }

  lemma {:induction false} SetSize<T>(q: seq<T>)
    ensures |Elements(q)| <= |q|
  {
    if q != [] {
      var init := q[..|q| - 1];
      SetSize(init);
      assert q == init + [q[|q| - 1]];
      assert Elements(q) == Elements(init) + {q[|q| - 1]};
    }
  }

  /** A repetition makes the set smaller than the sequence. */
  lemma RepeatedSize<T>(q: seq<T>, i: nat, j: nat)
    requires i < j < |q| && q[i] == q[j]
    ensures |Elements(q)| < |q|
  {
    var rest := q[..j] + q[j + 1..];
    forall x | x in q
      ensures x in rest
    {
      var k :| 0 <= k < |q| && q[k] == x;
      if k == j {
        assert rest[i] == x;
      } else {
        assert rest[if k < j then k else k - 1] == x;
      }
    }
    SetSize(rest);
    SubsetSize(Elements(q), Elements(rest));
  }

  /** A sequence longer than the set it draws from repeats an element. */
  lemma Pigeonhole<T>(q: seq<T>, s: set<T>) returns (i: nat, j: nat)
    requires forall x <- q :: x in s
    requires |q| > |s|
    ensures i < j < |q| && q[i] == q[j]
  {
    if Distinct(q) {
      DistinctSize(q);
      SubsetSize(Elements(q), s);
      assert false;
    }
    i, j :| 0 <= i < j < |q| && q[i] == q[j];
  }

  lemma DistinctConcat<T>(a: seq<T>, b: seq<T>)
    requires Distinct(a) && Distinct(b) && forall x <- b :: x !in a
    ensures Distinct(a + b)
  {
    assert forall i :: 0 <= i < |b| ==> b[i] in b;
  }

  lemma DistinctParts<T>(a: seq<T>, b: seq<T>)
    requires Distinct(a + b)
    ensures Distinct(b) && forall x <- b :: x !in a
  {
    var all := a + b;
    assert forall i :: 0 <= i < |a| ==> all[i] == a[i];
    assert forall i :: 0 <= i < |b| ==> all[|a| + i] == b[i];
  }

  /** Moving the next element over leaves the whole as it was. */
  lemma HeadMoves<T>(done: seq<T>, todo: seq<T>, k: nat)
    requires k < |todo|
    ensures done + [todo[k]] + todo[k + 1..] == done + todo[k..]
  {
  }

  /** What each step hands on stays true. */
  lemma {:induction false} Persists(holds: seq<bool>, i: nat, k: nat)
    requires forall n :: 0 <= n < |holds| - 1 && holds[n] ==> holds[n + 1]
    requires i <= k < |holds| && holds[i]
    ensures holds[k]
  {
    if i < k {
      Persists(holds, i, k - 1);
    }
  }

  lemma CancelPrefix<T>(a: seq<T>, c: seq<T>, b: seq<T>, d: seq<T>)
    requires a + c == b + d && |a| == |b|
    ensures a == b && c == d
  {
    assert a == (a + c)[..|a|] && b == (b + d)[..|b|];
    assert c == (a + c)[|a|..] && d == (b + d)[|b|..];
  }

  /** Different multiples of `n` are at least `n` apart. */
  lemma {:induction false} Spread(n: nat, a: nat, b: nat)
    requires a > b
    ensures n * a >= n * b + n
  {
    assert n * a == n * (a - 1) + n;
    if a > b + 1 {
      Spread(n, a - 1, b);
    }
  }
}
