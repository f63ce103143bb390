/** Sorting and the byte order of strings, as the source's library calls use them. */
module Sorting {
  import opened Sequences

  ghost predicate StrictOrder<T(!new)>(less: (T, T) -> bool) {
    && (forall a :: !less(a, a))
    && (forall a, b, c :: less(a, b) && less(b, c) ==> less(a, c))
  }

  /** A strict total order. */
  ghost predicate TotalOrder<T(!new)>(less: (T, T) -> bool) {
    && StrictOrder(less)
    && (forall a, b :: a != b ==> less(a, b) || less(b, a))
  }

  /** Nothing comes after something it should precede. */
  ghost predicate SortedBy<T(!new)>(less: (T, T) -> bool, q: seq<T>) {
    forall i, j :: 0 <= i < j < |q| ==> !less(q[j], q[i])
  }

  function Insert<T>(less: (T, T) -> bool, x: T, q: seq<T>): seq<T> {
    if q == [] then [x]
    else if less(q[|q| - 1], x) then q + [x]
    else Insert(less, x, q[..|q| - 1]) + [q[|q| - 1]]
  }

  function Sort<T>(less: (T, T) -> bool, q: seq<T>): seq<T> {
    if q == [] then [] else Insert(less, q[|q| - 1], Sort(less, q[..|q| - 1]))
  }

  lemma {:induction false} InsertIn<T>(less: (T, T) -> bool, x: T, q: seq<T>, y: T)
    ensures y in Insert(less, x, q) <==> y == x || y in q
  {
    if q != [] {
      var init := q[..|q| - 1];
      assert q == init + [q[|q| - 1]];
      if !less(q[|q| - 1], x) {
        InsertIn(less, x, init, y);
      }
    }
  }

  lemma {:induction false} InsertSorted<T(!new)>(less: (T, T) -> bool, x: T, q: seq<T>)
    requires StrictOrder(less) && SortedBy(less, q) && Distinct(q) && x !in q
    ensures SortedBy(less, Insert(less, x, q)) && Distinct(Insert(less, x, q))
  {
    if q != [] {
      var init, last := q[..|q| - 1], q[|q| - 1];
      assert q == init + [last];
      if less(last, x) {
        forall i | 0 <= i < |q|
          ensures !less(x, q[i])
        {
          assert !less(last, q[i]);
        }
      } else {
        InsertSorted(less, x, init);
        var r := Insert(less, x, init);
        forall i | 0 <= i < |r|
          ensures !less(last, r[i]) && r[i] != last
        {
          InsertIn(less, x, init, r[i]);
          assert r[i] in r;
          if r[i] in init {
            var k :| 0 <= k < |init| && init[k] == r[i];
            assert q[k] == r[i];
          }
        }
      }
    }
  }

  lemma {:induction false} InsertLength<T>(less: (T, T) -> bool, x: T, q: seq<T>)
    ensures |Insert(less, x, q)| == |q| + 1
  {
    if q != [] {
      InsertLength(less, x, q[..|q| - 1]);
    }
  }

  /** Sorting any sequence, repetitions included, keeps its length and its members. */
  lemma {:induction false} SortKeeps<T>(less: (T, T) -> bool, q: seq<T>)
    ensures |Sort(less, q)| == |q|
    ensures forall y :: y in Sort(less, q) <==> y in q
  {
    if q != [] {
      var init, last := q[..|q| - 1], q[|q| - 1];
      assert q == init + [last];
      SortKeeps(less, init);
      InsertLength(less, last, Sort(less, init));
      forall y
        ensures y in Sort(less, q) <==> y in q
      {
        InsertIn(less, last, Sort(less, init), y);
      }
    }
  }

  /** The sorted sequence has the same elements, each as before once. */
  lemma {:induction false} SortCorrect<T(!new)>(less: (T, T) -> bool, q: seq<T>)
    requires StrictOrder(less) && Distinct(q)
    ensures SortedBy(less, Sort(less, q)) && Distinct(Sort(less, q))
    ensures forall y :: y in Sort(less, q) <==> y in q
    ensures |Sort(less, q)| == |q|
  {
    if q != [] {
      var init, last := q[..|q| - 1], q[|q| - 1];
      assert q == init + [last];
      SortCorrect(less, init);
      assert last !in init;
      SortKeeps(less, init);
      InsertSorted(less, last, Sort(less, init));
    }
    SortKeeps(less, q);
  }

  // ---- strings ----

  /** Byte order: a proper prefix comes first. */
  predicate StringLess(a: string, b: string) {
    if b == [] then false
    else if a == [] then true
    else a[0] < b[0] || (a[0] == b[0] && StringLess(a[1..], b[1..]))
  }

  lemma {:induction false} StringTrichotomy(a: string, b: string)
    ensures !StringLess(a, a)
    ensures a != b ==> StringLess(a, b) || StringLess(b, a)
  {
    if a != [] {
      StringTrichotomy(a[1..], if b == [] then [] else b[1..]);
      if b != [] && a[0] == b[0] && a[1..] == b[1..] {
        assert a == [a[0]] + a[1..] && b == [b[0]] + b[1..];
      }
    }
  }

  lemma {:induction false} StringTransitive(a: string, b: string, c: string)
    requires StringLess(a, b) && StringLess(b, c)
    ensures StringLess(a, c)
  {
    if a != [] && a[0] == b[0] == c[0] {
      StringTransitive(a[1..], b[1..], c[1..]);
    }
  }

  lemma StringsOrdered()
    ensures TotalOrder(StringLess)
  {
    forall a: string, b: string
      ensures !StringLess(a, a)
      ensures a != b ==> StringLess(a, b) || StringLess(b, a)
    {
      StringTrichotomy(a, b);
    }
    forall a: string, b: string, c: string | StringLess(a, b) && StringLess(b, c)
      ensures StringLess(a, c)
    {
      StringTransitive(a, b, c);
    }
  }

  // ---- listing a set ----

  /** A set's elements in some order, as a map iteration yields them. */
  method Listing(s: set<string>) returns (q: seq<string>)
    ensures Distinct(q) && forall x :: x in q <==> x in s
  {
    q := [];
    var todo := s;
    while todo != {}
      invariant todo <= s
      invariant Distinct(q) && forall x :: x in q <==> x in s && x !in todo
    {
      var x :| x in todo;
      todo := todo - {x};
      q := q + [x];
    }
  }

  method SortedListing(s: set<string>) returns (q: seq<string>)
    ensures Distinct(q) && SortedBy(StringLess, q) && forall x :: x in q <==> x in s
  {
    var l := Listing(s);
    StringsOrdered();
    SortCorrect(StringLess, l);
    q := Sort(StringLess, l);
  }
}
