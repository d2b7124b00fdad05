/** Sorted enumerations of sets of byte strings (sort.Strings over map keys). */
module Sorting {
  import opened Bytes

  ghost predicate Ascending(ks: seq<Bytes>) {
    forall i, j | 0 <= i < j < |ks| :: Less(ks[i], ks[j])
  }

  ghost predicate Distinct(ks: seq<Bytes>) {
    forall i, j | 0 <= i < j < |ks| :: ks[i] != ks[j]
  }

  ghost predicate Enumerates(ks: seq<Bytes>, s: set<Bytes>) {
    Distinct(ks) && forall k :: k in ks <==> k in s
  }

  // ---------- a library sort, by any comparison ----------

  function InsertBy<T>(less: (T, T) -> bool, x: T, xs: seq<T>): seq<T> {
    if xs == [] then [x]
    else if less(x, xs[0]) then [x] + xs
    else [xs[0]] + InsertBy(less, x, xs[1..])
  }

  /** Stands for the library sorts. */
  function SortBy<T>(less: (T, T) -> bool, xs: seq<T>): seq<T> {
    if xs == [] then [] else InsertBy(less, xs[0], SortBy(less, xs[1..]))
  }

  /** No later element belongs before an earlier one. */
  ghost predicate Ordered<T>(less: (T, T) -> bool, xs: seq<T>) {
    forall i, j | 0 <= i < j < |xs| :: !less(xs[j], xs[i])
  }

  /** What a comparison must satisfy to be sorted by. */
  ghost predicate Comparison<T(!new)>(less: (T, T) -> bool) {
    && (forall a, b :: less(a, b) ==> !less(b, a))
    && (forall a, b, c :: !less(b, a) && !less(c, b) ==> !less(c, a))
  }

  lemma ConsMembers<T>(first: T, rest: seq<T>, x: T, inserted: seq<T>)
    requires multiset(inserted) == multiset(rest) + multiset{x}
    ensures multiset([first] + inserted) == multiset([first] + rest) + multiset{x}
    ensures multiset([x] + rest) == multiset(rest) + multiset{x}
  {
  }

  lemma {:induction false} InsertMembers<T>(less: (T, T) -> bool, x: T, xs: seq<T>)
    ensures multiset(InsertBy(less, x, xs)) == multiset(xs) + multiset{x}
  {
    if xs != [] {
      InsertMembers(less, x, xs[1..]);
      ConsMembers(xs[0], xs[1..], x, InsertBy(less, x, xs[1..]));
      assert xs == [xs[0]] + xs[1..];
    }
  }

  lemma ConsOrdered<T>(less: (T, T) -> bool, x: T, xs: seq<T>)
    requires Ordered(less, xs) && forall y | y in xs :: !less(y, x)
    ensures Ordered(less, [x] + xs)
  {
  }

  lemma FrontIsSmallest<T(!new)>(less: (T, T) -> bool, x: T, xs: seq<T>)
    requires Comparison(less) && Ordered(less, xs) && xs != [] && less(x, xs[0])
    ensures forall y | y in xs :: !less(y, x)
  {
    forall i | 0 <= i < |xs|
      ensures !less(xs[i], x)
    {
      assert !less(xs[0], x);
      assert i > 0 ==> !less(xs[i], xs[0]);
    }
  }

  lemma {:induction false} InsertOrders<T(!new)>(less: (T, T) -> bool, x: T, xs: seq<T>)
    requires Comparison(less) && Ordered(less, xs)
    ensures Ordered(less, InsertBy(less, x, xs))
  {
    if xs == [] {
    } else if less(x, xs[0]) {
      FrontIsSmallest(less, x, xs);
      ConsOrdered(less, x, xs);
    } else {
      var rest := InsertBy(less, x, xs[1..]);
      InsertOrders(less, x, xs[1..]);
      InsertMembers(less, x, xs[1..]);
      forall y | y in rest
        ensures !less(y, xs[0])
      {
        assert y in multiset(rest);
        assert y == x || y in xs[1..];
      }
      ConsOrdered(less, xs[0], rest);
    }
  }

  /** Sorting gives a permutation without inversions. */
  lemma {:induction false} SortSorts<T(!new)>(less: (T, T) -> bool, xs: seq<T>)
    requires Comparison(less)
    ensures multiset(SortBy(less, xs)) == multiset(xs) && Ordered(less, SortBy(less, xs))
    ensures |SortBy(less, xs)| == |xs|
  {
    if xs != [] {
      var rest := SortBy(less, xs[1..]);
      SortSorts(less, xs[1..]);
      InsertOrders(less, xs[0], rest);
      InsertMembers(less, xs[0], rest);
      assert xs == [xs[0]] + xs[1..];
      assert |multiset(SortBy(less, xs))| == |multiset(xs)|;
    }
  }

  lemma SameMembers<T>(a: seq<T>, b: seq<T>, x: T)
    requires multiset(a) == multiset(b)
    ensures x in a <==> x in b
  {
    assert x in a <==> x in multiset(a);
    assert x in b <==> x in multiset(b);
  }

  // ---------- byte strings ----------

  function SortStrings(ks: seq<Bytes>): seq<Bytes> {
    SortBy(Less, ks)
  }

  lemma LessCompares()
    ensures Comparison(Less)
  {
    forall a, b
      ensures Less(a, b) ==> !Less(b, a)
    {
      LessIsTotal(a, b);
    }
    forall a, b, c
      ensures !Less(b, a) && !Less(c, b) ==> !Less(c, a)
    {
      LessIsTotal(a, b);
      LessIsTotal(b, c);
      LessIsTotal(a, c);
      if Less(a, b) && Less(b, c) {
        LessIsTransitive(a, b, c);
      }
    }
  }

  lemma {:induction false} DistinctCounts(ks: seq<Bytes>)
    requires Distinct(ks)
    ensures forall k :: multiset(ks)[k] <= 1
  {
    if ks != [] {
      DistinctCounts(ks[1..]);
      assert ks == [ks[0]] + ks[1..];
      assert ks[0] !in multiset(ks[1..]);
    }
  }

  lemma CountsDistinct(ks: seq<Bytes>)
    requires forall k :: multiset(ks)[k] <= 1
    ensures Distinct(ks)
  {
    forall i, j | 0 <= i < j < |ks|
      ensures ks[i] != ks[j]
    {
      assert ks == ks[..j] + [ks[j]] + ks[j + 1..];
      assert ks[i] == ks[..j][i] && ks[..j][i] in multiset(ks[..j]);
      assert multiset(ks[..j])[ks[i]] >= 1 && multiset(ks)[ks[j]] <= 1;
      assert multiset(ks) == multiset(ks[..j]) + multiset{ks[j]} + multiset(ks[j + 1..]);
    }
  }

  lemma SortAscends(ks: seq<Bytes>)
    requires Distinct(ks)
    ensures Ascending(SortStrings(ks))
    ensures forall k :: k in SortStrings(ks) <==> k in ks
  {
    hide Less;
    var sorted := SortStrings(ks);
    LessCompares();
    SortSorts(Less, ks);
    DistinctCounts(ks);
    CountsDistinct(sorted);
    forall k
      ensures k in sorted <==> k in ks
    {
      SameMembers(sorted, ks, k);
    }
    forall i, j | 0 <= i < j < |sorted|
      ensures Less(sorted[i], sorted[j])
    {
      LessIsTotal(sorted[i], sorted[j]);
    }
  }

  lemma {:induction false} AscendingIsUnique(a: seq<Bytes>, b: seq<Bytes>)
    requires Ascending(a) && Ascending(b) && forall k :: k in a <==> k in b
    ensures a == b
  {
    hide Less;
    if a == [] {
      if b != [] {
        HasMember(b);
        assert false;
      }
    } else {
      assert a[0] in b;
      FirstAgrees(a, b);
      forall k
        ensures k in a[1..] <==> k in b[1..]
      {
        TailMembers(a, k);
        TailMembers(b, k);
      }
      AscendingIsUnique(a[1..], b[1..]);
      assert a == [a[0]] + a[1..] && b == [b[0]] + b[1..];
    }
  }

  lemma AscendingIsDistinct(ks: seq<Bytes>)
    requires Ascending(ks)
    ensures Distinct(ks)
  {
    hide Less;
    forall i, j | 0 <= i < j < |ks|
      ensures ks[i] != ks[j]
    {
      LessIsTotal(ks[i], ks[j]);
    }
  }

  lemma HasMember(ks: seq<Bytes>)
    requires ks != []
    ensures exists k :: k in ks
  {
    assert ks[0] in ks;
  }

  lemma FirstAgrees(a: seq<Bytes>, b: seq<Bytes>)
    requires Ascending(a) && Ascending(b) && a != [] && b != []
    requires forall k :: k in a <==> k in b
    ensures a[0] == b[0]
  {
    hide Less;
    assert a[0] in b && b[0] in a;
    LessIsTotal(a[0], b[0]);
  }

  lemma TailMembers(a: seq<Bytes>, k: Bytes)
    requires Ascending(a) && a != []
    ensures k in a[1..] <==> k in a && k != a[0]
  {
    hide Less;
    LessIsTotal(a[0], a[0]);
    assert a == [a[0]] + a[1..];
  }

  ghost function SetToSeq(s: set<Bytes>): (ks: seq<Bytes>)
    ensures Enumerates(ks, s)
  {
    if s == {} then []
    else
      var x :| x in s;
      [x] + SetToSeq(s - {x})
  }

  /** The one ascending enumeration of a set. */
  ghost function SortedKeys(s: set<Bytes>): (ks: seq<Bytes>)
    ensures Ascending(ks) && forall k :: k in ks <==> k in s
  {
    SortAscends(SetToSeq(s));
    SortStrings(SetToSeq(s))
  }

  /** Whatever order a map is enumerated in, sorting gives the same list. */
  lemma SortingForgetsOrder(ks: seq<Bytes>, s: set<Bytes>)
    requires Enumerates(ks, s)
    ensures SortStrings(ks) == SortedKeys(s)
  {
    SortAscends(ks);
    AscendingIsUnique(SortStrings(ks), SortedKeys(s));
  }
}
