// Total orders, the unique sorted form of a sequence, and byte-wise string order.
//
// The library sort is modelled by insertion sort: a sequence that is sorted by an
// antisymmetric order is determined by its multiset, so any other correct sort
// returns the same sequence.
module Ordering {

  ghost predicate TotalOrder<T(!new)>(le: (T, T) -> bool) {
    && (forall x :: le(x, x))
    && (forall x, y :: le(x, y) || le(y, x))
    && (forall x, y :: le(x, y) && le(y, x) ==> x == y)
    && (forall x, y, z :: le(x, y) && le(y, z) ==> le(x, z))
  }

  ghost predicate Sorted<T>(le: (T, T) -> bool, xs: seq<T>) {
    forall i, j :: 0 <= i < j < |xs| ==> le(xs[i], xs[j])
  }

  function Insert<T>(le: (T, T) -> bool, x: T, xs: seq<T>): (r: seq<T>)
    ensures multiset(r) == multiset(xs) + multiset{x}
  {
    if xs == [] || le(x, xs[0]) then [x] + xs
    else
      assert xs == [xs[0]] + xs[1..];
      [xs[0]] + Insert(le, x, xs[1..])
  }

  function Sort<T>(le: (T, T) -> bool, xs: seq<T>): (r: seq<T>)
    ensures multiset(r) == multiset(xs)
    ensures |r| == |xs|
  {
    if xs == [] then []
    else
      assert xs == [xs[0]] + xs[1..];
      var r := Insert(le, xs[0], Sort(le, xs[1..]));
      MultisetSize(r, xs);
      r
  }

  lemma MultisetSize<T>(a: seq<T>, b: seq<T>)
    requires multiset(a) == multiset(b)
    ensures |a| == |b|
  {
    assert |multiset(a)| == |a| && |multiset(b)| == |b|;
  }

  lemma {:induction false} InsertSorted<T(!new)>(le: (T, T) -> bool, x: T, xs: seq<T>)
    requires TotalOrder(le) && Sorted(le, xs)
    ensures Sorted(le, Insert(le, x, xs))
  {
    if xs == [] || le(x, xs[0]) {
    } else {
      InsertSorted(le, x, xs[1..]);
      var rest := Insert(le, x, xs[1..]);
      forall j | 0 <= j < |rest| ensures le(xs[0], rest[j]) {
        assert rest[j] in multiset(rest);
        assert rest[j] == x || rest[j] in xs[1..];
      }
    }
  }

  lemma {:induction false} SortSorted<T(!new)>(le: (T, T) -> bool, xs: seq<T>)
    requires TotalOrder(le)
    ensures Sorted(le, Sort(le, xs))
  {
    if xs != [] {
      SortSorted(le, xs[1..]);
      InsertSorted(le, xs[0], Sort(le, xs[1..]));
    }
  }

  // Sorted sequences with the same elements are the same sequence.
  lemma {:induction false} SortedUnique<T(!new)>(le: (T, T) -> bool, xs: seq<T>, ys: seq<T>)
    requires TotalOrder(le) && Sorted(le, xs) && Sorted(le, ys)
    requires multiset(xs) == multiset(ys)
    ensures xs == ys
  {
    MultisetSize(xs, ys);
    if xs != [] {
      SameHead(le, xs, ys);
      TailElements(xs);
      TailElements(ys);
      hide TotalOrder;
      SortedUnique(le, xs[1..], ys[1..]);
      assert xs == [xs[0]] + xs[1..] && ys == [ys[0]] + ys[1..];
    }
  }

  lemma SameHead<T(!new)>(le: (T, T) -> bool, xs: seq<T>, ys: seq<T>)
    requires TotalOrder(le) && Sorted(le, xs) && Sorted(le, ys) && multiset(xs) == multiset(ys)
    requires xs != [] && ys != []
    ensures xs[0] == ys[0]
  {
    assert xs[0] in multiset(ys) && ys[0] in multiset(xs);
    assert le(xs[0], ys[0]) && le(ys[0], xs[0]);
  }

  lemma TailElements<T>(xs: seq<T>)
    requires xs != []
    ensures multiset(xs[1..]) == multiset(xs) - multiset{xs[0]}
  {
    assert xs == [xs[0]] + xs[1..];
  }

  // Whatever order the elements arrive in, sorting gives the same answer.
  lemma SortOrderIndependent<T(!new)>(le: (T, T) -> bool, xs: seq<T>, ys: seq<T>)
    requires TotalOrder(le) && multiset(xs) == multiset(ys)
    ensures Sort(le, xs) == Sort(le, ys)
  {
    SortSorted(le, xs);
    SortSorted(le, ys);
    SortedUnique(le, Sort(le, xs), Sort(le, ys));
  }

  predicate AllDistinct<T(==)>(xs: seq<T>) {
    forall i, j :: 0 <= i < j < |xs| ==> xs[i] != xs[j]
  }

  lemma {:induction false} DistinctMultiplicity<T>(xs: seq<T>, x: T)
    requires AllDistinct(xs)
    ensures multiset(xs)[x] <= 1
  {
    if xs != [] {
      var front, last := xs[..|xs| - 1], xs[|xs| - 1];
      assert xs == front + [last];
      DistinctMultiplicity(front, x);
      if x == last { assert x !in front; }
    }
  }

  // Rearranging distinct elements leaves them distinct.
  lemma DistinctRearranged<T>(xs: seq<T>, ys: seq<T>)
    requires AllDistinct(xs) && multiset(xs) == multiset(ys)
    ensures AllDistinct(ys)
  {
    forall i, j | 0 <= i < j < |ys| ensures ys[i] != ys[j] {
      if ys[i] == ys[j] {
        assert ys == ys[..j] + ys[j..];
        assert ys[i] in ys[..j] && ys[i] in ys[j..];
        assert multiset(ys)[ys[i]] >= 2;
        DistinctMultiplicity(xs, ys[i]);
      }
    }
  }

  lemma SubsetSize<T>(a: set<T>, b: set<T>)
    requires a <= b
    ensures |a| <= |b|
  {
    assert b == a + (b - a);
  }

  // Lexicographic order on strings by code point, which is also the byte order of
  // their UTF-8 encodings.
  predicate StrLe(a: string, b: string) {
    a == [] || (b != [] && (a[0] < b[0] || (a[0] == b[0] && StrLe(a[1..], b[1..]))))
  }

  lemma {:induction false} StrLeTotal(a: string, b: string)
    ensures StrLe(a, a)
    ensures StrLe(a, b) || StrLe(b, a)
    ensures StrLe(a, b) && StrLe(b, a) ==> a == b
    decreases |a| + |b|
  {
    if a != [] {
      StrLeTotal(a[1..], if b == [] then [] else b[1..]);
      if b != [] && a[1..] == b[1..] && a[0] == b[0] {
        assert a == [a[0]] + a[1..] && b == [b[0]] + b[1..];
      }
    }
  }

  lemma {:induction false} StrLeTransitive(a: string, b: string, c: string)
    requires StrLe(a, b) && StrLe(b, c)
    ensures StrLe(a, c)
  {
    if a != [] && a[0] == b[0] == c[0] {
      StrLeTransitive(a[1..], b[1..], c[1..]);
    }
  }

  // A scored name: what both retrievers rank.
  datatype Scored = Scored(id: string, score: real)

  // Score descending, then name ascending.
  predicate RankLe(a: Scored, b: Scored) {
    a.score > b.score || (a.score == b.score && StrLe(a.id, b.id))
  }

  lemma RankLeTotalOrder()
    ensures TotalOrder(RankLe)
  {
    forall x: Scored, y: Scored
      ensures RankLe(x, x)
      ensures RankLe(x, y) || RankLe(y, x)
      ensures RankLe(x, y) && RankLe(y, x) ==> x == y
    {
      StrLeTotal(x.id, y.id);
    }
    forall x: Scored, y: Scored, z: Scored | RankLe(x, y) && RankLe(y, z)
      ensures RankLe(x, z)
    {
      if x.score == y.score == z.score { StrLeTransitive(x.id, y.id, z.id); }
    }
  }

  function Take<T>(k: nat, xs: seq<T>): seq<T> {
    if k <= |xs| then xs[..k] else xs
  }

  // The `k` best of a collection of scored names, best first.
  function TopK(k: nat, xs: seq<Scored>): seq<Scored> {
    Take(k, Sort(RankLe, xs))
  }

  // TopK is a function of the collection alone, it is ranked, and nothing left out
  // ranks strictly above anything kept.
  lemma TopKMeaning(k: nat, xs: seq<Scored>)
    ensures |TopK(k, xs)| == if k <= |xs| then k else |xs|
    ensures Sorted(RankLe, TopK(k, xs))
    ensures forall ys :: multiset(ys) == multiset(xs) ==> TopK(k, ys) == TopK(k, xs)
    ensures exists dropped: seq<Scored> ::
              && multiset(TopK(k, xs)) + multiset(dropped) == multiset(xs)
              && forall a, b :: a in TopK(k, xs) && b in dropped ==> RankLe(a, b)
  {
    RankLeTotalOrder();
    SortSorted(RankLe, xs);
    forall ys | multiset(ys) == multiset(xs) ensures TopK(k, ys) == TopK(k, xs) {
      SortOrderIndependent(RankLe, ys, xs);
    }
    var s := Sort(RankLe, xs);
    var n := if k <= |s| then k else |s|;
    assert s == s[..n] + s[n..];
    assert TopK(k, xs) == s[..n];
    assert multiset(s[..n]) + multiset(s[n..]) == multiset(s);
  }
}
