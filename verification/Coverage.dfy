// Reordering ranked hits so that every source is represented before any source repeats.
module Coverage {
  import opened Text
  import opened Ordering

  function Firsts<T>(hits: seq<T>, source: T -> string, seen: set<string>): seq<T> {
    if hits == [] then []
    else if source(hits[0]) in seen then Firsts(hits[1..], source, seen)
    else [hits[0]] + Firsts(hits[1..], source, seen + {source(hits[0])})
  }

  function Repeats<T>(hits: seq<T>, source: T -> string, seen: set<string>): seq<T> {
    if hits == [] then []
    else if source(hits[0]) in seen then [hits[0]] + Repeats(hits[1..], source, seen)
    else Repeats(hits[1..], source, seen + {source(hits[0])})
  }

  function Reordered<T>(hits: seq<T>, source: T -> string): seq<T> {
    Firsts(hits, source, {}) + Repeats(hits, source, {})
  }

  method CoverageFirstOrder<T>(hits: seq<T>, source: T -> string) returns (order: seq<T>)
    ensures order == Reordered(hits, source)
  {
    var seen: set<string> := {};
    var first, rest := [], [];
    assert hits[0..] == hits;
    for k := 0 to |hits|
      invariant first + Firsts(hits[k..], source, seen) == Firsts(hits, source, {})
      invariant rest + Repeats(hits[k..], source, seen) == Repeats(hits, source, {})
    {
      var hit := hits[k];
      assert hits[k..][0] == hit && hits[k..][1..] == hits[k + 1..];
      if source(hit) !in seen {
        seen := seen + {source(hit)};
        AppendAssociative(first, [hit], Firsts(hits[k + 1..], source, seen));
        first := first + [hit];
      } else {
        AppendAssociative(rest, [hit], Repeats(hits[k + 1..], source, seen));
        rest := rest + [hit];
      }
    }
    assert hits[|hits|..] == [];
    order := first + rest;
  }

  // ---------- what the order means ----------

  function Sources<T>(hits: seq<T>, source: T -> string): set<string> {
    if hits == [] then {} else Sources(hits[..|hits| - 1], source) + {source(hits[|hits| - 1])}
  }

  // The hits of one source, in order.
  function Of<T>(hits: seq<T>, source: T -> string, s: string): seq<T> {
    if hits == [] then []
    else (if source(hits[0]) == s then [hits[0]] else []) + Of(hits[1..], source, s)
  }

  lemma {:induction false} OfAppend<T>(a: seq<T>, b: seq<T>, source: T -> string, s: string)
    ensures Of(a + b, source, s) == Of(a, source, s) + Of(b, source, s)
  {
    if a == [] {
      assert a + b == b;
    } else {
      assert (a + b)[0] == a[0] && (a + b)[1..] == a[1..] + b;
      OfAppend(a[1..], b, source, s);
      AppendAssociative(if source(a[0]) == s then [a[0]] else [], Of(a[1..], source, s), Of(b, source, s));
    }
  }

  lemma {:induction false} OfSplits<T>(hits: seq<T>, source: T -> string, seen: set<string>, s: string)
    ensures var (first, again) := (Of(Firsts(hits, source, seen), source, s), Of(Repeats(hits, source, seen), source, s));
            first + again == Of(hits, source, s) && (s in seen ==> first == [])
  {
    if hits != [] {
      var hit, rest := hits[0], hits[1..];
      var now := seen + {source(hit)};
      OfSplits(rest, source, now, s);
      if source(hit) in seen {
        assert now == seen;
      }
    }
  }

  // No source's own ranking changes.
  lemma EachSourceKeepsItsOrder<T>(hits: seq<T>, source: T -> string, s: string)
    ensures Of(Reordered(hits, source), source, s) == Of(hits, source, s)
  {
    OfAppend(Firsts(hits, source, {}), Repeats(hits, source, {}), source, s);
    OfSplits(hits, source, {}, s);
  }

  lemma {:induction false} SameHits<T>(hits: seq<T>, source: T -> string, seen: set<string>)
    ensures multiset(Firsts(hits, source, seen) + Repeats(hits, source, seen)) == multiset(hits)
  {
    if hits != [] {
      var hit, rest := hits[0], hits[1..];
      var now := seen + {source(hit)};
      SameHits(rest, source, now);
      assert hits == [hit] + rest;
      if source(hit) in seen { assert now == seen; }
    }
  }

  // Nothing is lost or added.
  lemma ReorderedIsPermutation<T>(hits: seq<T>, source: T -> string)
    ensures multiset(Reordered(hits, source)) == multiset(hits)
  {
    SameHits(hits, source, {});
  }

  lemma {:induction false} SourcesAppend<T>(a: seq<T>, b: seq<T>, source: T -> string)
    ensures Sources(a + b, source) == Sources(a, source) + Sources(b, source)
    decreases |b|
  {
    if b == [] {
      assert a + b == a;
    } else {
      assert (a + b)[..|a + b| - 1] == a + b[..|b| - 1];
      SourcesAppend(a, b[..|b| - 1], source);
    }
  }

  lemma SourcesOfOne<T>(hit: T, source: T -> string)
    ensures Sources([hit], source) == {source(hit)}
  {
    assert [hit][..0] == [];
  }

  // The leading part holds one hit of every source not seen before.
  lemma {:induction false} FirstsCover<T>(hits: seq<T>, source: T -> string, seen: set<string>)
    ensures var firsts := Firsts(hits, source, seen);
            && Sources(firsts, source) == Sources(hits, source) - seen
            && |Sources(firsts, source)| == |firsts|
            && Sources(Repeats(hits, source, seen), source) <= Sources(hits, source)
  {
    if hits != [] {
      var hit, rest := hits[0], hits[1..];
      var now := seen + {source(hit)};
      FirstsCover(rest, source, now);
      assert hits == [hit] + rest;
      SourcesAppend([hit], rest, source);
      SourcesOfOne(hit, source);
      if source(hit) in seen {
        assert now == seen;
        SourcesAppend([hit], Repeats(rest, source, seen), source);
      } else {
        SourcesAppend([hit], Firsts(rest, source, now), source);
      }
    }
  }

  lemma {:induction false} SourcesOfPrefix<T>(hits: seq<T>, source: T -> string, k: nat)
    requires k <= |hits|
    ensures Sources(hits[..k], source) <= Sources(hits, source)
    ensures |Sources(hits[..k], source)| <= k
    ensures |Sources(hits, source)| == |hits| ==> |Sources(hits[..k], source)| == k
    decreases |hits|
  {
    if k < |hits| {
      var n := |hits| - 1;
      assert hits[..n][..k] == hits[..k];
      SourcesOfPrefix(hits[..n], source, k);
      CountOfPrefix(hits[..n], source);
    } else {
      assert hits[..k] == hits;
      CountOfPrefix(hits, source);
    }
  }

  lemma {:induction false} CountOfPrefix<T>(hits: seq<T>, source: T -> string)
    ensures |Sources(hits, source)| <= |hits|
  {
    if hits != [] { CountOfPrefix(hits[..|hits| - 1], source); }
  }

  // Every prefix of the order holds as many sources as it has room for.
  lemma OrderReaches<T>(hits: seq<T>, source: T -> string, k: nat)
    requires k <= |hits|
    ensures var n := |Sources(hits, source)|;
            k <= |Reordered(hits, source)| && |Sources(Reordered(hits, source)[..k], source)| == if k <= n then k else n
  {
    var firsts, again := Firsts(hits, source, {}), Repeats(hits, source, {});
    var order := Reordered(hits, source);
    ReorderedIsPermutation(hits, source);
    assert |multiset(hits)| == |hits| && |multiset(order)| == |order|;
    FirstsCover(hits, source, {});
    hide Firsts, Repeats, Sources;
    if k <= |firsts| {
      assert order[..k] == firsts[..k];
      SourcesOfPrefix(firsts, source, k);
    } else {
      var more := again[..k - |firsts|];
      assert order[..k] == firsts + more;
      SourcesAppend(firsts, more, source);
      SourcesOfPrefix(again, source, k - |firsts|);
      assert Sources(order[..k], source) == Sources(hits, source);
    }
  }

  lemma SameSources<T>(hits: seq<T>, other: seq<T>, source: T -> string)
    requires multiset(other) == multiset(hits)
    ensures Sources(other, source) == Sources(hits, source)
  {
    SourcesByMembers(other, source);
    SourcesByMembers(hits, source);
    forall h ensures h in other <==> h in hits { assert h in multiset(other) <==> h in multiset(hits); }
  }

  // However many hits are taken from the front, no other arrangement of them would have
  // covered more sources.
  lemma CoversMost<T>(hits: seq<T>, source: T -> string, other: seq<T>, k: nat)
    requires multiset(other) == multiset(hits) && k <= |hits|
    ensures |other| == |hits| == |Reordered(hits, source)|
    ensures |Sources(other[..k], source)| <= |Sources(Reordered(hits, source)[..k], source)|
  {
    ReorderedIsPermutation(hits, source);
    assert |multiset(other)| == |other| && |multiset(hits)| == |hits|;
    assert |multiset(Reordered(hits, source))| == |Reordered(hits, source)|;
    hide Sources, Reordered;
    OrderReaches(hits, source, k);
    SourcesOfPrefix(other, source, k);
    SameSources(hits, other, source);
    SubsetSize(Sources(other[..k], source), Sources(hits, source));
  }

  lemma {:induction false} SourcesByMembers<T>(hits: seq<T>, source: T -> string)
    ensures Sources(hits, source) == set h | h in hits :: source(h)
  {
    if hits != [] {
      var n := |hits| - 1;
      SourcesByMembers(hits[..n], source);
      assert hits == hits[..n] + [hits[n]];
    }
  }
}
