// Hybrid search: min-max normalisation of the semantic and keyword result lists, weighted
// fusion in an unordered map, and one deterministic ranking.
module Hybrid {
  import opened Ordering

  const F32_MAX: real := 340282346638528859811704183484516925440.0
  const EPSILON: real := 1.0 / 8388608.0

  // ---------- normalisation ----------

  function Max(a: real, b: real): real { if a < b then b else a }

  function Min(a: real, b: real): real { if b < a then b else a }

  function MaxOf(rs: seq<Scored>): real {
    if rs == [] then 0.0 else Max(MaxOf(rs[..|rs| - 1]), rs[|rs| - 1].score)
  }

  function MinOf(rs: seq<Scored>): real {
    if rs == [] then F32_MAX else Min(MinOf(rs[..|rs| - 1]), rs[|rs| - 1].score)
  }

  function Spread(rs: seq<Scored>): (r: real)
    ensures r > 0.0
  {
    Max(MaxOf(rs) - MinOf(rs), EPSILON)
  }

  function Normalized(rs: seq<Scored>, score: real): real {
    (score - MinOf(rs)) / Spread(rs)
  }

  lemma {:induction false} Extremes(rs: seq<Scored>, i: nat)
    requires i < |rs|
    ensures MinOf(rs) <= rs[i].score <= MaxOf(rs)
  {
    if i < |rs| - 1 { Extremes(rs[..|rs| - 1], i); }
  }

  lemma UnitQuotient(a: real, b: real)
    requires 0.0 <= a <= b && 0.0 < b
    ensures 0.0 <= a / b <= 1.0
  {
  }

  // Within its own list every score is normalised into the unit interval, whatever the
  // signs of the scores.
  lemma NormalizedUnit(rs: seq<Scored>, i: nat)
    requires i < |rs|
    ensures 0.0 <= Normalized(rs, rs[i].score) <= 1.0
  {
    Extremes(rs, i);
    UnitQuotient(rs[i].score - MinOf(rs), Spread(rs));
  }

  // ---------- fusion ----------

  function Weighted(rs: seq<Scored>, score: real, weight: real): real {
    Normalized(rs, score) * weight
  }

  // Add the first `n` entries of a list to the map of fused scores.
  function Fuse(m: map<string, real>, rs: seq<Scored>, weight: real, n: nat): map<string, real>
    requires n <= |rs|
  {
    if n == 0 then m
    else
      var before := Fuse(m, rs, weight, n - 1);
      var r := rs[n - 1];
      before[r.id := (if r.id in before then before[r.id] else 0.0) + Weighted(rs, r.score, weight)]
  }

  function Combined(semantic: seq<Scored>, keyword: seq<Scored>, ws: real, wk: real): map<string, real> {
    Fuse(Fuse(map[], semantic, ws, |semantic|), keyword, wk, |keyword|)
  }

  predicate DistinctIds(rs: seq<Scored>) {
    forall i, j :: 0 <= i < j < |rs| ==> rs[i].id != rs[j].id
  }

  // The share of a list in the fused score of a name.
  function Share(rs: seq<Scored>, weight: real, id: string, n: nat): real
    requires n <= |rs|
  {
    if n == 0 then 0.0
    else Share(rs, weight, id, n - 1) + if rs[n - 1].id == id then Weighted(rs, rs[n - 1].score, weight) else 0.0
  }

  predicate Named(rs: seq<Scored>, id: string) {
    exists i :: 0 <= i < |rs| && rs[i].id == id
  }

  lemma {:induction false} FuseAdds(m: map<string, real>, rs: seq<Scored>, weight: real, n: nat, id: string)
    requires n <= |rs|
    ensures id in Fuse(m, rs, weight, n) <==> id in m || Named(rs[..n], id)
    ensures id in Fuse(m, rs, weight, n) ==>
              Fuse(m, rs, weight, n)[id] == (if id in m then m[id] else 0.0) + Share(rs, weight, id, n)
    ensures !Named(rs[..n], id) ==> Share(rs, weight, id, n) == 0.0
  {
    if n > 0 {
      hide Weighted;
      FuseAdds(m, rs, weight, n - 1, id);
      assert rs[..n] == rs[..n - 1] + [rs[n - 1]];
      if Named(rs[..n - 1], id) {
        var i :| 0 <= i < n - 1 && rs[..n - 1][i].id == id;
        assert rs[..n][i].id == id;
      }
      if rs[n - 1].id == id { assert rs[..n][n - 1].id == id; }
    }
  }

  // The fused score of a name is the sum of its shares, one per list.
  lemma CombinedIsSum(semantic: seq<Scored>, keyword: seq<Scored>, ws: real, wk: real, id: string)
    ensures var c := Combined(semantic, keyword, ws, wk);
            && (id in c <==> Named(semantic, id) || Named(keyword, id))
            && (id in c ==> c[id] == Share(semantic, ws, id, |semantic|) + Share(keyword, wk, id, |keyword|))
  {
    hide Fuse, Share, Named;
    assert semantic[..|semantic|] == semantic && keyword[..|keyword|] == keyword;
    FuseAdds(map[], semantic, ws, |semantic|, id);
    FuseAdds(Fuse(map[], semantic, ws, |semantic|), keyword, wk, |keyword|, id);
  }

  lemma WeightedBounds(rs: seq<Scored>, i: nat, weight: real)
    requires i < |rs| && weight >= 0.0
    ensures 0.0 <= Weighted(rs, rs[i].score, weight) <= weight
  {
    hide Normalized;
    NormalizedUnit(rs, i);
    Scale(Normalized(rs, rs[i].score), weight);
  }

  lemma Scale(x: real, w: real)
    requires 0.0 <= x <= 1.0 && w >= 0.0
    ensures 0.0 <= x * w <= w
  {
  }

  // A list without repeated names contributes at most its weight to any of them.
  lemma {:induction false} ShareBounds(rs: seq<Scored>, weight: real, id: string, n: nat)
    requires n <= |rs| && weight >= 0.0 && DistinctIds(rs)
    ensures 0.0 <= Share(rs, weight, id, n) <= weight
    ensures (forall i :: 0 <= i < n ==> rs[i].id != id) ==> Share(rs, weight, id, n) == 0.0
  {
    if n > 0 {
      hide Weighted;
      ShareBounds(rs, weight, id, n - 1);
      WeightedBounds(rs, n - 1, weight);
    }
  }

  // With distinct names in each list and positive weights every fused score, divided by
  // the total weight, lies in the unit interval.
  lemma FusedScoreUnit(semantic: seq<Scored>, keyword: seq<Scored>, ws: real, wk: real, id: string)
    requires DistinctIds(semantic) && DistinctIds(keyword) && ws > 0.0 && wk > 0.0
    requires id in Combined(semantic, keyword, ws, wk)
    ensures 0.0 <= Combined(semantic, keyword, ws, wk)[id] / (ws + wk) <= 1.0
  {
    CombinedIsSum(semantic, keyword, ws, wk, id);
    ShareBounds(semantic, ws, id, |semantic|);
    ShareBounds(keyword, wk, id, |keyword|);
    hide Combined, Share;
    UnitQuotient(Combined(semantic, keyword, ws, wk)[id], ws + wk);
  }

  // ---------- the ranking ----------

  // The fused names with a stub to show: those of the semantic list carry one, the rest
  // are looked up.
  predicate HasStub(semantic: seq<Scored>, stored: string -> bool, id: string) {
    Named(semantic, id) || stored(id)
  }

  function Showable(c: map<string, real>, semantic: seq<Scored>, stored: string -> bool): (ids: set<string>)
    ensures ids <= c.Keys
  {
    set id | id in c && HasStub(semantic, stored, id)
  }

  function Rated(c: map<string, real>, total: real, id: string): Scored
    requires id in c && total != 0.0
  {
    Scored(id, c[id] / total)
  }

  // `results` lists each of the names once, with its score, in any order.
  ghost predicate ListsOnce(c: map<string, real>, total: real, ids: set<string>, results: seq<Scored>)
    requires total != 0.0 && ids <= c.Keys
  {
    && DistinctIds(results)
    && forall r :: r in results <==> r.id in ids && r == Rated(c, total, r.id)
  }

  lemma DistinctMultiplicityOne(rs: seq<Scored>, r: Scored)
    requires DistinctIds(rs)
    ensures multiset(rs)[r] == if r in rs then 1 else 0
  {
    assert AllDistinct(rs);
    DistinctMultiplicity(rs, r);
  }

  // All listings hold the same elements.
  lemma ListingsAgree(c: map<string, real>, total: real, ids: set<string>, a: seq<Scored>, b: seq<Scored>)
    requires total != 0.0 && ids <= c.Keys
    requires ListsOnce(c, total, ids, a) && ListsOnce(c, total, ids, b)
    ensures multiset(a) == multiset(b)
  {
    forall r ensures multiset(a)[r] == multiset(b)[r] {
      DistinctMultiplicityOne(a, r);
      DistinctMultiplicityOne(b, r);
    }
  }

  // The answer does not depend on the order in which the fusion map is walked.
  lemma RankingUnique(c: map<string, real>, total: real, ids: set<string>, k: nat, a: seq<Scored>, b: seq<Scored>)
    requires total != 0.0 && ids <= c.Keys
    requires ListsOnce(c, total, ids, a) && ListsOnce(c, total, ids, b)
    ensures TopK(k, a) == TopK(k, b)
  {
    ListingsAgree(c, total, ids, a, b);
    TopKMeaning(k, b);
  }

  // Some listing of the names.
  ghost function Listing(c: map<string, real>, total: real, ids: set<string>): (results: seq<Scored>)
    requires total != 0.0 && ids <= c.Keys
    ensures ListsOnce(c, total, ids, results)
  {
    if ids == {} then []
    else
      var id :| id in ids;
      var rest := Listing(c, total, ids - {id});
      ListsOnceAdd(c, total, ids - {id}, rest, id);
      assert ids - {id} + {id} == ids;
      rest + [Rated(c, total, id)]
  }

  lemma ListsOnceAdd(c: map<string, real>, total: real, ids: set<string>, results: seq<Scored>, id: string)
    requires total != 0.0 && ids <= c.Keys && id in c && id !in ids
    requires ListsOnce(c, total, ids, results)
    ensures ListsOnce(c, total, ids + {id}, results + [Rated(c, total, id)])
  {
    assert forall i :: 0 <= i < |results| ==> results[i] in results;
  }

  method AddAll(m: map<string, real>, rs: seq<Scored>, weight: real) returns (fused: map<string, real>)
    ensures fused == Fuse(m, rs, weight, |rs|)
  {
    fused := m;
    if rs == [] { return; }
    var i := 0;
    while i < |rs|
      invariant i <= |rs| && fused == Fuse(m, rs, weight, i)
    {
      var r := rs[i];
      fused := fused[r.id := (if r.id in fused then fused[r.id] else 0.0) + Weighted(rs, r.score, weight)];
      i := i + 1;
    }
  }

  // What a search returns.
  ghost function Answer(semantic: seq<Scored>, keyword: seq<Scored>, ws: real, wk: real, stored: string -> bool,
                        topK: nat): seq<Scored>
    requires ws + wk != 0.0
  {
    var c := Combined(semantic, keyword, ws, wk);
    TopK(topK, Listing(c, ws + wk, Showable(c, semantic, stored)))
  }

  // The fusion map is walked in an arbitrary order; the result is the same for all.
  method Search(semantic: seq<Scored>, keyword: seq<Scored>, ws: real, wk: real, stored: string -> bool, topK: nat)
    returns (hits: seq<Scored>)
    requires ws + wk != 0.0
    ensures hits == Answer(semantic, keyword, ws, wk, stored, topK)
  {
    var combined := AddAll(map[], semantic, ws);
    combined := AddAll(combined, keyword, wk);
    assert combined == Combined(semantic, keyword, ws, wk);
    hide Combined, HasStub, ListsOnce, Rated;
    var total := ws + wk;
    ghost var showable := Showable(combined, semantic, stored);
    var results: seq<Scored> := [];
    ListsNone(combined, total);
    ghost var done: set<string> := {};
    var todo := combined.Keys;
    while todo != {}
      invariant todo <= combined.Keys && done == showable - todo
      invariant ListsOnce(combined, total, done, results)
      decreases todo
    {
      var id :| id in todo;
      if HasStub(semantic, stored, id) {
        ListsOnceAdd(combined, total, done, results, id);
        results := results + [Rated(combined, total, id)];
        done := done + {id};
      }
      todo := todo - {id};
    }
    assert done == showable;
    RankingUnique(combined, total, showable, topK, results, Listing(combined, total, showable));
    hits := TopK(topK, results);
  }

  lemma ListsNone(c: map<string, real>, total: real)
    requires total != 0.0
    ensures ListsOnce(c, total, {}, [])
  {
  }
}
