// What the fused ranking owes to the two lists it is made from: a name that does better in
// both ranks higher, one list alone keeps its order, and the ends of a list get nothing
// and everything.
module FusedRanking {
  import opened Ordering
  import opened Hybrid

  lemma QuotientRises(a: real, b: real, d: real)
    requires d > 0.0
    ensures a <= b ==> a / d <= b / d
    ensures a < b ==> a / d < b / d
  {
  }

  lemma ProductRises(a: real, b: real, w: real)
    requires w > 0.0
    ensures a <= b ==> a * w <= b * w
    ensures a < b ==> a * w < b * w
  {
  }

  // Within a list a higher score weighs more.
  lemma WeightedRises(rs: seq<Scored>, weight: real, a: real, b: real)
    requires weight > 0.0
    ensures a <= b ==> Weighted(rs, a, weight) <= Weighted(rs, b, weight)
    ensures a < b ==> Weighted(rs, a, weight) < Weighted(rs, b, weight)
  {
    QuotientRises(a - MinOf(rs), b - MinOf(rs), Spread(rs));
    ProductRises(Normalized(rs, a), Normalized(rs, b), weight);
  }

  lemma {:induction false} ShareAbsent(rs: seq<Scored>, weight: real, id: string, n: nat)
    requires n <= |rs| && forall i :: 0 <= i < n ==> rs[i].id != id
    ensures Share(rs, weight, id, n) == 0.0
  {
    if n > 0 { ShareAbsent(rs, weight, id, n - 1); }
  }

  // A name without a double has the share of its one entry.
  lemma {:induction false} ShareOfEntry(rs: seq<Scored>, weight: real, i: nat, n: nat)
    requires i < n <= |rs| && DistinctIds(rs)
    ensures Share(rs, weight, rs[i].id, n) == Weighted(rs, rs[i].score, weight)
  {
    hide Weighted;
    if i == n - 1 {
      ShareAbsent(rs, weight, rs[i].id, n - 1);
    } else {
      ShareOfEntry(rs, weight, i, n - 1);
    }
  }

  // ---------- better everywhere ----------

  // The entry `a` scores at least as high as `b`, or higher.
  predicate NoWorse(rs: seq<Scored>, a: nat, b: nat) {
    a < |rs| && b < |rs| && rs[a].score >= rs[b].score
  }

  predicate Better(rs: seq<Scored>, a: nat, b: nat) {
    a < |rs| && b < |rs| && rs[a].score > rs[b].score
  }

  lemma ShareRises(rs: seq<Scored>, weight: real, a: nat, b: nat)
    requires DistinctIds(rs) && weight > 0.0 && NoWorse(rs, a, b)
    ensures Share(rs, weight, rs[a].id, |rs|) >= Share(rs, weight, rs[b].id, |rs|)
    ensures Better(rs, a, b) ==> Share(rs, weight, rs[a].id, |rs|) > Share(rs, weight, rs[b].id, |rs|)
  {
    ShareOfEntry(rs, weight, a, |rs|);
    ShareOfEntry(rs, weight, b, |rs|);
    WeightedRises(rs, weight, rs[b].score, rs[a].score);
  }

  // Of two names that are in both lists, the one that scores no worse in each has no lower
  // fused score, and a higher one if it scores higher in either.
  lemma FusedRises(semantic: seq<Scored>, keyword: seq<Scored>, ws: real, wk: real,
                   a: nat, b: nat, ka: nat, kb: nat)
    requires DistinctIds(semantic) && DistinctIds(keyword) && ws > 0.0 && wk > 0.0
    requires NoWorse(semantic, a, b) && NoWorse(keyword, ka, kb)
    requires semantic[a].id == keyword[ka].id && semantic[b].id == keyword[kb].id
    ensures var c := Combined(semantic, keyword, ws, wk);
            && semantic[a].id in c && semantic[b].id in c
            && c[semantic[a].id] >= c[semantic[b].id]
            && (Better(semantic, a, b) || Better(keyword, ka, kb) ==> c[semantic[a].id] > c[semantic[b].id])
  {
    CombinedIsSum(semantic, keyword, ws, wk, semantic[a].id);
    CombinedIsSum(semantic, keyword, ws, wk, semantic[b].id);
    ShareRises(semantic, ws, a, b);
    ShareRises(keyword, wk, ka, kb);
    hide Combined, Share;
  }

  // Of two listed names with different scores, the better one is among the answers
  // whenever the other is, and before it.
  lemma HigherComesFirst(k: nat, results: seq<Scored>, a: Scored, b: Scored, j: nat)
    requires a in results && a.score > b.score
    requires j < |TopK(k, results)| && TopK(k, results)[j] == b
    ensures exists i :: 0 <= i < j && TopK(k, results)[i] == a
  {
    TopKMeaning(k, results);
    var hits := TopK(k, results);
    hide TopK;
    var dropped: seq<Scored> :| multiset(hits) + multiset(dropped) == multiset(results)
                                && forall x, y :: x in hits && y in dropped ==> RankLe(x, y);
    assert a in multiset(results);
    assert b in hits && !RankLe(b, a);
    assert a in hits;
    var i :| 0 <= i < |hits| && hits[i] == a;
    if i > j { assert RankLe(hits[j], hits[i]); }
  }

  lemma BetterIsShown(semantic: seq<Scored>, keyword: seq<Scored>, ws: real, wk: real, stored: string -> bool,
                      a: nat, b: nat, ka: nat, kb: nat)
    requires DistinctIds(semantic) && DistinctIds(keyword) && ws > 0.0 && wk > 0.0
    requires NoWorse(semantic, a, b) && NoWorse(keyword, ka, kb)
    requires Better(semantic, a, b) || Better(keyword, ka, kb)
    requires semantic[a].id == keyword[ka].id && semantic[b].id == keyword[kb].id
    ensures var c := Combined(semantic, keyword, ws, wk);
            && semantic[a].id in Showable(c, semantic, stored)
            && semantic[b].id in c && c[semantic[a].id] > c[semantic[b].id]
  {
    FusedRises(semantic, keyword, ws, wk, a, b, ka, kb);
    assert Named(semantic, semantic[a].id);
    hide Combined;
  }

  // A name that does better in both lists is found whenever the other one is, and first.
  lemma BetterIsFoundFirst(semantic: seq<Scored>, keyword: seq<Scored>, ws: real, wk: real, stored: string -> bool,
                           topK: nat, a: nat, b: nat, ka: nat, kb: nat, j: nat)
    requires DistinctIds(semantic) && DistinctIds(keyword) && ws > 0.0 && wk > 0.0
    requires NoWorse(semantic, a, b) && NoWorse(keyword, ka, kb)
    requires Better(semantic, a, b) || Better(keyword, ka, kb)
    requires semantic[a].id == keyword[ka].id && semantic[b].id == keyword[kb].id
    requires var hits := Answer(semantic, keyword, ws, wk, stored, topK);
             j < |hits| && hits[j].id == semantic[b].id
    ensures exists i :: 0 <= i < j && Answer(semantic, keyword, ws, wk, stored, topK)[i].id == semantic[a].id
  {
    hide Combined, TopK, Listing, Showable;
    var c := Combined(semantic, keyword, ws, wk);
    BetterIsShown(semantic, keyword, ws, wk, stored, a, b, ka, kb);
    hide NoWorse, Better;
    HigherInMap(c, ws + wk, Showable(c, semantic, stored), topK, semantic[a].id, semantic[b].id, j);
  }

  lemma HigherInMap(c: map<string, real>, total: real, ids: set<string>, k: nat, a: string, b: string, j: nat)
    requires total > 0.0 && ids <= c.Keys && a in ids && b in c && c[a] > c[b]
    requires var hits := TopK(k, Listing(c, total, ids)); j < |hits| && hits[j].id == b
    ensures exists i :: 0 <= i < j && TopK(k, Listing(c, total, ids))[i].id == a
  {
    var results := Listing(c, total, ids);
    HitsAreListed(c, total, ids, k, results, j);
    var first, second := Rated(c, total, a), Rated(c, total, b);
    assert first in results;
    QuotientRises(c[b], c[a], total);
    hide TopK, Listing, ListsOnce;
    HigherComesFirst(k, results, first, second, j);
  }

  lemma HitsAreListed(c: map<string, real>, total: real, ids: set<string>, k: nat, results: seq<Scored>, j: nat)
    requires total != 0.0 && ids <= c.Keys && ListsOnce(c, total, ids, results)
    requires j < |TopK(k, results)|
    ensures var hit := TopK(k, results)[j]; hit.id in ids && hit == Rated(c, total, hit.id)
  {
    var hits := TopK(k, results);
    TopKMeaning(k, results);
    hide TopK;
    assert hits[j] in multiset(hits);
    assert hits[j] in multiset(results);
  }

  // ---------- one list alone ----------

  // An entry as a search that has found this list alone rates it.
  function Alone(rs: seq<Scored>, weight: real, total: real, r: Scored): Scored
    requires total != 0.0
  {
    Scored(r.id, Weighted(rs, r.score, weight) / total)
  }

  lemma AloneKeepsRank(rs: seq<Scored>, weight: real, total: real, x: Scored, y: Scored)
    requires weight > 0.0 && total > 0.0 && RankLe(x, y)
    ensures RankLe(Alone(rs, weight, total, x), Alone(rs, weight, total, y))
  {
    WeightedRises(rs, weight, y.score, x.score);
    QuotientRises(Weighted(rs, y.score, weight), Weighted(rs, x.score, weight), total);
    hide Weighted;
  }

  function AllAlone(rs: seq<Scored>, weight: real, total: real, s: seq<Scored>): (r: seq<Scored>)
    requires total != 0.0
    ensures |r| == |s|
    ensures forall i :: 0 <= i < |s| ==> r[i] == Alone(rs, weight, total, s[i])
  {
    seq(|s|, i requires 0 <= i < |s| => Alone(rs, weight, total, s[i]))
  }

  // The names of a list, each with the fused score of its one entry.
  ghost predicate FusedFrom(c: map<string, real>, ids: set<string>, rs: seq<Scored>, weight: real) {
    && ids <= c.Keys
    && (forall id :: id in ids <==> Named(rs, id))
    && forall r :: r in rs ==> r.id in c && c[r.id] == Weighted(rs, r.score, weight)
  }

  lemma SortedNames(rs: seq<Scored>)
    requires DistinctIds(rs)
    ensures var s := Sort(RankLe, rs); DistinctIds(s) && Sorted(RankLe, s) && forall r :: r in s <==> r in rs
  {
    var s := Sort(RankLe, rs);
    RankLeTotalOrder();
    SortSorted(RankLe, rs);
    DistinctRearranged(rs, s);
    forall r ensures r in s <==> r in rs {
      assert r in s <==> r in multiset(s);
      assert r in rs <==> r in multiset(rs);
    }
    forall i, j | 0 <= i < j < |s| ensures s[i].id != s[j].id {
      assert s[i] in rs && s[j] in rs && s[i] != s[j];
    }
  }

  lemma SortedListing(c: map<string, real>, total: real, ids: set<string>, rs: seq<Scored>, weight: real)
    requires total > 0.0 && weight > 0.0 && DistinctIds(rs) && FusedFrom(c, ids, rs, weight)
    ensures var s := AllAlone(rs, weight, total, Sort(RankLe, rs));
            ListsOnce(c, total, ids, s) && Sorted(RankLe, s)
  {
    SortedNames(rs);
    var order := Sort(RankLe, rs);
    var s := AllAlone(rs, weight, total, order);
    forall i, j | 0 <= i < j < |s| ensures RankLe(s[i], s[j]) {
      AloneKeepsRank(rs, weight, total, order[i], order[j]);
    }
    hide Weighted, RankLe, Sort;
    ListsAlone(c, total, ids, rs, weight, order);
  }

  lemma ListsAlone(c: map<string, real>, total: real, ids: set<string>, rs: seq<Scored>, weight: real, order: seq<Scored>)
    requires total > 0.0 && FusedFrom(c, ids, rs, weight)
    requires DistinctIds(order) && forall r :: r in order <==> r in rs
    ensures ListsOnce(c, total, ids, AllAlone(rs, weight, total, order))
  {
    hide Weighted;
    var s := AllAlone(rs, weight, total, order);
    forall r ensures r in s <==> r.id in ids && r == Rated(c, total, r.id) {
      if r.id in ids {
        var i :| 0 <= i < |rs| && rs[i].id == r.id;
        assert rs[i] in order;
        var k :| 0 <= k < |order| && order[k] == rs[i];
        assert s[k] == Rated(c, total, r.id);
      }
      if r in s {
        var k :| 0 <= k < |s| && s[k] == r;
        assert order[k] in rs;
        var i :| 0 <= i < |rs| && rs[i] == order[k];
        assert Named(rs, r.id);
      }
    }
  }

  lemma ListAlone(c: map<string, real>, total: real, ids: set<string>, rs: seq<Scored>, weight: real, k: nat)
    requires total > 0.0 && weight > 0.0 && DistinctIds(rs) && FusedFrom(c, ids, rs, weight)
    ensures SameNames(TopK(k, Listing(c, total, ids)), TopK(k, rs))
  {
    var s := AllAlone(rs, weight, total, Sort(RankLe, rs));
    var results := Listing(c, total, ids);
    SortedListing(c, total, ids, rs, weight);
    ListingsAgree(c, total, ids, s, results);
    hide FusedFrom, ListsOnce, DistinctIds, Alone;
    SortAs(results, s);
  }

  lemma SortAs(xs: seq<Scored>, s: seq<Scored>)
    requires Sorted(RankLe, s) && multiset(s) == multiset(xs)
    ensures Sort(RankLe, xs) == s
  {
    RankLeTotalOrder();
    SortSorted(RankLe, xs);
    SortedUnique(RankLe, s, Sort(RankLe, xs));
  }

  predicate SameNames(a: seq<Scored>, b: seq<Scored>) {
    |a| == |b| && forall i :: 0 <= i < |a| ==> a[i].id == b[i].id
  }

  // A search in which the keyword index finds nothing returns the semantic list in its
  // own order, and one in which the semantic index finds nothing the keyword list in its.
  lemma OneListKeepsItsOrder(rs: seq<Scored>, ws: real, wk: real, stored: string -> bool, topK: nat)
    requires DistinctIds(rs) && ws > 0.0 && wk > 0.0
    ensures SameNames(Answer(rs, [], ws, wk, stored, topK), TopK(topK, rs))
    ensures (forall r :: r in rs ==> stored(r.id)) ==>
              SameNames(Answer([], rs, ws, wk, stored, topK), TopK(topK, rs))
  {
    hide TopK, Listing, SameNames, Showable, FusedFrom, Combined;
    var c := Combined(rs, [], ws, wk);
    FusedAlone(rs, ws, wk);
    AllShown(c, rs, rs, ws, stored);
    ListAlone(c, ws + wk, c.Keys, rs, ws, topK);
    if forall r :: r in rs ==> stored(r.id) {
      var d := Combined([], rs, ws, wk);
      AllShown(d, [], rs, wk, stored);
      ListAlone(d, ws + wk, d.Keys, rs, wk, topK);
    }
  }

  lemma AllShown(c: map<string, real>, semantic: seq<Scored>, rs: seq<Scored>, weight: real, stored: string -> bool)
    requires FusedFrom(c, c.Keys, rs, weight)
    requires semantic == rs || forall r :: r in rs ==> stored(r.id)
    ensures Showable(c, semantic, stored) == c.Keys
  {
    forall id | id in c ensures id in Showable(c, semantic, stored) {
      var i :| 0 <= i < |rs| && rs[i].id == id;
      assert rs[i] in rs;
    }
  }

  lemma FusedAlone(rs: seq<Scored>, ws: real, wk: real)
    requires DistinctIds(rs)
    ensures var c := Combined(rs, [], ws, wk); FusedFrom(c, c.Keys, rs, ws)
    ensures var d := Combined([], rs, ws, wk); FusedFrom(d, d.Keys, rs, wk)
  {
    forall id
      ensures id in Combined(rs, [], ws, wk) <==> Named(rs, id)
      ensures id in Combined([], rs, ws, wk) <==> Named(rs, id)
    {
      CombinedIsSum(rs, [], ws, wk, id);
      CombinedIsSum([], rs, ws, wk, id);
    }
    forall r | r in rs
      ensures r.id in Combined(rs, [], ws, wk) && Combined(rs, [], ws, wk)[r.id] == Weighted(rs, r.score, ws)
      ensures r.id in Combined([], rs, ws, wk) && Combined([], rs, ws, wk)[r.id] == Weighted(rs, r.score, wk)
    {
      EntryAlone(rs, ws, wk, r);
    }
  }

  lemma EntryAlone(rs: seq<Scored>, ws: real, wk: real, r: Scored)
    requires DistinctIds(rs) && r in rs
    ensures r.id in Combined(rs, [], ws, wk) && Combined(rs, [], ws, wk)[r.id] == Weighted(rs, r.score, ws)
    ensures r.id in Combined([], rs, ws, wk) && Combined([], rs, ws, wk)[r.id] == Weighted(rs, r.score, wk)
  {
    hide Combined, Weighted;
    var i :| 0 <= i < |rs| && rs[i] == r;
    CombinedIsSum(rs, [], ws, wk, r.id);
    CombinedIsSum([], rs, ws, wk, r.id);
    ShareOfEntry(rs, ws, i, |rs|);
    ShareOfEntry(rs, wk, i, |rs|);
    assert Named(rs, r.id);
    assert Share([], wk, r.id, 0) == 0.0 && Share([], ws, r.id, 0) == 0.0;
  }

  // ---------- the ends of a list ----------

  // No score is beyond the largest finite single-precision number.
  predicate Finite(rs: seq<Scored>) {
    forall i :: 0 <= i < |rs| ==> rs[i].score <= F32_MAX
  }

  predicate Lowest(rs: seq<Scored>, i: nat) {
    i < |rs| && forall k :: 0 <= k < |rs| ==> rs[i].score <= rs[k].score
  }

  // The best entry of a list, not negative, and above some other by more than rounding.
  predicate Highest(rs: seq<Scored>, i: nat) {
    && i < |rs| && rs[i].score >= 0.0
    && (forall k :: 0 <= k < |rs| ==> rs[k].score <= rs[i].score)
    && exists k :: 0 <= k < |rs| && rs[i].score - rs[k].score >= EPSILON
  }

  lemma {:induction false} Attained(rs: seq<Scored>)
    ensures MinOf(rs) == F32_MAX || exists k :: 0 <= k < |rs| && rs[k].score == MinOf(rs)
    ensures MaxOf(rs) == 0.0 || exists k :: 0 <= k < |rs| && rs[k].score == MaxOf(rs)
  {
    if rs != [] {
      var most, n := rs[..|rs| - 1], |rs| - 1;
      Attained(most);
      if MinOf(rs) == rs[n].score {
      } else if MinOf(most) != F32_MAX {
        var k :| 0 <= k < |most| && most[k].score == MinOf(most);
        assert rs[k].score == MinOf(rs);
      }
      if MaxOf(rs) == rs[n].score {
      } else if MaxOf(most) != 0.0 {
        var k :| 0 <= k < |most| && most[k].score == MaxOf(most);
        assert rs[k].score == MaxOf(rs);
      }
    }
  }

  lemma LowestIsMin(rs: seq<Scored>, i: nat)
    requires Finite(rs) && Lowest(rs, i)
    ensures MinOf(rs) == rs[i].score
  {
    Extremes(rs, i);
    Attained(rs);
  }

  lemma HighestIsMax(rs: seq<Scored>, i: nat)
    requires Highest(rs, i)
    ensures MaxOf(rs) == rs[i].score && Spread(rs) == MaxOf(rs) - MinOf(rs)
  {
    Extremes(rs, i);
    Attained(rs);
    var k :| 0 <= k < |rs| && rs[i].score - rs[k].score >= EPSILON;
    Extremes(rs, k);
  }

  lemma NothingOver(d: real, w: real)
    requires d > 0.0
    ensures 0.0 / d * w == 0.0
  {
  }

  lemma AllOver(d: real, w: real)
    requires d > 0.0
    ensures d / d * w == w
  {
  }

  lemma EndShares(rs: seq<Scored>, weight: real, i: nat)
    requires DistinctIds(rs) && Finite(rs) && i < |rs|
    ensures Lowest(rs, i) ==> Share(rs, weight, rs[i].id, |rs|) == 0.0
    ensures Highest(rs, i) ==> Share(rs, weight, rs[i].id, |rs|) == weight
  {
    ShareOfEntry(rs, weight, i, |rs|);
    hide Share;
    if Lowest(rs, i) {
      LowestIsMin(rs, i);
      NothingOver(Spread(rs), weight);
    }
    if Highest(rs, i) {
      HighestIsMax(rs, i);
      AllOver(Spread(rs), weight);
    }
  }

  function FusedScore(semantic: seq<Scored>, keyword: seq<Scored>, ws: real, wk: real, id: string): real {
    var c := Combined(semantic, keyword, ws, wk);
    if id in c then c[id] else 0.0
  }

  lemma FusedScoreIsSum(semantic: seq<Scored>, keyword: seq<Scored>, ws: real, wk: real, id: string)
    ensures FusedScore(semantic, keyword, ws, wk, id)
         == Share(semantic, ws, id, |semantic|) + Share(keyword, wk, id, |keyword|)
  {
    CombinedIsSum(semantic, keyword, ws, wk, id);
    if id !in Combined(semantic, keyword, ws, wk) {
      ShareAbsent(semantic, ws, id, |semantic|);
      ShareAbsent(keyword, wk, id, |keyword|);
    }
  }

  // What a list adds to the fused score of a name is its share.
  lemma Gains(rs: seq<Scored>, other: seq<Scored>, ws: real, wk: real, id: string)
    ensures FusedScore(rs, other, ws, wk, id) - FusedScore([], other, ws, wk, id) == Share(rs, ws, id, |rs|)
    ensures FusedScore(other, rs, ws, wk, id) - FusedScore(other, [], ws, wk, id) == Share(rs, wk, id, |rs|)
  {
    FusedScoreIsSum(rs, other, ws, wk, id);
    FusedScoreIsSum([], other, ws, wk, id);
    FusedScoreIsSum(other, rs, ws, wk, id);
    FusedScoreIsSum(other, [], ws, wk, id);
    assert Share([], wk, id, 0) == 0.0 && Share([], ws, id, 0) == 0.0;
    hide FusedScore, Share;
  }

  // The lowest entry of a list adds nothing to what the other list gives its name, and
  // the highest adds the whole weight of the list.
  lemma EndsOfAList(rs: seq<Scored>, other: seq<Scored>, ws: real, wk: real, i: nat)
    requires DistinctIds(rs) && Finite(rs) && i < |rs|
    ensures Lowest(rs, i) ==>
              && FusedScore(rs, other, ws, wk, rs[i].id) == FusedScore([], other, ws, wk, rs[i].id)
              && FusedScore(other, rs, ws, wk, rs[i].id) == FusedScore(other, [], ws, wk, rs[i].id)
    ensures Highest(rs, i) ==>
              && FusedScore(rs, other, ws, wk, rs[i].id) == FusedScore([], other, ws, wk, rs[i].id) + ws
              && FusedScore(other, rs, ws, wk, rs[i].id) == FusedScore(other, [], ws, wk, rs[i].id) + wk
  {
    var id := rs[i].id;
    Gains(rs, other, ws, wk, id);
    EndShares(rs, ws, i);
    EndShares(rs, wk, i);
    hide FusedScore, Share;
  }

  lemma LinearWeight(rs: seq<Scored>, weight: real, score: real)
    ensures Weighted(rs, score, weight) * Spread(rs) == weight * (score - MinOf(rs))
  {
    hide MinOf, Spread;
    UndoDivision(score - MinOf(rs), Spread(rs), weight);
  }

  lemma UndoDivision(a: real, d: real, w: real)
    requires d > 0.0
    ensures a / d * w * d == w * a
  {
    var q := a / d;
    assert q * d == a;
    calc {
      q * w * d;
      w * (q * d);
    }
  }

  lemma LinearShare(rs: seq<Scored>, weight: real, i: nat, h: nat, l: nat)
    requires DistinctIds(rs) && Finite(rs) && i < |rs| && Highest(rs, h) && Lowest(rs, l)
    ensures Share(rs, weight, rs[i].id, |rs|) * (rs[h].score - rs[l].score) == weight * (rs[i].score - rs[l].score)
  {
    hide Share, Weighted, MinOf, MaxOf, Spread, Finite, DistinctIds;
    ShareOfEntry(rs, weight, i, |rs|);
    LowestIsMin(rs, l);
    HighestIsMax(rs, h);
    LinearWeight(rs, weight, rs[i].score);
  }

  // Between its ends a list adds in proportion to the score.
  lemma BetweenTheEnds(rs: seq<Scored>, other: seq<Scored>, ws: real, wk: real, i: nat, h: nat, l: nat)
    requires DistinctIds(rs) && Finite(rs) && i < |rs| && Highest(rs, h) && Lowest(rs, l)
    ensures var gain := FusedScore(rs, other, ws, wk, rs[i].id) - FusedScore([], other, ws, wk, rs[i].id);
            gain * (rs[h].score - rs[l].score) == ws * (rs[i].score - rs[l].score)
    ensures var gain := FusedScore(other, rs, ws, wk, rs[i].id) - FusedScore(other, [], ws, wk, rs[i].id);
            gain * (rs[h].score - rs[l].score) == wk * (rs[i].score - rs[l].score)
  {
    hide FusedScore, Share, Finite, DistinctIds;
    var id := rs[i].id;
    Gains(rs, other, ws, wk, id);
    LinearShare(rs, ws, i, h, l);
    LinearShare(rs, wk, i, h, l);
    var d := rs[h].score - rs[l].score;
    SameProduct(FusedScore(rs, other, ws, wk, id) - FusedScore([], other, ws, wk, id), Share(rs, ws, id, |rs|), d);
    SameProduct(FusedScore(other, rs, ws, wk, id) - FusedScore(other, [], ws, wk, id), Share(rs, wk, id, |rs|), d);
  }

  lemma SameProduct(a: real, b: real, d: real)
    requires a == b
    ensures a * d == b * d
  {
  }

  // Every hit is a found name with a stub to show, and its score is its fused score out of
  // the total weight.
  lemma HitsMeaning(semantic: seq<Scored>, keyword: seq<Scored>, ws: real, wk: real, stored: string -> bool,
                    topK: nat, j: nat)
    requires ws + wk != 0.0 && j < |Answer(semantic, keyword, ws, wk, stored, topK)|
    ensures var hit := Answer(semantic, keyword, ws, wk, stored, topK)[j];
            && (Named(semantic, hit.id) || (Named(keyword, hit.id) && stored(hit.id)))
            && hit.score * (ws + wk) == FusedScore(semantic, keyword, ws, wk, hit.id)
  {
    hide Combined, TopK, Listing, Named, Showable, FusedScore;
    var c := Combined(semantic, keyword, ws, wk);
    var ids := Showable(c, semantic, stored);
    HitsAreListed(c, ws + wk, ids, topK, Listing(c, ws + wk, ids), j);
    RatedMeaning(semantic, keyword, ws, wk, stored, Answer(semantic, keyword, ws, wk, stored, topK)[j]);
  }

  lemma RatedMeaning(semantic: seq<Scored>, keyword: seq<Scored>, ws: real, wk: real, stored: string -> bool, hit: Scored)
    requires var c := Combined(semantic, keyword, ws, wk);
             && ws + wk != 0.0 && hit.id in Showable(c, semantic, stored)
             && hit == Rated(c, ws + wk, hit.id)
    ensures Named(semantic, hit.id) || (Named(keyword, hit.id) && stored(hit.id))
    ensures hit.score * (ws + wk) == FusedScore(semantic, keyword, ws, wk, hit.id)
  {
    hide Combined, Named, Share;
    CombinedIsSum(semantic, keyword, ws, wk, hit.id);
    UndoQuotient(Combined(semantic, keyword, ws, wk)[hit.id], ws + wk);
  }

  lemma UndoQuotient(x: real, d: real)
    requires d != 0.0
    ensures x / d * d == x
  {
  }
}
