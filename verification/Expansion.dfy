// Planning graph expansion: which neighbours of the hits to admit, at what score, and how
// far the answer depends on the order in which the map of candidates is walked.
module Expansion {
  import opened Ordering

  datatype Edge = Edge(seed: string, neighbor: string, relation: string, weight: real)

  // A neighbour selected for admission, and the hit and relation it came through.
  datatype Planned = Planned(id: string, score: real, viaSeed: string, viaRelation: string)

  // Scores of the hits by name; of a repeated name the last.
  function SeedScores(seeds: seq<Scored>): map<string, real> {
    if seeds == [] then map[]
    else SeedScores(seeds[..|seeds| - 1])[seeds[|seeds| - 1].id := seeds[|seeds| - 1].score]
  }

  predicate Reaches(base: map<string, real>, e: Edge) {
    e.neighbor !in base && e.seed in base
  }

  function Candidate(base: map<string, real>, e: Edge, discount: real): Planned
    requires Reaches(base, e)
  {
    Planned(e.neighbor, base[e.seed] * discount * e.weight, e.seed, e.relation)
  }

  // The best candidate for each neighbour; the first of equally good ones.
  function Best(base: map<string, real>, edges: seq<Edge>, discount: real): map<string, Planned> {
    if edges == [] then map[]
    else
      var best, e := Best(base, edges[..|edges| - 1], discount), edges[|edges| - 1];
      if !Reaches(base, e) then best
      else
        var c := Candidate(base, e, discount);
        if c.id in best && best[c.id].score >= c.score then best else best[c.id := c]
  }

  // `p` names the neighbour of the edge, its hit and its relation, and scores the hit's score
  // times the discount times the weight.
  predicate Through(base: map<string, real>, e: Edge, discount: real, p: Planned) {
    && e.seed in base && e.neighbor !in base && p.id == e.neighbor
    && p.viaSeed == e.seed && p.viaRelation == e.relation && p.score == base[e.seed] * discount * e.weight
  }

  ghost predicate IsBest(base: map<string, real>, edges: seq<Edge>, discount: real, p: Planned, i: int) {
    && 0 <= i < |edges| && Through(base, edges[i], discount, p)
    && (forall j :: 0 <= j < |edges| && Reaches(base, edges[j]) && edges[j].neighbor == p.id ==>
          var c := Candidate(base, edges[j], discount);
          c.score <= p.score && (j < i ==> c.score < p.score))
  }

  // Exactly the neighbours that some hit reaches and that are not hits themselves are
  // candidates, each through the first of its best edges.
  lemma {:induction false} BestMeaning(base: map<string, real>, edges: seq<Edge>, discount: real, id: string)
    ensures var best := Best(base, edges, discount);
            && (id in best <==> exists i :: 0 <= i < |edges| && Reaches(base, edges[i]) && edges[i].neighbor == id)
            && (id in best ==> best[id].id == id && exists i :: IsBest(base, edges, discount, best[id], i))
  {
    if edges != [] {
      var n := |edges| - 1;
      var most, e := edges[..n], edges[n];
      BestMeaning(base, most, discount, id);
      var before, best := Best(base, most, discount), Best(base, edges, discount);
      if Reaches(base, e) && e.neighbor == id {
        var c := Candidate(base, e, discount);
        if id in before && before[id].score >= c.score {
          var i :| IsBest(base, most, discount, before[id], i);
          assert IsBest(base, edges, discount, best[id], i);
        } else {
          assert best[id] == c;
          forall j | 0 <= j < n && Reaches(base, edges[j]) && edges[j].neighbor == id
            ensures Candidate(base, edges[j], discount).score < c.score
          {
            assert most[j] == edges[j];
            assert id in before;
            var i :| IsBest(base, most, discount, before[id], i);
            assert Candidate(base, most[j], discount).score <= before[id].score;
          }
          assert IsBest(base, edges, discount, c, n);
        }
      } else if id in before {
        assert best[id] == before[id];
        var i :| IsBest(base, most, discount, before[id], i);
        assert IsBest(base, edges, discount, best[id], i);
      }
    }
  }

  // A neighbour ranks no higher than the hit that pulled it in exactly when the hit scores
  // zero, or discount and edge weight together do not amplify a positive score, or do not
  // shrink a negative one.
  lemma NeverAboveItsSeed(base: map<string, real>, e: Edge, discount: real)
    requires Reaches(base, e)
    ensures var s, factor := base[e.seed], discount * e.weight;
            Candidate(base, e, discount).score <= s <==>
              s == 0.0 || (if s > 0.0 then factor <= 1.0 else factor >= 1.0)
  {
    var s, factor := base[e.seed], discount * e.weight;
    assert s * discount * e.weight == s * factor;
    ScaledBelow(s, factor);
  }

  lemma ScaledBelow(s: real, factor: real)
    ensures s * factor <= s <==> s == 0.0 || (if s > 0.0 then factor <= 1.0 else factor >= 1.0)
  {
    var gap := factor - 1.0;
    assert s * factor == s + s * gap;
    SignOfProduct(s, gap);
  }

  lemma SignOfProduct(a: real, b: real)
    ensures a * b <= 0.0 <==> a == 0.0 || (if a > 0.0 then b <= 0.0 else b >= 0.0)
  {
  }

  // The default discount lifts the neighbour of a hit with a negative similarity above it.
  lemma NegativeHitsAreOutranked()
    ensures var base, e := map["s" := -0.2], Edge("s", "n", "calls", 1.0);
            Reaches(base, e) && Candidate(base, e, 0.5).score == -0.1 > base[e.seed]
  {
  }

  // ---------- ranking by score alone ----------

  ghost predicate Ranked(s: seq<Planned>) {
    forall i, j :: 0 <= i < j < |s| ==> s[i].score >= s[j].score
  }

  predicate ScoreGe(a: Planned, b: Planned) {
    a.score >= b.score
  }

  // A stable sort: equal scores keep the order they came in.
  function SortByScore(s: seq<Planned>): (r: seq<Planned>)
    ensures multiset(r) == multiset(s)
  {
    Sort(ScoreGe, s)
  }

  lemma {:induction false} InsertRanked(x: Planned, s: seq<Planned>)
    requires Ranked(s)
    ensures Ranked(Insert(ScoreGe, x, s))
  {
    if s != [] && !ScoreGe(x, s[0]) {
      InsertRanked(x, s[1..]);
      var rest := Insert(ScoreGe, x, s[1..]);
      forall j | 0 <= j < |rest| ensures s[0].score >= rest[j].score {
        assert rest[j] in multiset(rest);
        assert rest[j] in s[1..] || rest[j] == x;
      }
    }
  }

  lemma {:induction false} SortRanked(s: seq<Planned>)
    ensures Ranked(SortByScore(s))
  {
    if s != [] {
      SortRanked(s[1..]);
      InsertRanked(s[0], SortByScore(s[1..]));
    }
  }

  lemma {:induction false} RankedStays(s: seq<Planned>)
    requires Ranked(s)
    ensures SortByScore(s) == s
  {
    if s != [] {
      RankedStays(s[1..]);
      assert s == [s[0]] + s[1..];
    }
  }

  ghost predicate Lists(entries: set<Planned>, s: seq<Planned>) {
    AllDistinct(s) && forall e :: e in s <==> e in entries
  }

  // What the planner may return: the candidates listed in any order, sorted, truncated.
  ghost predicate Possible(entries: set<Planned>, k: nat, r: seq<Planned>) {
    exists s :: Lists(entries, s) && r == Take(k, SortByScore(s))
  }

  lemma SortLists(entries: set<Planned>, s: seq<Planned>)
    requires Lists(entries, s)
    ensures Lists(entries, SortByScore(s)) && Ranked(SortByScore(s))
  {
    SortRanked(s);
    DistinctRearranged(s, SortByScore(s));
    forall e ensures e in SortByScore(s) <==> e in entries {
      assert e in multiset(SortByScore(s)) <==> e in multiset(s);
    }
  }

  function Above(entries: set<Planned>, score: real): set<Planned> {
    set e | e in entries && e.score > score
  }

  // In any ranked listing, the entries above a score are exactly the first so many.
  lemma RankCounts(entries: set<Planned>, s: seq<Planned>, i: nat, score: real)
    requires Lists(entries, s) && Ranked(s) && i < |s|
    ensures s[i].score > score <==> i < |Above(entries, score)|
  {
    if s[i].score > score {
      DistinctCount(s[..i + 1]);
      SubsetSize(Members(s[..i + 1]), Above(entries, score));
    } else {
      DistinctCount(s[..i]);
      forall e | e in Above(entries, score) ensures e in Members(s[..i]) {
        var j :| 0 <= j < |s| && s[j] == e;
        assert j < i;
        assert s[..i][j] == e;
      }
      SubsetSize(Above(entries, score), Members(s[..i]));
    }
  }

  function Members(s: seq<Planned>): set<Planned> {
    set e | e in s
  }

  lemma {:induction false} DistinctCount(s: seq<Planned>)
    requires AllDistinct(s)
    ensures |Members(s)| == |s|
  {
    if s != [] {
      var n := |s| - 1;
      DistinctCount(s[..n]);
      assert s == s[..n] + [s[n]];
      assert Members(s) == Members(s[..n]) + {s[n]};
      assert s[n] !in s[..n];
    }
  }

  lemma ListingSize(entries: set<Planned>, s: seq<Planned>)
    requires Lists(entries, s)
    ensures |s| == |entries|
  {
    DistinctCount(s);
    assert Members(s) == entries;
  }

  // Whatever order the candidates are listed in, the scores of the plan are the same.
  lemma ScoresDetermined(entries: set<Planned>, k: nat, a: seq<Planned>, b: seq<Planned>)
    requires Possible(entries, k, a) && Possible(entries, k, b)
    ensures |a| == |b| == if k <= |entries| then k else |entries|
    ensures forall i :: 0 <= i < |a| ==> a[i].score == b[i].score
  {
    var s := Ranking(entries, k, a);
    var t := Ranking(entries, k, b);
    ListingSize(entries, s);
    ListingSize(entries, t);
    forall i | 0 <= i < |a| ensures a[i].score == b[i].score {
      SameScore(entries, s, t, i);
    }
  }

  lemma Ranking(entries: set<Planned>, k: nat, r: seq<Planned>) returns (s: seq<Planned>)
    requires Possible(entries, k, r)
    ensures Lists(entries, s) && Ranked(s) && r == Take(k, s)
  {
    var listing :| Lists(entries, listing) && r == Take(k, SortByScore(listing));
    SortLists(entries, listing);
    s := SortByScore(listing);
  }

  lemma SameScore(entries: set<Planned>, s: seq<Planned>, t: seq<Planned>, i: nat)
    requires Lists(entries, s) && Ranked(s) && Lists(entries, t) && Ranked(t) && i < |s| && i < |t|
    ensures s[i].score == t[i].score
  {
    RankCounts(entries, s, i, s[i].score);
    RankCounts(entries, t, i, s[i].score);
    RankCounts(entries, s, i, t[i].score);
    RankCounts(entries, t, i, t[i].score);
  }

  // Two candidates tie at a score that fewer than `k` candidates exceed.
  ghost predicate TieMatters(entries: set<Planned>, k: nat) {
    exists x, y :: x in entries && y in entries && x != y && x.score == y.score && |Above(entries, x.score)| < k
  }

  // The plan is independent of the order in which the candidates are listed exactly when
  // no tie reaches into it.
  lemma PlanUniqueWithoutTies(entries: set<Planned>, k: nat)
    ensures (forall a, b :: Possible(entries, k, a) && Possible(entries, k, b) ==> a == b) <==> !TieMatters(entries, k)
  {
    if TieMatters(entries, k) {
      var a, b := TwoPlans(entries, k);
    } else {
      forall a, b | Possible(entries, k, a) && Possible(entries, k, b) ensures a == b {
        OnePlan(entries, k, a, b);
      }
    }
  }

  // Two neighbours that tie for the only place: either may be admitted.
  lemma TiedNeighbors()
    ensures var a, b := Planned("a", 0.5, "s", "calls"), Planned("b", 0.5, "s", "calls");
            Possible({a, b}, 1, [a]) && Possible({a, b}, 1, [b]) && [a] != [b]
  {
    var a, b := Planned("a", 0.5, "s", "calls"), Planned("b", 0.5, "s", "calls");
    TieIsPlan({a, b}, a, b);
    TieIsPlan({a, b}, b, a);
  }

  lemma TieIsPlan(entries: set<Planned>, a: Planned, b: Planned)
    requires entries == {a, b} && a != b && a.score == b.score
    ensures Possible(entries, 1, [a])
  {
    RankedIsPlan(entries, 1, [a, b]);
    assert Take(1, [a, b]) == [a];
  }

  lemma OnePlan(entries: set<Planned>, k: nat, a: seq<Planned>, b: seq<Planned>)
    requires !TieMatters(entries, k) && Possible(entries, k, a) && Possible(entries, k, b)
    ensures a == b
  {
    ScoresDetermined(entries, k, a, b);
    var s := Ranking(entries, k, a);
    var t := Ranking(entries, k, b);
    forall i | 0 <= i < |a| ensures a[i] == b[i] {
      RankCounts(entries, s, i, s[i].score);
      assert s[i] in entries && t[i] in entries;
    }
  }

  lemma RankedIsPlan(entries: set<Planned>, k: nat, s: seq<Planned>)
    requires Lists(entries, s) && Ranked(s)
    ensures Possible(entries, k, Take(k, s))
  {
    RankedStays(s);
  }

  lemma TwoPlans(entries: set<Planned>, k: nat) returns (a: seq<Planned>, b: seq<Planned>)
    requires TieMatters(entries, k)
    ensures Possible(entries, k, a) && Possible(entries, k, b) && a != b
  {
    var x, y :| x in entries && y in entries && x != y && x.score == y.score && |Above(entries, x.score)| < k;
    var listing := SomeListing(entries);
    SortLists(entries, listing);
    var s := SortByScore(listing);
    hide SortByScore, AllDistinct;
    a, b := SwapTie(entries, k, s, x, y);
  }

  // The first position the tied score takes can hold either of the tied candidates.
  lemma SwapTie(entries: set<Planned>, k: nat, s: seq<Planned>, x: Planned, y: Planned)
    returns (a: seq<Planned>, b: seq<Planned>)
    requires Lists(entries, s) && Ranked(s) && x in entries && y in entries && x != y && x.score == y.score
    requires |Above(entries, x.score)| < k
    ensures Possible(entries, k, a) && Possible(entries, k, b) && a != b
  {
    var g := |Above(entries, x.score)|;
    var p := FirstOfTie(entries, s, x);
    var z := if s[g] == x then y else x;
    assert z in s;
    var q :| 0 <= q < |s| && s[q] == z;
    var t := Swapped(entries, s, g, q);
    hide *;
    RankedIsPlan(entries, k, s);
    RankedIsPlan(entries, k, t);
    a, b := Take(k, s), Take(k, t);
    TakeAt(k, s, g);
    TakeAt(k, t, g);
  }

  lemma TakeAt(k: nat, s: seq<Planned>, g: nat)
    requires g < k && g < |s|
    ensures g < |Take(k, s)| && Take(k, s)[g] == s[g]
  {
  }

  lemma FirstOfTie(entries: set<Planned>, s: seq<Planned>, x: Planned) returns (p: nat)
    requires Lists(entries, s) && Ranked(s) && x in entries
    ensures p == |Above(entries, x.score)| < |s| && s[p].score == x.score
  {
    p := |Above(entries, x.score)|;
    assert x in s;
    var at :| 0 <= at < |s| && s[at] == x;
    RankCounts(entries, s, at, x.score);
    RankCounts(entries, s, p, x.score);
  }

  lemma Swapped(entries: set<Planned>, s: seq<Planned>, g: nat, q: nat) returns (t: seq<Planned>)
    requires Lists(entries, s) && Ranked(s) && g < |s| && q < |s| && g != q && s[g].score == s[q].score
    ensures Lists(entries, t) && Ranked(t) && |t| == |s| && t[g] == s[q]
  {
    t := s[g := s[q]][q := s[g]];
    forall e ensures e in t <==> e in s {
      if e in s {
        var j :| 0 <= j < |s| && s[j] == e;
        assert t[if j == g then q else if j == q then g else j] == e;
      }
    }
  }

  lemma DistinctSnoc(s: seq<Planned>, e: Planned)
    requires AllDistinct(s) && e !in s
    ensures AllDistinct(s + [e])
  {
  }

  ghost function SomeListing(entries: set<Planned>): (s: seq<Planned>)
    ensures Lists(entries, s)
    decreases entries
  {
    if entries == {} then []
    else
      var e :| e in entries;
      SomeListing(entries - {e}) + [e]
  }

  // ---------- the planner ----------

  lemma ListingIsPlan(entries: set<Planned>, k: nat, s: seq<Planned>)
    requires Lists(entries, s)
    ensures Possible(entries, k, Take(k, SortByScore(s)))
  {
  }

  lemma NothingPlanned(entries: set<Planned>)
    ensures Possible(entries, 0, [])
  {
    ListingIsPlan(entries, 0, SomeListing(entries));
  }

  lemma BestStep(base: map<string, real>, edges: seq<Edge>, discount: real, k: nat)
    requires k < |edges|
    ensures var before, e := Best(base, edges[..k], discount), edges[k];
            Best(base, edges[..k + 1], discount) ==
              if !Reaches(base, e) then before
              else
                var c := Candidate(base, e, discount);
                if c.id in before && before[c.id].score >= c.score then before else before[c.id := c]
  {
    assert edges[..k + 1][..k] == edges[..k];
  }

  // The map of best candidates is emptied in an arbitrary order.
  method PlanExpansion(seeds: seq<Scored>, edges: seq<Edge>, discount: real, maxNeighbors: nat)
    returns (planned: seq<Planned>)
    ensures Possible(Best(SeedScores(seeds), edges, discount).Values, maxNeighbors, planned)
  {
    if maxNeighbors == 0 {
      planned := [];
      NothingPlanned(Best(SeedScores(seeds), edges, discount).Values);
      return;
    }
    var base := SeedScores(seeds);
    var best: map<string, Planned> := map[];
    for k := 0 to |edges|
      invariant best == Best(base, edges[..k], discount)
    {
      var e := edges[k];
      BestStep(base, edges, discount, k);
      if e.neighbor in base || e.seed !in base {
        continue;
      }
      var candidate := Candidate(base, e, discount);
      if !(e.neighbor in best && best[e.neighbor].score >= candidate.score) {
        best := best[e.neighbor := candidate];
      }
    }
    assert edges[..|edges|] == edges;
    forall id | id in best ensures best[id].id == id {
      BestMeaning(base, edges, discount, id);
    }
    var values := ValuesOf(best);
    ListingIsPlan(best.Values, maxNeighbors, values);
    planned := Take(maxNeighbors, SortByScore(values));
  }

  method ValuesOf(best: map<string, Planned>) returns (values: seq<Planned>)
    requires forall id :: id in best ==> best[id].id == id
    ensures Lists(best.Values, values)
  {
    values := [];
    var todo := best.Keys;
    while todo != {}
      invariant todo <= best.Keys && AllDistinct(values)
      invariant forall e :: e in values <==> e in best.Values && e.id !in todo
      decreases todo
    {
      var id :| id in todo;
      DistinctSnoc(values, best[id]);
      values := values + [best[id]];
      todo := todo - {id};
    }
  }
}
