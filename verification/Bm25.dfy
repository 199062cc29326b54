// The keyword index: posting lists kept by insertion, term-at-a-time scoring proved equal
// to the per-document BM25 sum, and a deterministic top-k.
module Bm25 {
  import opened Ordering

  type Tokens = seq<string>

  const K1: real := 1.2
  const B: real := 0.75

  // An indexed document: its name and its tokens. The index itself keeps only lengths
  // and postings.
  datatype Doc = Doc(id: string, tokens: Tokens)
  datatype Posting = Posting(doc: nat, tf: nat)

  // ---------- the simple form ----------

  function Count(tokens: Tokens, term: string): nat {
    if tokens == [] then 0 else Count(tokens[..|tokens| - 1], term) + if tokens[|tokens| - 1] == term then 1 else 0
  }

  // One posting for each document that contains the term, in insertion order.
  function Postings(docs: seq<Doc>, term: string): seq<Posting> {
    if docs == [] then []
    else
      var n := |docs| - 1;
      var before := Postings(docs[..n], term);
      if Count(docs[n].tokens, term) > 0 then before + [Posting(n, Count(docs[n].tokens, term))] else before
  }

  function TotalLength(docs: seq<Doc>): nat {
    if docs == [] then 0 else TotalLength(docs[..|docs| - 1]) + |docs[|docs| - 1].tokens|
  }

  function AverageLength(docs: seq<Doc>): real {
    TotalLength(docs) as real / (if |docs| == 0 then 1 else |docs|) as real
  }

  // Inverse document frequency; the logarithm is a parameter.
  function Idf(n: nat, df: nat, ln: real -> real): real {
    ln((n as real - df as real + 0.5) / (df as real + 0.5) + 1.0)
  }

  function TfScore(tf: nat, length: nat, average: real): real
    requires tf > 0 && average > 0.0
  {
    LengthNormPositive(length, average);
    (tf as real * (K1 + 1.0)) / (tf as real + K1 * (1.0 - B + B * length as real / average))
  }

  lemma LengthNormPositive(length: nat, average: real)
    requires average > 0.0
    ensures K1 * (1.0 - B + B * length as real / average) >= 0.0
  {
    QuotientNonNegative(B * length as real, average);
    ScaledNonNegative(1.0 - B + B * length as real / average);
  }

  lemma QuotientNonNegative(a: real, b: real)
    requires a >= 0.0 && b > 0.0
    ensures a / b >= 0.0
  {
  }

  lemma ScaledNonNegative(x: real)
    requires x >= 0.0
    ensures K1 * x >= 0.0
  {
  }

  // What one query token contributes to one document.
  function Contribution(docs: seq<Doc>, term: string, d: nat, ln: real -> real): real
    requires d < |docs| && Count(docs[d].tokens, term) > 0
  {
    AveragePositive(docs, d, term);
    Weigh(Idf(|docs|, |Postings(docs, term)|, ln),
          TfScore(Count(docs[d].tokens, term), |docs[d].tokens|, AverageLength(docs)))
  }

  function Weigh(idf: real, tfScore: real): real {
    idf * tfScore
  }

  predicate Matches(docs: seq<Doc>, query: Tokens, d: nat)
    requires d < |docs|
  {
    exists t :: t in query && Count(docs[d].tokens, t) > 0
  }

  // The textbook score: the sum over the query tokens, repetitions included.
  function Score(docs: seq<Doc>, query: Tokens, d: nat, ln: real -> real): real
    requires d < |docs|
  {
    if query == [] then 0.0
    else
      var front, term := query[..|query| - 1], query[|query| - 1];
      Score(docs, front, d, ln)
        + if Count(docs[d].tokens, term) > 0 then Contribution(docs, term, d, ln) else 0.0
  }

  // Every matching document with its score, in insertion order.
  function Results(docs: seq<Doc>, query: Tokens, upto: nat, ln: real -> real): seq<Scored>
    requires upto <= |docs|
  {
    if upto == 0 then []
    else
      var before := Results(docs, query, upto - 1, ln);
      if Matches(docs, query, upto - 1)
      then before + [Scored(docs[upto - 1].id, Score(docs, query, upto - 1, ln))]
      else before
  }

  // ---------- facts about the simple form ----------

  lemma {:induction false} CountPositive(tokens: Tokens, term: string)
    ensures Count(tokens, term) > 0 <==> term in tokens
    ensures Count(tokens, term) <= |tokens|
  {
    if tokens != [] {
      CountPositive(tokens[..|tokens| - 1], term);
      assert tokens == tokens[..|tokens| - 1] + [tokens[|tokens| - 1]];
    }
  }

  lemma {:induction false} LengthAtMostTotal(docs: seq<Doc>, d: nat)
    requires d < |docs|
    ensures |docs[d].tokens| <= TotalLength(docs)
  {
    if d < |docs| - 1 { LengthAtMostTotal(docs[..|docs| - 1], d); }
  }

  lemma AveragePositive(docs: seq<Doc>, d: nat, term: string)
    requires d < |docs| && Count(docs[d].tokens, term) > 0
    ensures AverageLength(docs) > 0.0
  {
    CountPositive(docs[d].tokens, term);
    LengthAtMostTotal(docs, d);
    RatioPositive(TotalLength(docs), |docs|);
  }

  lemma RatioPositive(a: nat, b: nat)
    requires a > 0 && b > 0
    ensures a as real / b as real > 0.0
  {
  }

  // A posting list is exactly the set of (document, term frequency) pairs of the
  // documents that contain the term, each once, by increasing document.
  lemma {:induction false} PostingsExact(docs: seq<Doc>, term: string)
    ensures forall i, j :: 0 <= i < j < |Postings(docs, term)| ==>
              Postings(docs, term)[i].doc < Postings(docs, term)[j].doc
    ensures forall p :: p in Postings(docs, term) <==>
              p.doc < |docs| && p.tf == Count(docs[p.doc].tokens, term) && p.tf > 0
  {
    if docs != [] {
      var n := |docs| - 1;
      var front := docs[..n];
      PostingsExact(front, term);
      forall p ensures p in Postings(docs, term) <==>
                         p.doc < |docs| && p.tf == Count(docs[p.doc].tokens, term) && p.tf > 0
      {
        if p.doc < n { assert front[p.doc] == docs[p.doc]; }
      }
    }
  }

  // ---------- the index ----------

  class Index {
    ghost var docs: seq<Doc>
    var inverted: map<string, seq<Posting>>
    var docIds: seq<string>
    var docLengths: seq<nat>
    var averageLength: real

    ghost predicate Valid()
      reads this
    {
      && |docIds| == |docLengths| == |docs|
      && (forall d :: 0 <= d < |docs| ==> docIds[d] == docs[d].id && docLengths[d] == |docs[d].tokens|)
      && (forall t :: t in inverted <==> Postings(docs, t) != [])
      && (forall t :: t in inverted ==> inverted[t] == Postings(docs, t))
      && (docs != [] ==> averageLength == AverageLength(docs))
    }

    constructor ()
      ensures Valid() && docs == []
    {
      docs, inverted, docIds, docLengths, averageLength := [], map[], [], [], 0.0;
    }

    method Add(id: string, tokens: Tokens)
      requires Valid()
      modifies this
      ensures Valid() && docs == old(docs) + [Doc(id, tokens)]
    {
      hide Count, Postings, AverageLength, MeanLength;
      ghost var before := docs;
      var docIdx := |docIds|;
      var tf := TermFrequencies(tokens);
      docs := docs + [Doc(id, tokens)];
      docIds := docIds + [id];
      docLengths := docLengths + [|tokens|];
      AddPostings(tf, docIdx, before);
      TotalOfLengths(docs, docLengths);
      averageLength := MeanLength(docLengths);
    }

    // One posting for each term of the new document, in whatever order the frequency
    // map is walked.
    method AddPostings(tf: map<string, nat>, docIdx: nat, ghost before: seq<Doc>)
      requires |docs| == |before| + 1 && docs[..|before|] == before && docIdx == |before|
      requires forall t :: t in inverted <==> Postings(before, t) != []
      requires forall t :: t in inverted ==> inverted[t] == Postings(before, t)
      requires forall t :: t in tf <==> Count(docs[docIdx].tokens, t) > 0
      requires forall t :: t in tf ==> tf[t] == Count(docs[docIdx].tokens, t)
      modifies this`inverted
      ensures forall t :: t in inverted <==> Postings(docs, t) != []
      ensures forall t :: t in inverted ==> inverted[t] == Postings(docs, t)
    {
      hide Count;
      var todo := tf.Keys;
      while todo != {}
        invariant todo <= tf.Keys
        invariant forall t :: t in inverted <==>
                    if t in tf && t !in todo then true else Postings(before, t) != []
        invariant forall t :: t in inverted ==>
                    inverted[t] == if t in tf && t !in todo then Postings(before, t) + [Posting(docIdx, tf[t])]
                                   else Postings(before, t)
        decreases todo
      {
        var term :| term in todo;
        var postings := if term in inverted then inverted[term] else [];
        inverted := inverted[term := postings + [Posting(docIdx, tf[term])]];
        todo := todo - {term};
      }
    }

    // Every matching document exactly once with its BM25 sum, best first, ties by name.
    method Search(query: Tokens, topK: nat, ln: real -> real) returns (hits: seq<Scored>)
      requires Valid()
      ensures hits == TopK(topK, Results(docs, query, |docs|, ln))
    {
      TallyStart(docs, ln);
      hide Count, Postings, Score, Matches, Tally;
      var scores: map<nat, real> := map[];
      var i := 0;
      while i < |query|
        invariant i <= |query| && Tally(docs, query[..i], scores, ln)
      {
        var token := query[i];
        var before := scores;
        if token in inverted {
          var idf := Idf(|docIds|, |inverted[token]|, ln);
          scores := AddToken(docs, docLengths, averageLength, token, inverted[token], idf, scores, ln);
        }
        TallyStep(docs, query[..i], before, scores, token, ln);
        assert query[..i + 1] == query[..i] + [token];
        i := i + 1;
      }
      assert query[..|query|] == query;
      TallyRange(docs, query, scores, ln);
      var results := Collect(scores);
      NamedIsResults(docs, query, docIds, scores, |docs|, ln);
      TopKMeaning(topK, Results(docs, query, |docs|, ln));
      hits := TopK(topK, results);
    }

    // The score map, listed in some order.
    method Collect(scores: map<nat, real>) returns (results: seq<Scored>)
      requires forall d :: d in scores ==> d < |docIds|
      ensures multiset(results) == Named(docIds, scores, scores.Keys)
    {
      results := [];
      var todo := scores.Keys;
      while todo != {}
        invariant todo <= scores.Keys
        invariant multiset(results) + Named(docIds, scores, todo) == Named(docIds, scores, scores.Keys)
        decreases todo
      {
        var d :| d in todo;
        NamedRemove(docIds, scores, todo, d);
        results := results + [Scored(docIds[d], scores[d])];
        todo := todo - {d};
      }
      NamedEmpty(docIds, scores, |docIds|);
    }
  }

  // Walk the posting list of one query token.
  method AddToken(
    ghost docs: seq<Doc>, lengths: seq<nat>, average: real, ghost token: string, postings: seq<Posting>, idf: real,
    before: map<nat, real>, ghost ln: real -> real)
    returns (scores: map<nat, real>)
    requires |lengths| == |docs| && forall d :: 0 <= d < |docs| ==> lengths[d] == |docs[d].tokens|
    requires docs != [] ==> average == AverageLength(docs)
    requires postings == Postings(docs, token) && idf == Idf(|docs|, |postings|, ln)
    ensures Added(docs, token, before, scores, ln)
  {
    PostingsExact(docs, token);
    AddedNone(docs, token, before, ln);
    hide *;
    scores := before;
    var j := 0;
    while j < |postings|
      invariant j <= |postings| && AddedUpTo(docs, token, postings[..j], before, scores, ln)
    {
      var p := postings[j];
      assert p in postings;
      ContributionIs(docs, token, p, ln);
      var contribution := Weigh(idf, TfScore(p.tf, lengths[p.doc], average));
      AddPosting(docs, token, postings, j, before, scores, ln);
      scores := scores[p.doc := (if p.doc in scores then scores[p.doc] else 0.0) + contribution];
      j := j + 1;
    }
    assert postings[..|postings|] == postings;
    AddedAll(docs, token, before, scores, ln);
  }

  method TermFrequencies(tokens: Tokens) returns (tf: map<string, nat>)
    ensures forall t :: t in tf <==> Count(tokens, t) > 0
    ensures forall t :: t in tf ==> tf[t] == Count(tokens, t)
  {
    tf := map[];
    var i := 0;
    while i < |tokens|
      invariant i <= |tokens|
      invariant forall t :: t in tf <==> Count(tokens[..i], t) > 0
      invariant forall t :: t in tf ==> tf[t] == Count(tokens[..i], t)
    {
      var token := tokens[i];
      assert tokens[..i + 1][..i] == tokens[..i];
      tf := tf[token := (if token in tf then tf[token] else 0) + 1];
      i := i + 1;
    }
    assert tokens[..|tokens|] == tokens;
  }

  function MeanLength(lengths: seq<nat>): real {
    SumLengths(lengths) as real / (if |lengths| == 0 then 1 else |lengths|) as real
  }

  function SumLengths(lengths: seq<nat>): nat {
    if lengths == [] then 0 else SumLengths(lengths[..|lengths| - 1]) + lengths[|lengths| - 1]
  }

  lemma {:induction false} TotalOfLengths(docs: seq<Doc>, lengths: seq<nat>)
    requires |docs| == |lengths| && forall d :: 0 <= d < |docs| ==> lengths[d] == |docs[d].tokens|
    ensures SumLengths(lengths) == TotalLength(docs) && MeanLength(lengths) == AverageLength(docs)
  {
    if docs != [] { TotalOfLengths(docs[..|docs| - 1], lengths[..|lengths| - 1]); }
  }

  // ---------- term-at-a-time against per-document ----------

  // The score map holds the sum so far of exactly the documents that match so far.
  ghost predicate Tally(docs: seq<Doc>, query: Tokens, scores: map<nat, real>, ln: real -> real) {
    && (forall d: nat :: d in scores <==> d < |docs| && Matches(docs, query, d))
    && (forall d :: d in scores ==> scores[d] == Score(docs, query, d, ln))
  }

  lemma TallyStart(docs: seq<Doc>, ln: real -> real)
    ensures Tally(docs, [], map[], ln)
  {
  }

  lemma TallyRange(docs: seq<Doc>, query: Tokens, scores: map<nat, real>, ln: real -> real)
    requires Tally(docs, query, scores, ln)
    ensures forall d :: d in scores ==> d < |docs|
  {
  }

  ghost predicate Added(docs: seq<Doc>, term: string, before: map<nat, real>, after: map<nat, real>, ln: real -> real) {
    && (forall d: nat :: d in after <==> d in before || (d < |docs| && Count(docs[d].tokens, term) > 0))
    && (forall d :: d in after ==>
          after[d] == (if d in before then before[d] else 0.0)
            + (if d < |docs| && Count(docs[d].tokens, term) > 0 then Contribution(docs, term, d, ln) else 0.0))
  }

  ghost predicate InList(ps: seq<Posting>, d: nat) {
    exists p :: p in ps && p.doc == d
  }

  ghost predicate AddedUpTo(
    docs: seq<Doc>, term: string, ps: seq<Posting>, before: map<nat, real>, after: map<nat, real>, ln: real -> real)
  {
    && (forall d: nat :: InList(ps, d) ==> d < |docs| && Count(docs[d].tokens, term) > 0)
    && (forall d: nat :: d in after <==> d in before || InList(ps, d))
    && (forall d :: d in after ==>
          after[d] == (if d in before then before[d] else 0.0)
            + (if InList(ps, d) then Contribution(docs, term, d, ln) else 0.0))
  }

  lemma PostingFresh(ps: seq<Posting>, j: nat)
    requires j < |ps| && forall i, k :: 0 <= i < k < |ps| ==> ps[i].doc < ps[k].doc
    ensures !InList(ps[..j], ps[j].doc)
  {
  }

  lemma ContributionIs(docs: seq<Doc>, term: string, p: Posting, ln: real -> real)
    requires p.doc < |docs| && p.tf == Count(docs[p.doc].tokens, term) && p.tf > 0
    ensures AverageLength(docs) > 0.0
    ensures Contribution(docs, term, p.doc, ln)
         == Weigh(Idf(|docs|, |Postings(docs, term)|, ln), TfScore(p.tf, |docs[p.doc].tokens|, AverageLength(docs)))
  {
    AveragePositive(docs, p.doc, term);
  }

  lemma AddedNone(docs: seq<Doc>, term: string, before: map<nat, real>, ln: real -> real)
    ensures AddedUpTo(docs, term, [], before, before, ln)
  {
  }

  lemma AddPosting(
    docs: seq<Doc>, term: string, ps: seq<Posting>, j: nat, before: map<nat, real>, after: map<nat, real>, ln: real -> real)
    requires j < |ps| && forall i, k :: 0 <= i < k < |ps| ==> ps[i].doc < ps[k].doc
    requires AddedUpTo(docs, term, ps[..j], before, after, ln)
    requires ps[j].doc < |docs| && Count(docs[ps[j].doc].tokens, term) > 0
    ensures var d := ps[j].doc;
            AddedUpTo(docs, term, ps[..j + 1], before,
              after[d := (if d in after then after[d] else 0.0) + Contribution(docs, term, d, ln)], ln)
  {
    hide Contribution, Count;
    PostingFresh(ps, j);
    forall d: nat ensures InList(ps[..j + 1], d) <==> InList(ps[..j], d) || d == ps[j].doc {
      assert ps[..j + 1] == ps[..j] + [ps[j]];
      assert ps[j] in ps[..j + 1];
    }
  }

  lemma AddedAll(docs: seq<Doc>, term: string, before: map<nat, real>, after: map<nat, real>, ln: real -> real)
    requires AddedUpTo(docs, term, Postings(docs, term), before, after, ln)
    ensures Added(docs, term, before, after, ln)
  {
    PostingsExact(docs, term);
    hide Count, Postings, Contribution;
    forall d: nat ensures InList(Postings(docs, term), d) <==> d < |docs| && Count(docs[d].tokens, term) > 0 {
      if d < |docs| && Count(docs[d].tokens, term) > 0 {
        assert Posting(d, Count(docs[d].tokens, term)) in Postings(docs, term);
      }
    }
  }

  lemma TallyStep(docs: seq<Doc>, query: Tokens, before: map<nat, real>, after: map<nat, real>, term: string, ln: real -> real)
    requires Tally(docs, query, before, ln)
    requires if Postings(docs, term) != [] then Added(docs, term, before, after, ln) else after == before
    ensures Tally(docs, query + [term], after, ln)
  {
    hide Count, Postings, Contribution;
    var longer := query + [term];
    assert longer[..|longer| - 1] == query;
    PostingsExact(docs, term);
    forall d: nat | d < |docs|
      ensures Matches(docs, longer, d) <==> Matches(docs, query, d) || Count(docs[d].tokens, term) > 0
      ensures Postings(docs, term) == [] ==> Count(docs[d].tokens, term) == 0
    {
      if Count(docs[d].tokens, term) > 0 {
        assert Posting(d, Count(docs[d].tokens, term)) in Postings(docs, term);
        assert term in longer;
      }
    }
    forall d: nat | d < |docs| && !Matches(docs, query, d) ensures Score(docs, query, d, ln) == 0.0 {
      NoMatchNoScore(docs, query, d, ln);
    }
  }

  lemma {:induction false} NoMatchNoScore(docs: seq<Doc>, query: Tokens, d: nat, ln: real -> real)
    requires d < |docs| && !Matches(docs, query, d)
    ensures Score(docs, query, d, ln) == 0.0
  {
    if query != [] {
      assert query[|query| - 1] in query;
      NoMatchNoScore(docs, query[..|query| - 1], d, ln);
    }
  }

  // ---------- listing the score map ----------

  // The named scores of a set of documents, as a multiset.
  ghost function Named(ids: seq<string>, scores: map<nat, real>, ds: set<nat>): multiset<Scored>
    requires forall d :: d in ds ==> d < |ids| && d in scores
  {
    NamedUpTo(ids, scores, ds, |ids|)
  }

  ghost function NamedUpTo(ids: seq<string>, scores: map<nat, real>, ds: set<nat>, n: nat): multiset<Scored>
    requires n <= |ids| && forall d :: d in ds ==> d < |ids| && d in scores
  {
    if n == 0 then multiset{}
    else NamedUpTo(ids, scores, ds, n - 1) + if n - 1 in ds then multiset{Scored(ids[n - 1], scores[n - 1])} else multiset{}
  }

  lemma {:induction false} NamedEmpty(ids: seq<string>, scores: map<nat, real>, n: nat)
    requires n <= |ids|
    ensures NamedUpTo(ids, scores, {}, n) == multiset{}
  {
    if n > 0 { NamedEmpty(ids, scores, n - 1); }
  }

  lemma {:induction false} NamedUpToRemove(ids: seq<string>, scores: map<nat, real>, ds: set<nat>, d: nat, n: nat)
    requires n <= |ids| && d in ds && forall x :: x in ds ==> x < |ids| && x in scores
    ensures NamedUpTo(ids, scores, ds, n) ==
              NamedUpTo(ids, scores, ds - {d}, n) + if d < n then multiset{Scored(ids[d], scores[d])} else multiset{}
  {
    if n > 0 {
      NamedUpToRemove(ids, scores, ds, d, n - 1);
      assert n - 1 in ds - {d} <==> n - 1 in ds && n - 1 != d;
    }
  }

  lemma NamedRemove(ids: seq<string>, scores: map<nat, real>, ds: set<nat>, d: nat)
    requires d in ds && forall x :: x in ds ==> x < |ids| && x in scores
    ensures Named(ids, scores, ds) == Named(ids, scores, ds - {d}) + multiset{Scored(ids[d], scores[d])}
  {
    NamedUpToRemove(ids, scores, ds, d, |ids|);
  }

  lemma {:induction false} NamedIsResults(docs: seq<Doc>, query: Tokens, ids: seq<string>, scores: map<nat, real>, n: nat, ln: real -> real)
    requires n <= |docs| == |ids| && Tally(docs, query, scores, ln)
    requires forall d :: 0 <= d < |docs| ==> ids[d] == docs[d].id
    ensures NamedUpTo(ids, scores, scores.Keys, n) == multiset(Results(docs, query, n, ln))
  {
    if n > 0 { NamedIsResults(docs, query, ids, scores, n - 1, ln); }
  }

  // The listing names every matching document, and nothing else, with its own score.
  lemma {:induction false} ResultsExact(docs: seq<Doc>, query: Tokens, upto: nat, ln: real -> real, hit: Scored)
    requires upto <= |docs|
    ensures hit in Results(docs, query, upto, ln) <==>
              exists d :: 0 <= d < upto && Matches(docs, query, d) && hit == Scored(docs[d].id, Score(docs, query, d, ln))
  {
    if upto > 0 { ResultsExact(docs, query, upto - 1, ln, hit); }
  }
}
