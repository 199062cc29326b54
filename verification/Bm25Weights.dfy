// What the BM25 score rewards: rare terms, frequent occurrence and short documents.
module Bm25Weights {
  import opened Bm25

  ghost predicate Increasing(ln: real -> real) {
    forall x, y :: 0.0 < x < y ==> ln(x) < ln(y)
  }

  // ---------- the weight of a term ----------

  // The documents in which a term occurs.
  ghost function Containing(docs: seq<Doc>, term: string): set<nat> {
    set d: nat | d < |docs| && term in docs[d].tokens
  }

  lemma {:induction false} PostingsCount(docs: seq<Doc>, term: string)
    ensures |Postings(docs, term)| == |Containing(docs, term)|
  {
    if docs != [] {
      var n := |docs| - 1;
      PostingsCount(docs[..n], term);
      CountPositive(docs[n].tokens, term);
      assert forall d: nat :: d < n ==> docs[..n][d] == docs[d];
      if term in docs[n].tokens {
        assert Containing(docs, term) == Containing(docs[..n], term) + {n};
      } else {
        assert Containing(docs, term) == Containing(docs[..n], term);
      }
    }
  }

  lemma {:induction false} AtMostAll(docs: seq<Doc>, term: string)
    ensures |Postings(docs, term)| <= |docs|
  {
    if docs != [] { AtMostAll(docs[..|docs| - 1], term); }
  }

  lemma QuotientFalls(a: real, b: real, c: real, d: real)
    requires a > c > 0.0 && 0.0 < b < d
    ensures a / b > c / d > 0.0
  {
    Products(c, a, d, b);
    CrossCompare(c, d, a, b);
    CrossCompare(0.0, 1.0, c, d);
  }

  lemma IdfFalls(n: nat, rare: nat, common: nat, ln: real -> real)
    requires Increasing(ln) && rare < common <= n
    ensures Idf(n, rare, ln) > Idf(n, common, ln)
  {
    QuotientFalls(n as real - rare as real + 0.5, rare as real + 0.5, n as real - common as real + 0.5, common as real + 0.5);
  }

  lemma IdfPositive(n: nat, df: nat, ln: real -> real)
    requires Increasing(ln) && ln(1.0) >= 0.0 && df <= n
    ensures Idf(n, df, ln) > 0.0
  {
    RatioPositiveReal(n as real - df as real + 0.5, df as real + 0.5);
  }

  lemma RatioPositiveReal(a: real, b: real)
    requires a > 0.0 && b > 0.0
    ensures a / b > 0.0
  {
  }

  // ---------- the weight of an occurrence ----------

  lemma CrossCompare(p: real, u: real, q: real, v: real)
    requires u > 0.0 && v > 0.0
    ensures p * v <= q * u ==> p / u <= q / v
    ensures p * v < q * u ==> p / u < q / v
  {
    var x, y := p / u, q / v;
    assert x * u == p && y * v == q;
    var w := u * v;
    assert w > 0.0;
    assert p * v == x * w by { assert x * u * v == x * (u * v); }
    assert q * u == y * w by { assert y * v * u == y * (v * u); }
    if p * v <= q * u && x > y { TimesPositive(x, y, w); }
    if p * v < q * u && x >= y { TimesPositive(x, y, w); }
  }

  lemma TimesPositive(x: real, y: real, w: real)
    requires w > 0.0
    ensures x > y ==> x * w > y * w
    ensures x >= y ==> x * w >= y * w
  {
  }

  lemma Products(a: real, b: real, x: real, y: real)
    requires 0.0 < a <= b && 0.0 < y <= x
    ensures a * y <= b * x
    ensures a < b || y < x ==> a * y < b * x
  {
    assert a * y <= a * x <= b * x;
    if y < x { assert a * y < a * x; }
    if a < b { assert a * x < b * x; }
  }

  lemma FractionRises(a: real, b: real, x: real, y: real, s: real)
    requires 0.0 < a <= b && 0.0 < y <= x && s > 0.0
    ensures a * s / (a + x) <= b * s / (b + y)
    ensures a < b || y < x ==> a * s / (a + x) < b * s / (b + y)
  {
    Products(a, b, x, y);
    var p, q := a * (b + y), b * (a + x);
    assert p == a * b + a * y && q == b * a + b * x;
    TimesPositive(q, p, s);
    assert a * s * (b + y) == p * s by { assert a * s * (b + y) == a * (b + y) * s; }
    assert b * s * (a + x) == q * s by { assert b * s * (a + x) == b * (a + x) * s; }
    CrossCompare(a * s, a + x, b * s, b + y);
  }

  // The length term of the denominator.
  lemma NormRises(short: nat, long: nat, average: real)
    requires average > 0.0 && short <= long
    ensures 0.0 < K1 * (1.0 - B + B * short as real / average) <= K1 * (1.0 - B + B * long as real / average)
    ensures short < long ==> K1 * (1.0 - B + B * short as real / average) < K1 * (1.0 - B + B * long as real / average)
  {
    var s, l := B * short as real, B * long as real;
    CrossCompare(s, average, l, average);
    TimesPositive(l, s, average);
    CrossCompare(0.0, average, s, average);
  }

  // More occurrences in a document that is not longer weigh more, and at equal frequency a
  // longer document weighs less.
  lemma TfRises(few: nat, many: nat, short: nat, long: nat, average: real)
    requires average > 0.0 && 0 < few <= many && short <= long
    ensures TfScore(few, long, average) <= TfScore(many, short, average)
    ensures few < many || short < long ==> TfScore(few, long, average) < TfScore(many, short, average)
  {
    NormRises(short, long, average);
    FractionRises(few as real, many as real, K1 * (1.0 - B + B * long as real / average),
                  K1 * (1.0 - B + B * short as real / average), K1 + 1.0);
  }

  // However often a term occurs, it weighs less than `K1 + 1` times its rarity.
  lemma TfSaturates(tf: nat, length: nat, average: real)
    requires average > 0.0 && tf > 0
    ensures 0.0 < TfScore(tf, length, average) < K1 + 1.0
  {
    NormRises(length, length, average);
    var norm := K1 * (1.0 - B + B * length as real / average);
    var a := tf as real;
    CrossCompare(a * (K1 + 1.0), a + norm, K1 + 1.0, 1.0);
    CrossCompare(0.0, 1.0, a * (K1 + 1.0), a + norm);
  }

  // ---------- the score of a document ----------

  // What a query token adds to the score of a document.
  function Gain(docs: seq<Doc>, term: string, d: nat, ln: real -> real): real
    requires d < |docs|
  {
    if Count(docs[d].tokens, term) > 0 then Contribution(docs, term, d, ln) else 0.0
  }

  // `d` is no longer than `e` and has the term at least as often.
  predicate Favoured(docs: seq<Doc>, term: string, d: nat, e: nat) {
    && d < |docs| && e < |docs| && |docs[d].tokens| <= |docs[e].tokens|
    && Count(docs[e].tokens, term) <= Count(docs[d].tokens, term)
  }

  // More often in `d`, or as often and `d` is shorter.
  predicate Preferred(docs: seq<Doc>, term: string, d: nat, e: nat) {
    && Favoured(docs, term, d, e) && Count(docs[d].tokens, term) > 0
    && (Count(docs[e].tokens, term) < Count(docs[d].tokens, term) || |docs[d].tokens| < |docs[e].tokens|)
  }

  lemma GainPositive(docs: seq<Doc>, term: string, d: nat, ln: real -> real)
    requires Increasing(ln) && ln(1.0) >= 0.0 && d < |docs| && Count(docs[d].tokens, term) > 0
    ensures Gain(docs, term, d, ln) > 0.0
    ensures Idf(|docs|, |Postings(docs, term)|, ln) > 0.0
  {
    hide Postings, Count, Idf, TfScore, Increasing;
    AtMostAll(docs, term);
    IdfPositive(|docs|, |Postings(docs, term)|, ln);
    AveragePositive(docs, d, term);
    var average := AverageLength(docs);
    TfSaturates(Count(docs[d].tokens, term), |docs[d].tokens|, average);
    TimesPositive(TfScore(Count(docs[d].tokens, term), |docs[d].tokens|, average), 0.0,
                  Idf(|docs|, |Postings(docs, term)|, ln));
  }

  lemma GainRises(docs: seq<Doc>, term: string, d: nat, e: nat, ln: real -> real)
    requires Increasing(ln) && ln(1.0) >= 0.0 && Favoured(docs, term, d, e)
    ensures Gain(docs, term, e, ln) <= Gain(docs, term, d, ln)
    ensures Preferred(docs, term, d, e) ==> Gain(docs, term, e, ln) < Gain(docs, term, d, ln)
  {
    hide Postings, Count, Idf, TfScore, Increasing;
    var many, few := Count(docs[d].tokens, term), Count(docs[e].tokens, term);
    if many > 0 {
      GainPositive(docs, term, d, ln);
      if few > 0 {
        AveragePositive(docs, d, term);
        var average := AverageLength(docs);
        TfRises(few, many, |docs[d].tokens|, |docs[e].tokens|, average);
        TimesPositive(TfScore(many, |docs[d].tokens|, average), TfScore(few, |docs[e].tokens|, average),
                      Idf(|docs|, |Postings(docs, term)|, ln));
      }
    }
  }

  // A document that has every query token at least as often as another, and is no longer,
  // scores at least as high; it scores higher if it has one of them more often, or has one
  // at all and is shorter.
  lemma {:induction false} ScoreRises(docs: seq<Doc>, query: Tokens, d: nat, e: nat, ln: real -> real)
    requires Increasing(ln) && ln(1.0) >= 0.0 && d < |docs| && e < |docs|
    requires forall t :: t in query ==> Favoured(docs, t, d, e)
    ensures Score(docs, query, e, ln) <= Score(docs, query, d, ln)
    ensures (exists t :: t in query && Preferred(docs, t, d, e)) ==> Score(docs, query, e, ln) < Score(docs, query, d, ln)
  {
    hide Favoured, Preferred, Contribution, Increasing, Count;
    if query != [] {
      var front, term := query[..|query| - 1], query[|query| - 1];
      ScoreRises(docs, front, d, e, ln);
      GainRises(docs, term, d, e, ln);
      assert query == front + [term];
    }
  }

  // At no lower frequency in a document, a query for the rarer of two terms gives it the
  // higher score.
  lemma RarerTermScoresHigher(docs: seq<Doc>, d: nat, rare: string, common: string, ln: real -> real)
    requires Increasing(ln) && ln(1.0) >= 0.0 && d < |docs|
    requires 0 < Count(docs[d].tokens, common) <= Count(docs[d].tokens, rare)
    requires |Containing(docs, rare)| < |Containing(docs, common)|
    ensures Score(docs, [common], d, ln) < Score(docs, [rare], d, ln)
  {
    PostingsCount(docs, rare);
    PostingsCount(docs, common);
    AtMostAll(docs, common);
    hide Postings, Count, Idf, TfScore, Increasing, Containing;
    GainPositive(docs, common, d, ln);
    IdfFalls(|docs|, |Postings(docs, rare)|, |Postings(docs, common)|, ln);
    AveragePositive(docs, d, rare);
    var average, length := AverageLength(docs), |docs[d].tokens|;
    var few, many := Count(docs[d].tokens, common), Count(docs[d].tokens, rare);
    TfRises(few, many, length, length, average);
    TfSaturates(few, length, average);
    var low, high := Idf(|docs|, |Postings(docs, common)|, ln), Idf(|docs|, |Postings(docs, rare)|, ln);
    TimesPositive(TfScore(many, length, average), TfScore(few, length, average), high);
    TimesPositive(high, low, TfScore(few, length, average));
    SingleScore(docs, common, d, ln);
    SingleScore(docs, rare, d, ln);
  }

  lemma SingleScore(docs: seq<Doc>, term: string, d: nat, ln: real -> real)
    requires d < |docs|
    ensures Score(docs, [term], d, ln) == Gain(docs, term, d, ln)
  {
    var none: Tokens := [];
    assert [term][..0] == none;
    assert Score(docs, none, d, ln) == 0.0;
  }

  // A term that occurs once in a document of average length scores its rarity: the
  // logarithm of one plus the odds against a document having it, each side with half a
  // document added.
  lemma OnceAtAverageLength(docs: seq<Doc>, d: nat, term: string, ln: real -> real)
    requires d < |docs| && Count(docs[d].tokens, term) == 1 && |docs[d].tokens| * |docs| == TotalLength(docs)
    ensures var has := |Containing(docs, term)| as real;
            var lacks := |docs| as real - has;
            Score(docs, [term], d, ln) == ln(1.0 + (lacks + 0.5) / (has + 0.5))
  {
    PostingsCount(docs, term);
    AveragePositive(docs, d, term);
    SingleScore(docs, term, d, ln);
    hide Postings, Count, Containing, TotalLength;
    MeanIsLength(TotalLength(docs), |docs|, |docs[d].tokens|);
    OnceAtMean(|docs[d].tokens|, AverageLength(docs));
  }

  lemma MeanIsLength(total: nat, n: nat, length: nat)
    requires n > 0 && length * n == total
    ensures total as real / n as real == length as real
  {
    assert total as real == length as real * n as real;
  }

  lemma OnceAtMean(length: nat, average: real)
    requires average > 0.0 && length as real == average
    ensures TfScore(1, length, average) == 1.0
  {
    assert B * average / average == B;
  }
}
