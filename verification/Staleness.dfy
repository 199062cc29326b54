// How long a fragment nobody engages with can stay: a bound on decay-then-evict passes.
module DecayMath {

  function Pow(r: real, n: nat): real {
    if n == 0 then 1.0 else r * Pow(r, n - 1)
  }

  lemma MulMono(a: real, b: real, c: real)
    requires a <= b && 0.0 <= c
    ensures a * c <= b * c
  {
  }

  lemma MulMonoStrict(a: real, b: real, c: real)
    requires a < b && 0.0 < c
    ensures a * c < b * c
  {
  }

  lemma MulAssoc(a: real, b: real, c: real)
    ensures (a * b) * c == a * (b * c)
  {
  }

  lemma {:induction false} PowPositive(r: real, n: nat)
    requires 0.0 < r
    ensures 0.0 < Pow(r, n)
  {
    if n > 0 { PowPositive(r, n - 1); }
  }

  // One step of the Bernoulli bound below.
  lemma BernoulliStep(r: real, m: real)
    requires 0.0 < r < 1.0 && 0.0 <= m
    ensures r * (r + (m + 1.0) * (1.0 - r)) <= r + m * (1.0 - r)
  {
    var x := m * (1.0 - r);
    MulMono(0.0, m, 1.0 - r);
    assert (m + 1.0) * (1.0 - r) == x + (1.0 - r);
    assert r * (r + (x + (1.0 - r))) == r + r * x;
    MulMono(r, 1.0, x);
  }

  lemma {:induction false} Bernoulli(r: real, n: nat)
    requires 0.0 < r < 1.0
    ensures Pow(r, n) * (r + n as real * (1.0 - r)) <= r
  {
    if n > 0 {
      Bernoulli(r, n - 1);
      PowPositive(r, n - 1);
      var p, m := Pow(r, n - 1), (n - 1) as real;
      var before, after := r + m * (1.0 - r), r + (m + 1.0) * (1.0 - r);
      BernoulliStep(r, m);
      MulMono(r * after, before, p);
      MulAssoc(p, r, after);
      assert p * (r * after) == (r * p) * after;
    }
  }

  lemma {:induction false} PowDecreases(r: real, m: nat, n: nat)
    requires 0.0 < r < 1.0 && m <= n
    ensures Pow(r, n) <= Pow(r, m)
    decreases n
  {
    if m < n {
      PowDecreases(r, m, n - 1);
      PowPositive(r, n - 1);
      MulMono(r, 1.0, Pow(r, n - 1));
    }
  }

  // Passes after which a score of `s` has certainly decayed below `u`.
  function StaleBound(s: real, u: real, r: real): nat
    requires 0.0 < u <= s && 0.0 < r < 1.0
  {
    BoundNonNegative(s, u, r);
    ((s / u - 1.0) * r / (1.0 - r)).Floor + 1
  }

  lemma QuotientAtLeastOne(s: real, u: real)
    requires 0.0 < u <= s
    ensures s / u >= 1.0 && (s / u) * u == s
  {
  }

  lemma DivNonNegative(a: real, b: real)
    requires 0.0 <= a && 0.0 < b
    ensures 0.0 <= a / b && (a / b) * b == a
  {
  }

  lemma BoundNonNegative(s: real, u: real, r: real)
    requires 0.0 < u <= s && 0.0 < r < 1.0
    ensures var x := (s / u - 1.0) * r / (1.0 - r);
            0.0 <= x && x * (1.0 - r) == (s / u - 1.0) * r && 0 <= x.Floor
  {
    QuotientAtLeastOne(s, u);
    MulMono(0.0, s / u - 1.0, r);
    DivNonNegative((s / u - 1.0) * r, 1.0 - r);
  }

  lemma DenominatorBig(s: real, u: real, r: real)
    requires 0.0 < u <= s && 0.0 < r < 1.0
    ensures (s / u) * r < r + StaleBound(s, u, r) as real * (1.0 - r)
  {
    var q := s / u;
    BoundNonNegative(s, u, r);
    MulMonoStrict((q - 1.0) * r / (1.0 - r), StaleBound(s, u, r) as real, 1.0 - r);
    assert (q - 1.0) * r == q * r - r;
  }

  lemma RatioBelow(q: real, r: real, d: real, p: real)
    requires 0.0 < r && 0.0 < p && p * d <= r && q * r < d
    ensures p * q < 1.0
  {
    MulMonoStrict(q * r, d, p);
    MulAssoc(p, q, r);
    var x, y := q * r, p * q;
    assert y * r == p * x == x * p && p * d == d * p;
    if y >= 1.0 { MulMono(1.0, y, r); }
  }

  // `t` is what is left of `s`, at most, after `n` decays.
  ghost predicate Decayed(s: real, t: real, r: real, n: nat) {
    t <= s * Pow(r, n)
  }

  lemma DecayedStart(s: real, r: real)
    ensures Decayed(s, s, r, 0)
  {
    assert s * 1.0 == s;
  }

  lemma DecayedStep(s: real, t: real, r: real, n: nat)
    requires 0.0 < r && Decayed(s, t, r, n)
    ensures Decayed(s, t * r, r, n + 1)
  {
    var p := Pow(r, n);
    MulMono(t, s * p, r);
    MulAssoc(s, p, r);
    assert p * r == r * p;
  }

  lemma RatioOfBound(q: real, r: real, k: nat) returns (p: real)
    requires 0.0 < r < 1.0 && q * r < r + k as real * (1.0 - r)
    ensures p == Pow(r, k) && p * q < 1.0
  {
    p := Pow(r, k);
    var d := r + k as real * (1.0 - r);
    assert p * d <= r && 0.0 < p by {
      Bernoulli(r, k);
      PowPositive(r, k);
    }
    RatioBelow(q, r, d, p);
  }

  // Enough decays take any score below the threshold.
  lemma DecayedBelow(s: real, t: real, u: real, r: real, n: nat)
    requires 0.0 < u <= s && 0.0 < r < 1.0 && n >= StaleBound(s, u, r) && Decayed(s, t, r, n)
    ensures t < u
  {
    var k, q := StaleBound(s, u, r), s / u;
    DenominatorBig(s, u, r);
    var p := RatioOfBound(q, r, k);
    var p' := Pow(r, n);
    assert p' <= p by { PowDecreases(r, k, n); }
    assert t <= s * p';
    hide *;
    QuotientAtLeastOne(s, u);
    ScaledBelow(s, u, q, p, p');
  }

  lemma ScaledBelow(s: real, u: real, q: real, p: real, p': real)
    requires 0.0 < u <= s && q * u == s && p * q < 1.0 && p' <= p
    ensures s * p' < u
  {
    MulMonoStrict(p * q, 1.0, u);
    MulAssoc(p, q, u);
    MulMono(p', p, s);
  }
}

module Staleness {
  import opened DecayMath
  import opened Workspace
  import opened Eviction
  import opened WorkspaceRuns

  // A step engages `id` when it admits it or raises its score.
  predicate Engages(before: State, after: State, id: string) {
    id in Ids(after.loaded) && (id !in Ids(before.loaded) || ScoreOf(after, id) > ScoreOf(before, id))
  }

  ghost predicate NeverEngaged(st: State, cfg: Config, ops: seq<Op>, id: string) {
    forall i :: 0 <= i < |ops| ==> !Engages(Run(st, cfg, ops[..i]), Run(st, cfg, ops[..i + 1]), id)
  }

  function Decays(ops: seq<Op>): nat {
    if ops == [] then 0 else Decays(ops[..|ops| - 1]) + if ops[|ops| - 1].DoDecay? then 1 else 0
  }

  lemma DecayScores(st: State, cfg: Config, id: string)
    ensures ScoreOf(Decay(st, cfg), id) == Fade(ScoreOf(st, id), cfg)
  {
  }

  lemma FadeStep(s: real, t: real, cfg: Config, n: nat)
    requires 0.0 < cfg.decay && Decayed(s, t, cfg.decay, n)
    ensures Decayed(s, Fade(t, cfg), cfg.decay, n + 1)
  {
    DecayedStep(s, t, cfg.decay, n);
  }

  lemma {:induction false} UnengagedDecays(st: State, cfg: Config, ops: seq<Op>, id: string)
    requires 0.0 < cfg.decay < 1.0 && NeverEngaged(st, cfg, ops, id)
    ensures var end := Run(st, cfg, ops);
            id in Ids(end.loaded) ==>
              id in Ids(st.loaded) && Decayed(ScoreOf(st, id), ScoreOf(end, id), cfg.decay, Decays(ops))
  {
    if ops == [] {
      DecayedStart(ScoreOf(st, id), cfg.decay);
    } else {
      var n := |ops| - 1;
      var front := ops[..n];
      assert forall i :: 0 <= i <= n ==> front[..i] == ops[..i];
      assert ops[..n + 1] == ops;
      UnengagedDecays(st, cfg, front, id);
      var before := Run(st, cfg, front);
      UnengagedStep(st, before, cfg, ops[n], id, Decays(front));
    }
  }

  lemma UnengagedStep(st: State, before: State, cfg: Config, op: Op, id: string, n: nat)
    requires 0.0 < cfg.decay < 1.0 && !Engages(before, Apply(before, cfg, op), id)
    requires id in Ids(before.loaded) ==> Decayed(ScoreOf(st, id), ScoreOf(before, id), cfg.decay, n)
    ensures var after := Apply(before, cfg, op);
            id in Ids(after.loaded) ==>
              Decayed(ScoreOf(st, id), ScoreOf(after, id), cfg.decay, if op.DoDecay? then n + 1 else n)
  {
    hide Pow, Fade, Load, Follow, Refresh, Evict;
    if op.DoDecay? {
      DecayScores(before, cfg, id);
      if id in Ids(before.loaded) {
        FadeStep(ScoreOf(st, id), ScoreOf(before, id), cfg, n);
      }
    }
  }

  // A fragment whose score stood at `s` and that no step engages again is gone after
  // the first eviction pass preceded by StaleBound decays, whatever else happens.
  lemma StaleLeaves(st: State, cfg: Config, ops: seq<Op>, latest: bool, query: string, synth: Synthesizer, id: string)
    requires 0.0 < cfg.decay < 1.0 && 0.0 < cfg.unload <= ScoreOf(st, id)
    requires NeverEngaged(st, cfg, ops, id)
    requires Decays(ops) >= StaleBound(ScoreOf(st, id), cfg.unload, cfg.decay)
    ensures id !in Ids(Apply(Run(st, cfg, ops), cfg, DoEvict(latest, query, synth)).loaded)
  {
    var before := Run(st, cfg, ops);
    UnengagedDecays(st, cfg, ops, id);
    assert Apply(before, cfg, DoEvict(latest, query, synth)) == Evict(before, cfg, latest, query, synth);
    hide *;
    if id in Ids(Evict(before, cfg, latest, query, synth).loaded) {
      SurvivorById(before, cfg, latest, query, synth, id);
      DecayedBelow(ScoreOf(st, id), ScoreOf(before, id), cfg.unload, cfg.decay, Decays(ops));
    }
  }

  lemma SurvivorById(st: State, cfg: Config, latest: bool, query: string, synth: Synthesizer, id: string)
    requires id in Ids(Evict(st, cfg, latest, query, synth).loaded)
    ensures id in Ids(st.loaded) && ScoreOf(st, id) >= cfg.unload
  {
    hide Evict;
    var f :| f in Evict(st, cfg, latest, query, synth).loaded && f.id == id;
    SurvivorRelevant(st, cfg, latest, query, synth, f);
    SurvivorWasResident(st, cfg, latest, query, synth, f);
  }

  lemma SurvivorWasResident(st: State, cfg: Config, latest: bool, query: string, synth: Synthesizer, f: Fragment)
    requires f in Evict(st, cfg, latest, query, synth).loaded
    ensures f in st.loaded
  {
    EvictParts(st, cfg, latest, query, synth);
    PartIds(st.loaded, Evict(st, cfg, latest, query, synth).loaded, Evicted(st, cfg, latest));
  }

  // What counts as leaving a fragment alone: a pass over hits that do not name it.
  lemma {:induction false} UnhitLoadDoesNotEngage(st: State, env: Env, cfg: Config, hits: seq<Hit>, mode: Mode, pathOf: string -> string, id: string)
    requires Inv(st, cfg, pathOf) && Honours(env, pathOf) && forall h :: h in hits ==> h.id != id
    ensures !Engages(st, Load(st, env, cfg, hits, mode).st, id)
    decreases |hits|
  {
    if hits != [] {
      var h := hits[0];
      LoadOneInv(st, env, cfg, h.id, h.score, mode, pathOf);
      UnhitLoadOne(st, env, cfg, h.id, h.score, mode, pathOf, id);
      var step := LoadOne(st, env, cfg, h.id, h.score, mode);
      if step.Continue? {
        hide LoadOne, Inv;
        UnhitLoadDoesNotEngage(step.st, env, cfg, hits[1..], mode, pathOf, id);
      }
    }
  }

  // One hit on another fragment upgrades that one, admits it, or re-rates it.
  lemma UnhitLoadOne(st: State, env: Env, cfg: Config, hit: string, score: real, mode: Mode, pathOf: string -> string, id: string)
    requires Inv(st, cfg, pathOf) && Honours(env, pathOf) && hit != id
    ensures !Engages(st, LoadOne(st, env, cfg, hit, score, mode).st, id)
  {
    if hit in Ids(st.loaded) {
      UnhitResident(st, env, cfg, hit, score, mode, pathOf, id);
    } else {
      UnhitAbsent(st, env, cfg, hit, score, mode, pathOf, id);
    }
  }

  lemma UnhitResident(st: State, env: Env, cfg: Config, hit: string, score: real, mode: Mode, pathOf: string -> string, id: string)
    requires Inv(st, cfg, pathOf) && Honours(env, pathOf) && hit != id && hit in Ids(st.loaded)
    ensures !Engages(st, LoadOne(st, env, cfg, hit, score, mode).st, id)
  {
    hide Tokens, HistoryTokens, CountOf, Clip, WithNotes;
    var st1 := Rehit(st, hit, score);
    if mode.AsFull? && ResidentAsStub(st1.loaded, hit) {
      UpgradeInv(st1, env, cfg, hit, FULL, score, pathOf);
    }
  }

  lemma UnhitAbsent(st: State, env: Env, cfg: Config, hit: string, score: real, mode: Mode, pathOf: string -> string, id: string)
    requires Inv(st, cfg, pathOf) && Honours(env, pathOf) && hit != id && hit !in Ids(st.loaded)
    ensures !Engages(st, LoadOne(st, env, cfg, hit, score, mode).st, id)
  {
    hide Tokens, HistoryTokens, CountOf, Clip, WithNotes, Inv;
    if LoadOne(st, env, cfg, hit, score, mode).st != st {
      FetchFacts(st.loaded, env, cfg, hit, mode, pathOf);
    }
  }

  // Alternating decay and eviction, nothing else.
  function Passes(n: nat, latest: bool, query: string, synth: Synthesizer): seq<Op> {
    if n == 0 then [] else Passes(n - 1, latest, query, synth) + [DoDecay, DoEvict(latest, query, synth)]
  }

  lemma PassesUnfold(st: State, cfg: Config, n: nat, latest: bool, query: string, synth: Synthesizer)
    requires n > 0
    ensures Run(st, cfg, Passes(n, latest, query, synth))
         == Evict(Decay(Run(st, cfg, Passes(n - 1, latest, query, synth)), cfg), cfg, latest, query, synth)
  {
    hide Evict;
    var ops, all := Passes(n - 1, latest, query, synth), Passes(n, latest, query, synth);
    assert all[..|all| - 1] == ops + [DoDecay];
    assert (ops + [DoDecay])[..|ops|] == ops;
  }

  lemma NoPasses(st: State, cfg: Config, latest: bool, query: string, synth: Synthesizer)
    ensures Run(st, cfg, Passes(0, latest, query, synth)) == st
  {
  }

  // Where `id` may still be after `n` passes from `st`.
  ghost predicate Faded(st: State, end: State, cfg: Config, id: string, n: nat) {
    && DistinctIds(end.loaded)
    && (id in Ids(end.loaded) ==>
          && Decayed(ScoreOf(st, id), ScoreOf(end, id), cfg.decay, n)
          && (n > 0 ==> ScoreOf(end, id) >= cfg.unload))
  }

  lemma ScoreSurvives(st: State, cfg: Config, latest: bool, query: string, synth: Synthesizer, id: string)
    requires DistinctIds(st.loaded) && id in Ids(Evict(st, cfg, latest, query, synth).loaded)
    ensures ScoreOf(Evict(st, cfg, latest, query, synth), id) == ScoreOf(st, id)
  {
    EvictIds(st, cfg, latest, query, synth);
    EvictParts(st, cfg, latest, query, synth);
    hide Evict, Evicted, Keep, Queue, CutOf, Taken;
  }

  lemma OnePass(st: State, before: State, cfg: Config, n: nat, latest: bool, query: string, synth: Synthesizer, id: string)
    requires 0.0 < cfg.decay && Faded(st, before, cfg, id, n)
    ensures Faded(st, Evict(Decay(before, cfg), cfg, latest, query, synth), cfg, id, n + 1)
  {
    hide Decayed, Pow, Evict, Fade;
    var decayed := Decay(before, cfg);
    var end := Evict(decayed, cfg, latest, query, synth);
    DecayScores(before, cfg, id);
    EvictIds(decayed, cfg, latest, query, synth);
    if id in Ids(end.loaded) {
      SurvivorById(decayed, cfg, latest, query, synth, id);
      ScoreSurvives(decayed, cfg, latest, query, synth, id);
      FadeStep(ScoreOf(st, id), ScoreOf(before, id), cfg, n);
    }
  }

  lemma FadedStart(st: State, cfg: Config, id: string)
    requires DistinctIds(st.loaded)
    ensures Faded(st, st, cfg, id, 0)
  {
    DecayedStart(ScoreOf(st, id), cfg.decay);
  }

  lemma {:induction false} PassesDecay(st: State, cfg: Config, n: nat, latest: bool, query: string, synth: Synthesizer, id: string)
    requires 0.0 < cfg.decay < 1.0 && DistinctIds(st.loaded)
    ensures Faded(st, Run(st, cfg, Passes(n, latest, query, synth)), cfg, id, n)
  {
    hide *;
    if n == 0 {
      FadedStart(st, cfg, id);
      NoPasses(st, cfg, latest, query, synth);
    } else {
      PassesDecay(st, cfg, n - 1, latest, query, synth, id);
      PassesUnfold(st, cfg, n, latest, query, synth);
      OnePass(st, Run(st, cfg, Passes(n - 1, latest, query, synth)), cfg, n - 1, latest, query, synth, id);
    }
  }

  // Left alone, a fragment is evicted within StaleBound decay-then-evict passes.
  lemma StaleWithinPasses(st: State, cfg: Config, latest: bool, query: string, synth: Synthesizer, id: string)
    requires DistinctIds(st.loaded)
    requires 0.0 < cfg.decay < 1.0 && 0.0 < cfg.unload <= ScoreOf(st, id)
    ensures var n := StaleBound(ScoreOf(st, id), cfg.unload, cfg.decay);
            id !in Ids(Run(st, cfg, Passes(n, latest, query, synth)).loaded)
  {
    var n := StaleBound(ScoreOf(st, id), cfg.unload, cfg.decay);
    BoundNonNegative(ScoreOf(st, id), cfg.unload, cfg.decay);
    PassesDecay(st, cfg, n, latest, query, synth, id);
    hide StaleBound, Decayed, Run, Passes;
    var end := Run(st, cfg, Passes(n, latest, query, synth));
    if id in Ids(end.loaded) {
      DecayedBelow(ScoreOf(st, id), ScoreOf(end, id), cfg.unload, cfg.decay, n);
    }
  }
}
