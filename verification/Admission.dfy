// What admission lets in, and how long what it lets in can stay.
module Admission {
  import opened Text
  import opened Workspace
  import opened Eviction
  import opened WorkspaceRuns
  import Staleness

  // ---------- admission by retrieval ----------

  // A step that takes nothing resident out and lowers no score.
  ghost predicate OnlyRises(st: State, after: State) {
    && Ids(st.loaded) <= Ids(after.loaded)
    && forall id | id in st.scores :: id in after.scores && after.scores[id] >= st.scores[id]
  }

  lemma UpgradeOnlyRises(st: State, env: Env, cfg: Config, id: string, range: string, admitted: real, pathOf: string -> string)
    requires Inv(st, cfg, pathOf) && Honours(env, pathOf) && ResidentAsStub(st.loaded, id)
    ensures OnlyRises(st, Upgrade(st, env, cfg, id, range, admitted))
  {
    UpgradeInv(st, env, cfg, id, range, admitted, pathOf);
    hide Inv, UpgradeBody, Replace, Tokens, Ids;
  }

  lemma LoadOneOnlyRises(st: State, env: Env, cfg: Config, id: string, score: real, mode: Mode, pathOf: string -> string)
    requires Inv(st, cfg, pathOf) && Honours(env, pathOf)
    ensures OnlyRises(st, LoadOne(st, env, cfg, id, score, mode).st)
  {
    hide Label;
    LoadOneInv(st, env, cfg, id, score, mode, pathOf);
    if id in Ids(st.loaded) {
      var st1 := Rehit(st, id, score);
      RehitInv(st, cfg, id, score, pathOf);
      if mode.AsFull? && ResidentAsStub(st1.loaded, id) {
        UpgradeOnlyRises(st1, env, cfg, id, FULL, score, pathOf);
      }
    } else if LoadOne(st, env, cfg, id, score, mode).st != st {
      FetchFacts(st.loaded, env, cfg, id, mode, pathOf);
    }
    hide Upgrade, Fetch, Tokens, CountOf;
  }

  lemma {:induction false} LoadOnlyRises(st: State, env: Env, cfg: Config, hits: seq<Hit>, mode: Mode, pathOf: string -> string)
    requires Inv(st, cfg, pathOf) && Honours(env, pathOf)
    ensures OnlyRises(st, Load(st, env, cfg, hits, mode).st)
    decreases |hits|
  {
    hide LoadOne, Inv, Ids;
    if hits != [] {
      LoadOneInv(st, env, cfg, hits[0].id, hits[0].score, mode, pathOf);
      LoadOneOnlyRises(st, env, cfg, hits[0].id, hits[0].score, mode, pathOf);
      var step := LoadOne(st, env, cfg, hits[0].id, hits[0].score, mode);
      if step.Continue? {
        LoadOnlyRises(step.st, env, cfg, hits[1..], mode, pathOf);
      }
    }
  }

  // A hit on something absent is admitted exactly when it is good enough, can be read, and
  // there is room for it: in fragments, in tokens and, outside session history, under the
  // source's cap.
  lemma AdmittedExactly(st: State, env: Env, cfg: Config, id: string, score: real, mode: Mode, pathOf: string -> string)
    requires Honours(env, pathOf) && id !in Ids(st.loaded)
    ensures var after, fetched := LoadOne(st, env, cfg, id, score, mode).st, Fetch(st.loaded, env, cfg, id, mode);
            id in Ids(after.loaded) <==>
              && score >= cfg.load && fetched.Candidate?
              && |st.loaded| < cfg.maxFragments && Tokens(st.loaded) < cfg.maxTokens
              && Tokens(st.loaded) + fetched.fragment.tokens <= cfg.maxTokens
              && (fetched.fragment.source == HISTORY || CountOf(st.loaded, fetched.fragment.source) < cfg.maxPerSource)
  {
    if Fetch(st.loaded, env, cfg, id, mode).Candidate? {
      FetchFacts(st.loaded, env, cfg, id, mode, pathOf);
      AppendMeasures(st.loaded, Fetch(st.loaded, env, cfg, id, mode).fragment);
    }
    hide Fetch, Tokens, CountOf, HistoryTokens;
  }

  // Hysteresis, the entering half: whatever a pass newly admits was a hit at or above the
  // load threshold, and its score stands there or higher when the pass ends.
  lemma {:induction false} LoadAdmitsGood(st: State, env: Env, cfg: Config, hits: seq<Hit>, mode: Mode,
                                          pathOf: string -> string, id: string)
    requires Inv(st, cfg, pathOf) && Honours(env, pathOf) && id !in Ids(st.loaded)
    requires id in Ids(Load(st, env, cfg, hits, mode).st.loaded)
    ensures var after := Load(st, env, cfg, hits, mode).st;
            && (exists h | h in hits :: h.id == id && h.score >= cfg.load)
            && id in after.scores && after.scores[id] >= cfg.load
    decreases |hits|
  {
    var h, rest := hits[0], hits[1..];
    var step := LoadOne(st, env, cfg, h.id, h.score, mode);
    LoadOneInv(st, env, cfg, h.id, h.score, mode, pathOf);
    if id in Ids(step.st.loaded) {
      FirstAdmission(st, env, cfg, h, mode, pathOf, id);
      hide LoadOne, Inv, Ids;
      if step.Continue? {
        LoadOnlyRises(step.st, env, cfg, rest, mode, pathOf);
      }
    } else {
      hide LoadOne, Inv, Ids;
      LoadAdmitsGood(step.st, env, cfg, rest, mode, pathOf, id);
    }
  }

  lemma FirstAdmission(st: State, env: Env, cfg: Config, h: Hit, mode: Mode, pathOf: string -> string, id: string)
    requires Inv(st, cfg, pathOf) && Honours(env, pathOf) && id !in Ids(st.loaded)
    requires id in Ids(LoadOne(st, env, cfg, h.id, h.score, mode).st.loaded)
    ensures var after := LoadOne(st, env, cfg, h.id, h.score, mode).st;
            h.id == id && h.score >= cfg.load && id in after.scores && after.scores[id] == h.score
  {
    if h.id in Ids(st.loaded) {
      var st1 := Rehit(st, h.id, h.score);
      RehitInv(st, cfg, h.id, h.score, pathOf);
      if mode.AsFull? && ResidentAsStub(st1.loaded, h.id) {
        UpgradeInv(st1, env, cfg, h.id, FULL, h.score, pathOf);
      }
    } else {
      FetchFacts(st.loaded, env, cfg, h.id, mode, pathOf);
      AppendMeasures(st.loaded, Fetch(st.loaded, env, cfg, h.id, mode).fragment);
    }
    hide Fetch, Upgrade, Tokens, CountOf;
  }

  // ---------- hits on what is resident ----------

  // A hit in stub mode leaves a scored fragment with the better of its score and the hit's,
  // and changes nothing else.
  lemma RehitInStubMode(st: State, env: Env, cfg: Config, id: string, score: real)
    requires id in Ids(st.loaded) && id in st.scores
    ensures LoadOne(st, env, cfg, id, score, AsStub)
         == Continue(st.(scores := st.scores[id := if score > st.scores[id] then score else st.scores[id]]))
  {
    assert st.scores[id := st.scores[id]] == st.scores;
  }

  // In full mode its score is at least that, an upgrade pinning it.
  lemma RehitInFullMode(st: State, env: Env, cfg: Config, id: string, score: real, pathOf: string -> string)
    requires Inv(st, cfg, pathOf) && Honours(env, pathOf) && id in Ids(st.loaded) && id in st.scores
    ensures var step := LoadOne(st, env, cfg, id, score, AsFull);
            && step.Continue? && id in step.st.scores
            && step.st.scores[id] >= score && step.st.scores[id] >= st.scores[id]
  {
    var st1 := Rehit(st, id, score);
    RehitInv(st, cfg, id, score, pathOf);
    if ResidentAsStub(st1.loaded, id) {
      UpgradeOnlyRises(st1, env, cfg, id, FULL, score, pathOf);
    }
    hide Upgrade;
  }

  lemma RehitScores(st: State, env: Env, cfg: Config, id: string, score: real, mode: Mode, pathOf: string -> string)
    requires Inv(st, cfg, pathOf) && Honours(env, pathOf) && id in Ids(st.loaded) && id in st.scores
    ensures var step := LoadOne(st, env, cfg, id, score, mode);
            step.Continue? && id in step.st.scores && step.st.scores[id] >= score
  {
    if mode == AsStub {
      RehitInStubMode(st, env, cfg, id, score);
    } else {
      RehitInFullMode(st, env, cfg, id, score, pathOf);
    }
  }

  // A pass that has met resident fragments only, so far, is not over.
  lemma {:induction false} HitCounts(st: State, env: Env, cfg: Config, hits: seq<Hit>, mode: Mode, pathOf: string -> string, k: nat)
    requires Inv(st, cfg, pathOf) && Honours(env, pathOf) && k < |hits|
    requires forall j :: 0 <= j <= k ==> hits[j].id in Ids(st.loaded)
    requires hits[k].id in st.scores
    ensures var after := Load(st, env, cfg, hits, mode).st;
            hits[k].id in after.scores && after.scores[hits[k].id] >= hits[k].score
    decreases |hits|
  {
    var h, rest := hits[0], hits[1..];
    var step := LoadOne(st, env, cfg, h.id, h.score, mode);
    LoadOneInv(st, env, cfg, h.id, h.score, mode, pathOf);
    LoadOneOnlyRises(st, env, cfg, h.id, h.score, mode, pathOf);
    assert step.Continue?;
    hide LoadOne, Inv, Ids;
    if k == 0 {
      RehitScores(st, env, cfg, h.id, h.score, mode, pathOf);
      LoadOnlyRises(step.st, env, cfg, rest, mode, pathOf);
    } else {
      assert forall j :: 0 <= j <= k - 1 ==> rest[j] == hits[j + 1];
      HitCounts(step.st, env, cfg, rest, mode, pathOf, k - 1);
    }
  }

  // Retrieval keeps a fragment: hit again at or above the unload threshold, with only
  // resident fragments hit before it, it is still there after the pass and an eviction.
  lemma HitAgainStays(st: State, env: Env, cfg: Config, hits: seq<Hit>, mode: Mode, pathOf: string -> string, k: nat,
                      latest: bool, query: string, synth: Synthesizer)
    requires Inv(st, cfg, pathOf) && Honours(env, pathOf) && k < |hits|
    requires forall j :: 0 <= j <= k ==> hits[j].id in Ids(st.loaded)
    requires hits[k].id in st.scores && hits[k].score >= cfg.unload
    ensures hits[k].id in Ids(Evict(Load(st, env, cfg, hits, mode).st, cfg, latest, query, synth).loaded)
  {
    var after := Load(st, env, cfg, hits, mode).st;
    HitCounts(st, env, cfg, hits, mode, pathOf, k);
    LoadInv(st, env, cfg, hits, mode, pathOf);
    assert Tokens(after.loaded) <= cfg.maxTokens;
    assert ScoreOf(after, hits[k].id) >= cfg.unload;
    hide *;
    GoodEnoughStays(after, cfg, latest, query, synth, hits[k].id);
  }

  // ---------- how a pass goes on ----------

  // A full workspace ends the pass at the first absent hit, a full budget at the first that
  // is good enough; a hit below the threshold is passed over; a read that fails is reported.
  lemma PassGoesOn(st: State, env: Env, cfg: Config, hits: seq<Hit>, mode: Mode)
    requires hits != [] && hits[0].id !in Ids(st.loaded)
    ensures var h, pass := hits[0], Load(st, env, cfg, hits, mode);
            if |st.loaded| >= cfg.maxFragments then pass == Outcome(st, true)
            else if h.score < cfg.load then pass == Load(st, env, cfg, hits[1..], mode)
            else if Tokens(st.loaded) >= cfg.maxTokens then pass == Outcome(st, true)
            else if h.id !in env.history && env.read(h.id, if mode == AsStub then "stub" else "full") == Failed then
              pass == Outcome(st, false)
            else pass == Load(LoadOne(st, env, cfg, h.id, h.score, mode).st, env, cfg, hits[1..], mode)
  {
    hide Ids, Tokens, CountOf;
  }

  // ---------- what is admitted ----------

  // What a hit newly admits: the turn itself for session history, within the share of the
  // budget open to it; else what the retriever reads, headed by the stored notes and counted
  // again where there are any.
  lemma AdmittedFragment(st: State, env: Env, cfg: Config, id: string, score: real, mode: Mode, pathOf: string -> string)
    requires Honours(env, pathOf) && id !in Ids(st.loaded)
    requires id in Ids(LoadOne(st, env, cfg, id, score, mode).st.loaded)
    ensures var after := LoadOne(st, env, cfg, id, score, mode).st;
            var n := |st.loaded|;
            && |after.loaded| == n + 1 && after.loaded[..n] == st.loaded && after.scores == st.scores[id := score]
            && var f := after.loaded[n];
               if id in env.history then
                 && f == Fragment(id, env.history[id], HISTORY, "full", env.count(env.history[id]), 0)
                 && HistoryTokens(st.loaded) + f.tokens <= cfg.HistoryShare()
               else
                 && env.read(id, if mode == AsStub then "stub" else "full").Got?
                 && var read := env.read(id, if mode == AsStub then "stub" else "full").fragment;
                    if env.notes(id) == [] then f == read
                    else f == read.(content := WithNotes(env.notes(id), read.content),
                                    tokens := env.count(WithNotes(env.notes(id), read.content)))
  {
    FetchFactsAbsent(st, env, cfg, id, score, mode);
    hide WithNotes, Tokens, HistoryTokens, CountOf;
  }

  lemma FetchFactsAbsent(st: State, env: Env, cfg: Config, id: string, score: real, mode: Mode)
    requires id !in Ids(st.loaded) && id in Ids(LoadOne(st, env, cfg, id, score, mode).st.loaded)
    ensures Fetch(st.loaded, env, cfg, id, mode).Candidate?
    ensures LoadOne(st, env, cfg, id, score, mode).st == Admit(st, Fetch(st.loaded, env, cfg, id, mode).fragment, score)
  {
    hide Fetch, Tokens, CountOf;
  }

  // ---------- admission by line reference ----------

  // Without a score, and not a stub that a later reference could upgrade into having one.
  predicate Unscored(st: State, id: string) {
    id !in st.scores && !ResidentAsStub(st.loaded, id)
  }

  lemma RangeIsNoStub(r: LineRef)
    ensures Label(RangeText(r)) != STUB
  {
    assert IsDigit(Dec(r.start)[0]);
    assert RangeText(r)[0] == Dec(r.start)[0];
  }

  lemma FollowOneUnscored(st: State, env: Env, search: string -> Search, cfg: Config, r: LineRef, pathOf: string -> string,
                          id: string)
    requires Honours(env, pathOf) && Unscored(st, id)
    ensures Unscored(FollowOne(st, env, search, cfg, r).st, id)
  {
    RangeIsNoStub(r);
    hide RangeText, Resolve, Tokens, Clip;
    var target := Resolve(st, search, r.hint);
    if target.Found? && target.id in Ids(st.loaded) {
      if ResidentAsStub(st.loaded, target.id) {
        UpgradeUnscored(st, env, cfg, target.id, RangeText(r), cfg.load, pathOf, id);
      }
    }
  }

  lemma UpgradeUnscored(st: State, env: Env, cfg: Config, other: string, range: string, admitted: real,
                        pathOf: string -> string, id: string)
    requires Honours(env, pathOf) && Unscored(st, id) && ResidentAsStub(st.loaded, other)
    ensures Unscored(Upgrade(st, env, cfg, other, range, admitted), id)
  {
    assert other != id;
    if UpgradeBody(st, env, cfg, other, range).Some? {
      BodyFacts(st, env, cfg, other, range, pathOf);
    }
    hide UpgradeBody, Tokens;
  }

  lemma {:induction false} FollowUnscored(st: State, env: Env, search: string -> Search, cfg: Config, refs: seq<LineRef>,
                                          pathOf: string -> string, id: string)
    requires Honours(env, pathOf) && Unscored(st, id)
    ensures Unscored(Follow(st, env, search, cfg, refs).st, id)
    decreases |refs|
  {
    if refs != [] {
      FollowOneUnscored(st, env, search, cfg, refs[0], pathOf, id);
      var step := FollowOne(st, env, search, cfg, refs[0]);
      if step.Continue? {
        hide FollowOne, Unscored;
        FollowUnscored(step.st, env, search, cfg, refs[1..], pathOf, id);
      }
    }
  }

  // What a line reference newly admits has no score, so the eviction pass that ends the
  // same iteration takes it out again, however much room there is, unless the unload
  // threshold lets a score of zero stay.
  lemma LineReferencesDoNotOutlive(st: State, env: Env, search: string -> Search, cfg: Config, refs: seq<LineRef>,
                                   pathOf: string -> string, latest: bool, query: string, synth: Synthesizer, id: string)
    requires Inv(st, cfg, pathOf) && Honours(env, pathOf) && id !in Ids(st.loaded)
    requires id in Ids(Follow(st, env, search, cfg, refs).st.loaded)
    ensures id in Ids(Evict(Follow(st, env, search, cfg, refs).st, cfg, latest, query, synth).loaded) <==> cfg.unload <= 0.0
  {
    assert Unscored(st, id);
    var after := Follow(st, env, search, cfg, refs).st;
    FollowUnscored(st, env, search, cfg, refs, pathOf, id);
    FollowInv(st, env, search, cfg, refs, pathOf);
    assert ScoreOf(after, id) == 0.0 && Tokens(after.loaded) <= cfg.maxTokens;
    hide *;
    if id in Ids(Evict(after, cfg, latest, query, synth).loaded) {
      Staleness.SurvivorById(after, cfg, latest, query, synth, id);
    } else if cfg.unload <= 0.0 {
      GoodEnoughStays(after, cfg, latest, query, synth, id);
    }
  }

  lemma GoodEnoughStays(st: State, cfg: Config, latest: bool, query: string, synth: Synthesizer, id: string)
    requires id in Ids(st.loaded) && Tokens(st.loaded) <= cfg.maxTokens && ScoreOf(st, id) >= cfg.unload
    ensures id in Ids(Evict(st, cfg, latest, query, synth).loaded)
  {
    var f :| f in st.loaded && f.id == id;
    var i :| 0 <= i < |st.loaded| && st.loaded[i] == f;
    hide Evict, Tokens, ScoreOf;
    EvictWithinBudget(st, cfg, latest, query, synth, i);
  }

  // A retriever with one chunk, which every search finds.
  function SampleRead(id: string, range: string): Read {
    Got(Fragment(id, "x", "a.rs", Label(range), 1, 0))
  }

  function SamplePath(id: string): string { "a.rs" }

  function SampleSearch(hint: string): Search { Found("a.rs#1") }

  function SampleEnv(): Env {
    Env(SampleRead, map[], _ => [], _ => 1)
  }

  // One reference into an empty workspace with room to spare: admitted, then gone.
  lemma ReferenceComesAndGoes(cfg: Config, latest: bool, query: string, synth: Synthesizer)
    requires cfg.maxFragments >= 1 && cfg.maxTokens >= 1 && cfg.unload > 0.0
    ensures var after := Follow(Empty(), SampleEnv(), SampleSearch, cfg, [LineRef("a.rs", 3, 4)]);
            && after.ok && Ids(after.st.loaded) == {"a.rs#1"}
            && Evict(after.st, cfg, latest, query, synth).loaded == []
  {
    var r := LineRef("a.rs", 3, 4);
    var f := Fragment("a.rs#1", "x", "a.rs", Label(RangeText(r)), 1, 0);
    var after := Follow(Empty(), SampleEnv(), SampleSearch, cfg, [r]);
    OneAdmitted(SampleEnv(), SampleSearch, cfg, r, f);
    FollowSingle(Empty(), SampleEnv(), SampleSearch, cfg, r);
    assert after == Outcome(Empty().(loaded := [f]), true);
    assert Inv(Empty(), cfg, SamplePath) && Honours(SampleEnv(), SamplePath);
    assert Ids([f]) == {"a.rs#1"};
    hide *;
    assert Ids(Empty().loaded) == {} by { NothingResident(); }
    LineReferencesDoNotOutlive(Empty(), SampleEnv(), SampleSearch, cfg, [r], SamplePath, latest, query, synth, "a.rs#1");
    assert DistinctIds(after.st.loaded) by { OneIsDistinct(f); }
    OnlyOneGone(after.st, cfg, latest, query, synth, "a.rs#1");
  }

  lemma OneIsDistinct(f: Fragment)
    ensures DistinctIds(Empty().(loaded := [f]).loaded)
  {
  }

  lemma NothingResident()
    ensures Ids(Empty().loaded) == {}
  {
  }

  lemma SomeIds(fs: seq<Fragment>)
    requires fs != []
    ensures Ids(fs) != {}
  {
    assert fs[0].id in Ids(fs);
  }

  lemma OnlyOneGone(st: State, cfg: Config, latest: bool, query: string, synth: Synthesizer, id: string)
    requires DistinctIds(st.loaded) && Ids(st.loaded) == {id}
    requires id !in Ids(Evict(st, cfg, latest, query, synth).loaded)
    ensures Evict(st, cfg, latest, query, synth).loaded == []
  {
    var left := Evict(st, cfg, latest, query, synth).loaded;
    EvictIds(st, cfg, latest, query, synth);
    hide Evict;
    if left != [] { SomeIds(left); }
  }

  lemma FollowSingle(st: State, env: Env, search: string -> Search, cfg: Config, r: LineRef)
    requires FollowOne(st, env, search, cfg, r).Continue?
    ensures Follow(st, env, search, cfg, [r]) == Outcome(FollowOne(st, env, search, cfg, r).st, true)
  {
    hide FollowOne;
    assert [r][1..] == [];
  }

  lemma OneAdmitted(env: Env, search: string -> Search, cfg: Config, r: LineRef, f: Fragment)
    requires cfg.maxFragments >= 1 && f.tokens <= cfg.maxTokens
    requires search(r.hint) == Found(f.id) && env.read(f.id, RangeText(r)) == Got(f)
    ensures FollowOne(Empty(), env, search, cfg, r) == Continue(Empty().(loaded := [f]))
  {
    hide RangeText;
    assert Tokens([]) == 0;
  }
}
