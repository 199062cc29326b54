// The orchestrator's mutable workspace. Four structures are updated side by side; every
// method is proved equal to its counterpart on Workspace.State, in which the identifier
// set and the per-source counters are recomputed from the fragment list.
module Orchestrator {
  import opened Ordering
  import opened Workspace
  import opened Eviction
  import opened WorkspaceRuns

  // ---------- counters under append and removal ----------

  lemma CountsAppend(fs: seq<Fragment>, f: Fragment)
    ensures f.source == HISTORY ==> Counts(fs + [f]) == Counts(fs)
    ensures f.source != HISTORY ==>
              Counts(fs + [f]) == Counts(fs)[f.source := (if f.source in Counts(fs) then Counts(fs)[f.source] else 0) + 1]
  {
    AppendMeasures(fs, f);
    assert Sources(fs + [f]) == Sources(fs) + if f.source == HISTORY then {} else {f.source};
    CountPositive(fs, f.source);
    if f.source != HISTORY && f.source !in Sources(fs) {
      assert CountOf(fs, f.source) == 0;
    }
    hide CountOf;
  }

  lemma SourcesByCount(fs: seq<Fragment>, s: string)
    ensures s in Sources(fs) <==> s != HISTORY && CountOf(fs, s) > 0
  {
    CountPositive(fs, s);
  }

  lemma CountRemoved(fs: seq<Fragment>, i: nat, s: string)
    requires i < |fs|
    ensures CountOf(fs, s) == CountOf(fs[..i] + fs[i + 1..], s) + if fs[i].source == s then 1 else 0
  {
    assert fs == fs[..i] + [fs[i]] + fs[i + 1..];
    CountAppend(fs[..i] + [fs[i]], fs[i + 1..], s);
    CountAppend(fs[..i], [fs[i]], s);
    CountAppend(fs[..i], fs[i + 1..], s);
  }

  // The counters are determined by the exact per-source counts, with no zero entries.
  lemma CountsAre(fs: seq<Fragment>, m: map<string, nat>)
    requires forall s :: s in m <==> s != HISTORY && CountOf(fs, s) > 0
    requires forall s :: s in m ==> m[s] == CountOf(fs, s)
    ensures Counts(fs) == m
  {
    forall s ensures s in Sources(fs) <==> s in m { SourcesByCount(fs, s); }
  }

  lemma CountsExact(fs: seq<Fragment>)
    ensures forall s :: s in Counts(fs) <==> s != HISTORY && CountOf(fs, s) > 0
    ensures forall s :: s in Counts(fs) ==> Counts(fs)[s] == CountOf(fs, s)
  {
    forall s ensures s in Sources(fs) <==> s != HISTORY && CountOf(fs, s) > 0 { SourcesByCount(fs, s); }
  }

  lemma CountsRemove(fs: seq<Fragment>, i: nat)
    requires i < |fs|
    ensures var gs, s := fs[..i] + fs[i + 1..], fs[i].source;
            Counts(gs) ==
              if s == HISTORY then Counts(fs)
              else if s in Counts(fs) && Counts(fs)[s] > 1 then Counts(fs)[s := Counts(fs)[s] - 1]
              else Counts(fs) - {s}
  {
    hide CountOf, Counts, Sources;
    var gs, s := fs[..i] + fs[i + 1..], fs[i].source;
    CountsExact(fs);
    forall x ensures CountOf(fs, x) == CountOf(gs, x) + if s == x then 1 else 0 {
      CountRemoved(fs, i, x);
    }
    CountsAre(gs,
      if s == HISTORY then Counts(fs)
      else if s in Counts(fs) && Counts(fs)[s] > 1 then Counts(fs)[s := Counts(fs)[s] - 1]
      else Counts(fs) - {s});
  }

  lemma IdsRemove(fs: seq<Fragment>, i: nat)
    requires i < |fs| && DistinctIds(fs)
    ensures var gs := fs[..i] + fs[i + 1..];
            Ids(gs) == Ids(fs) - {fs[i].id} && DistinctIds(gs)
  {
    var gs := fs[..i] + fs[i + 1..];
    forall x ensures x in Ids(gs) <==> x in Ids(fs) && x != fs[i].id {
      if x in Ids(fs) && x != fs[i].id {
        var j :| 0 <= j < |fs| && fs[j].id == x;
        assert gs[if j < i then j else j - 1] == fs[j];
      }
      if x in Ids(gs) {
        var j :| 0 <= j < |gs| && gs[j].id == x;
        assert gs[j] == fs[if j < i then j else j + 1];
      }
    }
  }

  class DynamicRecall {
    const cfg: Config
    ghost const pathOf: string -> string

    var loaded: seq<Fragment>
    var loadedIds: set<string>
    var sourceCounts: map<string, nat>
    var capExempt: set<string>
    var scores: map<string, real>
    var ledger: seq<Note>

    function State(): State
      reads this
    {
      Workspace.State(loaded, scores, ledger)
    }

    // The redundant structures agree with the list.
    ghost predicate InStep()
      reads this`loaded, this`loadedIds, this`sourceCounts, this`capExempt
    {
      loadedIds == Ids(loaded) && sourceCounts == Counts(loaded) && capExempt == {}
    }

    ghost predicate Valid()
      reads this
    {
      InStep() && Inv(State(), cfg, pathOf)
    }

    constructor (cfg: Config, ghost pathOf: string -> string)
      ensures Valid() && this.cfg == cfg && this.pathOf == pathOf && State() == Empty()
    {
      this.cfg := cfg;
      this.pathOf := pathOf;
      loaded, loadedIds, sourceCounts, capExempt, scores, ledger := [], {}, map[], {}, map[], [];
    }

    method ResetSession()
      modifies this
      ensures Valid() && State() == Empty()
    {
      loaded, loadedIds, sourceCounts, capExempt, scores, ledger := [], {}, map[], {}, map[], [];
    }

    method DecayRelevanceScores()
      requires Valid()
      modifies this`scores
      ensures Valid() && State() == Decay(old(State()), cfg)
    {
      ApplyInv(State(), cfg, DoDecay, pathOf);
      hide Inv, Counts, Decay, Fade;
      ghost var start := scores;
      var todo := scores.Keys;
      while todo != {}
        invariant todo <= scores.Keys == start.Keys
        invariant forall id :: id in start ==>
                    scores[id] == if id in todo then start[id] else Fade(start[id], cfg)
        decreases todo
      {
        var id :| id in todo;
        scores := scores[id := Fade(scores[id], cfg)];
        todo := todo - {id};
      }
      DecayIs(old(State()), cfg, scores);
    }

    method RefreshRelevanceScores(overlap: string -> real)
      requires Valid()
      modifies this`scores
      ensures Valid() && State() == Refresh(old(State()), overlap)
    {
      ApplyInv(State(), cfg, DoRefresh(overlap), pathOf);
      hide Inv, Counts;
      var i := 0;
      while i < |loaded|
        invariant i <= |loaded| && InStep()
        invariant RefreshAll(State(), overlap, loaded[i..]) == Refresh(old(State()), overlap)
      {
        var frag := loaded[i];
        assert loaded[i..][0] == frag && loaded[i..][1..] == loaded[i + 1..];
        if frag.id in scores && overlap(frag.content) > scores[frag.id] + 0.2 {
          scores := scores[frag.id := overlap(frag.content)];
        }
        i := i + 1;
      }
    }

    method UpgradeStubToBody(env: Env, id: string, range: string, admitted: real)
      requires Valid() && Honours(env, pathOf) && ResidentAsStub(loaded, id)
      modifies this`loaded, this`scores
      ensures Valid() && State() == Upgrade(old(State()), env, cfg, id, range, admitted)
    {
      UpgradeInv(State(), env, cfg, id, range, admitted, pathOf);
      UpgradeCounts(State(), env, cfg, id, range, admitted, pathOf);
      hide Inv, Counts, Ids, Tokens, Clip, Pin;
      var read := env.read(id, range);
      if !read.Got? { return; }
      var body := Clip(env, cfg, read.fragment);
      var at := IndexOf(loaded, id);
      var stubTokens := if at.Some? then loaded[at.value].tokens else 0;
      var current := Tokens(loaded);
      var after := (if stubTokens <= current then current - stubTokens else 0) + body.tokens;
      if after > cfg.maxTokens { return; }
      if at.Some? { loaded := loaded[at.value := body]; }
      PinScore(id, admitted);
    }

    // Keep the fragment above the eviction floor.
    method PinScore(id: string, admitted: real)
      modifies this`scores
      ensures State() == Pin(old(State()), cfg, id, admitted)
    {
      var floor := cfg.unload + EPSILON;
      var effective := if admitted >= floor then admitted else floor;
      if id !in scores {
        scores := scores[id := effective];
      }
      if scores[id] < floor {
        scores := scores[id := effective];
      }
    }

    // Add a fragment to the list and to the structures beside it.
    method Push(fragment: Fragment)
      requires InStep()
      modifies this`loaded, this`loadedIds, this`sourceCounts
      ensures InStep() && loaded == old(loaded) + [fragment]
    {
      CountsAppend(loaded, fragment);
      AppendMeasures(loaded, fragment);
      loadedIds := loadedIds + {fragment.id};
      if fragment.source != HISTORY {
        var resident := if fragment.source in sourceCounts then sourceCounts[fragment.source] else 0;
        sourceCounts := sourceCounts[fragment.source := resident + 1];
      }
      loaded := loaded + [fragment];
    }

    method FetchCandidate(env: Env, id: string, mode: Mode, historyTokens: nat) returns (fetched: Fetched)
      requires historyTokens == HistoryTokens(loaded)
      ensures fetched == Fetch(loaded, env, cfg, id, mode)
    {
      hide HistoryTokens, WithNotes;
      if id in env.history {
        var content := env.history[id];
        var tokens := env.count(content);
        if historyTokens + tokens > cfg.HistoryShare() { return Skip; }
        return Candidate(Fragment(id, content, HISTORY, FULL, tokens, 0));
      }
      var read := env.read(id, mode.Range());
      if read.Stale? { return Skip; }
      if read.Failed? { return Abort; }
      var fragment := read.fragment;
      var notes := env.notes(id);
      if notes != [] {
        var content := WithNotes(notes, fragment.content);
        fragment := fragment.(content := content, tokens := env.count(content));
      }
      return Candidate(fragment);
    }

    // A hit on something resident: refresh its score, and upgrade a stub on a full load.
    method TouchResident(env: Env, hit: Hit, mode: Mode)
      requires Valid() && Honours(env, pathOf) && hit.id in Ids(loaded)
      modifies this`loaded, this`scores
      ensures Valid() && HistoryTokens(loaded) == HistoryTokens(old(loaded))
      ensures State() == LoadOne(old(State()), env, cfg, hit.id, hit.score, mode).st
    {
      RehitInv(State(), cfg, hit.id, hit.score, pathOf);
      hide Inv, HistoryTokens, Upgrade, Counts;
      if hit.id in scores && hit.score > scores[hit.id] {
        scores := scores[hit.id := hit.score];
      }
      if mode.AsFull? && ResidentAsStub(loaded, hit.id) {
        UpgradeHistory(State(), env, cfg, hit.id, FULL, hit.score, pathOf);
        UpgradeStubToBody(env, hit.id, FULL, hit.score);
      }
    }

    // One hit of the admission loop; the running history total is the caller's.
    method LoadHit(env: Env, hit: Hit, mode: Mode, historyTokens: nat) returns (next: Step, history: nat)
      requires Valid() && Honours(env, pathOf) && historyTokens == HistoryTokens(loaded)
      modifies this`loaded, this`loadedIds, this`sourceCounts, this`scores
      ensures Valid() && history == HistoryTokens(loaded)
      ensures next == LoadOne(old(State()), env, cfg, hit.id, hit.score, mode) && next.st == State()
    {
      var id, score := hit.id, hit.score;
      LoadOneInv(State(), env, cfg, id, score, mode, pathOf);
      hide Inv, Tokens, HistoryTokens, CountOf, Upgrade, Fetch, Counts, Rehit, Workspace.Admit;
      history := historyTokens;
      if id in loadedIds {
        TouchResident(env, hit, mode);
        return Continue(State()), history;
      }
      if |loaded| >= cfg.maxFragments { return Stop(State()), history; }
      if score < cfg.load { return Continue(State()), history; }
      var current := Tokens(loaded);
      if current >= cfg.maxTokens { return Stop(State()), history; }

      var fetched := FetchCandidate(env, id, mode, historyTokens);
      if fetched.Skip? { return Continue(State()), history; }
      if fetched.Abort? { return Fail(State()), history; }
      var fragment := fetched.fragment;
      FetchFacts(loaded, env, cfg, id, mode, pathOf);
      var source := fragment.source;
      CountInMap(loaded, source);
      if source != HISTORY && source !in capExempt
         && (if source in sourceCounts then sourceCounts[source] else 0) >= cfg.maxPerSource
      {
        return Continue(State()), history;
      }
      if current + fragment.tokens <= cfg.maxTokens {
        history := AdmitCandidate(fragment, score, history);
      }
      return Continue(State()), history;
    }

    method AdmitCandidate(fragment: Fragment, score: real, historyTokens: nat) returns (history: nat)
      requires InStep() && historyTokens == HistoryTokens(loaded)
      modifies this`loaded, this`loadedIds, this`sourceCounts, this`scores
      ensures InStep() && history == HistoryTokens(loaded)
      ensures State() == Workspace.Admit(old(State()), fragment, score)
    {
      AppendMeasures(loaded, fragment);
      scores := scores[fragment.id := score];
      Push(fragment);
      history := if fragment.source == HISTORY then historyTokens + fragment.tokens else historyTokens;
    }

    method LoadFragments(env: Env, hits: seq<Hit>, mode: Mode) returns (ok: bool)
      requires Valid() && Honours(env, pathOf)
      modifies this`loaded, this`loadedIds, this`sourceCounts, this`scores
      ensures Valid() && Outcome(State(), ok) == Load(old(State()), env, cfg, hits, mode)
    {
      hide LoadOne, Inv, InStep;
      var historyTokens := HistoryTokens(loaded);
      var i := 0;
      while i < |hits|
        invariant i <= |hits| && Valid() && historyTokens == HistoryTokens(loaded)
        invariant Load(State(), env, cfg, hits[i..], mode) == Load(old(State()), env, cfg, hits, mode)
      {
        LoadUnfold(State(), env, cfg, hits, i, mode);
        var next: Step;
        next, historyTokens := LoadHit(env, hits[i], mode, historyTokens);
        if next.Stop? { return true; }
        if next.Fail? { return false; }
        i := i + 1;
      }
      return true;
    }

    method FollowReference(env: Env, search: string -> Search, ref: LineRef) returns (next: Step)
      requires Valid() && Honours(env, pathOf)
      modifies this`loaded, this`loadedIds, this`sourceCounts, this`scores
      ensures Valid() && next == FollowOne(old(State()), env, search, cfg, ref) && next.st == State()
    {
      FollowOneInv(State(), env, search, cfg, ref, pathOf);
      hide Inv, Tokens, HistoryTokens, Counts, Upgrade;
      var target := Resolve(State(), search, ref.hint);
      if target.SearchFailed? { return Fail(State()); }
      if target.NotFound? { return Continue(State()); }
      var id, range := target.id, RangeText(ref);
      if id in loadedIds {
        if ResidentAsStub(loaded, id) {
          UpgradeStubToBody(env, id, range, cfg.load);
        }
        return Continue(State());
      }
      if |loaded| >= cfg.maxFragments { return Stop(State()); }
      var read := env.read(id, range);
      if read.Got? && Tokens(loaded) + read.fragment.tokens <= cfg.maxTokens {
        Push(read.fragment);
      }
      return Continue(State());
    }

    method ProcessLineReferences(env: Env, search: string -> Search, refs: seq<LineRef>) returns (ok: bool)
      requires Valid() && Honours(env, pathOf)
      modifies this`loaded, this`loadedIds, this`sourceCounts, this`scores
      ensures Valid() && Outcome(State(), ok) == Follow(old(State()), env, search, cfg, refs)
    {
      hide FollowOne, Inv, InStep;
      var i := 0;
      while i < |refs|
        invariant i <= |refs| && Valid()
        invariant Follow(State(), env, search, cfg, refs[i..]) == Follow(old(State()), env, search, cfg, refs)
      {
        FollowUnfold(State(), env, search, cfg, refs, i);
        var next := FollowReference(env, search, refs[i]);
        if next.Stop? { return true; }
        if next.Fail? { return false; }
        i := i + 1;
      }
      return true;
    }

    // The eviction decision: positions from the front of the queue.
    method SelectVictims(latest: bool) returns (toEvict: seq<int>)
      ensures toEvict == Indices(Queue(State(), latest)[..CutOf(State(), cfg, latest)])
    {
      var queue := Queue(State(), latest);
      ghost var rem := Remaining(State(), latest);
      hide Queue, Keep, Taken;
      toEvict := [];
      var tokensAfter := Tokens(loaded);
      var i := 0;
      while i < |queue|
        invariant i <= |queue| && toEvict == Indices(queue[..i]) && tokensAfter == rem[i]
        invariant Cut(queue, i, loaded, cfg, tokensAfter) == CutOf(State(), cfg, latest)
      {
        var belowThreshold := queue[i].score < cfg.unload;
        var overBudget := tokensAfter > cfg.maxTokens;
        if !belowThreshold && !overBudget { return; }
        IndicesAppend(queue, i);
        assert rem[i + 1] == rem[i] - loaded[queue[i].idx].tokens;
        toEvict := toEvict + [queue[i].idx];
        tokensAfter := tokensAfter - loaded[queue[i].idx].tokens;
        i := i + 1;
      }
    }

    method EvictStaleFragments(latest: bool, query: string, synth: Synthesizer)
      requires InStep() && DistinctIds(loaded)
      modifies this`loaded, this`loadedIds, this`sourceCounts, this`scores, this`ledger
      ensures InStep() && State() == Evict(old(State()), cfg, latest, query, synth)
      ensures old(Valid()) ==> Valid()
    {
      if Valid() { EvictInv(State(), cfg, latest, query, synth, pathOf); }
      hide Inv, Counts, Keep, Queue, CutOf, Retire;
      var toEvict := SelectVictims(latest);
      toEvict := Sort(Descending, toEvict);
      assert toEvict == Victims(State(), cfg, latest);
      RemoveVictims(toEvict, query, synth);
    }

    // Take one fragment out of the list and of the structures beside it.
    method RemoveAt(idx: nat) returns (fragment: Fragment)
      requires InStep() && DistinctIds(loaded) && idx < |loaded|
      modifies this`loaded, this`loadedIds, this`sourceCounts
      ensures InStep() && DistinctIds(loaded) && fragment == old(loaded)[idx]
      ensures loaded == old(loaded)[..idx] + old(loaded)[idx + 1..]
    {
      fragment := loaded[idx];
      IdsRemove(loaded, idx);
      CountsRemove(loaded, idx);
      hide Counts, Ids, DistinctIds;
      loaded := loaded[..idx] + loaded[idx + 1..];
      loadedIds := loadedIds - {fragment.id};
      if fragment.source != HISTORY && fragment.source in sourceCounts {
        var count := if sourceCounts[fragment.source] > 0 then sourceCounts[fragment.source] - 1 else 0;
        if count == 0 {
          sourceCounts := sourceCounts - {fragment.source};
        } else {
          sourceCounts := sourceCounts[fragment.source := count];
        }
      }
    }

    // Forget the score and persist the consolidation note.
    method Consolidate(fragment: Fragment, query: string, synth: Synthesizer)
      modifies this`scores, this`ledger
      ensures State() == RetireOne(old(State()), fragment, query, synth)
    {
      var decayed := if fragment.id in scores then scores[fragment.id] else 0.0;
      scores := scores - {fragment.id};
      var text := synth(StripNotes(fragment.content), query, decayed, fragment.source, NotesFor(ledger, fragment.id));
      ledger := ledger + [Note(fragment.id, text)];
    }

    // Removal by descending index, which leaves the remaining indices meaningful.
    method RemoveVictims(d: seq<int>, query: string, synth: Synthesizer)
      requires InStep() && DistinctIds(loaded)
      requires Sorted(Descending, d) && AllDistinct(d) && forall j :: 0 <= j < |d| ==> 0 <= d[j] < |loaded|
      modifies this`loaded, this`loadedIds, this`sourceCounts, this`scores, this`ledger
      ensures InStep()
      ensures State() == Retire(old(State()).(loaded := Keep(old(loaded), Members(d))), Removed(old(loaded), d), query, synth)
    {
      hide Keep, Removed, InStep, DistinctIds, RetireOne;
      ghost var all := loaded;
      ghost var kept := Keep(all, Members(d));
      ghost var victims := Removed(all, d);
      KeepAll(all, {});
      assert Members(d[..0]) == {};
      var j := 0;
      while j < |d|
        invariant j <= |d| && InStep() && DistinctIds(loaded)
        invariant loaded == Keep(all, Members(d[..j]))
        invariant Retire(State().(loaded := kept), victims[j..], query, synth)
               == Retire(old(State()).(loaded := kept), victims, query, synth)
      {
        NextVictim(all, d, j);
        RetireUnfold(State().(loaded := kept), victims, j, query, synth);
        var fragment := RemoveAt(d[j]);
        RetireOneFrame(State(), kept, fragment, query, synth);
        Consolidate(fragment, query, synth);
        j := j + 1;
      }
      assert d[..|d|] == d && victims[|d|..] == [];
    }
  }

  lemma IndicesAppend(q: seq<Ranked>, i: nat)
    requires i < |q|
    ensures Indices(q[..i + 1]) == Indices(q[..i]) + [q[i].idx]
  {
  }

  lemma RetireOneFrame(st: State, kept: seq<Fragment>, f: Fragment, query: string, synth: Synthesizer)
    ensures RetireOne(st, f, query, synth).loaded == st.loaded
    ensures RetireOne(st.(loaded := kept), f, query, synth) == RetireOne(st, f, query, synth).(loaded := kept)
  {
  }

  lemma RetireUnfold(st: State, victims: seq<Fragment>, j: nat, query: string, synth: Synthesizer)
    requires j < |victims|
    ensures Retire(st, victims[j..], query, synth)
         == Retire(RetireOne(st, victims[j], query, synth), victims[j + 1..], query, synth)
  {
    assert victims[j..][1..] == victims[j + 1..];
  }

  lemma DecayIs(st: State, cfg: Config, scores: map<string, real>)
    requires scores.Keys == st.scores.Keys
    requires forall id :: id in scores ==> scores[id] == Fade(st.scores[id], cfg)
    ensures Decay(st, cfg) == st.(scores := scores)
  {
    var decayed := Decay(st, cfg).scores;
    assert decayed.Keys == scores.Keys;
    forall id | id in scores ensures decayed[id] == scores[id] {}
  }

  lemma NextVictim(fs: seq<Fragment>, d: seq<int>, j: nat)
    requires Sorted(Descending, d) && AllDistinct(d) && forall k :: 0 <= k < |d| ==> 0 <= d[k] < |fs|
    requires j < |d|
    ensures var now := Keep(fs, Members(d[..j]));
            && d[j] < |now| && now[d[j]] == fs[d[j]] == Removed(fs, d)[j]
            && Keep(fs, Members(d[..j + 1])) == now[..d[j]] + now[d[j] + 1..]
  {
    assert d[..j + 1] == d[..j] + [d[j]];
    assert Members(d[..j + 1]) == Members(d[..j]) + {d[j]};
    forall o | o in Members(d[..j]) ensures d[j] < o {
      var k :| 0 <= k < j && d[k] == o;
      assert Descending(d[k], d[j]);
    }
    KeepRemove(fs, Members(d[..j]), d[j]);
  }

  lemma LoadUnfold(st: State, env: Env, cfg: Config, hits: seq<Hit>, i: nat, mode: Mode)
    requires i < |hits|
    ensures Load(st, env, cfg, hits[i..], mode) ==
              match LoadOne(st, env, cfg, hits[i].id, hits[i].score, mode)
              case Continue(st1) => Load(st1, env, cfg, hits[i + 1..], mode)
              case Stop(st1) => Outcome(st1, true)
              case Fail(st1) => Outcome(st1, false)
  {
    assert hits[i..][1..] == hits[i + 1..];
  }

  lemma FollowUnfold(st: State, env: Env, search: string -> Search, cfg: Config, refs: seq<LineRef>, i: nat)
    requires i < |refs|
    ensures Follow(st, env, search, cfg, refs[i..]) ==
              match FollowOne(st, env, search, cfg, refs[i])
              case Continue(st1) => Follow(st1, env, search, cfg, refs[i + 1..])
              case Stop(st1) => Outcome(st1, true)
              case Fail(st1) => Outcome(st1, false)
  {
    assert refs[i..][1..] == refs[i + 1..];
  }

  lemma CountInMap(fs: seq<Fragment>, s: string)
    ensures s != HISTORY ==> (if s in Counts(fs) then Counts(fs)[s] else 0) == CountOf(fs, s)
  {
    SourcesByCount(fs, s);
  }

  lemma UpgradeCounts(st: State, env: Env, cfg: Config, id: string, range: string, admitted: real, pathOf: string -> string)
    requires Inv(st, cfg, pathOf) && Honours(env, pathOf) && ResidentAsStub(st.loaded, id)
    ensures Counts(Upgrade(st, env, cfg, id, range, admitted).loaded) == Counts(st.loaded)
  {
    UpgradeInv(st, env, cfg, id, range, admitted, pathOf);
    var fs := Upgrade(st, env, cfg, id, range, admitted).loaded;
    forall s ensures s in Sources(fs) <==> s in Sources(st.loaded) {
      SourcesByCount(fs, s);
      SourcesByCount(st.loaded, s);
    }
  }

  lemma UpgradeHistory(st: State, env: Env, cfg: Config, id: string, range: string, admitted: real, pathOf: string -> string)
    requires Inv(st, cfg, pathOf) && Honours(env, pathOf) && ResidentAsStub(st.loaded, id)
    ensures HistoryTokens(Upgrade(st, env, cfg, id, range, admitted).loaded) == HistoryTokens(st.loaded)
  {
    var body := UpgradeBody(st, env, cfg, id, range);
    if body.Some? {
      var i := ResidentStubAt(st.loaded, id);
      BodyFacts(st, env, cfg, id, range, pathOf);
      MeasuresReplace(st.loaded, i, body.value);
      assert WellSourced(st.loaded[i], pathOf);
      assert FULL != STUB;
    }
  }
}
