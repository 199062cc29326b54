// Whole runs of the workspace: any interleaving of admission, upgrade, line
// references, decay, refresh, eviction, annotation and reset.
module WorkspaceRuns {
  import opened Text
  import opened Workspace
  import opened Eviction

  datatype Op =
    | DoLoad(env: Env, hits: seq<Hit>, mode: Mode)
    | DoFollow(env: Env, search: string -> Search, refs: seq<LineRef>)
    | DoDecay
    | DoRefresh(overlap: string -> real)
    | DoEvict(latest: bool, query: string, synth: Synthesizer)
    | DoAnnotate(note: Note)
    | DoReset

  function Apply(st: State, cfg: Config, op: Op): State {
    match op
    case DoLoad(env, hits, mode) => Load(st, env, cfg, hits, mode).st
    case DoFollow(env, search, refs) => Follow(st, env, search, cfg, refs).st
    case DoDecay => Decay(st, cfg)
    case DoRefresh(overlap) => Refresh(st, overlap)
    case DoEvict(latest, query, synth) => Evict(st, cfg, latest, query, synth)
    case DoAnnotate(note) => st.(ledger := st.ledger + [note])
    case DoReset => Empty()
  }

  function Run(st: State, cfg: Config, ops: seq<Op>): State {
    if ops == [] then st else Apply(Run(st, cfg, ops[..|ops| - 1]), cfg, ops[|ops| - 1])
  }

  ghost predicate Wired(op: Op, pathOf: string -> string) {
    match op
    case DoLoad(env, _, _) => Honours(env, pathOf)
    case DoFollow(env, _, _) => Honours(env, pathOf)
    case _ => true
  }

  // History fragments are whole turns; everything else came from the retriever.
  ghost predicate WellSourced(f: Fragment, pathOf: string -> string) {
    if f.source == HISTORY then f.locator == FULL else f.source == pathOf(f.id)
  }

  ghost predicate Inv(st: State, cfg: Config, pathOf: string -> string) {
    && DistinctIds(st.loaded)
    && Tokens(st.loaded) <= cfg.maxTokens
    && |st.loaded| <= cfg.maxFragments
    && HistoryTokens(st.loaded) <= cfg.HistoryShare()
    && st.scores.Keys <= Ids(st.loaded)
    && forall f :: f in st.loaded ==> WellSourced(f, pathOf)
  }

  // ---------- one admission ----------

  lemma AppendMeasures(fs: seq<Fragment>, f: Fragment)
    ensures Tokens(fs + [f]) == Tokens(fs) + f.tokens
    ensures HistoryTokens(fs + [f]) == HistoryTokens(fs) + if f.source == HISTORY then f.tokens else 0
    ensures forall s :: CountOf(fs + [f], s) == CountOf(fs, s) + if f.source == s then 1 else 0
    ensures Ids(fs + [f]) == Ids(fs) + {f.id}
  {
    assert (fs + [f])[..|fs|] == fs;
  }

  lemma AppendInv(st: State, f: Fragment, cfg: Config, pathOf: string -> string, scores: map<string, real>)
    requires Inv(st, cfg, pathOf) && f.id !in Ids(st.loaded) && WellSourced(f, pathOf)
    requires |st.loaded| < cfg.maxFragments && Tokens(st.loaded) + f.tokens <= cfg.maxTokens
    requires f.source == HISTORY ==> HistoryTokens(st.loaded) + f.tokens <= cfg.HistoryShare()
    requires scores.Keys <= Ids(st.loaded) + {f.id}
    ensures Inv(st.(loaded := st.loaded + [f], scores := scores), cfg, pathOf)
  {
    AppendMeasures(st.loaded, f);
    forall i | 0 <= i < |st.loaded| ensures st.loaded[i].id != f.id {
      assert st.loaded[i] in st.loaded;
    }
  }

  lemma FetchFacts(fs: seq<Fragment>, env: Env, cfg: Config, id: string, mode: Mode, pathOf: string -> string)
    requires Honours(env, pathOf) && Fetch(fs, env, cfg, id, mode).Candidate?
    ensures var f := Fetch(fs, env, cfg, id, mode).fragment;
            && f.id == id && WellSourced(f, pathOf)
            && (f.source == HISTORY ==> HistoryTokens(fs) + f.tokens <= cfg.HistoryShare())
  {
  }

  // ---------- one upgrade ----------

  lemma UpgradeInv(st: State, env: Env, cfg: Config, id: string, range: string, admitted: real, pathOf: string -> string)
    requires Inv(st, cfg, pathOf) && Honours(env, pathOf) && ResidentAsStub(st.loaded, id)
    ensures var st1 := Upgrade(st, env, cfg, id, range, admitted);
            Inv(st1, cfg, pathOf) && Ids(st1.loaded) == Ids(st.loaded)
    ensures forall s :: CountOf(Upgrade(st, env, cfg, id, range, admitted).loaded, s) == CountOf(st.loaded, s)
  {
    var body := UpgradeBody(st, env, cfg, id, range);
    if body.Some? {
      var i := ResidentStubAt(st.loaded, id);
      hide Tokens, HistoryTokens, CountOf, UpgradeBody;
      BodyFacts(st, env, cfg, id, range, pathOf);
      MeasuresReplace(st.loaded, i, body.value);
      ReplaceIds(st.loaded, i, body.value);
      assert WellSourced(st.loaded[i], pathOf);
      assert FULL != STUB;
    }
  }

  lemma BodyFacts(st: State, env: Env, cfg: Config, id: string, range: string, pathOf: string -> string)
    requires Honours(env, pathOf) && UpgradeBody(st, env, cfg, id, range).Some?
    ensures var body := UpgradeBody(st, env, cfg, id, range).value;
            && body.id == id && body.source == pathOf(id) && body.source != HISTORY && body.locator == Label(range)
            && var at := IndexOf(st.loaded, id);
               at.Some? && st.loaded[at.value].tokens <= Tokens(st.loaded)
               ==> Tokens(st.loaded) - st.loaded[at.value].tokens + body.tokens <= cfg.maxTokens
  {
  }

  lemma ResidentStubAt(fs: seq<Fragment>, id: string) returns (i: nat)
    requires DistinctIds(fs) && ResidentAsStub(fs, id)
    ensures i < |fs| && fs[i].id == id && fs[i].locator == STUB && IndexOf(fs, id) == Some(i)
  {
    var f :| f in fs && f.id == id && f.locator == STUB;
    i :| 0 <= i < |fs| && fs[i] == f;
  }

  lemma ReplaceIds(fs: seq<Fragment>, i: nat, g: Fragment)
    requires i < |fs| && g.id == fs[i].id && DistinctIds(fs)
    ensures Ids(fs[i := g]) == Ids(fs) && DistinctIds(fs[i := g])
    ensures forall f :: f in fs[i := g] ==> f == g || f in fs
  {
    var gs := fs[i := g];
    assert forall j :: 0 <= j < |fs| ==> gs[j].id == fs[j].id;
    forall x ensures x in Ids(gs) <==> x in Ids(fs) {
      if x in Ids(fs) {
        var j :| 0 <= j < |fs| && fs[j].id == x;
        assert gs[j] in gs;
      }
      if x in Ids(gs) {
        var j :| 0 <= j < |gs| && gs[j].id == x;
        assert fs[j] in fs;
      }
    }
  }

  // ---------- every step keeps the invariant ----------

  function CapFor(before: nat, cfg: Config): nat {
    if before < cfg.maxPerSource then cfg.maxPerSource else before
  }

  lemma LoadOneInv(st: State, env: Env, cfg: Config, id: string, score: real, mode: Mode, pathOf: string -> string)
    requires Inv(st, cfg, pathOf) && Honours(env, pathOf)
    ensures var st1 := LoadOne(st, env, cfg, id, score, mode).st;
            && Inv(st1, cfg, pathOf) && Ids(st.loaded) <= Ids(st1.loaded)
            && forall s :: s != HISTORY ==> CountOf(st1.loaded, s) <= CapFor(CountOf(st.loaded, s), cfg)
  {
    hide Tokens, HistoryTokens, CountOf, Upgrade;
    if id in Ids(st.loaded) {
      var st1 := Rehit(st, id, score);
      if mode.AsFull? && ResidentAsStub(st1.loaded, id) {
        UpgradeInv(st1, env, cfg, id, FULL, score, pathOf);
      }
    } else if LoadOne(st, env, cfg, id, score, mode).st != st {
      FetchFacts(st.loaded, env, cfg, id, mode, pathOf);
      var f := Fetch(st.loaded, env, cfg, id, mode).fragment;
      AppendInv(st, f, cfg, pathOf, st.scores[f.id := score]);
      AppendMeasures(st.loaded, f);
    }
  }

  // An admission pass never lifts a source above the larger of its old count and the
  // per-source cap, never drops anything, and keeps every ceiling.
  lemma {:induction false} LoadInv(st: State, env: Env, cfg: Config, hits: seq<Hit>, mode: Mode, pathOf: string -> string)
    requires Inv(st, cfg, pathOf) && Honours(env, pathOf)
    ensures var st1 := Load(st, env, cfg, hits, mode).st;
            && Inv(st1, cfg, pathOf) && Ids(st.loaded) <= Ids(st1.loaded)
            && forall s :: s != HISTORY ==> CountOf(st1.loaded, s) <= CapFor(CountOf(st.loaded, s), cfg)
    decreases |hits|
  {
    if hits != [] {
      LoadOneInv(st, env, cfg, hits[0].id, hits[0].score, mode, pathOf);
      var step := LoadOne(st, env, cfg, hits[0].id, hits[0].score, mode);
      if step.Continue? {
        hide LoadOne, CountOf, Inv;
        LoadInv(step.st, env, cfg, hits[1..], mode, pathOf);
      }
    }
  }

  lemma FollowOneInv(st: State, env: Env, search: string -> Search, cfg: Config, r: LineRef, pathOf: string -> string)
    requires Inv(st, cfg, pathOf) && Honours(env, pathOf)
    ensures var st1 := FollowOne(st, env, search, cfg, r).st;
            Inv(st1, cfg, pathOf) && Ids(st.loaded) <= Ids(st1.loaded)
  {
    var target := Resolve(st, search, r.hint);
    if target.Found? && target.id in Ids(st.loaded) {
      if ResidentAsStub(st.loaded, target.id) {
        UpgradeInv(st, env, cfg, target.id, RangeText(r), cfg.load, pathOf);
      }
    } else if FollowOne(st, env, search, cfg, r).st != st {
      AppendInv(st, env.read(target.id, RangeText(r)).fragment, cfg, pathOf, st.scores);
    }
  }

  lemma {:induction false} FollowInv(st: State, env: Env, search: string -> Search, cfg: Config, refs: seq<LineRef>, pathOf: string -> string)
    requires Inv(st, cfg, pathOf) && Honours(env, pathOf)
    ensures var st1 := Follow(st, env, search, cfg, refs).st;
            Inv(st1, cfg, pathOf) && Ids(st.loaded) <= Ids(st1.loaded)
    decreases |refs|
  {
    if refs != [] {
      FollowOneInv(st, env, search, cfg, refs[0], pathOf);
      var step := FollowOne(st, env, search, cfg, refs[0]);
      if step.Continue? {
        hide FollowOne, Inv;
        FollowInv(step.st, env, search, cfg, refs[1..], pathOf);
      }
    }
  }

  lemma RehitInv(st: State, cfg: Config, id: string, score: real, pathOf: string -> string)
    requires Inv(st, cfg, pathOf)
    ensures Inv(Rehit(st, id, score), cfg, pathOf)
  {
  }

  lemma {:induction false} RefreshKeeps(st: State, overlap: string -> real, fs: seq<Fragment>)
    ensures RefreshAll(st, overlap, fs).loaded == st.loaded
    ensures RefreshAll(st, overlap, fs).scores.Keys == st.scores.Keys
    decreases |fs|
  {
    if fs != [] { RefreshKeeps(RefreshOne(st, overlap, fs[0]), overlap, fs[1..]); }
  }

  lemma EvictInv(st: State, cfg: Config, latest: bool, query: string, synth: Synthesizer, pathOf: string -> string)
    requires Inv(st, cfg, pathOf)
    ensures Inv(Evict(st, cfg, latest, query, synth), cfg, pathOf)
  {
    var e := Evict(st, cfg, latest, query, synth);
    EvictParts(st, cfg, latest, query, synth);
    EvictIds(st, cfg, latest, query, synth);
    EvictMeaning(st, cfg, latest, query, synth);
    KeepMeasures(st.loaded, Taken(Queue(st, latest), CutOf(st, cfg, latest)));
    hide Evict, Queue, CutOf, Taken, Keep, Safe, Tokens, HistoryTokens;
  }

  lemma ApplyInv(st: State, cfg: Config, op: Op, pathOf: string -> string)
    requires Inv(st, cfg, pathOf) && Wired(op, pathOf)
    ensures Inv(Apply(st, cfg, op), cfg, pathOf)
  {
    match op
    case DoLoad(env, hits, mode) => LoadInv(st, env, cfg, hits, mode, pathOf);
    case DoFollow(env, search, refs) => FollowInv(st, env, search, cfg, refs, pathOf);
    case DoRefresh(overlap) => RefreshKeeps(st, overlap, st.loaded);
    case DoEvict(latest, query, synth) => EvictInv(st, cfg, latest, query, synth, pathOf);
    case _ =>
  }

  lemma {:induction false} RunInv(st: State, cfg: Config, ops: seq<Op>, pathOf: string -> string)
    requires Inv(st, cfg, pathOf) && forall op :: op in ops ==> Wired(op, pathOf)
    ensures Inv(Run(st, cfg, ops), cfg, pathOf)
  {
    if ops != [] {
      RunInv(st, cfg, ops[..|ops| - 1], pathOf);
      ApplyInv(Run(st, cfg, ops[..|ops| - 1]), cfg, ops[|ops| - 1], pathOf);
    }
  }

  // Safety over whole runs: from the empty workspace, no interleaving of operations
  // breaks the bookkeeping or any ceiling.
  lemma SafeForever(cfg: Config, ops: seq<Op>, pathOf: string -> string)
    requires forall op :: op in ops ==> Wired(op, pathOf)
    ensures Inv(Run(Empty(), cfg, ops), cfg, pathOf)
  {
    RunInv(Empty(), cfg, ops, pathOf);
  }

  // ---------- an upgraded fragment outlives the iteration ----------

  // `id` is resident and its score is at least the pinning floor.
  ghost predicate Pinned(st: State, cfg: Config, id: string) {
    id in Ids(st.loaded) && id in st.scores && st.scores[id] >= Floor(cfg)
  }

  lemma UpgradePins(st: State, env: Env, cfg: Config, id: string, range: string, admitted: real, pathOf: string -> string, other: string)
    requires Inv(st, cfg, pathOf) && Honours(env, pathOf) && ResidentAsStub(st.loaded, id)
    ensures var st1 := Upgrade(st, env, cfg, id, range, admitted);
            && (UpgradeBody(st, env, cfg, id, range).Some? ==>
                  Pinned(st1, cfg, id) && exists f :: f in st1.loaded && f.id == id && f.locator == Label(range))
            && (Pinned(st, cfg, other) ==> Pinned(st1, cfg, other))
  {
    UpgradeInv(st, env, cfg, id, range, admitted, pathOf);
    var body := UpgradeBody(st, env, cfg, id, range);
    if body.Some? {
      var i := ResidentStubAt(st.loaded, id);
      BodyFacts(st, env, cfg, id, range, pathOf);
      assert st.loaded[i := body.value][i] == body.value;
    }
  }

  lemma LoadOnePinned(st: State, env: Env, cfg: Config, id: string, score: real, mode: Mode, pathOf: string -> string, pinned: string)
    requires Inv(st, cfg, pathOf) && Honours(env, pathOf) && Pinned(st, cfg, pinned)
    ensures Pinned(LoadOne(st, env, cfg, id, score, mode).st, cfg, pinned)
  {
    hide Label;
    LoadOneInv(st, env, cfg, id, score, mode, pathOf);
    if id in Ids(st.loaded) {
      var st1 := Rehit(st, id, score);
      if mode.AsFull? && ResidentAsStub(st1.loaded, id) {
        UpgradePins(st1, env, cfg, id, FULL, score, pathOf, pinned);
      }
    } else if LoadOne(st, env, cfg, id, score, mode).st != st {
      FetchFacts(st.loaded, env, cfg, id, mode, pathOf);
    }
  }

  lemma {:induction false} LoadPinned(st: State, env: Env, cfg: Config, hits: seq<Hit>, mode: Mode, pathOf: string -> string, pinned: string)
    requires Inv(st, cfg, pathOf) && Honours(env, pathOf) && Pinned(st, cfg, pinned)
    ensures Pinned(Load(st, env, cfg, hits, mode).st, cfg, pinned)
    decreases |hits|
  {
    if hits != [] {
      LoadOneInv(st, env, cfg, hits[0].id, hits[0].score, mode, pathOf);
      LoadOnePinned(st, env, cfg, hits[0].id, hits[0].score, mode, pathOf, pinned);
      var step := LoadOne(st, env, cfg, hits[0].id, hits[0].score, mode);
      if step.Continue? {
        hide LoadOne, Inv, Pinned;
        LoadPinned(step.st, env, cfg, hits[1..], mode, pathOf, pinned);
      }
    }
  }

  // A reference upgrades a resident stub, adds one fragment, or changes nothing.
  lemma {:induction false} FollowOneShape(st: State, env: Env, search: string -> Search, cfg: Config, r: LineRef)
    ensures var (after, target) := (FollowOne(st, env, search, cfg, r).st, Resolve(st, search, r.hint));
            || after == st
            || (exists f :: after == st.(loaded := st.loaded + [f]))
            || (target.Found? && ResidentAsStub(st.loaded, target.id)
                && after == Upgrade(st, env, cfg, target.id, RangeText(r), cfg.load))
  {
    hide Upgrade, Resolve, Tokens, Ids, RangeText, ResidentAsStub;
  }

  lemma FollowOnePinned(st: State, env: Env, search: string -> Search, cfg: Config, r: LineRef, pathOf: string -> string, pinned: string)
    requires Inv(st, cfg, pathOf) && Honours(env, pathOf) && Pinned(st, cfg, pinned)
    ensures Pinned(FollowOne(st, env, search, cfg, r).st, cfg, pinned)
  {
    var after := FollowOne(st, env, search, cfg, r).st;
    var target := Resolve(st, search, r.hint);
    FollowOneShape(st, env, search, cfg, r);
    hide FollowOne, Resolve, Inv, Upgrade;
    if target.Found? && ResidentAsStub(st.loaded, target.id) {
      UpgradePins(st, env, cfg, target.id, RangeText(r), cfg.load, pathOf, pinned);
    }
  }

  lemma {:induction false} FollowPinned(st: State, env: Env, search: string -> Search, cfg: Config, refs: seq<LineRef>, pathOf: string -> string, pinned: string)
    requires Inv(st, cfg, pathOf) && Honours(env, pathOf) && Pinned(st, cfg, pinned)
    ensures Pinned(Follow(st, env, search, cfg, refs).st, cfg, pinned)
    decreases |refs|
  {
    if refs != [] {
      FollowOneInv(st, env, search, cfg, refs[0], pathOf);
      FollowOnePinned(st, env, search, cfg, refs[0], pathOf, pinned);
      var step := FollowOne(st, env, search, cfg, refs[0]);
      if step.Continue? {
        hide FollowOne, Inv, Pinned;
        FollowPinned(step.st, env, search, cfg, refs[1..], pathOf, pinned);
      }
    }
  }

  // What may stand between an upgrade and the eviction pass of the same refinement
  // iteration: further recall, line references and annotations.
  predicate WithinIteration(op: Op) {
    op.DoLoad? || op.DoFollow? || op.DoAnnotate?
  }

  lemma {:induction false} RecallPinned(st: State, cfg: Config, ops: seq<Op>, pathOf: string -> string, pinned: string)
    requires Inv(st, cfg, pathOf) && Pinned(st, cfg, pinned)
    requires forall op :: op in ops ==> Wired(op, pathOf) && WithinIteration(op)
    ensures Pinned(Run(st, cfg, ops), cfg, pinned)
  {
    if ops != [] {
      var front, op := ops[..|ops| - 1], ops[|ops| - 1];
      RunInv(st, cfg, front, pathOf);
      RecallPinned(st, cfg, front, pathOf, pinned);
      var before := Run(st, cfg, front);
      assert op in ops;
      hide Inv, Pinned, Honours, Run;
      match op
      case DoLoad(env, hits, mode) => LoadPinned(before, env, cfg, hits, mode, pathOf, pinned);
      case DoFollow(env, search, refs) => FollowPinned(before, env, search, cfg, refs, pathOf, pinned);
      case DoAnnotate(_) =>
    }
  }

  // A stub upgraded to its body is still resident, and above the unload threshold,
  // after the eviction pass that closes its refinement iteration.
  lemma UpgradedSurvives(
    st: State, env: Env, cfg: Config, id: string, range: string, admitted: real,
    ops: seq<Op>, latest: bool, query: string, synth: Synthesizer, pathOf: string -> string)
    requires Inv(st, cfg, pathOf) && Honours(env, pathOf) && ResidentAsStub(st.loaded, id)
    requires UpgradeBody(st, env, cfg, id, range).Some?
    requires forall op :: op in ops ==> Wired(op, pathOf) && WithinIteration(op)
    ensures var end := Apply(Run(Upgrade(st, env, cfg, id, range, admitted), cfg, ops), cfg, DoEvict(latest, query, synth));
            id in Ids(end.loaded) && ScoreOf(end, id) > cfg.unload
  {
    var st1 := Upgrade(st, env, cfg, id, range, admitted);
    UpgradePins(st, env, cfg, id, range, admitted, pathOf, id);
    UpgradeInv(st, env, cfg, id, range, admitted, pathOf);
    RecallPinned(st1, cfg, ops, pathOf, id);
    RunInv(st1, cfg, ops, pathOf);
    PinnedSurvives(Run(st1, cfg, ops), cfg, latest, query, synth, pathOf, id);
  }

  // Within budget nothing above the threshold is evicted.
  lemma PinnedSurvives(st: State, cfg: Config, latest: bool, query: string, synth: Synthesizer, pathOf: string -> string, id: string)
    requires Inv(st, cfg, pathOf) && Pinned(st, cfg, id)
    ensures var e := Evict(st, cfg, latest, query, synth);
            id in Ids(e.loaded) && id in e.scores && e.scores[id] == st.scores[id]
  {
    var e := Evict(st, cfg, latest, query, synth);
    var f :| f in st.loaded && f.id == id;
    var i :| 0 <= i < |st.loaded| && st.loaded[i] == f;
    EvictWithinBudget(st, cfg, latest, query, synth, i);
    EvictIds(st, cfg, latest, query, synth);
    assert e.scores == st.scores - Ids(Evicted(st, cfg, latest)) by { EvictParts(st, cfg, latest, query, synth); }
    assert id in Ids(e.loaded);
  }
}
