// The recall workspace as a value: which fragments are resident and how relevant each
// is. The identifier set and the per-source counters that the orchestrator keeps
// beside the fragment list are functions of the list here; Orchestrator.dfy proves
// that the incrementally updated fields stay equal to them.
module Workspace {
  import opened Text

  const HISTORY := "session history"
  const STUB := "stub"
  const FULL := "full"
  const EPSILON: real := 1.0 / 8388608.0

  datatype Fragment = Fragment(
    id: string, content: string, source: string, locator: string, tokens: nat, mtime: nat)

  datatype Note = Note(id: string, text: string)

  // `ledger` is the provenance ledger of consolidation notes.
  datatype State = State(loaded: seq<Fragment>, scores: map<string, real>, ledger: seq<Note>)

  datatype Config = Config(
    load: real, unload: real, maxTokens: nat, maxFragments: nat, maxPerSource: nat,
    historyFraction: real, decay: real, maxInline: nat)
  {
    // The share of the token budget open to session history: a float-to-integer cast,
    // which truncates and saturates at zero.
    function HistoryShare(): nat {
      var share := (maxTokens as real * historyFraction).Floor;
      if share < 0 then 0 else share
    }
  }

  datatype Mode = AsStub | AsFull {
    function Range(): string {
      if AsStub? then STUB else FULL
    }
  }

  datatype Read = Got(fragment: Fragment) | Stale | Failed

  // What the orchestrator is wired to during one call: the retriever, the in-memory
  // session history, the persistent note store, and the tokenizer.
  datatype Env = Env(
    read: (string, string) -> Read,
    history: map<string, string>,
    notes: string -> seq<string>,
    count: string -> nat)

  // How the retriever labels what it read: a stub, however the word was written, and
  // anything else as it was asked for.
  function Label(range: string): string {
    if EqualIgnoringCase(range, STUB) then STUB else range
  }

  // The retriever serves the fragment it was asked for, under a path that is fixed for
  // the identifier and is not the marker reserved for session history.
  ghost predicate Honours(env: Env, pathOf: string -> string) {
    forall id, range :: env.read(id, range).Got? ==>
      var f := env.read(id, range).fragment;
      f.id == id && f.source == pathOf(id) && f.source != HISTORY && f.locator == Label(range)
  }

  // ---------- measures of the resident list ----------

  function Tokens(fs: seq<Fragment>): nat {
    if fs == [] then 0 else Tokens(fs[..|fs| - 1]) + fs[|fs| - 1].tokens
  }

  function HistoryTokens(fs: seq<Fragment>): nat {
    if fs == [] then 0
    else HistoryTokens(fs[..|fs| - 1]) + if fs[|fs| - 1].source == HISTORY then fs[|fs| - 1].tokens else 0
  }

  function CountOf(fs: seq<Fragment>, source: string): nat {
    if fs == [] then 0
    else CountOf(fs[..|fs| - 1], source) + if fs[|fs| - 1].source == source then 1 else 0
  }

  function Ids(fs: seq<Fragment>): set<string> {
    set f | f in fs :: f.id
  }

  function Sources(fs: seq<Fragment>): set<string> {
    set f | f in fs && f.source != HISTORY :: f.source
  }

  function Counts(fs: seq<Fragment>): map<string, nat> {
    map s | s in Sources(fs) :: CountOf(fs, s)
  }

  predicate DistinctIds(fs: seq<Fragment>) {
    forall i, j :: 0 <= i < j < |fs| ==> fs[i].id != fs[j].id
  }

  function ScoreOf(st: State, id: string): real {
    if id in st.scores then st.scores[id] else 0.0
  }

  predicate ResidentAsStub(fs: seq<Fragment>, id: string) {
    exists f :: f in fs && f.id == id && f.locator == STUB
  }

  function IndexOf(fs: seq<Fragment>, id: string): (r: Option<nat>)
    ensures r.Some? ==> r.value < |fs| && fs[r.value].id == id
    ensures r.Some? ==> forall j :: 0 <= j < r.value ==> fs[j].id != id
    ensures r.None? ==> id !in Ids(fs)
  {
    if fs == [] then None
    else if fs[0].id == id then Some(0)
    else match IndexOf(fs[1..], id) case None => None case Some(i) => Some(i + 1)
  }

  // ---------- admission ----------

  const NOTES_PREFIX := "[Prior session notes for this source:\n"
  const NOTES_SUFFIX := "\n]\n\n"

  function Bullets(notes: seq<string>): string {
    if notes == [] then "" else "- " + notes[0] + "\n" + Bullets(notes[1..])
  }

  // At most the two most recent notes, and a count of the rest.
  function NotesBlock(notes: seq<string>): string {
    var hidden := if |notes| > 2 then |notes| - 2 else 0;
    TrimEnd((if hidden > 0 then "- (" + Dec(hidden) + " older eviction(s) omitted)\n" else "") + Bullets(notes[hidden..]))
  }

  function WithNotes(notes: seq<string>, content: string): string {
    NOTES_PREFIX + NotesBlock(notes) + NOTES_SUFFIX + content
  }

  datatype Fetched = Candidate(fragment: Fragment) | Skip | Abort

  function Fetch(fs: seq<Fragment>, env: Env, cfg: Config, id: string, mode: Mode): Fetched {
    if id in env.history then
      var content := env.history[id];
      var tokens := env.count(content);
      if HistoryTokens(fs) + tokens > cfg.HistoryShare() then Skip
      else Candidate(Fragment(id, content, HISTORY, FULL, tokens, 0))
    else
      match env.read(id, mode.Range())
      case Stale => Skip
      case Failed => Abort
      case Got(f) =>
        var notes := env.notes(id);
        if notes == [] then Candidate(f)
        else
          var content := WithNotes(notes, f.content);
          Candidate(f.(content := content, tokens := env.count(content)))
  }

  function Admit(st: State, f: Fragment, score: real): State {
    st.(loaded := st.loaded + [f], scores := st.scores[f.id := score])
  }

  function Rehit(st: State, id: string, score: real): State {
    if id in st.scores && score > st.scores[id] then st.(scores := st.scores[id := score]) else st
  }

  datatype Step = Continue(st: State) | Stop(st: State) | Fail(st: State)

  // One hit of an admission pass.
  function LoadOne(st: State, env: Env, cfg: Config, id: string, score: real, mode: Mode): Step {
    if id in Ids(st.loaded) then
      var st1 := Rehit(st, id, score);
      Continue(if mode.AsFull? && ResidentAsStub(st1.loaded, id) then Upgrade(st1, env, cfg, id, FULL, score) else st1)
    else if |st.loaded| >= cfg.maxFragments then Stop(st)
    else if score < cfg.load then Continue(st)
    else if Tokens(st.loaded) >= cfg.maxTokens then Stop(st)
    else
      match Fetch(st.loaded, env, cfg, id, mode)
      case Skip => Continue(st)
      case Abort => Fail(st)
      case Candidate(f) =>
        if f.source != HISTORY && CountOf(st.loaded, f.source) >= cfg.maxPerSource then Continue(st)
        else if Tokens(st.loaded) + f.tokens <= cfg.maxTokens then Continue(Admit(st, f, score))
        else Continue(st)
  }

  datatype Hit = Hit(id: string, score: real)
  datatype Outcome = Outcome(st: State, ok: bool)

  function Load(st: State, env: Env, cfg: Config, hits: seq<Hit>, mode: Mode): Outcome
    decreases |hits|
  {
    if hits == [] then Outcome(st, true)
    else
      match LoadOne(st, env, cfg, hits[0].id, hits[0].score, mode)
      case Continue(st1) => Load(st1, env, cfg, hits[1..], mode)
      case Stop(st1) => Outcome(st1, true)
      case Fail(st1) => Outcome(st1, false)
  }

  // ---------- progressive disclosure ----------

  function Clip(env: Env, cfg: Config, body: Fragment): Fragment {
    if body.tokens > cfg.maxInline then
      var shown := if cfg.maxInline * 3 <= |body.content| then body.content[..cfg.maxInline * 3] else body.content;
      var content := shown + "\n[" + Dec(body.tokens - cfg.maxInline)
        + " tokens not shown. To read a specific range: `" + body.source + ":start-end`]";
      body.(content := content, tokens := env.count(content))
    else body
  }

  function Floor(cfg: Config): real {
    cfg.unload + EPSILON
  }

  function Pin(st: State, cfg: Config, id: string, admitted: real): State {
    var pinned := if admitted >= Floor(cfg) then admitted else Floor(cfg);
    if id in st.scores && st.scores[id] >= Floor(cfg) then st else st.(scores := st.scores[id := pinned])
  }

  // What replaces the resident stub, when its body can be read and fits.
  function UpgradeBody(st: State, env: Env, cfg: Config, id: string, range: string): Option<Fragment> {
    match env.read(id, range)
    case Got(f) =>
      var body := Clip(env, cfg, f);
      var at := IndexOf(st.loaded, id);
      var stub := if at.Some? then st.loaded[at.value].tokens else 0;
      var others := if stub <= Tokens(st.loaded) then Tokens(st.loaded) - stub else 0;
      if others + body.tokens > cfg.maxTokens then None else Some(body)
    case _ => None
  }

  function Replace(fs: seq<Fragment>, id: string, body: Fragment): seq<Fragment> {
    var at := IndexOf(fs, id);
    if at.Some? then fs[at.value := body] else fs
  }

  function Upgrade(st: State, env: Env, cfg: Config, id: string, range: string, admitted: real): State {
    match UpgradeBody(st, env, cfg, id, range)
    case None => st
    case Some(body) => Pin(st.(loaded := Replace(st.loaded, id, body)), cfg, id, admitted)
  }

  // ---------- line references ----------

  // A reference found in model output, with the identifier a search would fall back on.
  datatype LineRef = LineRef(hint: string, start: nat, end: nat)
  datatype Search = Found(id: string) | NotFound | SearchFailed

  function RangeText(r: LineRef): string {
    if r.start == r.end then Dec(r.start) else Dec(r.start) + "-" + Dec(r.end)
  }

  predicate EndsWith(s: string, suffix: string) {
    |suffix| <= |s| && s[|s| - |suffix|..] == suffix
  }

  function StripDots(path: string): string
    decreases |path|
  {
    if "./" <= path then StripDots(path[2..]) else path
  }

  predicate Names(source: string, hint: string) {
    EndsWith(StripDots(source), hint) || EndsWith(hint, StripDots(source))
  }

  function FirstNamed(fs: seq<Fragment>, hint: string): Option<string> {
    if fs == [] then None
    else if Names(fs[0].source, hint) then Some(fs[0].id)
    else FirstNamed(fs[1..], hint)
  }

  function Resolve(st: State, search: string -> Search, hint: string): Search {
    match FirstNamed(st.loaded, hint)
    case Some(id) => Found(id)
    case None => search(hint)
  }

  function FollowOne(st: State, env: Env, search: string -> Search, cfg: Config, r: LineRef): Step {
    match Resolve(st, search, r.hint)
    case SearchFailed => Fail(st)
    case NotFound => Continue(st)
    case Found(id) =>
      if id in Ids(st.loaded) then
        Continue(if ResidentAsStub(st.loaded, id) then Upgrade(st, env, cfg, id, RangeText(r), cfg.load) else st)
      else if |st.loaded| >= cfg.maxFragments then Stop(st)
      else
        match env.read(id, RangeText(r))
        case Got(f) =>
          if Tokens(st.loaded) + f.tokens <= cfg.maxTokens then Continue(st.(loaded := st.loaded + [f]))
          else Continue(st)
        case _ => Continue(st)
  }

  function Follow(st: State, env: Env, search: string -> Search, cfg: Config, refs: seq<LineRef>): Outcome
    decreases |refs|
  {
    if refs == [] then Outcome(st, true)
    else
      match FollowOne(st, env, search, cfg, refs[0])
      case Continue(st1) => Follow(st1, env, search, cfg, refs[1..])
      case Stop(st1) => Outcome(st1, true)
      case Fail(st1) => Outcome(st1, false)
  }

  // ---------- relevance ----------

  function Fade(score: real, cfg: Config): real {
    score * cfg.decay
  }

  function Decay(st: State, cfg: Config): State {
    st.(scores := map id | id in st.scores :: Fade(st.scores[id], cfg))
  }

  // Strong re-engagement only: overlap has to beat the score by the margin.
  function RefreshOne(st: State, overlap: string -> real, f: Fragment): State {
    if f.id in st.scores && overlap(f.content) > st.scores[f.id] + 0.2
    then st.(scores := st.scores[f.id := overlap(f.content)])
    else st
  }

  function RefreshAll(st: State, overlap: string -> real, fs: seq<Fragment>): State
    decreases |fs|
  {
    if fs == [] then st else RefreshAll(RefreshOne(st, overlap, fs[0]), overlap, fs[1..])
  }

  function Refresh(st: State, overlap: string -> real): State {
    RefreshAll(st, overlap, st.loaded)
  }

  function Empty(): State {
    State([], map[], [])
  }

  // ---------- facts about the measures ----------

  lemma {:induction false} TokensAppend(a: seq<Fragment>, b: seq<Fragment>)
    ensures Tokens(a + b) == Tokens(a) + Tokens(b)
    ensures HistoryTokens(a + b) == HistoryTokens(a) + HistoryTokens(b)
  {
    if b == [] {
      assert a + b == a;
    } else {
      var b' := b[..|b| - 1];
      TokensAppend(a, b');
      assert (a + b)[..|a + b| - 1] == a + b';
    }
  }

  lemma {:induction false} CountAppend(a: seq<Fragment>, b: seq<Fragment>, s: string)
    ensures CountOf(a + b, s) == CountOf(a, s) + CountOf(b, s)
  {
    if b == [] {
      assert a + b == a;
    } else {
      var b' := b[..|b| - 1];
      CountAppend(a, b', s);
      assert (a + b)[..|a + b| - 1] == a + b';
    }
  }

  lemma {:induction false} CountPositive(fs: seq<Fragment>, s: string)
    ensures CountOf(fs, s) > 0 <==> exists f :: f in fs && f.source == s
  {
    if fs != [] {
      CountPositive(fs[..|fs| - 1], s);
      assert fs == fs[..|fs| - 1] + [fs[|fs| - 1]];
    }
  }

  // Replacing one fragment exchanges its own contribution and nothing else.
  lemma MeasuresReplace(fs: seq<Fragment>, i: nat, g: Fragment)
    requires i < |fs|
    ensures Tokens(fs[i := g]) == Tokens(fs) - fs[i].tokens + g.tokens
    ensures fs[i].tokens <= Tokens(fs)
    ensures fs[i].source != HISTORY && g.source != HISTORY ==> HistoryTokens(fs[i := g]) == HistoryTokens(fs)
    ensures fs[i].source == g.source ==> forall s :: CountOf(fs[i := g], s) == CountOf(fs, s)
  {
    var a, b := fs[..i], fs[i + 1..];
    assert fs == a + [fs[i]] + b && fs[i := g] == a + [g] + b;
    TokensAppend(a, [fs[i]]);
    TokensAppend(a + [fs[i]], b);
    TokensAppend(a, [g]);
    TokensAppend(a + [g], b);
    forall s ensures fs[i].source == g.source ==> CountOf(fs[i := g], s) == CountOf(fs, s) {
      CountAppend(a, [fs[i]], s);
      CountAppend(a + [fs[i]], b, s);
      CountAppend(a, [g], s);
      CountAppend(a + [g], b, s);
    }
  }
}
