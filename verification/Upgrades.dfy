// What an upgrade puts in place of a stub, and when; which fragment a line reference means.
module Upgrades {
  import opened Text
  import opened Workspace
  import opened WorkspaceRuns

  // ---------- the body ----------

  // What is shown of a body: all of it up to the inline limit, else its first characters,
  // three for each token of the limit, and a notice of what is missing, counted again.
  ghost predicate Shown(env: Env, cfg: Config, whole: Fragment, body: Fragment) {
    if whole.tokens <= cfg.maxInline then body == whole
    else
      && body.id == whole.id && body.source == whole.source && body.locator == whole.locator && body.mtime == whole.mtime
      && body.tokens == env.count(body.content)
      && exists front, missing ::
           && body.content == Noticed(front, missing, whole.source)
           && front <= whole.content && |front| == Shorter(3 * cfg.maxInline, |whole.content|)
           && ParsesTo(missing, whole.tokens - cfg.maxInline)
  }

  function Noticed(front: string, missing: string, source: string): string {
    front + "\n[" + missing + " tokens not shown. To read a specific range: `" + source + ":start-end`]"
  }

  function Shorter(a: nat, b: nat): nat {
    if a <= b then a else b
  }

  ghost predicate ParsesTo(s: string, n: int) {
    AllDigits(s) && Value(s) == n
  }

  lemma ClipShows(env: Env, cfg: Config, whole: Fragment)
    ensures Shown(env, cfg, whole, Clip(env, cfg, whole))
  {
    if whole.tokens > cfg.maxInline {
      var front := whole.content[..Shorter(3 * cfg.maxInline, |whole.content|)];
      var missing := Dec(whole.tokens - cfg.maxInline);
      ValueOfDec(whole.tokens - cfg.maxInline);
      ClippedContent(env, cfg, whole, front, missing);
      assert front <= whole.content && ParsesTo(missing, whole.tokens - cfg.maxInline);
      hide Clip, Value, Dec, Noticed, ParsesTo;
    }
  }

  lemma ClippedContent(env: Env, cfg: Config, whole: Fragment, front: string, missing: string)
    requires whole.tokens > cfg.maxInline && missing == Dec(whole.tokens - cfg.maxInline)
    requires front == whole.content[..Shorter(3 * cfg.maxInline, |whole.content|)]
    ensures var body := Clip(env, cfg, whole);
            && body == whole.(content := body.content, tokens := env.count(body.content))
            && body.content == Noticed(front, missing, whole.source)
  {
    assert |whole.content| <= 3 * cfg.maxInline ==> front == whole.content;
    hide Dec;
  }

  // ---------- the exchange ----------

  // The score an upgraded fragment ends with: its own if that is above the floor, else the
  // better of the floor and the score it was asked for with.
  function PinnedScore(st: State, cfg: Config, id: string, admitted: real): real {
    var floor := cfg.unload + EPSILON;
    if id in st.scores && st.scores[id] >= floor then st.scores[id]
    else if admitted > floor then admitted else floor
  }

  // A resident stub whose body can be read is exchanged for what is shown of it exactly when
  // that fits beside the other residents; else nothing changes.
  lemma UpgradeExactly(st: State, env: Env, cfg: Config, id: string, range: string, admitted: real, i: nat)
    requires DistinctIds(st.loaded) && i < |st.loaded| && st.loaded[i].id == id && env.read(id, range).Got?
    ensures exists body ::
              && Shown(env, cfg, env.read(id, range).fragment, body)
              && Upgrade(st, env, cfg, id, range, admitted) ==
                   if Tokens(st.loaded[..i] + st.loaded[i + 1..]) + body.tokens <= cfg.maxTokens then
                     st.(loaded := st.loaded[i := body], scores := st.scores[id := PinnedScore(st, cfg, id, admitted)])
                   else st
  {
    var whole := env.read(id, range).fragment;
    var body := Clip(env, cfg, whole);
    ClipShows(env, cfg, whole);
    WithoutOne(st.loaded, i);
    IndexIs(st.loaded, i);
    assert id in st.scores ==> st.scores[id := st.scores[id]] == st.scores;
    hide Clip, Shown, Tokens;
  }

  // A body that cannot be read leaves the stub as it is.
  lemma UnreadableStays(st: State, env: Env, cfg: Config, id: string, range: string, admitted: real)
    requires !env.read(id, range).Got?
    ensures Upgrade(st, env, cfg, id, range, admitted) == st
  {
  }

  lemma WithoutOne(fs: seq<Fragment>, i: nat)
    requires i < |fs|
    ensures Tokens(fs[..i] + fs[i + 1..]) == Tokens(fs) - fs[i].tokens && fs[i].tokens <= Tokens(fs)
  {
    var a, x, b := fs[..i], [fs[i]], fs[i + 1..];
    OneToken(fs[i]);
    CutOut(fs, i);
    hide Tokens;
    TokensAppend(a + x, b);
    TokensAppend(a, x);
    TokensAppend(a, b);
  }

  lemma CutOut(fs: seq<Fragment>, i: nat)
    requires i < |fs|
    ensures fs == fs[..i] + [fs[i]] + fs[i + 1..]
  {
  }

  lemma OneToken(f: Fragment)
    ensures Tokens([f]) == f.tokens
  {
    assert [f][..0] == [];
  }

  lemma IndexIs(fs: seq<Fragment>, i: nat)
    requires DistinctIds(fs) && i < |fs|
    ensures IndexOf(fs, fs[i].id) == Some(i)
  {
    var at := IndexOf(fs, fs[i].id);
    assert fs[i].id in Ids(fs);
  }

  // ---------- notes shown at admission ----------

  // Up to two notes are shown as they are, each as a list entry; of more, the last two, after
  // a line that counts the others.
  lemma NotesShown(notes: seq<string>, content: string)
    requires notes != []
    ensures exists lines ::
              && WithNotes(notes, content) == "[Prior session notes for this source:\n" + TrimEnd(lines) + "\n]\n\n" + content
              && var n := |notes|;
                 if n == 1 then lines == "- " + notes[0] + "\n"
                 else
                   var last := "- " + notes[n - 2] + "\n" + ("- " + notes[n - 1] + "\n");
                   if n == 2 then lines == last
                   else exists missing :: ParsesTo(missing, n - 2)
                                       && lines == "- (" + missing + " older eviction(s) omitted)\n" + last
  {
    var n := |notes|;
    var hidden := if n > 2 then n - 2 else 0;
    var shown := notes[hidden..];
    var lines := (if hidden > 0 then "- (" + Dec(hidden) + " older eviction(s) omitted)\n" else "") + Bullets(shown);
    assert NotesBlock(notes) == TrimEnd(lines);
    BulletsOf(shown);
    ValueOfDec(hidden);
    assert "" + Bullets(shown) == Bullets(shown);
    hide NotesBlock, Bullets, TrimEnd, Dec, Value;
    if n > 2 { assert ParsesTo(Dec(hidden), n - 2); }
  }

  lemma BulletsOf(shown: seq<string>)
    requires |shown| == 1 || |shown| == 2
    ensures |shown| == 1 ==> Bullets(shown) == "- " + shown[0] + "\n"
    ensures |shown| == 2 ==> Bullets(shown) == "- " + shown[0] + "\n" + ("- " + shown[1] + "\n")
  {
    var rest := shown[1..];
    assert Bullets([]) == "";
    if |shown| == 2 {
      assert rest[1..] == [] && rest[0] == shown[1];
      assert Bullets(rest) == "- " + shown[1] + "\n" + "";
      assert "- " + shown[1] + "\n" + "" == "- " + shown[1] + "\n";
    } else {
      assert "- " + shown[0] + "\n" + "" == "- " + shown[0] + "\n";
    }
  }

  // ---------- which fragment a reference means ----------

  // One path is the tail of the other, leading "./" aside.
  ghost predicate SamePath(source: string, hint: string) {
    exists n: nat, path :: source == Dots(n) + path && !("./" <= path) && (IsTail(path, hint) || IsTail(hint, path))
  }

  function Dots(n: nat): string {
    if n == 0 then "" else "./" + Dots(n - 1)
  }

  ghost predicate IsTail(tail: string, s: string) {
    exists front :: s == front + tail
  }

  lemma TailMeaning(s: string, tail: string)
    ensures EndsWith(s, tail) <==> IsTail(tail, s)
  {
    if EndsWith(s, tail) {
      assert s == s[..|s| - |tail|] + tail;
    }
    if IsTail(tail, s) {
      var front :| s == front + tail;
      assert s[|front|..] == tail;
    }
  }

  lemma {:induction false} DotsStripped(n: nat, path: string)
    requires !("./" <= path)
    ensures StripDots(Dots(n) + path) == path
  {
    if n == 0 {
      assert Dots(0) + path == path;
    } else {
      var s := Dots(n) + path;
      AppendAssociative("./", Dots(n - 1), path);
      assert s[2..] == Dots(n - 1) + path && "./" <= s;
      DotsStripped(n - 1, path);
    }
  }

  lemma {:induction false} SomeDots(source: string) returns (n: nat)
    ensures source == Dots(n) + StripDots(source) && !("./" <= StripDots(source))
    decreases |source|
  {
    if "./" <= source {
      var m := SomeDots(source[2..]);
      n := m + 1;
      assert source == "./" + source[2..];
      AppendAssociative("./", Dots(m), StripDots(source));
    } else {
      n := 0;
      assert Dots(0) + source == source;
    }
  }

  lemma NamesMeaning(source: string, hint: string)
    ensures Names(source, hint) <==> SamePath(source, hint)
  {
    var n := SomeDots(source);
    var path := StripDots(source);
    TailMeaning(path, hint);
    TailMeaning(hint, path);
    if SamePath(source, hint) {
      var m: nat, p :| source == Dots(m) + p && !("./" <= p) && (IsTail(p, hint) || IsTail(hint, p));
      DotsStripped(m, p);
    }
  }

  // A reference means the first resident fragment whose path matches it, and what a search
  // finds only if there is none.
  lemma {:induction false} ReferenceMeans(fs: seq<Fragment>, hint: string)
    ensures match FirstNamed(fs, hint)
            case None => forall f :: f in fs ==> !SamePath(f.source, hint)
            case Some(id) => exists i :: 0 <= i < |fs| && fs[i].id == id && SamePath(fs[i].source, hint)
                                      && forall j :: 0 <= j < i ==> !SamePath(fs[j].source, hint)
  {
    hide SamePath, Names;
    if fs != [] {
      NamesMeaning(fs[0].source, hint);
      ReferenceMeans(fs[1..], hint);
      if !Names(fs[0].source, hint) && FirstNamed(fs[1..], hint).Some? {
        var i :| 0 <= i < |fs| - 1 && fs[1..][i].id == FirstNamed(fs[1..], hint).value && SamePath(fs[1..][i].source, hint)
              && forall j :: 0 <= j < i ==> !SamePath(fs[1..][j].source, hint);
        assert fs[i + 1] == fs[1..][i];
        forall j | 0 <= j < i + 1 ensures !SamePath(fs[j].source, hint) {
          if j > 0 { assert fs[j] == fs[1..][j - 1]; }
        }
      }
    }
  }

  // A reference to something absent adds what is read of it exactly when there is room in
  // fragments and tokens, without a score; to a resident stub it is an upgrade; to a resident
  // body nothing.
  lemma FollowExactly(st: State, env: Env, search: string -> Search, cfg: Config, r: LineRef, id: string)
    requires Resolve(st, search, r.hint) == Found(id)
    ensures var range := if r.start == r.end then Dec(r.start) else Dec(r.start) + "-" + Dec(r.end);
            var step := FollowOne(st, env, search, cfg, r);
            if id in Ids(st.loaded) then
              step == Continue(if exists f :: f in st.loaded && f.id == id && f.locator == "stub"
                               then Upgrade(st, env, cfg, id, range, cfg.load) else st)
            else if |st.loaded| >= cfg.maxFragments then step == Stop(st)
            else if env.read(id, range).Got? && Tokens(st.loaded) + env.read(id, range).fragment.tokens <= cfg.maxTokens then
              step == Continue(st.(loaded := st.loaded + [env.read(id, range).fragment]))
            else step == Continue(st)
  {
    hide Upgrade, Tokens, Dec;
  }

  // ---------- budgets and decay ----------

  // The history share is the largest whole number of tokens within its fraction.
  lemma HistoryShareIs(cfg: Config)
    requires cfg.historyFraction >= 0.0
    ensures var share := cfg.HistoryShare() as real;
            share <= cfg.maxTokens as real * cfg.historyFraction < share + 1.0
  {
    NonNegativeProduct(cfg.maxTokens as real, cfg.historyFraction);
  }

  lemma NonNegativeProduct(a: real, b: real)
    requires a >= 0.0 && b >= 0.0
    ensures a * b >= 0.0
  {
  }
}
