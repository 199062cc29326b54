// Reasoning steps: paragraphs of a thinking trace, cut incrementally out of a stream or
// all at once out of the finished text.
module StepStream {
  import opened Text

  const GAP := "\n\n"

  // The non-empty trimmed paragraphs.
  function Steps(parts: seq<string>): seq<string> {
    if parts == [] then []
    else
      var step := Trim(parts[0]);
      (if step == "" then [] else [step]) + Steps(parts[1..])
  }

  lemma {:induction false} StepsAppend(a: seq<string>, b: seq<string>)
    ensures Steps(a + b) == Steps(a) + Steps(b)
  {
    if a == [] {
      assert a + b == b;
    } else {
      assert (a + b)[1..] == a[1..] + b;
      StepsAppend(a[1..], b);
    }
  }

  // Steps whose paragraph is closed, and the paragraph still open.
  function Closed(text: string): seq<string> {
    Steps(Init(Split(text, GAP)))
  }

  function Open(text: string): string {
    Last(Split(text, GAP))
  }

  function AllSteps(text: string): seq<string> {
    Steps(Split(text, GAP))
  }

  // Cutting more text only needs the open paragraph.
  lemma CutMore(text: string, more: string)
    ensures Closed(text + more) == Closed(text) + Closed(Open(text) + more)
    ensures Open(text + more) == Open(Open(text) + more)
  {
    SplitAppend(text, more, GAP);
    var a, b := Init(Split(text, GAP)), Split(Open(text) + more, GAP);
    assert Init(a + b) == a + Init(b);
    StepsAppend(a, Init(b));
  }

  lemma AllIsClosedAndOpen(text: string)
    ensures AllSteps(text) == Closed(text) + Steps([Open(text)])
  {
    var parts := Split(text, GAP);
    assert parts == Init(parts) + [Last(parts)];
    StepsAppend(Init(parts), [Last(parts)]);
  }

  function Concat(pieces: seq<string>): string {
    if pieces == [] then "" else Concat(pieces[..|pieces| - 1]) + pieces[|pieces| - 1]
  }

  // ---------- replay through the callback ----------

  // The callback sees the steps so far, the last one being new, and says whether to go on.
  type Callback = seq<string> -> bool

  // Steps handed over: all of them, or up to the first one the callback refuses.
  function Replay(all: seq<string>, go: Callback, from: nat): seq<string>
    requires from <= |all|
    decreases |all| - from
  {
    if from == |all| then all
    else if go(all[..from + 1]) then Replay(all, go, from + 1)
    else all[..from + 1]
  }

  predicate Willing(go: Callback, steps: seq<string>) {
    forall i :: 0 < i <= |steps| ==> go(steps[..i])
  }

  lemma {:induction false} ReplayTo(all: seq<string>, go: Callback, from: nat, n: nat)
    requires from <= n <= |all| && forall i :: from < i <= n ==> go(all[..i])
    ensures Replay(all, go, from) == Replay(all, go, n)
    decreases n - from
  {
    if from < n { ReplayTo(all, go, from + 1, n); }
  }

  // Replaying a finished trace.
  method ReplaySteps(text: string, go: Callback) returns (seen: seq<string>)
    ensures seen == Replay(AllSteps(text), go, 0)
  {
    var all := AllSteps(text);
    seen := [];
    while |seen| < |all|
      invariant seen <= all && Replay(all, go, |seen|) == Replay(all, go, 0)
    {
      seen := all[..|seen| + 1];
      if !go(seen) { return; }
    }
  }

  // ---------- the incremental cut ----------

  lemma CutFirst(text: string)
    requires Find(text, GAP).Some?
    ensures var i := Find(text, GAP).value;
            var step := Trim(text[..i]);
            && Closed(text) == (if step == "" then [] else [step]) + Closed(text[i + 2..])
            && Open(text) == Open(text[i + 2..])
  {
    var i := Find(text, GAP).value;
    var tail := Split(text[i + 2..], GAP);
    InitLastOfCons(text[..i], tail);
    StepsAppend([text[..i]], Init(tail));
  }

  lemma NoGap(text: string)
    requires Find(text, GAP).None?
    ensures Closed(text) == [] && Open(text) == text
  {
    assert Split(text, GAP) == [text];
  }

  // Drain every closed paragraph out of the buffer.
  method FlushSteps(buf: string) returns (steps: seq<string>, rest: string)
    ensures steps == Closed(buf) && rest == Open(buf)
  {
    hide Closed, Open;
    steps, rest := [], buf;
    while true
      invariant Closed(buf) == steps + Closed(rest) && Open(buf) == Open(rest)
      decreases |rest|
    {
      var boundary := Find(rest, GAP);
      if boundary.None? {
        NoGap(rest);
        return;
      }
      CutFirst(rest);
      var step := Trim(rest[..boundary.value]);
      rest := rest[boundary.value + 2..];
      if step == "" { continue; }
      AppendAssociative(steps, [step], Closed(rest));
      steps := steps + [step];
    }
  }

  // One buffer's worth of steps offered to the callback.
  method OfferSteps(buf: string, before: seq<string>, go: Callback)
    returns (seen: seq<string>, rest: string, stopped: bool)
    requires Willing(go, before)
    ensures !stopped ==> seen == before + Closed(buf) && rest == Open(buf) && Willing(go, seen)
    ensures stopped ==> seen != [] && seen <= before + Closed(buf) && Willing(go, seen[..|seen| - 1]) && !go(seen)
  {
    hide Closed, Open, Willing;
    seen, rest, stopped := before, buf, false;
    while true
      invariant !stopped && before + Closed(buf) == seen + Closed(rest) && Open(buf) == Open(rest) && Willing(go, seen)
      decreases |rest|
    {
      var boundary := Find(rest, GAP);
      if boundary.None? {
        NoGap(rest);
        return;
      }
      CutFirst(rest);
      var step := Trim(rest[..boundary.value]);
      rest := rest[boundary.value + 2..];
      if step == "" { continue; }
      WillingStep(go, seen, step);
      AppendAssociative(seen, [step], Closed(rest));
      seen := seen + [step];
      if !go(seen) {
        stopped := true;
        return;
      }
    }
  }

  lemma WillingStep(go: Callback, seen: seq<string>, step: string)
    requires Willing(go, seen)
    ensures var next := seen + [step];
            && next[..|next| - 1] == seen
            && (go(next) ==> Willing(go, next))
  {
    var next := seen + [step];
    assert forall i :: 0 < i < |next| ==> next[..i] == seen[..i];
    assert next[..|next|] == next;
  }

  // The decode loop, the sampler being the sequence of pieces it produces. However the
  // text is cut into pieces, the callback sees what a replay of the closed paragraphs of
  // the whole text shows it; if it never refuses, the open paragraph is what is left.
  method RunThinkingSteps(pieces: seq<string>, go: Callback) returns (seen: seq<string>, answer: string)
    ensures seen == Replay(Closed(Concat(pieces)), go, 0)
    ensures Willing(go, Closed(Concat(pieces))) ==> answer == Open(Concat(pieces))
  {
    seen, answer := [], "";
    var i := 0;
    while i < |pieces|
      invariant i <= |pieces| && Willing(go, seen)
      invariant seen == Closed(Concat(pieces[..i])) && answer == Open(Concat(pieces[..i]))
    {
      ghost var text := Concat(pieces[..i]);
      assert pieces[..i + 1][..i] == pieces[..i];
      CutMore(text, pieces[i]);
      var buf := answer + pieces[i];
      var stopped: bool;
      seen, answer, stopped := OfferSteps(buf, seen, go);
      if stopped {
        ClosedGrows(pieces, i + 1);
        RefusedReplay(Closed(Concat(pieces)), go, seen);
        return;
      }
      i := i + 1;
    }
    assert pieces[..|pieces|] == pieces;
    ReplayTo(seen, go, 0, |seen|);
  }

  lemma RefusedReplay(all: seq<string>, go: Callback, seen: seq<string>)
    requires seen != [] && seen <= all && Willing(go, seen[..|seen| - 1]) && !go(seen)
    ensures Replay(all, go, 0) == seen && !Willing(go, all)
  {
    var n := |seen| - 1;
    assert forall i :: 0 < i <= n ==> all[..i] == seen[..n][..i];
    ReplayTo(all, go, 0, n);
    assert all[..n + 1] == seen;
  }

  lemma {:induction false} ClosedGrows(pieces: seq<string>, n: nat)
    requires n <= |pieces|
    ensures Closed(Concat(pieces[..n])) <= Closed(Concat(pieces))
    decreases |pieces| - n
  {
    if n < |pieces| {
      assert pieces[..n + 1][..n] == pieces[..n];
      CutMore(Concat(pieces[..n]), pieces[n]);
      ClosedGrows(pieces, n + 1);
    } else {
      assert pieces[..n] == pieces;
    }
  }

  // Streaming shows the callback the same steps as replaying the finished text, except
  // for the last paragraph, which no boundary closes.
  lemma StreamVersusReplay(pieces: seq<string>, go: Callback)
    requires Willing(go, AllSteps(Concat(pieces)))
    ensures Replay(AllSteps(Concat(pieces)), go, 0)
         == Replay(Closed(Concat(pieces)), go, 0) + Steps([Open(Concat(pieces))])
  {
    var text := Concat(pieces);
    AllIsClosedAndOpen(text);
    var all, closed := AllSteps(text), Closed(text);
    assert forall i :: 0 < i <= |closed| ==> closed[..i] == all[..i];
    ReplayTo(all, go, 0, |all|);
    ReplayTo(closed, go, 0, |closed|);
  }

  // ---------- the chat stream ----------

  const OPEN_TAG := "<think>"
  const CLOSE_TAG := "</think>"

  // One streamed message: a reasoning delta, or none; answer text; end of stream.
  datatype Token = Token(thinking: Option<string>, content: string, done: bool)

  datatype Collector = Collector(buf: string, steps: seq<string>, inThink: bool)

  predicate IsDelta(t: Token) {
    t.thinking.Some? && t.thinking.value != ""
  }

  // The buffer after a message has been taken in.
  function Absorb(c: Collector, t: Token): Collector {
    if IsDelta(t) then
      var buf := c.buf + t.thinking.value;
      Collector(Open(buf), c.steps + Closed(buf), true)
    else if c.inThink then
      if t.thinking.None? then c.(buf := c.buf + t.content) else c
    else
      match Find(t.content, OPEN_TAG)
      case Some(i) => c.(buf := c.buf + t.content[i + |OPEN_TAG|..], inThink := true)
      case None => c
  }

  // Steps collected from a stream: the state machine of the streaming adapter.
  function Collect(c: Collector, tokens: seq<Token>): seq<string>
    decreases |tokens|
  {
    if tokens == [] then c.steps
    else
      var t := tokens[0];
      var a := Absorb(c, t);
      if a.inThink && Find(a.buf, CLOSE_TAG).Some? then
        a.steps + Steps([a.buf[..Find(a.buf, CLOSE_TAG).value]])
      else
        var f := if a.inThink then Collector(Open(a.buf), a.steps + Closed(a.buf), true) else a;
        if a.inThink && t.thinking.None? && t.content != "" then f.steps + Steps([f.buf])
        else if t.done then f.steps + Steps([f.buf])
        else Collect(f, tokens[1..])
  }

  method Push(steps: seq<string>, part: string) returns (r: seq<string>)
    ensures r == steps + Steps([part])
  {
    var step := Trim(part);
    r := steps;
    if step != "" { r := r + [step]; }
  }

  method CollectSteps(tokens: seq<Token>) returns (steps: seq<string>)
    ensures steps == Collect(Collector("", [], false), tokens)
  {
    steps := [];
    var buf, inThink := "", false;
    var i := 0;
    hide Closed, Open, Steps;
    while i < |tokens|
      invariant i <= |tokens|
      invariant Collect(Collector(buf, steps, inThink), tokens[i..]) == Collect(Collector("", [], false), tokens)
    {
      var t := tokens[i];
      assert tokens[i..][0] == t && tokens[i..][1..] == tokens[i + 1..];
      i := i + 1;
      if IsDelta(t) {
        inThink := true;
        var flushed, rest := FlushSteps(buf + t.thinking.value);
        steps, buf := steps + flushed, rest;
      } else if inThink && t.thinking.None? {
        buf := buf + t.content;
      } else if !inThink {
        var at := Find(t.content, OPEN_TAG);
        if at.Some? {
          inThink := true;
          buf := buf + t.content[at.value + |OPEN_TAG|..];
        }
      }
      if inThink {
        var end := Find(buf, CLOSE_TAG);
        if end.Some? {
          steps := Push(steps, buf[..end.value]);
          return;
        }
        var flushed, rest := FlushSteps(buf);
        steps, buf := steps + flushed, rest;
        if t.thinking.None? && t.content != "" {
          steps := Push(steps, buf);
          return;
        }
      }
      if t.done {
        steps := Push(steps, buf);
        return;
      }
    }
  }

  lemma {:induction false} OpenIsSuffix(text: string)
    ensures |Open(text)| <= |text| && Open(text) == text[|text| - |Open(text)|..]
    ensures Find(Open(text), GAP).None? && Closed(Open(text)) == [] && Open(Open(text)) == Open(text)
    decreases |text|
  {
    var boundary := Find(text, GAP);
    if boundary.Some? {
      CutFirst(text);
      OpenIsSuffix(text[boundary.value + 2..]);
    } else {
      assert Split(text, GAP) == [text];
    }
  }

  // ---------- the reasoning phase ----------

  const NOTHING := Collector("", [], false)

  // A message that does not end the reasoning phase once that has begun.
  predicate Reasons(t: Token) {
    !t.done && (t.thinking.Some? || t.content == "")
  }

  function Delta(t: Token): string {
    if t.thinking.Some? then t.thinking.value else ""
  }

  function Reasoning(ds: seq<Token>): string {
    if ds == [] then "" else Reasoning(ds[..|ds| - 1]) + Delta(ds[|ds| - 1])
  }

  lemma ReasoningSnoc(ds: seq<Token>, t: Token)
    ensures Reasoning(ds + [t]) == Reasoning(ds) + Delta(t)
  {
    assert (ds + [t])[..|ds|] == ds;
  }

  // A reasoning phase as it goes on: it has begun, and no closing tag has shown up in the
  // paragraph that was open at the time.
  ghost predicate Live(ds: seq<Token>) {
    && (ds != [] ==> IsDelta(ds[0]))
    && (forall i :: 0 <= i < |ds| ==> Reasons(ds[i]))
    && (forall n :: 0 <= n <= |ds| ==> Find(Open(Reasoning(ds[..n])), CLOSE_TAG).None?)
  }

  // Where it leaves the collector: the closed steps of everything streamed so far, and the
  // open paragraph.
  function After(ds: seq<Token>): Collector {
    if ds == [] then NOTHING else Collector(Open(Reasoning(ds)), Closed(Reasoning(ds)), true)
  }

  lemma CollectDelta(c: Collector, t: Token, tokens: seq<Token>)
    requires IsDelta(t) && !t.done && Find(Open(c.buf + t.thinking.value), CLOSE_TAG).None?
    ensures var text := c.buf + t.thinking.value;
            Collect(c, [t] + tokens) == Collect(Collector(Open(text), c.steps + Closed(text), true), tokens)
  {
    var text := c.buf + t.thinking.value;
    var all := [t] + tokens;
    assert all[0] == t && all[1..] == tokens;
    OpenIsSuffix(text);
    assert (c.steps + Closed(text)) + [] == c.steps + Closed(text);
  }

  // Neither an empty reasoning field nor an empty message changes anything.
  lemma CollectIdle(c: Collector, t: Token, tokens: seq<Token>)
    requires c.inThink && Reasons(t) && !IsDelta(t)
    requires Find(c.buf, CLOSE_TAG).None? && Open(c.buf) == c.buf && Closed(c.buf) == []
    ensures Collect(c, [t] + tokens) == Collect(c, tokens)
  {
    var all := [t] + tokens;
    assert all[0] == t && all[1..] == tokens;
    assert c.buf + "" == c.buf && c.steps + [] == c.steps;
  }

  lemma AfterStep(front: seq<Token>, t: Token, tokens: seq<Token>)
    requires Reasons(t) && (front == [] ==> IsDelta(t))
    requires Find(Open(Reasoning(front)), CLOSE_TAG).None? && Find(Open(Reasoning(front + [t])), CLOSE_TAG).None?
    ensures Collect(After(front), [t] + tokens) == Collect(After(front + [t]), tokens)
  {
    ReasoningSnoc(front, t);
    AfterGrows(front, t);
    assert front == [] ==> Reasoning(front) == "" && "" + Delta(t) == Delta(t);
    var text := Reasoning(front);
    OpenIsSuffix(text);
    hide Collect, Closed, Open, Reasoning, Find;
    if IsDelta(t) {
      CollectDelta(After(front), t, tokens);
    } else {
      assert text + "" == text;
      CollectIdle(After(front), t, tokens);
    }
  }

  lemma AfterGrows(front: seq<Token>, t: Token)
    requires front == [] ==> IsDelta(t)
    ensures var buf := After(front).buf + Delta(t);
            After(front + [t]) == Collector(Open(buf), After(front).steps + Closed(buf), true)
  {
    ReasoningSnoc(front, t);
    var text := Reasoning(front);
    if front == [] {
      assert text == "" && "" + Delta(t) == Delta(t);
      assert [] + Closed(Delta(t)) == Closed(Delta(t));
    } else {
      hide Closed, Open, Reasoning;
      CutMore(text, Delta(t));
    }
  }

  lemma {:induction false} CollectLive(ds: seq<Token>, tokens: seq<Token>)
    requires Live(ds)
    ensures Collect(NOTHING, ds + tokens) == Collect(After(ds), tokens)
    decreases |ds|
  {
    hide Collect, Live, Reasoning, Find, Open, Closed;
    if ds == [] {
      assert ds + tokens == tokens;
    } else {
      var n := |ds| - 1;
      var front, t := ds[..n], ds[n];
      LiveFront(ds);
      assert ds == front + [t] && (front == [] ==> n == 0);
      hide *;
      AppendAssociative(front, [t], tokens);
      CollectLive(front, [t] + tokens);
      AfterStep(front, t, tokens);
    }
  }

  lemma LiveFront(ds: seq<Token>)
    requires ds != [] && Live(ds)
    ensures var n := |ds| - 1;
            && Live(ds[..n]) && Reasons(ds[n]) && (n == 0 ==> IsDelta(ds[n]))
            && Find(Open(Reasoning(ds[..n])), CLOSE_TAG).None?
            && Find(Open(Reasoning(ds[..n] + [ds[n]])), CLOSE_TAG).None?
  {
    hide Find, Open, Reasoning, Reasons;
    var n := |ds| - 1;
    var front := ds[..n];
    assert ds[..n + 1] == ds == front + [ds[n]];
    forall m | 0 <= m <= n ensures Find(Open(Reasoning(front[..m])), CLOSE_TAG).None? {
      assert front[..m] == ds[..m];
    }
    assert front[..n] == front;
  }

  // The steps when a closing tag shows up in the open paragraph: what came before the tag
  // is the last one, and nothing that follows is looked at.
  lemma StopsAtCloseTag(ds: seq<Token>, t: Token, rest: seq<Token>)
    requires Live(ds) && IsDelta(t)
    requires Find(Open(Reasoning(ds + [t])), CLOSE_TAG).Some?
    ensures var text := Reasoning(ds + [t]);
            Collect(NOTHING, ds + ([t] + rest)) ==
              Closed(text) + Steps([Open(text)[..Find(Open(text), CLOSE_TAG).value]])
  {
    CollectLive(ds, [t] + rest);
    AfterGrows(ds, t);
    var tokens := [t] + rest;
    assert tokens[0] == t && tokens[1..] == rest;
    var c := After(ds);
    assert ds + [t] != [];
    hide Closed, Open, Reasoning, Find;
    assert Absorb(c, t) == After(ds + [t]);
  }

  // Until it begins, messages without an opening tag are passed over.
  lemma IdleBefore(t: Token, rest: seq<Token>)
    requires !IsDelta(t) && Find(t.content, OPEN_TAG).None?
    ensures Collect(NOTHING, [t] + rest) == if t.done then [] else Collect(NOTHING, rest)
  {
    var tokens := [t] + rest;
    assert tokens[0] == t && tokens[1..] == rest;
    BlankSteps("");
    AllIsClosedAndOpen("");
    NoStepInBlank("");
  }

  // ---------- the end of the phase ----------

  predicate Ends(t: Token) {
    t.done || (t.thinking.None? && t.content != "")
  }

  // Up to a closing tag, as one step; without one, all paragraphs.
  function UpToClose(buf: string): seq<string> {
    match Find(buf, CLOSE_TAG)
    case Some(e) => Steps([buf[..e]])
    case None => AllSteps(buf)
  }

  // The steps of a whole stream that begins with reasoning, for every message that can end
  // it: a last piece of reasoning closes its paragraphs first, answer text is taken for
  // more of the open paragraph, and nothing after it is looked at.
  lemma CollectedExactly(ds: seq<Token>, last: Token, rest: seq<Token>)
    requires ds != [] && Live(ds) && Ends(last)
    ensures var text := Reasoning(ds);
            Collect(NOTHING, ds + ([last] + rest)) ==
              if IsDelta(last) then
                var all := text + last.thinking.value;
                Closed(all) + UpToClose(Open(all))
              else if last.thinking.None? then Closed(text) + UpToClose(Open(text) + last.content)
              else AllSteps(text)
  {
    CollectLive(ds, [last] + rest);
    var tokens := [last] + rest;
    assert tokens[0] == last && tokens[1..] == rest;
    assert ds[..|ds|] == ds;
    var text := Reasoning(ds);
    OpenIsSuffix(text);
    if IsDelta(last) {
      EndsInDelta(text, last, rest);
    } else {
      EndsInAnswer(text, last, rest);
    }
  }

  lemma EndsInDelta(text: string, last: Token, rest: seq<Token>)
    requires IsDelta(last) && last.done
    ensures var all := text + last.thinking.value;
            Collect(Collector(Open(text), Closed(text), true), [last] + rest) == Closed(all) + UpToClose(Open(all))
  {
    var tokens := [last] + rest;
    assert tokens[0] == last && tokens[1..] == rest;
    var all := text + last.thinking.value;
    CutMore(text, last.thinking.value);
    OpenIsSuffix(all);
    AllIsClosedAndOpen(Open(all));
    hide Closed, Open, Find;
    assert Closed(all) + [] == Closed(all);
    assert [] + Steps([Open(all)]) == Steps([Open(all)]);
  }

  lemma EndsInAnswer(text: string, last: Token, rest: seq<Token>)
    requires !IsDelta(last) && Ends(last) && Find(Open(text), CLOSE_TAG).None?
    ensures Collect(Collector(Open(text), Closed(text), true), [last] + rest) ==
              if last.thinking.None? then Closed(text) + UpToClose(Open(text) + last.content) else AllSteps(text)
  {
    OpenIsSuffix(text);
    if last.thinking.None? {
      TakenIn(Collector(Open(text), Closed(text), true), last, rest);
    } else {
      AllIsClosedAndOpen(text);
      var tokens := [last] + rest;
      assert tokens[0] == last && tokens[1..] == rest;
      hide Closed, Open, Find;
      assert Closed(text) + [] == Closed(text);
    }
  }

  lemma TakenIn(c: Collector, last: Token, rest: seq<Token>)
    requires c.inThink && last.thinking.None? && Ends(last)
    ensures Collect(c, [last] + rest) == c.steps + UpToClose(c.buf + last.content)
  {
    var tokens, buf := [last] + rest, c.buf + last.content;
    assert tokens[0] == last && tokens[1..] == rest;
    AllIsClosedAndOpen(buf);
    hide Closed, Open, Find, AllSteps, Steps;
    AppendAssociative(c.steps, Closed(buf), Steps([Open(buf)]));
  }

  // A stream that breaks off leaves the open paragraph out.
  lemma StreamBreaksOff(ds: seq<Token>)
    requires ds != [] && Live(ds)
    ensures Collect(NOTHING, ds) == Closed(Reasoning(ds))
  {
    CollectLive(ds, []);
    assert ds + [] == ds;
  }

  // Without a closing tag the steps are exactly those of one batch split, taken over the
  // reasoning followed by the text of the message that ends it.
  lemma CollectedIsBatch(ds: seq<Token>, last: Token, rest: seq<Token>)
    requires ds != [] && Live(ds) && Ends(last) && last.thinking.None?
    requires Find(Open(Reasoning(ds)) + last.content, CLOSE_TAG).None?
    ensures Collect(NOTHING, ds + ([last] + rest)) == AllSteps(Reasoning(ds) + last.content)
  {
    var text := Reasoning(ds);
    CollectedExactly(ds, last, rest);
    CutMore(text, last.content);
    AllIsClosedAndOpen(text + last.content);
    AllIsClosedAndOpen(Open(text) + last.content);
    hide Closed, Open, Find;
    AppendAssociative(Closed(text), Closed(Open(text) + last.content), Steps([Open(Open(text) + last.content)]));
  }

  // ---------- answer text in the last step ----------

  function InkOf(steps: seq<string>): nat {
    if steps == [] then 0 else Ink(steps[0]) + InkOf(steps[1..])
  }

  lemma {:induction false} InkOfAppend(a: seq<string>, b: seq<string>)
    ensures InkOf(a + b) == InkOf(a) + InkOf(b)
  {
    if a == [] {
      assert a + b == b;
    } else {
      assert (a + b)[0] == a[0] && (a + b)[1..] == a[1..] + b;
      InkOfAppend(a[1..], b);
    }
  }

  lemma InkOfStep(part: string)
    ensures InkOf(Steps([part])) == Ink(part)
  {
    InkTrim(part);
    assert [part][1..] == [] && [part][..0] == [];
    assert Steps([]) == [] && InkOf([]) == 0 && Ink("") == 0;
    var step := Trim(part);
    assert [step][1..] == [];
  }

  // Splitting and trimming lose nothing but blanks.
  lemma {:induction false} InkOfSteps(text: string)
    ensures InkOf(AllSteps(text)) == Ink(text)
    decreases |text|
  {
    if Find(text, GAP).None? {
      InkOfStep(text);
      assert Split(text, GAP) == [text];
    } else {
      var piece, rest := FindParts(text, GAP);
      SplitAtFirst(text, GAP, piece, rest);
      InkOfSteps(rest);
      StepsAppend([piece], Split(rest, GAP));
      InkOfAppend(Steps([piece]), AllSteps(rest));
      InkOfStep(piece);
      InkAppend(piece + GAP, rest);
      InkAppend(piece, GAP);
      InkOfBlank(GAP);
    }
  }

  lemma {:induction false} BlankSteps(w: string)
    requires Blank(w)
    ensures AllSteps(w) == []
    decreases |w|
  {
    if Find(w, GAP).None? {
      assert Split(w, GAP) == [w];
      NoStepInBlank(w);
    } else {
      var piece, rest := FindParts(w, GAP);
      SplitAtFirst(w, GAP, piece, rest);
      assert forall i :: 0 <= i < |rest| ==> rest[i] == w[|piece| + 2 + i];
      BlankSteps(rest);
      NoStepInBlank(piece);
      StepsAppend([piece], Split(rest, GAP));
    }
  }

  lemma NoStepInBlank(w: string)
    requires Blank(w)
    ensures Steps([w]) == []
  {
    BlankTrims(w);
    assert TrimEnd("") == "";
    assert [w][1..] == [] && [w][..0] == [];
  }

  lemma SameStep(p: string, q: string)
    requires Trim(p) == Trim(q)
    ensures Steps([p]) == Steps([q])
  {
    assert [p][1..] == [q][1..] == [] && [p][..0] == [q][..0] == [];
  }

  // Blanks behind a paragraph neither change it nor make another.
  lemma BlanksAddNothing(p: string, w: string)
    requires Find(p, GAP).None? && Blank(w)
    ensures AllSteps(p + w) == Steps([p])
  {
    TrimDropsBlanks(p, w);
    if Find(p + w, GAP).None? {
      assert Split(p + w, GAP) == [p + w];
      SameStep(p, p + w);
    } else {
      var piece, rest := FindParts(p + w, GAP);
      SplitAtFirst(p + w, GAP, piece, rest);
      CutInBlanks(p, w, piece, rest);
      BlankSteps(rest);
      SameStep(p, piece);
      StepsAppend([piece], Split(rest, GAP));
    }
  }

  lemma CutInBlanks(p: string, w: string, piece: string, rest: string)
    requires Find(p, GAP).None? && Blank(w) && p + w == piece + GAP + rest
    ensures Trim(piece) == Trim(p) && Blank(rest)
  {
    var s, i := p + w, |piece|;
    assert s[i..i + 2] == GAP && rest == s[i + 2..];
    if i + 2 <= |p| {
      assert OccursAt(p, GAP, i) by { assert p[i..i + 2] == s[i..i + 2]; }
      assert false;
    }
    if i >= |p| {
      assert piece == p + w[..i - |p|];
      TrimDropsBlanks(p, w[..i - |p|]);
    } else {
      assert p == piece + "\n" by { assert s[i] == '\n' && s[..i] == piece; }
      TrimDropsBlanks(piece, "\n");
    }
  }

  // What the message adds to the open paragraph before a closing tag is blank.
  predicate AddsNothing(open: string, content: string) {
    var buf := open + content;
    var end := match Find(buf, CLOSE_TAG) case Some(e) => e case None => |buf|;
    |open| <= end <= |buf| && Blank(buf[|open|..end])
  }

  // The steps are those of the reasoning alone exactly when the message that ends it adds
  // nothing but blanks before a closing tag: any other answer text gets into the last step.
  lemma AnswerTextLeaks(ds: seq<Token>, last: Token, rest: seq<Token>)
    requires ds != [] && Live(ds) && Ends(last) && last.thinking.None?
    ensures Collect(NOTHING, ds + ([last] + rest)) == AllSteps(Reasoning(ds))
       <==> AddsNothing(Open(Reasoning(ds)), last.content)
  {
    var text := Reasoning(ds);
    var open, content := Open(text), last.content;
    CollectedExactly(ds, last, rest);
    AllIsClosedAndOpen(text);
    OpenIsSuffix(text);
    assert ds[..|ds|] == ds;
    assert Find(open, CLOSE_TAG).None? && Find(open, GAP).None?;
    hide Collect, Closed, Open, Reasoning, Live;
    if AddsNothing(open, content) {
      NothingAdded(open, content);
    } else {
      SomethingAdded(open, content);
      InkOfAppend(Closed(text), UpToClose(open + content));
      InkOfAppend(Closed(text), Steps([open]));
    }
  }

  lemma NothingAdded(open: string, content: string)
    requires AddsNothing(open, content) && Find(open, GAP).None?
    ensures UpToClose(open + content) == Steps([open])
  {
    hide Find, Steps, AllSteps, Trim;
    match Find(open + content, CLOSE_TAG)
    case Some(e) => BlanksToClose(open, content, e);
    case None =>
      assert (open + content)[|open|..|open + content|] == content;
      BlanksAddNothing(open, content);
  }

  lemma BlanksToClose(open: string, content: string, e: nat)
    requires var buf := open + content; |open| <= e <= |buf| && Blank(buf[|open|..e])
    ensures Steps([(open + content)[..e]]) == Steps([open])
  {
    var buf := open + content;
    var added := buf[|open|..e];
    hide Steps, Trim;
    assert buf[..e] == open + added;
    TrimDropsBlanks(open, added);
    SameStep(open, buf[..e]);
  }

  lemma SomethingAdded(open: string, content: string)
    requires !AddsNothing(open, content)
    ensures InkOf(UpToClose(open + content)) != InkOf(Steps([open]))
  {
    var buf := open + content;
    InkOfStep(open);
    match Find(buf, CLOSE_TAG)
    case Some(e) =>
      InkOfStep(buf[..e]);
      TagIsInk(buf, e);
      hide Find, Steps, AllSteps, InkOf, OccursAt;
      InkBefore(open, content, e);
    case None =>
      InkOfSteps(buf);
      hide Find, Steps, AllSteps, InkOf;
      assert buf[|open|..|buf|] == content;
      InkBefore(open, content, |buf|);
      assert buf[..|buf|] == buf;
  }

  lemma TagIsInk(buf: string, e: nat)
    requires OccursAt(buf, CLOSE_TAG, e)
    ensures e < |buf| && !IsWhite(buf[e])
  {
    assert buf[e..e + |CLOSE_TAG|][0] == buf[e];
  }

  // Text that breaks off inside the open paragraph, or goes on past it with more than
  // blanks, has not the same ink.
  lemma InkBefore(open: string, content: string, e: nat)
    requires var buf := open + content;
             e <= |buf| && (if e < |open| then !IsWhite(buf[e]) else !Blank(buf[|open|..e]))
    ensures Ink((open + content)[..e]) != Ink(open)
  {
    var buf := open + content;
    if e < |open| {
      assert buf[..e] == open[..e];
      InkLost(open, e);
    } else {
      var more := buf[|open|..e];
      assert buf[..e] == open + more;
      hide Ink, Blank;
      InkAppend(open, more);
      InkOfBlank(more);
    }
  }

  lemma InkLost(s: string, e: nat)
    requires e < |s| && !IsWhite(s[e])
    ensures Ink(s[..e]) < Ink(s)
  {
    var tail := s[e..];
    assert s == s[..e] + tail;
    InkAppend(s[..e], tail);
    InkOfBlank(tail);
    assert tail[0] == s[e];
  }

  // One piece of reasoning, then the answer: the answer ends up in the step.
  lemma AnswerTakenForReasoning(rest: seq<Token>)
    ensures Collect(NOTHING, [Token(Some("a"), "", false)] + ([Token(None, "b", false)] + rest)) == ["ab"]
    ensures AllSteps("a") == ["a"]
  {
    var d, last := Token(Some("a"), "", false), Token(None, "b", false);
    PlainText("a");
    SampleAnswer(d, last);
    hide *;
    CollectedIsBatch([d], last, rest);
  }

  lemma SampleAnswer(d: Token, last: Token)
    requires d == Token(Some("a"), "", false) && last == Token(None, "b", false)
    ensures Live([d]) && Ends(last) && AllSteps(Reasoning([d]) + last.content) == ["ab"]
    ensures Find(Open(Reasoning([d])) + last.content, CLOSE_TAG).None?
  {
    SampleReasoning(d);
    PlainText("a");
    PlainText("ab");
    assert "a" + "b" == "ab";
    hide Live, Reasoning, AllSteps, Find, Open;
  }

  lemma SampleReasoning(d: Token)
    requires d == Token(Some("a"), "", false)
    ensures Live([d]) && Reasoning([d]) == "a"
  {
    assert [d][..0] == [] && [d][..1] == [d] && "" + "a" == "a";
    assert Reasoning([]) == "" && Reasoning([d]) == "a";
    PlainText("");
    PlainText("a");
    hide Open, Find, Reasoning;
    forall n | 0 <= n <= 1 ensures Find(Open(Reasoning([d][..n])), CLOSE_TAG).None? {
      assert [d][..n] == if n == 0 then [] else [d];
    }
  }

  lemma PlainText(s: string)
    requires s in ["", "a", "ab", "ac"]
    ensures Open(s) == s && Closed(s) == [] && AllSteps(s) == (if s == "" then [] else [s])
    ensures Find(s, CLOSE_TAG).None? && Find(s, GAP).None?
  {
    FreeByFirst(s, GAP);
    FreeByFirst(s, CLOSE_TAG);
    assert Find(s, GAP).None? && Find(s, CLOSE_TAG).None?;
    assert Split(s, GAP) == [s];
    TrimShape(s);
    assert [s][..0] == [] && [s][1..] == [];
  }

  // ---------- the inline block ----------

  function Block(content: string): string
    requires Find(content, OPEN_TAG).Some?
  {
    content[Find(content, OPEN_TAG).value + |OPEN_TAG|..]
  }

  // A reasoning block opened inside a message, for every such message and whatever follows:
  // up to a closing tag in the same message; else all of that message's block and no more;
  // except that a reasoning field that is present but empty keeps the stream going.
  lemma InlineBlock(t: Token, rest: seq<Token>)
    requires !IsDelta(t) && Find(t.content, OPEN_TAG).Some?
    ensures var block := Block(t.content);
            Collect(NOTHING, [t] + rest) ==
              if Find(block, CLOSE_TAG).Some? || t.thinking.None? || t.done then UpToClose(block)
              else Collect(Collector(Open(block), Closed(block), true), rest)
  {
    var block := Block(t.content);
    var tokens := [t] + rest;
    assert tokens[0] == t && tokens[1..] == rest;
    assert "" + block == block;
    AllIsClosedAndOpen(block);
    assert t.content != "";
    hide Closed, Open, Find;
    assert [] + Steps([block]) == Steps([block]) && [] + Closed(block) == Closed(block);
    if Find(block, CLOSE_TAG).Some? {
      var e := Find(block, CLOSE_TAG).value;
      assert [] + Steps([block[..e]]) == Steps([block[..e]]);
    }
  }

  // What follows is looked at exactly when the block does not close in the message that
  // opens it, the message is not the last, and it carries an empty reasoning field. With no
  // such field the block is followed to its close only if that is in the same message.
  lemma InlineBlockStopsAtOnce(t: Token)
    requires !IsDelta(t) && Find(t.content, OPEN_TAG).Some?
    ensures (exists rest, rest' :: Collect(NOTHING, [t] + rest) != Collect(NOTHING, [t] + rest'))
       <==> Find(Block(t.content), CLOSE_TAG).None? && t.thinking.Some? && !t.done
  {
    var block := Block(t.content);
    forall rest: seq<Token> ensures
        Collect(NOTHING, [t] + rest) ==
          if Find(block, CLOSE_TAG).Some? || t.thinking.None? || t.done then UpToClose(block)
          else Collect(Collector(Open(block), Closed(block), true), rest)
    {
      InlineBlock(t, rest);
    }
    if Find(block, CLOSE_TAG).None? && t.thinking.Some? && !t.done {
      var none: seq<Token>, more := [], [Token(None, "b", true)];
      GoesOn(block);
      hide Collect;
      assert Collect(NOTHING, [t] + none) != Collect(NOTHING, [t] + more);
    }
  }

  lemma OpenFree(text: string, pat: string)
    requires Free(text, pat)
    ensures Free(Open(text), pat)
  {
    OpenIsSuffix(text);
    var n := |text| - |Open(text)|;
    assert text == text[..n] + text[n..];
    FreeParts(text[..n], text[n..], pat);
  }

  // Answer text after the block so far makes a difference to the steps.
  lemma GoesOn(block: string)
    requires Find(block, CLOSE_TAG).None?
    ensures var c := Collector(Open(block), Closed(block), true);
            Collect(c, []) != Collect(c, [Token(None, "b", true)])
  {
    var open := Open(block);
    OpenFree(block, CLOSE_TAG);
    LetterAdded(open);
    assert Find(open, CLOSE_TAG).None?;
    hide Find, Closed, Open;
    EndsInAnswer(block, Token(None, "b", true), []);
    assert [Token(None, "b", true)] + [] == [Token(None, "b", true)];
    assert Collect(Collector(open, Closed(block), true), []) == Closed(block);
  }

  lemma LetterAdded(open: string)
    requires Free(open, CLOSE_TAG)
    ensures Find(open, CLOSE_TAG).None? && UpToClose(open + "b") != []
  {
    FreeByFirst("b", CLOSE_TAG);
    assert Find("b", CLOSE_TAG).None? && Find(open, CLOSE_TAG).None?;
    FindSkipClean(open, "b", CLOSE_TAG);
    InkOfSteps(open + "b");
    InkAppend(open, "b");
    assert "b"[..0] == "" && Ink("b") == 1;
    hide Find;
    assert InkOf([]) == 0;
  }

  lemma SampleBlock()
    ensures Find("<think>a", OPEN_TAG).Some? && Block("<think>a") == "a"
  {
    var s := "<think>a";
    assert s[0..7] == OPEN_TAG;
    FindIs(s, OPEN_TAG, 0);
    assert s[7..] == "a";
  }

  // A block spread over two messages: the second, closing tag and all, is never read.
  lemma SpreadBlockIsCut()
    ensures Collect(NOTHING, [Token(None, "<think>a", false), Token(None, "b</think>", false)]) == ["a"]
  {
    var t, next := Token(None, "<think>a", false), Token(None, "b</think>", false);
    SampleBlock();
    PlainText("a");
    assert !IsDelta(t) && UpToClose("a") == ["a"];
    hide *;
    InlineBlock(t, [next]);
    assert [t] + [next] == [t, next];
  }

  // The same with an empty reasoning field: the stream goes on into the next message.
  lemma EmptyFieldGoesOn(x: string)
    requires x == "b" || x == "c"
    ensures Collect(NOTHING, [Token(Some(""), "<think>a", false), Token(None, x, true)]) == ["a" + x]
  {
    var t, next := Token(Some(""), "<think>a", false), Token(None, x, true);
    BlockGoesOn(t, next);
    AnswerAdded(x);
    hide *;
    assert [t] + [next] == [t, next];
  }

  lemma BlockGoesOn(t: Token, next: Token)
    requires t == Token(Some(""), "<think>a", false)
    ensures Collect(NOTHING, [t] + [next]) == Collect(Collector("a", [], true), [next])
  {
    SampleBlock();
    PlainText("a");
    hide Collect, AllSteps, Find, Closed, Open, Block;
    InlineBlock(t, [next]);
  }

  lemma AnswerAdded(x: string)
    requires x == "b" || x == "c"
    ensures Collect(Collector("a", [], true), [Token(None, x, true)]) == ["a" + x]
  {
    var next := Token(None, x, true);
    if x == "b" { assert "a" + x == "ab"; } else { assert "a" + x == "ac"; }
    PlainText("a" + x);
    assert UpToClose("a" + x) == ["a" + x];
    hide Collect, AllSteps, Find, UpToClose;
    TakenIn(Collector("a", [], true), next, []);
    assert [next] + [] == [next];
  }
}
