// Cutting a system prompt to a word budget at sentence ends.
module PromptBudget {
  import opened Text

  predicate InWord(s: string, i: int) {
    0 <= i < |s| && !IsWhite(s[i])
  }

  // Maximal runs of characters that are not whitespace.
  function Words(s: string): nat {
    if s == "" then 0
    else Words(s[..|s| - 1]) + if InWord(s, |s| - 1) && !InWord(s, |s| - 2) then 1 else 0
  }

  // The token estimate: a text never counts as nothing.
  function EstimateTokens(s: string): nat {
    if Words(s) == 0 then 1 else Words(s)
  }

  function SaturatingSub(a: nat, b: nat): nat {
    if a <= b then 0 else a - b
  }

  predicate EndsSentence(c: char) {
    c == '.' || c == '\n'
  }

  // Sentences with their terminators; the last may lack one.
  function Sentences(s: string): (r: seq<string>)
    ensures Concat(r) == s
    ensures forall i :: 0 <= i < |r| ==> r[i] != "" && (i < |r| - 1 ==> EndsSentence(r[i][|r[i]| - 1]))
  {
    if s == "" then [] else SentencesFrom(s, 1)
  }

  function SentencesFrom(s: string, n: nat): (r: seq<string>)
    requires 1 <= n <= |s|
    ensures r != [] && Concat(r) == s
    ensures forall i :: 0 <= i < |r| ==> r[i] != "" && (i < |r| - 1 ==> EndsSentence(r[i][|r[i]| - 1]))
    decreases |s|, |s| - n
  {
    if n == |s| then
      assert Concat([s]) == s + Concat([]);
      [s]
    else if EndsSentence(s[n - 1]) then
      var rest := SentencesFrom(s[n..], 1);
      assert ([s[..n]] + rest)[1..] == rest;
      [s[..n]] + rest
    else SentencesFrom(s, n + 1)
  }

  // Nothing but a last character ends a sentence.
  ghost predicate OneSentence(t: string) {
    t != "" && forall j :: 0 <= j < |t| - 1 ==> t[j] != '.' && t[j] != '\n'
  }

  // The text is cut behind every full stop and every line feed, and nowhere else.
  lemma {:induction false} SentencesExact(s: string)
    ensures var r := Sentences(s);
            && Concat(r) == s
            && forall i :: 0 <= i < |r| ==> OneSentence(r[i]) && (i < |r| - 1 ==> r[i][|r[i]| - 1] in ".\n")
  {
    if s != "" { SentencesFromExact(s, 1); }
  }

  lemma {:induction false} SentencesFromExact(s: string, n: nat)
    requires 1 <= n <= |s| && OneSentence(s[..n])
    ensures forall t :: t in SentencesFrom(s, n) ==> OneSentence(t)
    decreases |s|, |s| - n
  {
    if n == |s| {
      assert s[..n] == s;
    } else if EndsSentence(s[n - 1]) {
      SentencesFromExact(s[n..], 1);
      assert SentencesFrom(s, n) == [s[..n]] + SentencesFrom(s[n..], 1);
    } else {
      assert OneSentence(s[..n + 1]) by {
        forall j | 0 <= j < n ensures s[j] != '.' && s[j] != '\n' {
          if j < n - 1 { assert s[j] == s[..n][j]; }
        }
      }
      SentencesFromExact(s, n + 1);
    }
  }

  function Concat(parts: seq<string>): string {
    if parts == [] then "" else parts[0] + Concat(parts[1..])
  }

  // The estimate of the parts, one part at a time.
  function Counted(parts: seq<string>): nat {
    if parts == [] then 0 else Counted(parts[..|parts| - 1]) + EstimateTokens(parts[|parts| - 1])
  }

  function Blanks(parts: seq<string>): nat {
    if parts == [] then 0 else Blanks(parts[..|parts| - 1]) + if Words(parts[|parts| - 1]) == 0 then 1 else 0
  }

  // A cut between two texts that falls inside a word.
  function Cut(a: string, b: string): nat {
    if InWord(a, |a| - 1) && InWord(b, 0) then 1 else 0
  }

  // Words that the cuts between the parts have split.
  function CutWords(parts: seq<string>): nat {
    if parts == [] then 0
    else
      var most := parts[..|parts| - 1];
      CutWords(most) + Cut(Concat(most), parts[|parts| - 1])
  }

  // Joining texts loses a word exactly when the seam joins two.
  lemma {:induction false} WordsOfJoin(a: string, b: string)
    ensures Words(a) + Words(b) == Words(a + b) + Cut(a, b)
    decreases |b|
  {
    if b == "" {
      assert a + b == a;
    } else {
      var n := |b| - 1;
      WordsOfJoin(a, b[..n]);
      assert (a + b)[..|a + b| - 1] == a + b[..n];
      assert InWord(a + b, |a + b| - 1) <==> InWord(b, n);
      assert n > 0 ==> (InWord(a + b, |a + b| - 2) <==> InWord(b, n - 1)) && b[..n][0] == b[0];
      assert n == 0 ==> (InWord(a + b, |a + b| - 2) <==> InWord(a, |a| - 1));
    }
  }

  lemma {:induction false} ConcatAppend(a: seq<string>, b: seq<string>)
    ensures Concat(a + b) == Concat(a) + Concat(b)
  {
    if a == [] {
      assert a + b == b;
    } else {
      assert (a + b)[0] == a[0] && (a + b)[1..] == a[1..] + b;
      ConcatAppend(a[1..], b);
      AppendAssociative(a[0], Concat(a[1..]), Concat(b));
    }
  }

  // Counting part by part exceeds the words of the whole by the words the cuts split and
  // the blank parts.
  lemma {:induction false} CountedExceeds(parts: seq<string>)
    ensures Counted(parts) == Words(Concat(parts)) + CutWords(parts) + Blanks(parts)
    ensures parts != [] ==> Counted(parts) >= 1
  {
    if parts != [] {
      var n := |parts| - 1;
      var most, last := parts[..n], parts[n];
      CountedExceeds(most);
      TakeOne(parts, n);
      assert parts[..n + 1] == parts;
      WordsOfJoin(Concat(most), last);
    }
  }

  lemma TakeOne(parts: seq<string>, k: nat)
    requires k < |parts|
    ensures Concat(parts[..k + 1]) == Concat(parts[..k]) + parts[k]
    ensures Counted(parts[..k + 1]) == Counted(parts[..k]) + EstimateTokens(parts[k])
  {
    var most, last := parts[..k], parts[k];
    assert parts[..k + 1] == most + [last];
    assert (most + [last])[..k] == most;
    ConcatAppend(most, [last]);
    assert Concat([last]) == last + Concat([last][1..]);
    assert last + "" == last;
  }

  lemma TakeSome(parts: seq<string>, k: nat)
    requires k <= |parts|
    ensures Concat(parts[..k]) <= Concat(parts)
    ensures k < |parts| && parts[k] != "" ==> Concat(parts[..k]) != Concat(parts)
  {
    assert parts == parts[..k] + parts[k..];
    ConcatAppend(parts[..k], parts[k..]);
  }

  // `k` leading sentences fit and one more would not; the drop count misses the words the
  // cuts split and the blank sentences.
  ghost predicate Truncated(prompt: string, max: nat, k: nat, result: string, dropped: nat) {
    var parts := Sentences(prompt);
    && k < |parts| && result == Concat(parts[..k])
    && Counted(parts[..k]) <= max < Counted(parts[..k + 1])
    && EstimateTokens(prompt) == Words(result) + dropped + CutWords(parts[..k]) + Blanks(parts[..k])
  }

  // The prompt itself when it fits, and otherwise the longest run of leading sentences
  // whose counts add up to the budget: a proper prefix that is itself in budget, except
  // under the budget of nothing, which not even the empty text meets.
  method TruncateToBudget(prompt: string, max: nat) returns (result: string, dropped: nat)
    ensures result <= prompt && (EstimateTokens(result) <= max <==> max >= 1)
    ensures result == prompt <==> EstimateTokens(prompt) <= max || prompt == ""
    ensures EstimateTokens(prompt) <= max ==> dropped == 0
    ensures EstimateTokens(prompt) > max && prompt != "" ==> exists k :: Truncated(prompt, max, k, result, dropped)
  {
    hide Words, Sentences, Concat, Counted, CutWords, Blanks;
    EmptyFacts();
    var current := EstimateTokens(prompt);
    if current <= max {
      return prompt, 0;
    }
    var parts := Sentences(prompt);
    result := "";
    var used := 0;
    var k := 0;
    CountedExceeds(parts);
    assert parts[..|parts|] == parts && parts[..0] == [];
    while k < |parts|
      invariant k <= |parts| && used <= max
      invariant result == Concat(parts[..k]) && used == Counted(parts[..k])
    {
      var count := EstimateTokens(parts[k]);
      TakeOne(parts, k);
      if used + count > max {
        break;
      }
      result := result + parts[k];
      used := used + count;
      k := k + 1;
    }
    dropped := SaturatingSub(current, used);
    CountedExceeds(parts[..k]);
    TakeSome(parts, k);
    if prompt != "" {
      assert parts != [] && Counted(parts) >= current && k < |parts|;
      assert Truncated(prompt, max, k, result, dropped);
    }
  }

  lemma EmptyFacts()
    ensures Words("") == 0 && Concat([]) == "" && Counted([]) == 0 && CutWords([]) == 0 && Blanks([]) == 0
    ensures Sentences("") == []
  {
  }
}
