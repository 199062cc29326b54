// String operations the parsers and printers share: leftmost search, splitting on a
// separator, trimming, and decimal numerals.
module Text {

  datatype Option<+T> = None | Some(value: T)

  // ---------- search ----------

  predicate OccursAt(s: string, pat: string, i: int) {
    0 <= i && i + |pat| <= |s| && s[i..i + |pat|] == pat
  }

  ghost predicate Free(s: string, pat: string) {
    forall i :: !OccursAt(s, pat, i)
  }

  // Offset of the leftmost occurrence.
  function Find(s: string, pat: string): (r: Option<nat>)
    ensures r.Some? ==> OccursAt(s, pat, r.value) && forall j :: j < r.value ==> !OccursAt(s, pat, j)
    ensures r.None? ==> Free(s, pat)
  {
    if OccursAt(s, pat, 0) then Some(0)
    else if s == [] then None
    else
      OccursInTail(s, pat);
      match Find(s[1..], pat)
      case None => None
      case Some(i) => Some(i + 1)
  }

  lemma OccursInTail(s: string, pat: string)
    requires s != []
    ensures forall j :: 0 < j ==> (OccursAt(s, pat, j) <==> OccursAt(s[1..], pat, j - 1))
  {
    forall j | 0 < j ensures OccursAt(s, pat, j) <==> OccursAt(s[1..], pat, j - 1) {
      if j + |pat| <= |s| { SliceOfTail(s, j, |pat|); }
    }
  }

  lemma SliceOfTail(s: string, j: nat, n: nat)
    requires 0 < j && j + n <= |s|
    ensures s[j..j + n] == s[1..][j - 1..j - 1 + n]
  {
    var t := s[1..];
    var x, y := s[j..j + n], t[j - 1..j - 1 + n];
    assert |x| == |y|;
    forall k | 0 <= k < n ensures x[k] == y[k] {
      assert t[j - 1 + k] == s[j + k];
    }
  }

  lemma FindIs(s: string, pat: string, i: nat)
    requires OccursAt(s, pat, i)
    requires forall j :: 0 <= j < i ==> !OccursAt(s, pat, j)
    ensures Find(s, pat) == Some(i)
  {
  }

  lemma OccursInFront(a: string, b: string, pat: string, i: int)
    requires i + |pat| <= |a|
    ensures OccursAt(a + b, pat, i) <==> OccursAt(a, pat, i)
  {
    if 0 <= i { assert (a + b)[i..i + |pat|] == a[i..i + |pat|]; }
  }

  lemma OccursBehind(a: string, b: string, pat: string, i: int)
    requires |a| <= i
    ensures OccursAt(a + b, pat, i) <==> OccursAt(b, pat, i - |a|)
  {
    if i + |pat| <= |a + b| {
      assert (a + b)[i..i + |pat|] == b[i - |a|..i - |a| + |pat|];
    }
  }

  // No occurrence of `pat` can begin before `rest` and end inside it.
  predicate NoStraddle(pat: string, rest: string) {
    forall k :: 0 < k < |pat| ==> !(pat[k..] <= rest)
  }

  lemma StraddleShape(a: string, b: string, pat: string, i: int)
    requires 0 <= i < |a| < i + |pat| && OccursAt(a + b, pat, i)
    ensures pat[|a| - i..] <= b
  {
    var k := |a| - i;
    assert (a + b)[i..i + |pat|][k..] == b[..|pat| - k];
  }

  lemma FindSkip(a: string, b: string, pat: string)
    requires pat != [] && Free(a, pat)
    requires forall i :: 0 <= i < |a| < i + |pat| ==> !OccursAt(a + b, pat, i)
    ensures Find(a + b, pat) == match Find(b, pat) case None => None case Some(i) => Some(|a| + i)
  {
    hide OccursAt, Find;
    forall j | 0 <= j < |a| ensures !OccursAt(a + b, pat, j) {
      if j + |pat| <= |a| { OccursInFront(a, b, pat, j); }
    }
    match Find(b, pat)
    case Some(i) =>
      OccursBehind(a, b, pat, |a| + i);
      forall j | |a| <= j < |a| + i ensures !OccursAt(a + b, pat, j) {
        OccursBehind(a, b, pat, j);
      }
      FindIs(a + b, pat, |a| + i);
    case None =>
      forall j | |a| <= j ensures !OccursAt(a + b, pat, j) {
        OccursBehind(a, b, pat, j);
      }
  }

  // Searching skips a text free of the pattern when no occurrence can straddle its end.
  lemma FindSkipFree(a: string, b: string, pat: string)
    requires pat != [] && Free(a, pat) && NoStraddle(pat, b)
    ensures Find(a + b, pat) == match Find(b, pat) case None => None case Some(i) => Some(|a| + i)
  {
    forall i | 0 <= i < |a| < i + |pat| ensures !OccursAt(a + b, pat, i) {
      if OccursAt(a + b, pat, i) {
        StraddleShape(a, b, pat, i);
      }
    }
    FindSkip(a, b, pat);
  }

  lemma FindStable(a: string, b: string, pat: string)
    requires Find(a, pat).Some?
    ensures Find(a + b, pat) == Find(a, pat)
  {
    var i := Find(a, pat).value;
    OccursInFront(a, b, pat, i);
    forall j | 0 <= j < i ensures !OccursAt(a + b, pat, j) {
      OccursInFront(a, b, pat, j);
    }
    FindIs(a + b, pat, i);
  }

  lemma FreeParts(a: string, b: string, pat: string)
    requires Free(a + b, pat)
    ensures Free(a, pat) && Free(b, pat)
  {
    forall i ensures !OccursAt(a, pat, i) {
      if i + |pat| <= |a| { OccursInFront(a, b, pat, i); }
    }
    forall i ensures !OccursAt(b, pat, i) {
      if 0 <= i { OccursBehind(a, b, pat, |a| + i); }
    }
  }

  // A text without one of the pattern's characters is free of the pattern.
  lemma FreeByMissing(s: string, pat: string, k: nat)
    requires k < |pat| && pat[k] !in s
    ensures Free(s, pat)
  {
    forall i ensures !OccursAt(s, pat, i) {
      if 0 <= i && i + |pat| <= |s| {
        assert s[i..i + |pat|][k] == s[i + k];
      }
    }
  }

  lemma FreeByFirst(s: string, pat: string)
    requires pat != [] && pat[0] !in s
    ensures Free(s, pat)
  {
    FreeByMissing(s, pat, 0);
  }

  // Searching skips a text without the pattern's second character that does not end
  // with its first.
  lemma FindSkipLabel(a: string, b: string, pat: string)
    requires |pat| >= 2 && pat[1] !in a && (a != [] ==> a[|a| - 1] != pat[0])
    ensures Find(a + b, pat) == match Find(b, pat) case None => None case Some(i) => Some(|a| + i)
  {
    FreeByMissing(a, pat, 1);
    forall i | 0 <= i < |a| < i + |pat| ensures !OccursAt(a + b, pat, i) {
      if i + |pat| <= |a + b| {
        assert (a + b)[i..i + |pat|][0] == a[i];
        assert i + 1 < |a| ==> (a + b)[i..i + |pat|][1] == a[i + 1];
      }
    }
    FindSkip(a, b, pat);
  }

  // Searching skips a text free of the pattern when what follows begins with a
  // character the pattern does not continue with.
  lemma FindSkipClean(a: string, b: string, pat: string)
    requires pat != [] && Free(a, pat) && b != [] && b[0] !in pat[1..]
    ensures Find(a + b, pat) == match Find(b, pat) case None => None case Some(i) => Some(|a| + i)
  {
    forall k | 0 < k < |pat| ensures !(pat[k..] <= b) {
      assert pat[k..][0] == pat[1..][k - 1];
    }
    FindSkipFree(a, b, pat);
  }

  // ---------- splitting ----------

  function Split(s: string, sep: string): (r: seq<string>)
    requires sep != []
    ensures r != []
    decreases |s|
  {
    match Find(s, sep)
    case None => [s]
    case Some(i) => [s[..i]] + Split(s[i + |sep|..], sep)
  }

  function Init<T>(xs: seq<T>): seq<T>
    requires xs != []
  {
    xs[..|xs| - 1]
  }

  function Last<T>(xs: seq<T>): T
    requires xs != []
  {
    xs[|xs| - 1]
  }

  lemma AppendAssociative<T>(a: seq<T>, b: seq<T>, c: seq<T>)
    ensures a + (b + c) == (a + b) + c
  {
  }

  lemma InitLastOfCons<T>(x: T, xs: seq<T>)
    requires xs != []
    ensures Init([x] + xs) == [x] + Init(xs) && Last([x] + xs) == Last(xs)
  {
  }

  lemma SplitAtFirst(s: string, sep: string, piece: string, rest: string)
    requires sep != [] && s == piece + sep + rest && Find(s, sep) == Some(|piece|)
    ensures Split(s, sep) == [piece] + Split(rest, sep)
  {
    assert s[..|piece|] == piece;
    assert s[|piece| + |sep|..] == rest;
  }

  lemma FindParts(s: string, sep: string) returns (piece: string, rest: string)
    requires Find(s, sep).Some?
    ensures s == piece + sep + rest && Find(s, sep) == Some(|piece|)
  {
    var i := Find(s, sep).value;
    piece, rest := s[..i], s[i + |sep|..];
    assert s == s[..i] + s[i..i + |sep|] + s[i + |sep|..];
  }

  // Appending text only reopens the last piece of a split.
  lemma {:induction false} SplitAppend(a: string, b: string, sep: string)
    requires sep != []
    ensures Split(a + b, sep) == Init(Split(a, sep)) + Split(Last(Split(a, sep)) + b, sep)
    decreases |a|
  {
    if Find(a, sep).None? {
      assert Split(a, sep) == [a];
      assert [] + Split(a + b, sep) == Split(a + b, sep);
    } else {
      var piece, rest := FindParts(a, sep);
      FindStable(a, b, sep);
      SplitAtFirst(a, sep, piece, rest);
      AppendAssociative(piece + sep, rest, b);
      SplitAtFirst(a + b, sep, piece, rest + b);
      SplitAppend(rest, b, sep);
      SplitAppendStep(piece, Split(rest, sep), b, sep);
    }
  }

  lemma SplitAppendStep(piece: string, tail: seq<string>, b: string, sep: string)
    requires sep != [] && tail != []
    ensures [piece] + (Init(tail) + Split(Last(tail) + b, sep))
         == Init([piece] + tail) + Split(Last([piece] + tail) + b, sep)
  {
    InitLastOfCons(piece, tail);
    AppendAssociative([piece], Init(tail), Split(Last(tail) + b, sep));
  }

  function Join(parts: seq<string>, sep: string): string
    requires parts != []
  {
    if |parts| == 1 then parts[0] else parts[0] + sep + Join(parts[1..], sep)
  }

  // ---------- whitespace ----------

  // Unicode White_Space.
  predicate IsWhite(c: char) {
    || '\U{0009}' <= c <= '\U{000D}' || c == ' ' || c == '\U{0085}' || c == '\U{00A0}' || c == '\U{1680}'
    || '\U{2000}' <= c <= '\U{200A}' || c == '\U{2028}' || c == '\U{2029}' || c == '\U{202F}'
    || c == '\U{205F}' || c == '\U{3000}'
  }

  function TrimStart(s: string): string {
    if s != [] && IsWhite(s[0]) then TrimStart(s[1..]) else s
  }

  function TrimEnd(s: string): string {
    if s != [] && IsWhite(s[|s| - 1]) then TrimEnd(s[..|s| - 1]) else s
  }

  function Trim(s: string): string {
    TrimEnd(TrimStart(s))
  }

  // Neither end is whitespace.
  predicate Tight(s: string) {
    s == [] || (!IsWhite(s[0]) && !IsWhite(s[|s| - 1]))
  }

  lemma {:induction false} TrimStartShape(s: string)
    ensures |TrimStart(s)| <= |s| && TrimStart(s) == s[|s| - |TrimStart(s)|..]
    ensures TrimStart(s) != [] ==> !IsWhite(TrimStart(s)[0])
  {
    if s != [] && IsWhite(s[0]) { TrimStartShape(s[1..]); }
  }

  lemma {:induction false} TrimEndShape(s: string)
    ensures TrimEnd(s) <= s
    ensures TrimEnd(s) != [] ==> !IsWhite(Last(TrimEnd(s)))
    ensures s != [] && !IsWhite(s[0]) ==> TrimEnd(s) != []
  {
    if s != [] && IsWhite(s[|s| - 1]) {
      TrimEndShape(s[..|s| - 1]);
    }
  }

  lemma TrimParts(s: string) returns (i: nat, j: nat)
    ensures i <= j <= |s| && Trim(s) == s[i..j]
    ensures Trim(s) != [] ==> !IsWhite(s[i]) && !IsWhite(s[j - 1])
    ensures s != [] && !IsWhite(s[0]) && !IsWhite(s[|s| - 1]) ==> i == 0 && j == |s|
  {
    var t := TrimStart(s);
    TrimStartShape(s);
    TrimEndShape(t);
    i := |s| - |t|;
    j := i + |Trim(s)|;
    var r := Trim(s);
    assert r <= t && t == s[i..];
    hide TrimStart, TrimEnd, Trim;
    assert r == s[i..j];
  }

  // Trimming cuts a slice out of the text, leaves it tight, and is the identity
  // exactly on tight texts.
  lemma TrimShape(s: string)
    ensures Tight(Trim(s))
    ensures exists i, j :: 0 <= i <= j <= |s| && Trim(s) == s[i..j]
    ensures Trim(s) == s <==> Tight(s)
  {
    var i, j := TrimParts(s);
    hide Trim, IsWhite;
    assert Trim(s) == s[i..j];
    assert i == 0 && j == |s| ==> s[i..j] == s;
  }

  // Trailing blanks go no further than the last character that is not blank.
  lemma {:induction false} TrimEndBehind(a: string, b: string)
    ensures TrimEnd(a + b) == if TrimEnd(b) == "" then TrimEnd(a) else a + TrimEnd(b)
    decreases |b|
  {
    if b == "" {
      assert a + b == a;
    } else {
      assert (a + b)[..|a + b| - 1] == a + b[..|b| - 1];
      TrimEndBehind(a, b[..|b| - 1]);
    }
  }

  lemma {:induction false} BlankBothWays(s: string)
    ensures Trim(s) == "" <==> TrimEnd(s) == ""
  {
    if s != "" {
      BlankBothWays(s[1..]);
      assert [s[0]] + s[1..] == s;
      TrimEndBehind([s[0]], s[1..]);
      TrimStartShape(s);
      TrimEndShape(s);
    }
  }

  // Leading blanks likewise.
  lemma {:induction false} TrimStartBefore(a: string, b: string)
    ensures TrimStart(a + b) == if TrimStart(a) == "" then TrimStart(b) else TrimStart(a) + b
  {
    if a == "" {
      assert a + b == b;
    } else {
      assert (a + b)[1..] == a[1..] + b;
      TrimStartBefore(a[1..], b);
    }
  }

  predicate Blank(s: string) {
    forall i :: 0 <= i < |s| ==> IsWhite(s[i])
  }

  lemma {:induction false} BlankTrims(s: string)
    ensures Blank(s) <==> TrimEnd(s) == ""
    ensures Blank(s) <==> TrimStart(s) == ""
    decreases |s|
  {
    if s != "" {
      BlankTrims(s[..|s| - 1]);
      BlankTrims(s[1..]);
      TrimStartShape(s);
      TrimEndShape(s);
    }
  }

  // Blanks put behind a text make no difference to it once trimmed.
  lemma TrimDropsBlanks(s: string, w: string)
    requires Blank(w)
    ensures Trim(s + w) == Trim(s)
  {
    BlankTrims(w);
    TrimStartBefore(s, w);
    TrimEndBehind(TrimStart(s), w);
    assert TrimEnd("") == "";
  }

  // Characters that are not blank.
  function Ink(s: string): nat {
    if s == "" then 0 else Ink(s[..|s| - 1]) + if IsWhite(s[|s| - 1]) then 0 else 1
  }

  lemma {:induction false} InkAppend(a: string, b: string)
    ensures Ink(a + b) == Ink(a) + Ink(b)
    decreases |b|
  {
    if b == "" {
      assert a + b == a;
    } else {
      assert (a + b)[..|a + b| - 1] == a + b[..|b| - 1];
      InkAppend(a, b[..|b| - 1]);
    }
  }

  lemma {:induction false} InkOfBlank(s: string)
    ensures Ink(s) == 0 <==> Blank(s)
  {
    if s != "" { InkOfBlank(s[..|s| - 1]); }
  }

  lemma {:induction false} InkTrimEnd(s: string)
    ensures Ink(TrimEnd(s)) == Ink(s)
  {
    if s != "" && IsWhite(s[|s| - 1]) { InkTrimEnd(s[..|s| - 1]); }
  }

  lemma {:induction false} InkTrimStart(s: string)
    ensures Ink(TrimStart(s)) == Ink(s)
  {
    if s != "" && IsWhite(s[0]) {
      InkTrimStart(s[1..]);
      assert s == [s[0]] + s[1..];
      InkAppend([s[0]], s[1..]);
      assert [s[0]][..0] == "";
    }
  }

  // Trimming loses nothing but blanks.
  lemma InkTrim(s: string)
    ensures Ink(Trim(s)) == Ink(s)
  {
    InkTrimStart(s);
    InkTrimEnd(TrimStart(s));
  }

  // ---------- letter case ----------

  function AsciiLower(c: char): char {
    if 'A' <= c <= 'Z' then c - 'A' + 'a' else c
  }

  predicate EqualIgnoringCase(s: string, t: string) {
    |s| == |t| && forall i :: 0 <= i < |s| ==> AsciiLower(s[i]) == AsciiLower(t[i])
  }

  // ---------- decimal numerals ----------

  predicate IsDigit(c: char) {
    '0' <= c <= '9'
  }

  predicate AllDigits(s: string) {
    forall i :: 0 <= i < |s| ==> IsDigit(s[i])
  }

  function Digit(d: nat): (c: char)
    requires d < 10
    ensures IsDigit(c) && c as int - '0' as int == d
  {
    "0123456789"[d]
  }

  function Dec(n: nat): (s: string)
    ensures s != [] && AllDigits(s)
  {
    if n < 10 then [Digit(n)] else Dec(n / 10) + [Digit(n % 10)]
  }

  lemma DecAvoids(n: nat, sep: char)
    requires !IsDigit(sep)
    ensures sep !in Dec(n)
  {
    forall i | 0 <= i < |Dec(n)| ensures Dec(n)[i] != sep { assert IsDigit(Dec(n)[i]); }
  }

  function Value(s: string): nat
    requires AllDigits(s)
  {
    if s == [] then 0 else 10 * Value(s[..|s| - 1]) + (s[|s| - 1] as int - '0' as int)
  }

  lemma {:induction false} ValueOfDec(n: nat)
    ensures Value(Dec(n)) == n
  {
    if n >= 10 {
      ValueOfDec(n / 10);
      assert Dec(n)[..|Dec(n)| - 1] == Dec(n / 10);
    }
  }

  const USIZE_MAX: nat := 0xFFFF_FFFF_FFFF_FFFF

  // A machine-word numeral: an optional '+', at least one digit, no overflow.
  function ParseUsize(s: string): (r: Option<nat>)
    ensures r.Some? ==> r.value <= USIZE_MAX
  {
    var digits := if s != [] && s[0] == '+' then s[1..] else s;
    if digits == [] || !AllDigits(digits) || Value(digits) > USIZE_MAX then None
    else Some(Value(digits))
  }

  lemma ParseUsizeOfDec(n: nat)
    ensures ParseUsize(Dec(n)) == if n <= USIZE_MAX then Some(n) else None
  {
    ValueOfDec(n);
    assert IsDigit(Dec(n)[0]);
  }
}
