// Range locators: the short strings that address part of a source.
module Locator {
  import opened Text

  type Usize = n: nat | n <= USIZE_MAX

  datatype Range =
    | Full
    | Lines(start: Usize, end: Usize)
    | Heading(path: seq<string>)
    | Tokens(start: Usize, count: Usize)
    | Custom(text: string)

  // ---------- parsing ----------

  predicate IsFull(s: string) {
    EqualIgnoringCase(s, "full")
  }

  // The numbers on either side of the first separator.
  function Pair(s: string, sep: char): Option<(Usize, Usize)> {
    match Find(s, [sep])
    case None => None
    case Some(i) =>
      match (ParseUsize(s[..i]), ParseUsize(s[i + 1..]))
      case (Some(a), Some(b)) => Some((a, b))
      case _ => None
  }

  function Without(s: string, c: char): string {
    if s == "" then "" else (if s[0] == c then "" else [s[0]]) + Without(s[1..], c)
  }

  function TrimAll(parts: seq<string>): (r: seq<string>)
    ensures |r| == |parts| && forall i :: 0 <= i < |r| ==> r[i] == Trim(parts[i])
  {
    seq(|parts|, i requires 0 <= i < |parts| => Trim(parts[i]))
  }

  function ParseTokens(s: string): Option<(Usize, Usize)> {
    if s != "" && s[0] == 'T' then Pair(s[1..], ':') else None
  }

  function ParseLines(s: string): Option<(Usize, Usize)> {
    var marked := if s != "" && s[0] == 'L' then Pair(Without(s, 'L'), '-') else None;
    if marked.Some? then marked else Pair(s, '-')
  }

  function Parse(text: string): Range {
    var s := Trim(text);
    if IsFull(s) || s == "" then Full
    else if s[0] == '#' then Heading(TrimAll(Split(s[1..], "/")))
    else match (ParseTokens(s), ParseLines(s))
         case (Some((start, count)), _) => Tokens(start, count)
         case (None, Some((start, end))) => Lines(start, end)
         case (None, None) => Custom(s)
  }

  // ---------- printing ----------

  function PairText(a: nat, sep: char, b: nat): string {
    Dec(a) + [sep] + Dec(b)
  }

  function Print(r: Range): string {
    match r
    case Full => "full"
    case Lines(start, end) => PairText(start, '-', end)
    case Heading(path) => "#" + if path == [] then "" else Join(path, "/")
    case Tokens(start, count) => "T" + PairText(start, ':', count)
    case Custom(text) => text
  }

  // ---------- which ranges survive a round trip ----------

  predicate Numeral(s: string) {
    ParseUsize(s).Some?
  }

  ghost predicate TwoNumerals(s: string, sep: char) {
    exists a, b :: s == a + [sep] + b && Numeral(a) && Numeral(b)
  }

  // Text that reads as one of the structured ranges.
  ghost predicate Structured(s: string) {
    || s == "" || IsFull(s) || s[0] == '#'
    || (s[0] == 'T' && TwoNumerals(s[1..], ':'))
    || (s[0] == 'L' && TwoNumerals(Without(s, 'L'), '-'))
    || TwoNumerals(s, '-')
  }

  ghost predicate Canonical(r: Range) {
    match r
    case Full => true
    case Lines(_, _) => true
    case Tokens(_, _) => true
    case Heading(path) => path != [] && forall i :: 0 <= i < |path| ==> Tight(path[i]) && '/' !in path[i]
    case Custom(text) => Tight(text) && !Structured(text)
  }

  lemma FindFirst(a: string, sep: char, b: string)
    requires sep !in a
    ensures Find(a + [sep] + b, [sep]) == Some(|a|)
    ensures (a + [sep] + b)[..|a|] == a && (a + [sep] + b)[|a| + 1..] == b
  {
    var s := a + [sep] + b;
    assert s[|a|..|a| + 1] == [sep];
    forall j | 0 <= j < |a| ensures !OccursAt(s, [sep], j) {
      if j + 1 <= |s| { assert s[j..j + 1][0] == a[j]; }
    }
    FindIs(s, [sep], |a|);
  }

  lemma NumeralChars(s: string)
    requires Numeral(s)
    ensures s != "" && (s[0] == '+' || IsDigit(s[0])) && forall i :: 0 < i < |s| ==> IsDigit(s[i])
  {
    if s[0] == '+' {
      forall i | 0 < i < |s| ensures IsDigit(s[i]) { assert IsDigit(s[1..][i - 1]); }
    }
  }

  lemma NumeralsAvoid(s: string, sep: char)
    requires Numeral(s) && (sep == ':' || sep == '-')
    ensures sep !in s
  {
    NumeralChars(s);
    hide Numeral;
    forall i | 0 <= i < |s| ensures s[i] != sep {
      if i > 0 { assert IsDigit(s[i]); }
    }
  }

  lemma CutAtFirst(s: string, sep: char) returns (a: string, b: string)
    requires Find(s, [sep]).Some?
    ensures s == a + [sep] + b && a == s[..Find(s, [sep]).value] && b == s[Find(s, [sep]).value + 1..]
  {
    a, b := FindParts(s, [sep]);
  }

  // The first separator is the only one that can split two numerals.
  lemma PairMeaning(s: string, sep: char)
    requires sep == ':' || sep == '-'
    ensures Pair(s, sep).Some? <==> TwoNumerals(s, sep)
  {
    hide Find, ParseUsize;
    if TwoNumerals(s, sep) {
      var a, b :| s == a + [sep] + b && Numeral(a) && Numeral(b);
      NumeralsAvoid(a, sep);
      FindFirst(a, sep, b);
    }
    if Pair(s, sep).Some? {
      var a, b := CutAtFirst(s, sep);
      assert Numeral(a) && Numeral(b);
    }
  }

  lemma PairOfDec(a: nat, sep: char, b: nat)
    requires sep == ':' || sep == '-'
    ensures Pair(PairText(a, sep, b), sep) == if a <= USIZE_MAX && b <= USIZE_MAX then Some((a, b)) else None
  {
    DecAvoids(a, sep);
    FindFirst(Dec(a), sep, Dec(b));
    ParseUsizeOfDec(a);
    ParseUsizeOfDec(b);
    hide Find, ParseUsize, Dec;
  }

  lemma {:induction false} SplitPiecesFree(s: string, sep: char)
    ensures forall i :: 0 <= i < |Split(s, [sep])| ==> sep !in Split(s, [sep])[i]
    decreases |s|
  {
    match Find(s, [sep])
    case None =>
      if sep in s {
        var i :| 0 <= i < |s| && s[i] == sep;
        assert OccursAt(s, [sep], i);
      }
    case Some(i) =>
      SplitPiecesFree(s[i + 1..], sep);
      if sep in s[..i] {
        var j :| 0 <= j < i && s[j] == sep;
        assert OccursAt(s, [sep], j);
      }
  }

  lemma {:induction false} SplitOfJoin(parts: seq<string>, sep: char)
    requires parts != [] && forall i :: 0 <= i < |parts| ==> sep !in parts[i]
    ensures Split(Join(parts, [sep]), [sep]) == parts
  {
    if |parts| == 1 {
      FreeByFirst(parts[0], [sep]);
      assert Find(parts[0], [sep]).None?;
    } else {
      var rest := Join(parts[1..], [sep]);
      FindFirst(parts[0], sep, rest);
      SplitAtFirst(parts[0] + [sep] + rest, [sep], parts[0], rest);
      SplitOfJoin(parts[1..], sep);
    }
  }

  lemma {:induction false} JoinEndsTight(parts: seq<string>, sep: char)
    requires parts != [] && !IsWhite(sep) && forall i :: 0 <= i < |parts| ==> Tight(parts[i])
    ensures var s := Join(parts, [sep]); s == "" || !IsWhite(s[|s| - 1])
  {
    if |parts| > 1 { JoinEndsTight(parts[1..], sep); }
  }

  lemma TrimKeepsOut(s: string, c: char)
    requires c !in s
    ensures c !in Trim(s)
  {
    TrimShape(s);
  }

  lemma StructuredMeaning(s: string)
    requires s != "" && !IsFull(s) && s[0] != '#'
    ensures Structured(s) <==> ParseTokens(s).Some? || ParseLines(s).Some?
  {
    PairMeaning(s[1..], ':');
    PairMeaning(Without(s, 'L'), '-');
    PairMeaning(s, '-');
  }

  // Parsing yields canonical ranges only.
  lemma ParseCanonical(text: string)
    ensures Canonical(Parse(text))
  {
    var s := Trim(text);
    TrimShape(text);
    if s != "" && !IsFull(s) {
      if s[0] == '#' {
        var pieces := Split(s[1..], "/");
        SplitPiecesFree(s[1..], '/');
        forall i | 0 <= i < |pieces| ensures Tight(Trim(pieces[i])) && '/' !in Trim(pieces[i]) {
          TrimShape(pieces[i]);
          TrimKeepsOut(pieces[i], '/');
        }
      } else {
        StructuredMeaning(s);
      }
    }
  }

  lemma HeadingRoundTrip(path: seq<string>)
    requires Canonical(Heading(path))
    ensures Parse(Print(Heading(path))) == Heading(path)
  {
    var s := Print(Heading(path));
    JoinEndsTight(path, '/');
    TrimShape(s);
    assert s[1..] == Join(path, "/");
    SplitOfJoin(path, '/');
    forall i | 0 <= i < |path| ensures Trim(path[i]) == path[i] { TrimShape(path[i]); }
    assert TrimAll(path) == path;
  }

  lemma PairTextTight(a: nat, sep: char, b: nat)
    ensures var s := PairText(a, sep, b); s != "" && IsDigit(s[0]) && Tight(s)
  {
    assert IsDigit(Dec(a)[0]) && IsDigit(Dec(b)[|Dec(b)| - 1]);
  }

  lemma ParsePlain(s: string)
    requires s != "" && Tight(s) && IsDigit(s[0])
    ensures Parse(s) == match Pair(s, '-') case Some((a, b)) => Lines(a, b) case None => Custom(s)
  {
    TrimShape(s);
    hide Pair, Trim, Without, Split;
  }

  lemma {:induction false} ParseMarked(s: string)
    requires s != "" && Tight(s) && s[0] == 'T' && Pair(s[1..], ':').Some?
    ensures var (a, b) := Pair(s[1..], ':').value; Parse(s) == Tokens(a, b)
  {
    TrimShape(s);
    hide Pair, Trim, Without, Split;
  }

  // A plain line range reads back as itself, or as custom text when a number does not
  // fit the machine word.
  lemma LinesRoundTrip(a: nat, b: nat)
    ensures Parse(PairText(a, '-', b)) ==
              if a <= USIZE_MAX && b <= USIZE_MAX then Lines(a, b) else Custom(PairText(a, '-', b))
  {
    hide PairText, Pair, Parse;
    PairTextTight(a, '-', b);
    PairOfDec(a, '-', b);
    ParsePlain(PairText(a, '-', b));
  }

  lemma {:induction false} WithoutAppend(a: string, b: string, c: char)
    ensures Without(a + b, c) == Without(a, c) + Without(b, c)
  {
    if a == "" {
      assert a + b == b;
    } else {
      assert (a + b)[0] == a[0] && (a + b)[1..] == a[1..] + b;
      WithoutAppend(a[1..], b, c);
    }
  }

  lemma {:induction false} WithoutNone(s: string, c: char)
    requires c !in s
    ensures Without(s, c) == s
  {
    if s != "" { WithoutNone(s[1..], c); }
  }

  lemma MarkComesOff(start: string, mark: string, end: string)
    requires (mark == "" || mark == "L") && 'L' !in start && 'L' !in end
    ensures Without("L" + start + "-" + mark + end, 'L') == start + ['-'] + end
  {
    hide Without;
    NoMark();
    WithoutNone(start, 'L');
    WithoutNone(end, 'L');
    var tail := mark + end;
    WithoutAppend(mark, end, 'L');
    assert Without(tail, 'L') == end by { assert "" + end == end; }
    WithoutAppend("-", tail, 'L');
    WithoutAppend(start, "-" + tail, 'L');
    WithoutAppend("L", start + ("-" + tail), 'L');
    Regrouped(start, mark, end);
  }

  lemma NoMark()
    ensures Without("L", 'L') == "" && Without("", 'L') == "" && Without("-", 'L') == "-"
  {
    assert "L"[1..] == "" && "-"[1..] == "";
  }

  lemma Regrouped(start: string, mark: string, end: string)
    ensures "L" + start + "-" + mark + end == "L" + (start + ("-" + (mark + end)))
    ensures "" + (start + ("-" + end)) == start + ['-'] + end
  {
  }

  // A line range reads the same with a line mark on its start, or on both its ends.
  lemma MarkedLinesRead(a: Usize, b: Usize, mark: string)
    requires mark == "" || mark == "L"
    ensures Parse("L" + Dec(a) + "-" + mark + Dec(b)) == Lines(a, b)
  {
    var start, end := Dec(a), Dec(b);
    var s := "L" + start + "-" + mark + end;
    PairTextTight(a, '-', b);
    assert forall i :: 0 <= i < |start| ==> IsDigit(start[i]);
    assert forall i :: 0 <= i < |end| ==> IsDigit(end[i]);
    hide Dec, Without, Find;
    MarkComesOff(start, mark, end);
    PairOfDec(a, '-', b);
    assert s[0] == 'L' && s[|s| - 1] == end[|end| - 1];
    hide PairText, Pair, Parse;
    ParseMarkedLines(s, a, b);
  }

  lemma ParseMarkedLines(s: string, a: Usize, b: Usize)
    requires s != "" && Tight(s) && s[0] == 'L' && Pair(Without(s, 'L'), '-') == Some((a, b))
    ensures Parse(s) == Lines(a, b)
  {
    TrimShape(s);
    hide Pair, Trim, Without, Split;
  }

  lemma TokensRoundTrip(a: Usize, b: Usize)
    ensures Parse(Print(Tokens(a, b))) == Tokens(a, b)
  {
    hide PairText, Pair, Parse;
    PairTextTight(a, ':', b);
    PairOfDec(a, ':', b);
    var t := PairText(a, ':', b);
    assert ("T" + t)[1..] == t;
    ParseMarked("T" + t);
  }

  lemma CustomRoundTrip(text: string)
    requires Tight(text) && !Structured(text)
    ensures Parse(text) == Custom(text)
  {
    TrimShape(text);
    StructuredMeaning(text);
    hide Structured, Trim, ParseTokens, ParseLines;
  }

  lemma FullRoundTrip()
    ensures Parse("full") == Full
  {
    TrimShape("full");
    hide Trim;
  }

  // A range survives printing and parsing exactly when it is canonical.
  lemma RoundTrip(r: Range)
    ensures Parse(Print(r)) == r <==> Canonical(r)
  {
    if Canonical(r) {
      hide Parse;
      match r
      case Full =>
        FullRoundTrip();
      case Heading(path) => HeadingRoundTrip(path);
      case Lines(a, b) => LinesRoundTrip(a, b);
      case Tokens(a, b) => TokensRoundTrip(a, b);
      case Custom(text) => CustomRoundTrip(text);
    } else {
      ParseCanonical(Print(r));
    }
  }

  // Normalising a locator once is enough, whatever the text.
  lemma NormalisationStable(text: string)
    ensures Parse(Print(Parse(text))) == Parse(text)
  {
    ParseCanonical(text);
    RoundTrip(Parse(text));
  }

  // The canonical ranges are exactly those some text denotes.
  lemma CanonicalReachable(r: Range)
    ensures Canonical(r) <==> exists text :: Parse(text) == r
  {
    RoundTrip(r);
    if text :| Parse(text) == r {
      ParseCanonical(text);
    }
  }
}
