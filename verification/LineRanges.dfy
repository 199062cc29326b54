// What a line reference reads. The range text it builds is parsed again by the retriever
// and applied to the text of one chunk, not of the file.
module LineRanges {
  import opened Text
  import opened Utf8
  import opened Chunking
  import opened Geometry
  import Locator
  import Workspace

  const CR: byte := 0x0D

  // ---------- lines ----------

  // A text ends its last line where it ends; a line feed at the very end opens no other.
  function LineCount(s: bytes): nat {
    Newlines(s) + if s != [] && s[|s| - 1] != NEWLINE then 1 else 0
  }

  function LineStart(s: bytes, k: nat): (n: nat)
    requires k < LineCount(s)
  {
    StartsMeaning(s);
    Starts(s)[k]
  }

  // Past the line feed that ends the line, if one does.
  function LineEnd(s: bytes, k: nat): (n: nat)
    requires k < LineCount(s)
    ensures LineStart(s, k) < n <= |s|
  {
    LineIsNotEmpty(s, k);
    if k < Newlines(s) then Starts(s)[k + 1] else |s|
  }

  lemma LineIsNotEmpty(s: bytes, k: nat)
    requires k < LineCount(s)
    ensures |Starts(s)| == Newlines(s) + 1
    ensures k < Newlines(s) ==> Starts(s)[k] < Starts(s)[k + 1] <= |s| && s[Starts(s)[k + 1] - 1] == NEWLINE
    ensures k == Newlines(s) ==> Starts(s)[k] < |s|
  {
    StartsMeaning(s);
    if k == Newlines(s) && Starts(s)[k] == |s| {
      assert k > 0;
      assert s[Starts(s)[k] - 1] == NEWLINE;
    }
  }

  // Where the line's text ends: before its line feed and a carriage return before that.
  function TextEnd(s: bytes, k: nat): (n: nat)
    requires k < LineCount(s)
    ensures LineStart(s, k) <= n <= LineEnd(s, k)
  {
    var a, e := LineStart(s, k), LineEnd(s, k);
    if s[e - 1] != NEWLINE then e else if e - 1 > a && s[e - 2] == CR then e - 2 else e - 1
  }

  function LineText(s: bytes, k: nat): bytes
    requires k < LineCount(s)
  {
    var from, to := LineStart(s, k), TextEnd(s, k);
    s[from..to]
  }

  function LinesOf(s: bytes): (r: seq<bytes>)
    ensures |r| == LineCount(s)
    ensures forall k :: 0 <= k < |r| ==> r[k] == LineText(s, k)
  {
    seq(LineCount(s), k requires 0 <= k < LineCount(s) => LineText(s, k))
  }

  function JoinLines(ls: seq<bytes>): bytes {
    if ls == [] then [] else if |ls| == 1 then ls[0]
    else JoinLines(ls[..|ls| - 1]) + [NEWLINE] + ls[|ls| - 1]
  }

  // ---------- applying a range ----------

  // The part of a text that a range selects; None where the slice is out of order. Headings
  // and token windows are selected by `other`.
  function Apply(range: Locator.Range, s: bytes, other: (Locator.Range, bytes) -> bytes): Option<bytes> {
    match range
    case Full => Some(s)
    case Custom(_) => Some(s)
    case Lines(start, end) =>
      var first := if start == 0 then 0 else start - 1;
      var last := if end <= LineCount(s) then end else LineCount(s);
      if first >= LineCount(s) then Some([])
      else if first > last then None
      else Some(JoinLines(LinesOf(s)[first..last]))
    case _ => Some(other(range, s))
  }

  // ---------- the text of a stretch of lines ----------

  // Line ends as the joined lines have them.
  function Unix(s: bytes): bytes {
    if |s| < 2 then s
    else if s[0] == CR && s[1] == NEWLINE then [NEWLINE] + Unix(s[2..])
    else [s[0]] + Unix(s[1..])
  }

  lemma {:induction false} UnixAppend(x: bytes, y: bytes)
    requires x != [] && y != [] && x[|x| - 1] == CR ==> y[0] != NEWLINE
    ensures Unix(x + y) == Unix(x) + Unix(y)
    decreases |x|
  {
    if x == [] {
      assert x + y == y;
    } else if |x| == 1 {
      assert (x + y)[1..] == y;
      if y == [] { assert x + y == x; }
    } else if x[0] == CR && x[1] == NEWLINE {
      assert (x + y)[2..] == x[2..] + y;
      UnixAppend(x[2..], y);
    } else {
      assert (x + y)[1..] == x[1..] + y;
      UnixAppend(x[1..], y);
    }
  }

  lemma {:induction false} UnixPlain(x: bytes)
    requires NEWLINE !in x
    ensures Unix(x) == x
  {
    if |x| >= 2 {
      assert x[1] in x;
      UnixPlain(x[1..]);
    }
  }

  lemma {:induction false} NewlinesBetween(s: bytes, i: nat, j: nat)
    requires i <= j <= |s|
    ensures Newlines(s[..i]) <= Newlines(s[..j])
    ensures Newlines(s[..i]) == Newlines(s[..j]) ==> NoNewline(s, i, j)
    decreases j - i
  {
    if i < j {
      NewlinesBetween(s, i, j - 1);
      assert s[..j][..j - 1] == s[..j - 1];
    }
  }

  lemma LineHasNoFeed(s: bytes, k: nat)
    requires k < LineCount(s)
    ensures NEWLINE !in LineText(s, k)
  {
    StartsMeaning(s);
    var a, e := LineStart(s, k), LineEnd(s, k);
    assert s[..|s|] == s;
    if k < Newlines(s) {
      assert s[..e][..e - 1] == s[..e - 1];
      NewlinesBetween(s, a, e - 1);
    } else {
      NewlinesBetween(s, a, e);
    }
  }

  // The line feed after a line, with the carriage return it may have.
  lemma Terminator(s: bytes, k: nat)
    requires k + 1 < LineCount(s)
    ensures LineEnd(s, k) == LineStart(s, k + 1)
    ensures var term := s[TextEnd(s, k)..LineEnd(s, k)];
            term == [CR, NEWLINE] || (term == [NEWLINE] && (TextEnd(s, k) > LineStart(s, k) ==> s[TextEnd(s, k) - 1] != CR))
  {
    LineIsNotEmpty(s, k);
  }

  lemma UnixLine(prior: bytes, term: bytes, line: bytes)
    requires term == [CR, NEWLINE] || (term == [NEWLINE] && (prior != [] ==> prior[|prior| - 1] != CR))
    requires NEWLINE !in line
    ensures Unix(prior + term + line) == Unix(prior) + [NEWLINE] + line
  {
    UnixAppend(prior, term);
    assert term[|term| - 1] == NEWLINE;
    UnixAppend(prior + term, line);
    UnixPlain(line);
    if |term| == 2 { assert term[2..] == []; }
  }

  function Stretch(s: bytes, i: nat, e: nat): (r: bytes)
    requires i < e <= LineCount(s)
  {
    StretchInside(s, i, e);
    var from, to := LineStart(s, i), TextEnd(s, e - 1);
    s[from..to]
  }

  lemma StretchInside(s: bytes, i: nat, e: nat)
    requires i < e <= LineCount(s)
    ensures LineStart(s, i) <= LineStart(s, e - 1) <= TextEnd(s, e - 1) <= |s|
  {
    StartsMeaning(s);
  }

  // Consecutive lines, joined, are the stretch of text they come from, up to its line ends.
  lemma {:induction false} JoinedLines(s: bytes, i: nat, e: nat)
    requires i < e <= LineCount(s)
    ensures JoinLines(LinesOf(s)[i..e]) == Unix(Stretch(s, i, e))
    decreases e
  {
    if e == i + 1 {
      OneLine(s, i);
    } else {
      var ls, line := LinesOf(s), LineText(s, e - 1);
      JoinedLines(s, i, e - 1);
      assert ls[i..e] == ls[i..e - 1] + [line];
      hide *;
      JoinSnoc(ls[i..e - 1], line);
      StretchGrows(s, i, e);
    }
  }

  lemma OneLine(s: bytes, i: nat)
    requires i < LineCount(s)
    ensures JoinLines(LinesOf(s)[i..i + 1]) == Unix(Stretch(s, i, i + 1))
  {
    LineHasNoFeed(s, i);
    var line := LineText(s, i);
    assert LinesOf(s)[i..i + 1] == [line] && Stretch(s, i, i + 1) == line;
    hide LineText, Stretch, LinesOf, Unix;
    UnixPlain(line);
  }

  lemma JoinSnoc(ls: seq<bytes>, line: bytes)
    requires ls != []
    ensures JoinLines(ls + [line]) == JoinLines(ls) + [NEWLINE] + line
  {
    assert (ls + [line])[..|ls|] == ls;
  }

  lemma StretchGrows(s: bytes, i: nat, e: nat)
    requires i + 1 < e <= LineCount(s)
    ensures Unix(Stretch(s, i, e)) == Unix(Stretch(s, i, e - 1)) + [NEWLINE] + LineText(s, e - 1)
  {
    LineHasNoFeed(s, e - 1);
    Terminator(s, e - 2);
    StretchEnd(s, i, e - 2);
    StretchInside(s, i, e);
    var from, to, next, end := LineStart(s, i), TextEnd(s, e - 2), LineEnd(s, e - 2), TextEnd(s, e - 1);
    var prior, term, line := s[from..to], s[to..next], s[next..end];
    assert Stretch(s, i, e) == s[from..end] && Stretch(s, i, e - 1) == prior && LineText(s, e - 1) == line;
    hide *;
    ThreeParts(s, from, to, next, end);
    UnixLine(prior, term, line);
  }

  lemma ThreeParts(s: bytes, from: nat, to: nat, next: nat, end: nat)
    requires from <= to <= next <= end <= |s|
    ensures s[from..end] == s[from..to] + s[to..next] + s[next..end]
  {
  }

  // A stretch of lines whose last is followed by a bare line feed does not end with a
  // carriage return.
  lemma StretchEnd(s: bytes, i: nat, k: nat)
    requires i <= k && k + 1 < LineCount(s)
    ensures LineStart(s, i) <= LineStart(s, k) <= TextEnd(s, k)
    ensures var prior, term := s[LineStart(s, i)..TextEnd(s, k)], s[TextEnd(s, k)..LineEnd(s, k)];
            term == [NEWLINE] && prior != [] ==> prior[|prior| - 1] != CR
  {
    StartsMeaning(s);
    Terminator(s, k);
    if i < k && TextEnd(s, k) == LineStart(s, k) {
      assert s[LineStart(s, k) - 1] == NEWLINE;
    }
  }

  // ---------- what is read, and what was meant ----------

  // Lines are counted from one.
  function First(start: nat): (first: nat)
    ensures first >= 1
  {
    if start == 0 then 1 else start
  }

  function Last(s: bytes, end: nat): (last: nat)
    ensures last <= LineCount(s)
  {
    if end <= LineCount(s) then end else LineCount(s)
  }

  // Where lines `start` to `end` of a text stand, as far as it has them.
  function Selected(s: bytes, start: nat, end: nat): Option<(nat, nat)> {
    var first := First(start);
    var last := Last(s, end);
    if first <= last then Some((LineStart(s, first - 1), TextEnd(s, last - 1))) else None
  }

  function Moved(stretch: Option<(nat, nat)>, offset: nat): Option<(nat, nat)> {
    match stretch
    case None => None
    case Some((from, to)) => Some((from + offset, to + offset))
  }

  // The stretch of the file that reading the reference in the chunk `[a, b)` gives.
  function Read(doc: bytes, a: nat, b: nat, r: Workspace.LineRef): Option<(nat, nat)>
    requires a <= b <= |doc|
  {
    if r.start == r.end then if a < b then Some((a, b)) else None
    else Moved(Selected(doc[a..b], r.start, r.end), a)
  }

  ghost predicate Inside(stretch: Option<(nat, nat)>, s: bytes) {
    stretch.Some? ==> stretch.value.0 <= stretch.value.1 <= |s|
  }

  // The text of a stretch, as it stands or as joined lines.
  function TextAt(s: bytes, stretch: Option<(nat, nat)>, joined: bool): bytes
    requires Inside(stretch, s)
  {
    match stretch
    case None => []
    case Some((from, to)) => if joined then Unix(s[from..to]) else s[from..to]
  }

  lemma SingleNumberIsCustom(n: nat)
    ensures Locator.Parse(Dec(n)) == Locator.Custom(Dec(n))
  {
    var s := Dec(n);
    assert IsDigit(s[0]) && IsDigit(s[|s| - 1]);
    DecAvoids(n, '-');
    FreeByFirst(s, "-");
    Locator.ParsePlain(s);
    hide Find, Dec, ParseUsize, Trim, Locator.Parse;
    assert Find(s, "-").None?;
  }

  // The bare number of a single-line reference is no line range.
  lemma ParseOfReference(r: Workspace.LineRef)
    requires r.start <= USIZE_MAX && r.end <= USIZE_MAX
    ensures Locator.Parse(Workspace.RangeText(r)) ==
              if r.start == r.end then Locator.Custom(Dec(r.start)) else Locator.Lines(r.start, r.end)
  {
    if r.start == r.end {
      SingleNumberIsCustom(r.start);
    } else {
      Locator.LinesRoundTrip(r.start, r.end);
      assert Workspace.RangeText(r) == Locator.PairText(r.start, '-', r.end);
    }
  }

  lemma SelectedText(s: bytes, start: nat, end: nat, other: (Locator.Range, bytes) -> bytes)
    requires start <= end <= USIZE_MAX
    ensures Inside(Selected(s, start, end), s)
    ensures Apply(Locator.Lines(start, end), s, other) == Some(TextAt(s, Selected(s, start, end), true))
  {
    var first := First(start);
    var last := Last(s, end);
    assert JoinLines([]) == [];
    hide LineStart, TextEnd, Unix, JoinLines, LinesOf, LineCount;
    if first <= last {
      StretchInside(s, first - 1, last);
      JoinedLines(s, first - 1, last);
    } else if end == 0 && LineCount(s) > 0 {
      assert LinesOf(s)[0..0] == [];
    }
  }

  lemma MovedText(doc: bytes, a: nat, b: nat, stretch: Option<(nat, nat)>)
    requires a <= b <= |doc| && Inside(stretch, doc[a..b])
    ensures Inside(Moved(stretch, a), doc)
    ensures TextAt(doc, Moved(stretch, a), true) == TextAt(doc[a..b], stretch, true)
  {
    hide Unix;
    match stretch
    case None =>
    case Some((from, to)) =>
      SliceOfSlice(doc, a, b, from, to);
      assert doc[from + a..to + a] == doc[a + from..a + to];
  }

  // `Read` is where the text comes from that the retriever hands out: the chunk as it
  // stands for a single line, joined lines for more.
  lemma ReadGivesText(doc: bytes, a: nat, b: nat, r: Workspace.LineRef, other: (Locator.Range, bytes) -> bytes)
    requires a <= b <= |doc| && r.start <= r.end <= USIZE_MAX
    ensures Inside(Read(doc, a, b, r), doc)
    ensures Apply(Locator.Parse(Workspace.RangeText(r)), doc[a..b], other)
         == Some(TextAt(doc, Read(doc, a, b, r), r.start != r.end))
  {
    var body := doc[a..b];
    ParseOfReference(r);
    hide Locator.Parse, Workspace.RangeText, Unix, Selected;
    if r.start == r.end {
      if a == b { assert body == []; }
    } else {
      SelectedText(body, r.start, r.end, other);
      MovedText(doc, a, b, Selected(body, r.start, r.end));
      hide Apply, TextAt, Inside;
    }
  }

  // ---------- where the chunk stands in the file ----------

  // The line starts that the line feeds of `s` open, when `s` stands at `offset`.
  function Opened(s: bytes, offset: nat): (r: seq<nat>)
    ensures |r| == Newlines(s)
  {
    if s == [] then []
    else Opened(s[..|s| - 1], offset) + if s[|s| - 1] == NEWLINE then [offset + |s|] else []
  }

  lemma {:induction false} StartsAppend(x: bytes, y: bytes)
    ensures Newlines(x + y) == Newlines(x) + Newlines(y)
    ensures Starts(x + y) == Starts(x) + Opened(y, |x|)
    decreases |y|
  {
    if y == [] {
      assert x + y == x;
    } else {
      assert (x + y)[..|x + y| - 1] == x + y[..|y| - 1];
      StartsAppend(x, y[..|y| - 1]);
    }
  }

  lemma {:induction false} OpenedAt(s: bytes, offset: nat, j: nat)
    requires 1 <= j <= Newlines(s)
    ensures |Starts(s)| == Newlines(s) + 1 && Opened(s, offset)[j - 1] == offset + Starts(s)[j]
  {
    StartsMeaning(s);
    if j <= Newlines(s[..|s| - 1]) {
      OpenedAt(s[..|s| - 1], offset, j);
    } else if Newlines(s[..|s| - 1]) > 0 {
      OpenedAt(s[..|s| - 1], offset, j - 1);
    }
  }

  lemma StartsOfParts(doc: bytes, a: nat, b: nat)
    requires a <= b <= |doc|
    ensures Newlines(doc[..b]) == Newlines(doc[..a]) + Newlines(doc[a..b])
    ensures Newlines(doc) == Newlines(doc[..b]) + Newlines(doc[b..])
    ensures Starts(doc) == Starts(doc[..a]) + Opened(doc[a..b], a) + Opened(doc[b..], b)
  {
    hide Starts, Newlines, Opened;
    assert doc[..b] == doc[..a] + doc[a..b] && doc == doc[..b] + doc[b..];
    StartsAppend(doc[..a], doc[a..b]);
    StartsAppend(doc[..b], doc[b..]);
  }

  lemma StartsCount(s: bytes)
    ensures |Starts(s)| == Newlines(s) + 1
  {
    StartsMeaning(s);
  }

  // Line feeds and line starts of a chunk, counted in the file.
  lemma ChunkLines(doc: bytes, a: nat, b: nat)
    requires a <= b <= |doc|
    ensures var body, before := doc[a..b], Newlines(doc[..a]);
            && Newlines(doc[..b]) == before + Newlines(body) <= Newlines(doc)
            && |Starts(body)| == Newlines(body) + 1 && |Starts(doc)| == Newlines(doc) + 1
            && forall j :: 1 <= j <= Newlines(body) ==> Starts(doc)[before + j] == a + Starts(body)[j]
  {
    hide Starts, Newlines, Opened;
    var pre, body := doc[..a], doc[a..b];
    StartsOfParts(doc, a, b);
    StartsCount(pre);
    StartsCount(body);
    StartsCount(doc);
    var inner, rest := Opened(body, a), Opened(doc[b..], b);
    forall j | 1 <= j <= Newlines(body) ensures Starts(doc)[Newlines(pre) + j] == a + Starts(body)[j] {
      OpenedAt(body, a, j);
      MiddleAt(Starts(pre), inner, rest, j - 1);
    }
  }

  lemma MiddleAt(x: seq<nat>, y: seq<nat>, z: seq<nat>, j: nat)
    requires j < |y|
    ensures (x + y + z)[|x| + j] == y[j]
  {
  }

  lemma ChunkHasFewerLines(doc: bytes, a: nat, b: nat)
    requires a <= b <= |doc|
    ensures LineCount(doc[a..b]) <= LineCount(doc)
  {
    var post := doc[b..];
    ChunkLines(doc, a, b);
    assert doc == doc[..b] + post;
    StartsAppend(doc[..b], post);
    if post != [] {
      assert doc[|doc| - 1] == post[|post| - 1];
      if Newlines(post) == 0 { LastIsNoFeed(post); }
    }
  }

  lemma LastIsNoFeed(s: bytes)
    requires s != [] && Newlines(s) == 0
    ensures s[|s| - 1] != NEWLINE
  {
  }

  lemma LinesInOrder(s: bytes, j: nat, k: nat)
    requires j < k < LineCount(s)
    ensures TextEnd(s, j) < LineEnd(s, j) <= LineStart(s, k)
  {
    StartsMeaning(s);
    LineIsNotEmpty(s, j);
  }

  // A line of a chunk that begins in the file's first line is that line of the file, unless
  // the chunk ends inside it.
  lemma SameLine(doc: bytes, a: nat, b: nat, k: nat)
    requires a <= b <= |doc| && Newlines(doc[..a]) == 0 && k < LineCount(doc[a..b]) && (a == 0 || k >= 1)
    ensures var body := doc[a..b];
            && k < LineCount(doc) && a + LineStart(body, k) == LineStart(doc, k)
            && (LineEnd(doc, k) <= b ==>
                  a + LineEnd(body, k) == LineEnd(doc, k) && a + TextEnd(body, k) == TextEnd(doc, k))
            && (LineEnd(doc, k) > b ==> a + LineEnd(body, k) == b == a + TextEnd(body, k))
  {
    var body := doc[a..b];
    ChunkHasFewerLines(doc, a, b);
    SameStart(doc, a, b, k);
    LineIsNotEmpty(body, k);
    LineIsNotEmpty(doc, k);
    if k < Newlines(body) {
      ChunkLines(doc, a, b);
      hide Starts, Newlines;
      assert a + LineEnd(body, k) == LineEnd(doc, k) <= b;
    } else {
      UnendedLine(doc, a, b, k);
    }
  }

  lemma SameStart(doc: bytes, a: nat, b: nat, k: nat)
    requires a <= b <= |doc| && Newlines(doc[..a]) == 0 && (a == 0 || k >= 1)
    requires k < LineCount(doc[a..b]) && k < LineCount(doc)
    ensures a + LineStart(doc[a..b], k) == LineStart(doc, k)
  {
    ChunkLines(doc, a, b);
    StartsMeaning(doc);
    StartsMeaning(doc[a..b]);
    hide Starts, Newlines;
  }

  // The last line of a chunk, not ended by a line feed, goes on in the file or ends it.
  lemma UnendedLine(doc: bytes, a: nat, b: nat, k: nat)
    requires a <= b <= |doc| && Newlines(doc[..a]) == 0 && k < LineCount(doc)
    requires k == Newlines(doc[a..b]) < LineCount(doc[a..b])
    ensures var body := doc[a..b];
            a + LineEnd(body, k) == b == a + TextEnd(body, k) && (LineEnd(doc, k) <= b ==> b == |doc| == TextEnd(doc, k))
  {
    var body := doc[a..b];
    ChunkLines(doc, a, b);
    LineIsNotEmpty(doc, k);
    StartsMeaning(doc);
    if k < Newlines(doc) && LineEnd(doc, k) <= b {
      NewlinesBetween(doc, LineEnd(doc, k), b);
      assert false;
    }
    hide Starts, Newlines;
  }

  // A line that begins before the chunk ends is a line of the chunk, in whole or in part.
  lemma LineReached(doc: bytes, a: nat, b: nat, k: nat)
    requires a <= b <= |doc| && Newlines(doc[..a]) == 0 && k < LineCount(doc) && (a == 0 || k >= 1)
    requires LineStart(doc, k) < b
    ensures k < LineCount(doc[a..b])
  {
    var body := doc[a..b];
    ChunkLines(doc, a, b);
    StartsMeaning(doc);
    StartsMeaning(body);
    NewlinesBetween(doc, LineStart(doc, k), b);
    NewlinesBetween(doc, LineStart(doc, k), b - 1);
    assert doc[..b][..b - 1] == doc[..b - 1];
    hide Starts;
  }

  // The chunk `[a, b)` reaches the end of the line's text and does not cut its line end.
  predicate Reaches(doc: bytes, b: nat, k: nat)
    requires k < LineCount(doc)
  {
    LineEnd(doc, k) <= b || LineStart(doc, k) < b == TextEnd(doc, k)
  }

  // When the lines of a chunk are, by number, the lines of the file: the file does not have
  // the first of them, or the chunk begins in the file's first line, at its very start if
  // that line is among them, and reaches the end of the last.
  predicate NumberedAlike(doc: bytes, a: nat, b: nat, start: nat, end: nat)
    requires a <= b <= |doc| && start < end
  {
    var first := First(start);
    first > LineCount(doc)
    || ((a == 0 || (first >= 2 && Newlines(doc[..a]) == 0))
        && Reaches(doc, b, Last(doc, end) - 1))
  }

  // A chunk that begins in the first line and reaches the last one wanted has that line.
  lemma LastsAgree(doc: bytes, a: nat, b: nat, end: nat)
    requires a <= b <= |doc| && Newlines(doc[..a]) == 0
    requires var last := Last(doc, end); last >= 1 && (a == 0 || last >= 2) && Reaches(doc, b, last - 1)
    ensures var body, last := doc[a..b], Last(doc, end);
            Last(body, end) == last <= LineCount(body) && a + TextEnd(body, last - 1) == TextEnd(doc, last - 1)
  {
    var last := Last(doc, end);
    assert LineStart(doc, last - 1) < b;
    hide LineStart, LineEnd, TextEnd, LineCount, Newlines;
    LineReached(doc, a, b, last - 1);
    SameLine(doc, a, b, last - 1);
    ChunkHasFewerLines(doc, a, b);
  }

  lemma AlikeIsSelected(doc: bytes, a: nat, b: nat, start: nat, end: nat)
    requires a <= b <= |doc| && start < end && NumberedAlike(doc, a, b, start, end)
    ensures Moved(Selected(doc[a..b], start, end), a) == Selected(doc, start, end)
  {
    var first := First(start);
    ChunkHasFewerLines(doc, a, b);
    if first <= LineCount(doc) {
      assert Newlines(doc[..a]) == 0;
      hide LineStart, LineEnd, TextEnd, LineCount, Newlines, Reaches;
      LastsAgree(doc, a, b, end);
      SameLine(doc, a, b, first - 1);
    }
  }

  lemma SelectedIsAlike(doc: bytes, a: nat, b: nat, start: nat, end: nat)
    requires a <= b <= |doc| && start < end
    requires Moved(Selected(doc[a..b], start, end), a) == Selected(doc, start, end)
    ensures NumberedAlike(doc, a, b, start, end)
  {
    var body := doc[a..b];
    var first := First(start);
    if first <= LineCount(doc) {
      var last := Last(doc, end);
      var got := Last(body, end);
      assert first <= got;
      SameFirst(doc, a, b, first - 1);
      ChunkHasFewerLines(doc, a, b);
      hide LineStart, LineEnd, TextEnd, LineCount, Newlines;
      SameLine(doc, a, b, got - 1);
      if got < last { LinesInOrder(doc, got - 1, last - 1); }
    }
  }

  // Only in a chunk that begins in the file's first line do equal numbers begin lines at
  // the same place.
  lemma SameFirst(doc: bytes, a: nat, b: nat, k: nat)
    requires a <= b <= |doc| && k < LineCount(doc) && k < LineCount(doc[a..b])
    requires a + LineStart(doc[a..b], k) == LineStart(doc, k)
    ensures Newlines(doc[..a]) == 0 && (a == 0 || k >= 1)
  {
    var body, before := doc[a..b], Newlines(doc[..a]);
    ChunkLines(doc, a, b);
    StartsMeaning(doc);
    StartsMeaning(body);
    if k >= 1 {
      assert Starts(doc)[before + k] == Starts(doc)[k];
    }
  }

  // A reference to several lines reads them exactly when chunk and file number them alike;
  // a reference to a single line reads it exactly when the chunk is that line and no more,
  // without a line end. Both sides are stretches of the file, so that lines with equal
  // texts are told apart.
  lemma ReferenceReadsItsLines(doc: bytes, a: nat, b: nat, r: Workspace.LineRef)
    requires a <= b <= |doc| && r.start <= r.end
    ensures Read(doc, a, b, r) == Selected(doc, r.start, r.end) <==>
              if r.start < r.end then NumberedAlike(doc, a, b, r.start, r.end)
              else if 1 <= r.start <= LineCount(doc) then
                a < b && a == LineStart(doc, r.start - 1) && b == TextEnd(doc, r.start - 1)
              else a == b
  {
    if r.start < r.end {
      if NumberedAlike(doc, a, b, r.start, r.end) {
        AlikeIsSelected(doc, a, b, r.start, r.end);
      }
      if Read(doc, a, b, r) == Selected(doc, r.start, r.end) {
        SelectedIsAlike(doc, a, b, r.start, r.end);
      }
    }
  }

  // ---------- references that miss ----------

  // The file "a", line feed, "b".
  const SAMPLE: bytes := [0x61, 0x0A, 0x62]

  lemma SampleLines()
    ensures LineCount(SAMPLE) == 2 && LineStart(SAMPLE, 0) == 0 && TextEnd(SAMPLE, 0) == 1
    ensures LineStart(SAMPLE, 1) == 2 && LineEnd(SAMPLE, 1) == TextEnd(SAMPLE, 1) == 3
    ensures LineCount(SAMPLE[..2]) == 1 && LineCount(SAMPLE[2..]) == 1
    ensures LineStart(SAMPLE[..2], 0) == 0 && TextEnd(SAMPLE[..2], 0) == 1
  {
    assert SAMPLE[..2] == [0x61, 0x0A] && SAMPLE[2..] == [0x62];
    assert [0x61, 0x0A][..1] == [0x61] && [0x61][..0] == [] && [0x62][..0] == [];
    assert Starts([0x61]) == [0] && Starts([0x61, 0x0A]) == [0, 2] && Starts([0x62]) == [0];
    assert Newlines([0x61, 0x0A]) == 1 && Newlines([0x62]) == 0;
    assert Starts(SAMPLE) == [0, 2] && Newlines(SAMPLE) == 1;
  }

  // Lines 2 and 3 asked of the chunk that holds line 2: the chunk has no second line, and
  // nothing is read of the line the file has.
  lemma LaterChunkMisses(other: (Locator.Range, bytes) -> bytes)
    ensures Selected(SAMPLE, 2, 3) == Some((2, 3))
    ensures Read(SAMPLE, 2, 3, Workspace.LineRef("a.rs", 2, 3)) == None
    ensures Apply(Locator.Parse(Workspace.RangeText(Workspace.LineRef("a.rs", 2, 3))), SAMPLE[2..3], other) == Some([])
  {
    SampleLines();
    assert SAMPLE[2..3] == SAMPLE[2..];
    hide LineStart, LineEnd, TextEnd, LineCount, Locator.Parse, Workspace.RangeText, Apply;
    ReadGivesText(SAMPLE, 2, 3, Workspace.LineRef("a.rs", 2, 3), other);
  }

  // Lines 1 and 2 asked of the chunk that holds line 1.
  lemma ShortChunkMisses()
    ensures Selected(SAMPLE, 1, 2) == Some((0, 3))
    ensures Read(SAMPLE, 0, 2, Workspace.LineRef("a.rs", 1, 2)) == Some((0, 1))
  {
    SampleLines();
    assert SAMPLE[0..2] == SAMPLE[..2];
    hide LineStart, LineEnd, TextEnd, LineCount;
  }

  // Line 1 alone asked of a chunk that holds both: all of it is read.
  lemma SingleLineReadsTheChunk(other: (Locator.Range, bytes) -> bytes)
    ensures Selected(SAMPLE, 1, 1) == Some((0, 1))
    ensures Apply(Locator.Parse(Workspace.RangeText(Workspace.LineRef("a.rs", 1, 1))), SAMPLE[0..3], other) == Some(SAMPLE)
  {
    SampleLines();
    assert SAMPLE[0..3] == SAMPLE;
    hide LineStart, LineEnd, TextEnd, LineCount, Locator.Parse, Workspace.RangeText, Apply, Unix;
    ReadGivesText(SAMPLE, 0, 3, Workspace.LineRef("a.rs", 1, 1), other);
  }
}
