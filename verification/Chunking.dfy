// Splitting a document into chunks that tile it: by lines, by item boundaries, and by
// recursive re-splitting of what tokenizes too hot. Offsets are bytes.
module Chunking {
  import opened Utf8

  type bytes = seq<byte>

  const NEWLINE: byte := 0x0A
  const MAX_SAFE_BODY_TOKENS: nat := 500
  const MAX_HEADER_CHARS: nat := 400

  datatype Config = Config(tokenThreshold: nat, target: nat, cap: nat, overlap: nat) {
    function Target(): nat { if target < 1 then 1 else target }
    function Cap(): nat { if cap < Target() then Target() else cap }
    function Overlap(): nat { if overlap < Cap() then overlap else Cap() - 1 }

    function Tighten(): (c: Config)
      ensures c.Cap() >= 300
    {
      Config(tokenThreshold,
             if target / 2 < 200 then 200 else target / 2,
             if cap / 2 < 300 then 300 else cap / 2,
             if overlap / 2 < 80 then 80 else overlap / 2)
    }
  }

  type Tokenizer = bytes -> nat

  // A chunk body `[start, end)` of the document, and the text handed to the embedder.
  datatype Piece = Piece(start: nat, end: nat, text: bytes, tokens: nat)

  // ---------- tilings ----------

  // The pieces cover `[lo, hi)` without gap or overlap, cut only between characters.
  ghost predicate Tiles(ps: seq<Piece>, doc: bytes, lo: nat, hi: nat) {
    && lo <= hi <= |doc| && Boundary(doc, lo) && Boundary(doc, hi)
    && (ps == [] ==> lo == hi)
    && (ps != [] ==> ps[0].start == lo && ps[|ps| - 1].end == hi)
    && (forall i :: 0 <= i < |ps| ==> ps[i].start < ps[i].end <= |doc| && Boundary(doc, ps[i].start))
    && (forall i :: 0 <= i < |ps| - 1 ==> ps[i].end == ps[i + 1].start)
  }

  ghost predicate Within(ps: seq<Piece>, size: nat) {
    forall i :: 0 <= i < |ps| ==> ps[i].end - ps[i].start <= size
  }

  lemma TilesAppend(a: seq<Piece>, b: seq<Piece>, doc: bytes, lo: nat, mid: nat, hi: nat)
    requires Tiles(a, doc, lo, mid) && Tiles(b, doc, mid, hi)
    ensures Tiles(a + b, doc, lo, hi)
  {
    var c := a + b;
    if a == [] { assert c == b; }
    if b == [] { assert c == a; }
  }

  lemma {:induction false} TilesStay(ps: seq<Piece>, doc: bytes, lo: nat, hi: nat, i: nat)
    requires Tiles(ps, doc, lo, hi) && i < |ps|
    ensures lo <= ps[i].start && ps[i].end <= hi
  {
    TilesFrom(ps, doc, lo, hi, i);
    TilesTo(ps, doc, lo, hi, i);
  }

  lemma {:induction false} TilesFrom(ps: seq<Piece>, doc: bytes, lo: nat, hi: nat, i: nat)
    requires Tiles(ps, doc, lo, hi) && i < |ps|
    ensures lo <= ps[i].start
  {
    if i > 0 { TilesFrom(ps, doc, lo, hi, i - 1); }
  }

  lemma {:induction false} TilesTo(ps: seq<Piece>, doc: bytes, lo: nat, hi: nat, i: nat)
    requires Tiles(ps, doc, lo, hi) && i < |ps|
    ensures ps[i].end <= hi
    decreases |ps| - i
  {
    if i + 1 < |ps| { TilesTo(ps, doc, lo, hi, i + 1); }
  }

  function Bodies(ps: seq<Piece>, doc: bytes): bytes
    requires forall i :: 0 <= i < |ps| ==> ps[i].start <= ps[i].end <= |doc|
  {
    if ps == [] then []
    else Bodies(ps[..|ps| - 1], doc) + doc[ps[|ps| - 1].start..ps[|ps| - 1].end]
  }

  // Re-reading every body by its offsets gives back the tiled stretch of the document.
  lemma {:induction false} TilesRebuild(ps: seq<Piece>, doc: bytes, lo: nat, hi: nat)
    requires Tiles(ps, doc, lo, hi)
    ensures Bodies(ps, doc) == doc[lo..hi]
  {
    if ps != [] {
      var front, last := ps[..|ps| - 1], ps[|ps| - 1];
      TilesFrom(ps, doc, lo, hi, |ps| - 1);
      assert Tiles(front, doc, lo, last.start);
      TilesRebuild(front, doc, lo, last.start);
      assert doc[lo..last.start] + doc[last.start..hi] == doc[lo..hi];
    }
  }

  // Every body is itself well-formed text.
  lemma TilesWellFormed(ps: seq<Piece>, doc: bytes, lo: nat, hi: nat, i: nat)
    requires Valid(doc) && Tiles(ps, doc, lo, hi) && i < |ps|
    ensures Boundary(doc, ps[i].end) && Valid(doc[ps[i].start..ps[i].end])
  {
    if i + 1 < |ps| { assert ps[i].end == ps[i + 1].start; }
    SliceValid(doc, ps[i].start, ps[i].end);
  }

  // A tiling of a slice, moved to where the slice lies in the document.
  function Shift(ps: seq<Piece>, base: nat): (r: seq<Piece>)
    ensures |r| == |ps|
  {
    seq(|ps|, i requires 0 <= i < |ps| => ps[i].(start := base + ps[i].start, end := base + ps[i].end))
  }

  lemma TilesShift(ps: seq<Piece>, doc: bytes, a: nat, b: nat)
    requires a <= b && Boundary(doc, a) && Boundary(doc, b) && Tiles(ps, doc[a..b], 0, b - a)
    ensures Tiles(Shift(ps, a), doc, a, b)
  {
    var moved := Shift(ps, a);
    assert a <= b <= |doc|;
    forall i | 0 <= i < |ps|
      ensures moved[i].start == a + ps[i].start && moved[i].end == a + ps[i].end && Boundary(doc, moved[i].start)
    {
      SliceBoundary(doc, a, b, a + ps[i].start);
    }
    hide Boundary, Shift;
  }

  // ---------- searching for line feeds ----------

  ghost predicate NoNewline(s: bytes, lo: nat, hi: nat)
    requires hi <= |s|
  {
    forall j :: lo <= j < hi ==> s[j] != NEWLINE
  }

  method FindNewline(s: bytes, lo: nat, hi: nat) returns (found: bool, at: nat)
    requires lo <= hi <= |s|
    ensures found ==> lo <= at < hi && s[at] == NEWLINE && NoNewline(s, lo, at)
    ensures !found ==> NoNewline(s, lo, hi)
  {
    at := lo;
    while at < hi
      invariant lo <= at <= hi && forall j :: lo <= j < at ==> s[j] != NEWLINE
    {
      if s[at] == NEWLINE { return true, at; }
      at := at + 1;
    }
    return false, 0;
  }

  method RFindNewline(s: bytes, lo: nat, hi: nat) returns (found: bool, at: nat)
    requires lo <= hi <= |s|
    ensures found ==> lo <= at < hi && s[at] == NEWLINE && NoNewline(s, at + 1, hi)
    ensures !found ==> NoNewline(s, lo, hi)
  {
    var end := hi;
    while end > lo
      invariant lo <= end <= hi && forall j :: end <= j < hi ==> s[j] != NEWLINE
    {
      if s[end - 1] == NEWLINE { return true, end - 1; }
      end := end - 1;
    }
    return false, 0;
  }

  // ---------- the line splitter ----------

  // After the first line feed at or past `ideal`; else after the last one before `hard`;
  // else at `hard`.
  ghost predicate CutBetween(s: bytes, start: nat, ideal: nat, hard: nat, cut: nat)
    requires hard <= |s|
  {
    && start <= ideal <= hard && start < cut <= hard
    && if !NoNewline(s, ideal, hard) then ideal < cut && s[cut - 1] == NEWLINE && NoNewline(s, ideal, cut - 1)
       else if !NoNewline(s, start, hard) then s[cut - 1] == NEWLINE && NoNewline(s, cut, hard)
       else cut == hard
  }

  // Where a chunk that starts at `start` ends: at the end of the document if the rest
  // fits the cap; else as above, `ideal` and `hard` being the last character boundaries
  // before the target and before the cap.
  ghost predicate LineCut(s: bytes, cfg: Config, start: nat, cut: nat) {
    if |s| - start <= cfg.Cap() then cut == |s|
    else exists ideal: nat, hard: nat ::
           && IsFloor(s, start + cfg.Target(), ideal) && IsFloor(s, start + cfg.Cap(), hard)
           && CutBetween(s, start, ideal, hard, cut)
  }

  // `overlap` bytes back, or as many as there are.
  function Back(i: nat, overlap: nat): nat {
    if i > overlap then i - overlap else 0
  }

  // Where the overlap of a body at `start` begins: at the start of the line that is one
  // overlap back, but no further than two, both counted back to a character boundary.
  ghost predicate OverlapStart(s: bytes, start: nat, overlap: nat, from: nat) {
    && 0 < start <= |s|
    && exists back: nat, low: nat ::
         && IsFloor(s[..start], Back(start, overlap), back) && IsFloor(s[..start], Back(back, overlap), low)
         && low <= from <= back && NoNewline(s, from, back)
         && (from == low || s[from - 1] == NEWLINE)
  }

  // The overlap prefix, ended with a line feed where it lacks one.
  ghost predicate IsPrefix(s: bytes, start: nat, overlap: nat, prefix: bytes) {
    if start == 0 || overlap == 0 then prefix == []
    else exists from: nat ::
           && from < start <= |s| && OverlapStart(s, start, overlap, from)
           && prefix == s[from..start] + if s[start - 1] == NEWLINE then [] else [NEWLINE]
  }

  // `text` is the body, after an overlap prefix taken from what precedes the body.
  ghost predicate EmbedText(s: bytes, cfg: Config, p: Piece)
    requires p.start <= p.end <= |s|
  {
    exists prefix :: IsPrefix(s, p.start, cfg.Overlap(), prefix) && p.text == prefix + s[p.start..p.end]
  }

  // A prefix is empty only on the first chunk or without overlap, and ends a line.
  method OverlapPrefix(s: bytes, start: nat, overlap: nat, first: bool) returns (prefix: bytes)
    requires Valid(s) && start <= |s| && Boundary(s, start)
    ensures first ==> prefix == []
    ensures !first ==> IsPrefix(s, start, overlap, prefix)
    ensures prefix == [] <==> first || overlap == 0 || start == 0
    ensures prefix != [] ==> prefix[|prefix| - 1] == NEWLINE
  {
    if first || overlap == 0 || start == 0 { return []; }
    var from := OverlapFrom(s, start, overlap);
    hide OverlapStart, Valid, Boundary;
    prefix := s[from..start];
    assert prefix[|prefix| - 1] == s[start - 1];
    if prefix[|prefix| - 1] != NEWLINE {
      prefix := prefix + [NEWLINE];
    }
  }

  method OverlapFrom(s: bytes, start: nat, overlap: nat) returns (from: nat)
    requires Valid(s) && 0 < start <= |s| && Boundary(s, start) && overlap > 0
    ensures from < start && OverlapStart(s, start, overlap, from)
  {
    var preceding := s[..start];
    var back := FloorCharBoundary(preceding, Back(start, overlap));
    var found, at := RFindNewline(preceding, 0, back);
    var snap := if found then at + 1 else 0;
    var low := FloorCharBoundary(preceding, Back(back, overlap));
    from := if snap >= low then snap else low;
    hide Valid, OverlapStart, IsFloor;
    OverlapStartAt(s, start, overlap, back, low, from);
  }

  // An overlap reaches back twice its size and two characters at most.
  lemma OverlapBounded(s: bytes, start: nat, overlap: nat, from: nat)
    requires Valid(s) && Boundary(s, start) && OverlapStart(s, start, overlap, from)
    ensures from <= start <= from + 2 * overlap + 6
  {
    var back: nat, low: nat :| IsFloor(s[..start], Back(start, overlap), back)
                            && IsFloor(s[..start], Back(back, overlap), low) && low <= from <= back;
    SplitValid(s, start);
    hide Valid, Boundary;
    var near := NearBoundary(s[..start], Back(start, overlap));
    var nearer := NearBoundary(s[..start], Back(back, overlap));
  }

  lemma OverlapStartAt(s: bytes, start: nat, overlap: nat, back: nat, low: nat, from: nat)
    requires 0 < start <= |s| && low <= from <= back
    requires IsFloor(s[..start], Back(start, overlap), back) && IsFloor(s[..start], Back(back, overlap), low)
    requires NoNewline(s, from, back) && (from == low || s[from - 1] == NEWLINE)
    ensures OverlapStart(s, start, overlap, from)
  {
  }

  method ChooseCut(s: bytes, start: nat, ideal: nat, hard: nat) returns (cut: nat)
    requires Valid(s) && start <= ideal <= hard <= |s| && start < hard && Boundary(s, hard)
    ensures Boundary(s, cut) && CutBetween(s, start, ideal, hard, cut)
  {
    var forward, f := FindNewline(s, ideal, hard);
    if forward {
      AfterAscii(s, f);
      return f + 1;
    }
    var backward, b := RFindNewline(s, start, hard);
    if backward {
      AfterAscii(s, b);
      return b + 1;
    }
    return if hard > start + 1 then hard else start + 1;
  }

  // One cut of the line splitter, when the rest does not fit.
  method NextCut(s: bytes, cfg: Config, start: nat) returns (cut: nat)
    requires Valid(s) && cfg.Cap() >= 4 && Boundary(s, start) && start + cfg.Cap() < |s|
    ensures start < cut <= start + cfg.Cap() && Boundary(s, cut) && LineCut(s, cfg, start, cut)
  {
    var ideal := FloorCharBoundary(s, start + cfg.Target());
    var hard := FloorCharBoundary(s, start + cfg.Cap());
    assert start <= ideal <= hard && start < hard;
    hide Valid, Boundary, CutBetween, IsFloor;
    cut := ChooseCut(s, start, ideal, hard);
    assert start < cut <= hard by { CutRange(s, start, ideal, hard, cut); }
  }

  lemma CutRange(s: bytes, start: nat, ideal: nat, hard: nat, cut: nat)
    requires hard <= |s| && CutBetween(s, start, ideal, hard, cut)
    ensures start < cut <= hard
  {
  }

  // What the line splitter has emitted by the time it reaches `start`.
  ghost predicate LinePieces(ps: seq<Piece>, s: bytes, cfg: Config, start: nat) {
    && Tiles(ps, s, 0, start) && Within(ps, cfg.Cap())
    && (forall i :: 0 <= i < |ps| ==> LineCut(s, cfg, ps[i].start, ps[i].end) && EmbedText(s, cfg, ps[i]))
    && (ps != [] ==> ps[0].text == s[..ps[0].end])
  }

  lemma LinePiecesExtend(ps: seq<Piece>, s: bytes, cfg: Config, p: Piece)
    requires LinePieces(ps, s, cfg, p.start)
    requires p.start < p.end <= |s| && p.end - p.start <= cfg.Cap() && Boundary(s, p.end)
    requires LineCut(s, cfg, p.start, p.end) && EmbedText(s, cfg, p)
    requires ps == [] ==> p.text == s[..p.end]
    ensures LinePieces(ps + [p], s, cfg, p.end)
  {
    hide LineCut, EmbedText, Boundary;
    TilesAppend(ps, [p], s, 0, p.start, p.end);
  }

  method ChunkByLines(s: bytes, cfg: Config) returns (ps: seq<Piece>)
    requires Valid(s) && cfg.Cap() >= 4
    ensures LinePieces(ps, s, cfg, |s|)
  {
    ps := [];
    var start := 0;
    while start < |s|
      invariant start <= |s| && LinePieces(ps, s, cfg, start)
      decreases |s| - start
    {
      var cut := |s|;
      if |s| - start > cfg.Cap() { cut := NextCut(s, cfg, start); }
      var prefix := OverlapPrefix(s, start, cfg.Overlap(), ps == []);
      var piece := Piece(start, cut, prefix + s[start..cut], 0);
      PieceText(s, cfg, piece, prefix);
      assert LineCut(s, cfg, start, cut) && (ps == [] <==> start == 0);
      assert ps == [] ==> piece.text == s[..cut];
      LinePiecesExtend(ps, s, cfg, piece);
      ps := ps + [piece];
      start := cut;
      hide LinePieces, LineCut, EmbedText;
    }
  }

  lemma PieceText(s: bytes, cfg: Config, p: Piece, prefix: bytes)
    requires p.start <= p.end <= |s| && p.text == prefix + s[p.start..p.end]
    requires IsPrefix(s, p.start, cfg.Overlap(), prefix)
    ensures EmbedText(s, cfg, p)
  {
  }

  // ---------- re-splitting what tokenizes too hot ----------

  function Tightened(cfg: Config, times: nat): Config
    decreases times
  {
    if times == 0 then cfg else Tightened(cfg.Tighten(), times - 1)
  }

  // A configuration with a positive target, a cap no smaller and an overlap below the cap is
  // taken at its word. Otherwise the target counts as one at least, the cap as the target at
  // least, and the overlap as one byte less than the cap at most.
  lemma EffectiveSizes(cfg: Config)
    ensures cfg.Overlap() < cfg.Cap() && 1 <= cfg.Target() <= cfg.Cap()
    ensures cfg.Target() == if cfg.target == 0 then 1 else cfg.target
    ensures cfg.target <= cfg.cap && 1 <= cfg.cap ==> cfg.Cap() == cfg.cap
    ensures cfg.cap < cfg.target ==> cfg.Cap() == cfg.target
    ensures cfg.overlap < cfg.cap ==> cfg.Overlap() == cfg.overlap
    ensures cfg.Overlap() == cfg.overlap || cfg.Overlap() + 1 == cfg.Cap() <= cfg.overlap
  {
  }

  // Three tightenings divide every size by eight, down to its floor.
  lemma TightenedSizes(cfg: Config)
    ensures var c := Tightened(cfg, 3);
            && c.target == (if cfg.target < 8 * 200 then 200 else cfg.target / 8)
            && c.cap == (if cfg.cap < 8 * 300 then 300 else cfg.cap / 8)
            && c.overlap == (if cfg.overlap < 8 * 80 then 80 else cfg.overlap / 8)
            && c.tokenThreshold == cfg.tokenThreshold
  {
    var one := cfg.Tighten();
    var two := one.Tighten();
    assert Tightened(cfg, 3) == Tightened(one, 2) == Tightened(two, 1) == Tightened(two.Tighten(), 0);
    Halves(cfg.target, 200);
    Halves(cfg.cap, 300);
    Halves(cfg.overlap, 80);
  }

  lemma Halves(size: nat, least: nat)
    ensures var one := if size / 2 < least then least else size / 2;
            var two := if one / 2 < least then least else one / 2;
            (if two / 2 < least then least else two / 2) == if size < 8 * least then least else size / 8
  {
  }

  ghost predicate EndsWithBody(doc: bytes, p: Piece) {
    && p.start <= p.end <= |doc| && p.end - p.start <= |p.text|
    && p.text[|p.text| - (p.end - p.start)..] == doc[p.start..p.end]
  }

  // Ready for embedding: counted, carrying its body, within `size` bytes, and within
  // `hot` bytes where it still tokenizes past the embedder's ceiling.
  ghost predicate Settled(ps: seq<Piece>, doc: bytes, count: Tokenizer, size: nat, hot: nat) {
    forall i :: 0 <= i < |ps| ==>
      && ps[i].tokens == count(ps[i].text) && EndsWithBody(doc, ps[i])
      && ps[i].end - ps[i].start <= size
      && (ps[i].tokens > MAX_SAFE_BODY_TOKENS ==> ps[i].end - ps[i].start <= hot)
  }

  lemma SettledAppend(a: seq<Piece>, b: seq<Piece>, doc: bytes, count: Tokenizer, size: nat, hot: nat)
    requires Settled(a, doc, count, size, hot) && Settled(b, doc, count, size, hot)
    ensures Settled(a + b, doc, count, size, hot)
  {
  }

  lemma SliceOfSlice(doc: bytes, lo: nat, hi: nat, a: nat, b: nat)
    requires lo <= hi <= |doc| && a <= b <= hi - lo
    ensures doc[lo..hi][a..b] == doc[lo + a..lo + b]
  {
    forall k | 0 <= k < b - a ensures doc[lo..hi][a..b][k] == doc[lo + a..lo + b][k] {}
  }

  lemma EmbedEndsWithBody(s: bytes, cfg: Config, p: Piece)
    requires p.start <= p.end <= |s| && EmbedText(s, cfg, p)
    ensures EndsWithBody(s, p)
  {
  }

  // Line pieces at their place in the document, not yet counted.
  ghost predicate RawPieces(ps: seq<Piece>, doc: bytes, size: nat, lo: nat, hi: nat) {
    && Tiles(ps, doc, lo, hi) && Within(ps, size)
    && (forall i :: 0 <= i < |ps| ==> EndsWithBody(doc, ps[i]))
    && (ps != [] ==> ps[0].text == doc[lo..ps[0].end])
  }

  lemma EndsShift(doc: bytes, lo: nat, hi: nat, p: Piece)
    requires lo <= hi <= |doc| && EndsWithBody(doc[lo..hi], p)
    ensures EndsWithBody(doc, p.(start := lo + p.start, end := lo + p.end))
  {
    SliceOfSlice(doc, lo, hi, p.start, p.end);
  }

  lemma ShiftedPiece(ps: seq<Piece>, doc: bytes, cfg: Config, lo: nat, hi: nat, i: nat)
    requires lo <= hi && Boundary(doc, lo) && Boundary(doc, hi)
    requires LinePieces(ps, doc[lo..hi], cfg, hi - lo) && i < |ps|
    ensures EndsWithBody(doc, Shift(ps, lo)[i])
    ensures i == 0 ==> ps[i].text == doc[lo..lo + ps[i].end]
  {
    hide EmbedText, LineCut, EndsWithBody;
    TilesStay(ps, doc[lo..hi], 0, hi - lo, i);
    EmbedEndsWithBody(doc[lo..hi], cfg, ps[i]);
    EndsShift(doc, lo, hi, ps[i]);
    if i == 0 { SliceOfSlice(doc, lo, hi, 0, ps[i].end); }
  }

  lemma ShiftLinePieces(ps: seq<Piece>, doc: bytes, cfg: Config, lo: nat, hi: nat)
    requires lo <= hi && Boundary(doc, lo) && Boundary(doc, hi)
    requires LinePieces(ps, doc[lo..hi], cfg, hi - lo)
    ensures RawPieces(Shift(ps, lo), doc, cfg.Cap(), lo, hi)
  {
    hide EmbedText, LineCut;
    TilesShift(ps, doc, lo, hi);
    forall i | 0 <= i < |ps|
      ensures EndsWithBody(doc, Shift(ps, lo)[i]) && (i == 0 ==> ps[i].text == doc[lo..lo + ps[i].end])
    {
      ShiftedPiece(ps, doc, cfg, lo, hi, i);
    }
    hide EndsWithBody, Boundary, Tiles;
    assert Within(ps, cfg.Cap());
  }

  // The line pieces of `[lo, hi)`, at their place in the document.
  ghost predicate LineRange(ps: seq<Piece>, doc: bytes, cfg: Config, lo: nat, hi: nat) {
    && lo <= hi <= |doc|
    && exists line :: LinePieces(line, doc[lo..hi], cfg, hi - lo) && ps == Shift(line, lo)
  }

  // Split `[lo, hi)` of the document by lines.
  method ChunkRange(doc: bytes, lo: nat, hi: nat, cfg: Config) returns (ps: seq<Piece>)
    requires Valid(doc) && lo <= hi && Boundary(doc, lo) && Boundary(doc, hi) && cfg.Cap() >= 4
    ensures RawPieces(ps, doc, cfg.Cap(), lo, hi)
    ensures LineRange(ps, doc, cfg, lo, hi)
  {
    assert hi <= |doc| by { BoundaryInside(doc, hi); }
    SliceValid(doc, lo, hi);
    var sub := ChunkByLines(doc[lo..hi], cfg);
    ShiftLinePieces(sub, doc, cfg, lo, hi);
    ps := Shift(sub, lo);
  }

  // A split of the whole document is a split where it stands.
  lemma WholeRange(ps: seq<Piece>, doc: bytes, cfg: Config)
    requires LineRange(ps, doc, cfg, 0, |doc|)
    ensures LinePieces(ps, doc, cfg, |doc|)
  {
    var line :| LinePieces(line, doc[0..|doc|], cfg, |doc| - 0) && ps == Shift(line, 0);
    hide LinePieces;
    assert doc[0..|doc|] == doc && Shift(line, 0) == line;
  }

  // What stands for the stretch `[lo, hi)` and its text in the end: the piece itself when
  // its text is within the token ceiling, else what its body is split into again.
  ghost predicate Resettled(out: seq<Piece>, doc: bytes, p: Piece, cfg: Config, count: Tokenizer, depth: nat)
    requires depth <= 3
    decreases 3 - depth, 1, 0
  {
    if count(p.text) <= MAX_SAFE_BODY_TOKENS then out == [p.(tokens := count(p.text))]
    else Resplit(out, doc, p.start, p.end, cfg, count, depth)
  }

  // The body as it is at the last level; else its line pieces under tightened bounds, each
  // settled in turn.
  ghost predicate Resplit(out: seq<Piece>, doc: bytes, lo: nat, hi: nat, cfg: Config, count: Tokenizer, depth: nat)
    requires depth <= 3
    decreases 3 - depth, 0, 0
  {
    && lo <= hi <= |doc|
    && if depth == 3 || lo == hi then out == [Piece(lo, hi, doc[lo..hi], count(doc[lo..hi]))]
       else exists subs :: LineRange(subs, doc, cfg.Tighten(), lo, hi)
                        && SettledAs(out, subs, doc, cfg.Tighten(), count, depth + 1)
  }

  // `out` is what stands for each of `subs`, one after the other.
  ghost predicate SettledAs(out: seq<Piece>, subs: seq<Piece>, doc: bytes, cfg: Config, count: Tokenizer, depth: nat)
    requires depth <= 3
    decreases 3 - depth, 2, |subs|
  {
    if subs == [] then out == []
    else exists n :: 0 <= n <= |out| && SettledAs(out[..n], subs[..|subs| - 1], doc, cfg, count, depth)
                  && Resettled(out[n..], doc, subs[|subs| - 1], cfg, count, depth)
  }

  lemma SettledAsStep(out: seq<Piece>, more: seq<Piece>, subs: seq<Piece>, p: Piece, doc: bytes, cfg: Config,
                      count: Tokenizer, depth: nat)
    requires depth <= 3 && SettledAs(out, subs, doc, cfg, count, depth) && Resettled(more, doc, p, cfg, count, depth)
    ensures SettledAs(out + more, subs + [p], doc, cfg, count, depth)
  {
    var all, whole := out + more, subs + [p];
    assert all[..|out|] == out && all[|out|..] == more && whole[..|whole| - 1] == subs;
    hide Resettled;
  }

  lemma ResplitLeaf(doc: bytes, lo: nat, hi: nat, cfg: Config, count: Tokenizer, depth: nat)
    requires lo <= hi <= |doc| && depth <= 3 && (depth == 3 || lo == hi)
    ensures Resplit([Piece(lo, hi, doc[lo..hi], count(doc[lo..hi]))], doc, lo, hi, cfg, count, depth)
  {
  }

  lemma ResplitInner(out: seq<Piece>, subs: seq<Piece>, doc: bytes, lo: nat, hi: nat, cfg: Config, count: Tokenizer, depth: nat)
    requires depth < 3 && lo < hi && LineRange(subs, doc, cfg.Tighten(), lo, hi)
    requires SettledAs(out, subs, doc, cfg.Tighten(), count, depth + 1)
    ensures Resplit(out, doc, lo, hi, cfg, count, depth)
  {
    hide SettledAs;
  }

  lemma LineRangeStays(ps: seq<Piece>, doc: bytes, cfg: Config, lo: nat, hi: nat, i: nat)
    requires LineRange(ps, doc, cfg, lo, hi) && i < |ps|
    ensures lo <= ps[i].start && ps[i].end <= hi
  {
    var line :| LinePieces(line, doc[lo..hi], cfg, hi - lo) && ps == Shift(line, lo);
    TilesStay(line, doc[lo..hi], 0, hi - lo, i);
  }

  // A piece from a hot one lies inside it.
  lemma {:induction false} ResplitStays(out: seq<Piece>, doc: bytes, lo: nat, hi: nat, cfg: Config, count: Tokenizer, depth: nat,
                                        q: Piece)
    requires depth <= 3 && Resplit(out, doc, lo, hi, cfg, count, depth) && q in out
    ensures lo <= q.start && q.end <= hi
    decreases 3 - depth, 0
  {
    if depth < 3 && lo < hi {
      var subs :| LineRange(subs, doc, cfg.Tighten(), lo, hi) && SettledAs(out, subs, doc, cfg.Tighten(), count, depth + 1);
      hide SettledAs, LineRange;
      var i := SettledInside(out, subs, doc, cfg.Tighten(), count, depth + 1, q);
      LineRangeStays(subs, doc, cfg.Tighten(), lo, hi, i);
    }
  }

  // Every piece is a line piece within the ceiling, or lies inside one that is not.
  lemma {:induction false} SettledInside(out: seq<Piece>, subs: seq<Piece>, doc: bytes, cfg: Config, count: Tokenizer,
                                         depth: nat, q: Piece) returns (i: nat)
    requires depth <= 3 && SettledAs(out, subs, doc, cfg, count, depth) && q in out
    ensures i < |subs| && subs[i].start <= q.start && q.end <= subs[i].end
    ensures count(subs[i].text) <= MAX_SAFE_BODY_TOKENS ==> q == subs[i].(tokens := count(subs[i].text))
    decreases 3 - depth, 1, |subs|
  {
    var last := |subs| - 1;
    var n :| 0 <= n <= |out| && SettledAs(out[..n], subs[..last], doc, cfg, count, depth)
          && Resettled(out[n..], doc, subs[last], cfg, count, depth);
    assert out == out[..n] + out[n..];
    if q in out[..n] {
      hide SettledAs, Resettled;
      i := SettledInside(out[..n], subs[..last], doc, cfg, count, depth, q);
    } else {
      i := last;
      hide SettledAs, Resplit;
      if count(subs[last].text) > MAX_SAFE_BODY_TOKENS {
        ResplitStays(out[n..], doc, subs[last].start, subs[last].end, cfg, count, depth, q);
      }
    }
  }

  // Every line piece within the ceiling is one of the pieces.
  lemma {:induction false} SettledKeeps(out: seq<Piece>, subs: seq<Piece>, doc: bytes, cfg: Config, count: Tokenizer,
                                        depth: nat, i: nat)
    requires depth <= 3 && SettledAs(out, subs, doc, cfg, count, depth) && i < |subs|
    requires count(subs[i].text) <= MAX_SAFE_BODY_TOKENS
    ensures subs[i].(tokens := count(subs[i].text)) in out
    decreases |subs|
  {
    var last := |subs| - 1;
    var n :| 0 <= n <= |out| && SettledAs(out[..n], subs[..last], doc, cfg, count, depth)
          && Resettled(out[n..], doc, subs[last], cfg, count, depth);
    assert out == out[..n] + out[n..];
    hide SettledAs, Resplit;
    if i < last {
      SettledKeeps(out[..n], subs[..last], doc, cfg, count, depth, i);
    } else {
      assert out[n..][0] in out[n..];
    }
  }

  lemma BoundaryInside(s: bytes, i: int)
    requires Boundary(s, i)
    ensures 0 <= i <= |s|
  {
  }

  lemma TightenedZero(cfg: Config)
    ensures Tightened(cfg, 0) == cfg
  {
  }

  lemma LeafProgress(doc: bytes, lo: nat, hi: nat, count: Tokenizer, hot: nat)
    requires lo < hi && Boundary(doc, lo) && Boundary(doc, hi) && hi - lo <= hot
    ensures Progress([Piece(lo, hi, doc[lo..hi], count(doc[lo..hi]))], doc, count, hi - lo, hot, lo, hi)
  {
  }

  // Re-split `[lo, hi)` with halved bounds, at most three levels deep. Pieces that stay
  // over the token ceiling have been cut to the three times tightened cap.
  method SplitOversized(doc: bytes, lo: nat, hi: nat, cfg: Config, count: Tokenizer, depth: nat) returns (out: seq<Piece>)
    requires Valid(doc) && lo <= hi && Boundary(doc, lo) && Boundary(doc, hi)
    requires depth <= 3 && (depth == 3 ==> hi - lo <= cfg.Cap())
    ensures lo < hi ==> Progress(out, doc, count, hi - lo, Tightened(cfg, 3 - depth).Cap(), lo, hi)
    ensures Resplit(out, doc, lo, hi, cfg, count, depth)
    decreases 3 - depth, 0
  {
    hide Valid, Boundary, Progress, RawPieces, Tightened, Config.Cap, Config.Tighten, Resplit, SettledAs, LineRange;
    assert hi <= |doc| by { BoundaryInside(doc, hi); }
    var slice := doc[lo..hi];
    if depth >= 3 || slice == [] {
      out := [Piece(lo, hi, slice, count(slice))];
      if depth == 3 { assert Tightened(cfg, 3 - depth) == cfg by { TightenedZero(cfg); } }
      if lo < hi { LeafProgress(doc, lo, hi, count, cfg.Cap()); }
      ResplitLeaf(doc, lo, hi, cfg, count, depth);
      return;
    }
    var tightened := cfg.Tighten();
    TightenedUnfold(cfg, 3 - depth);
    var sub := ChunkRange(doc, lo, hi, tightened);
    out := SettleAll(doc, lo, hi, sub, tightened, count, depth + 1);
    ResplitInner(out, sub, doc, lo, hi, cfg, count, depth);
  }

  lemma TightenedUnfold(cfg: Config, times: nat)
    requires times > 0
    ensures Tightened(cfg, times) == Tightened(cfg.Tighten(), times - 1) && cfg.Tighten().Cap() >= 4
  {
  }

  ghost predicate Progress(out: seq<Piece>, doc: bytes, count: Tokenizer, size: nat, hot: nat, lo: nat, pos: nat) {
    Tiles(out, doc, lo, pos) && Settled(out, doc, count, size, hot)
  }

  lemma ProgressStart(ps: seq<Piece>, doc: bytes, cap: nat, count: Tokenizer, size: nat, hot: nat, lo: nat, hi: nat)
    requires RawPieces(ps, doc, cap, lo, hi)
    ensures Progress([], doc, count, size, hot, lo, lo)
  {
  }

  lemma ProgressStep(
    out: seq<Piece>, more: seq<Piece>, doc: bytes, count: Tokenizer, size: nat, hot: nat, lo: nat, mid: nat, hi: nat)
    requires Progress(out, doc, count, size, hot, lo, mid) && Progress(more, doc, count, size, hot, mid, hi)
    ensures Progress(out + more, doc, count, size, hot, lo, hi)
  {
    TilesAppend(out, more, doc, lo, mid, hi);
    SettledAppend(out, more, doc, count, size, hot);
  }

  lemma RawPieceAt(ps: seq<Piece>, doc: bytes, size: nat, lo: nat, hi: nat, i: nat)
    requires RawPieces(ps, doc, size, lo, hi) && i <= |ps|
    ensures i == |ps| ==> (if i == 0 then lo else ps[i - 1].end) == hi
    ensures i < |ps| ==>
              && ps[i].start < ps[i].end <= hi && ps[i].end - ps[i].start <= size && lo <= ps[i].start
              && Boundary(doc, ps[i].start) && Boundary(doc, ps[i].end) && EndsWithBody(doc, ps[i])
              && ps[i].start == if i == 0 then lo else ps[i - 1].end
  {
    if i < |ps| {
      TilesStay(ps, doc, lo, hi, i);
      if i + 1 < |ps| { assert ps[i].end == ps[i + 1].start; }
      if i > 0 { assert ps[i - 1].end == ps[i - 1 + 1].start; }
    }
  }

  // Settle the line pieces of `[lo, hi)` one after the other.
  method SettleAll(doc: bytes, lo: nat, hi: nat, sub: seq<Piece>, cfg: Config, count: Tokenizer, depth: nat) returns (out: seq<Piece>)
    requires Valid(doc) && lo <= hi && depth <= 3 && RawPieces(sub, doc, cfg.Cap(), lo, hi)
    ensures Progress(out, doc, count, hi - lo, Tightened(cfg, 3 - depth).Cap(), lo, hi)
    ensures SettledAs(out, sub, doc, cfg, count, depth)
    decreases 3 - depth, 2
  {
    hide *;
    NothingSettled(sub, doc, cfg, count, depth);
    assert sub[..|sub|] == sub;
    ghost var hot := Tightened(cfg, 3 - depth).Cap();
    ProgressStart(sub, doc, cfg.Cap(), count, hi - lo, hot, lo, hi);
    out := [];
    var i := 0;
    while i < |sub|
      invariant i <= |sub|
      invariant Progress(out, doc, count, hi - lo, hot, lo, if i == 0 then lo else sub[i - 1].end)
      invariant SettledAs(out, sub[..i], doc, cfg, count, depth)
    {
      RawPieceAt(sub, doc, cfg.Cap(), lo, hi, i);
      var p := sub[i];
      assert p.(text := p.text) == p;
      var more := Resettle(doc, p, p.text, cfg, count, depth, hot, hi - lo);
      SettledNext(out, more, sub, i, doc, cfg, count, depth);
      ProgressStep(out, more, doc, count, hi - lo, hot, lo, p.start, p.end);
      out := out + more;
      i := i + 1;
    }
    RawPieceAt(sub, doc, cfg.Cap(), lo, hi, i);
  }

  lemma NothingSettled(subs: seq<Piece>, doc: bytes, cfg: Config, count: Tokenizer, depth: nat)
    requires depth <= 3
    ensures SettledAs([], subs[..0], doc, cfg, count, depth)
  {
    assert subs[..0] == [];
  }

  lemma SettledNext(out: seq<Piece>, more: seq<Piece>, subs: seq<Piece>, i: nat, doc: bytes, cfg: Config, count: Tokenizer,
                    depth: nat)
    requires depth <= 3 && i < |subs| && SettledAs(out, subs[..i], doc, cfg, count, depth)
    requires Resettled(more, doc, subs[i], cfg, count, depth)
    ensures SettledAs(out + more, subs[..i + 1], doc, cfg, count, depth)
  {
    hide SettledAs, Resettled;
    assert subs[..i + 1] == subs[..i] + [subs[i]];
    SettledAsStep(out, more, subs[..i], subs[i], doc, cfg, count, depth);
  }

  // Keep a piece whose embed text is within the token ceiling, re-split one that is not.
  method Resettle(doc: bytes, p: Piece, embed: bytes, cfg: Config, count: Tokenizer, depth: nat, ghost hot: nat, ghost size: nat)
    returns (out: seq<Piece>)
    requires Valid(doc) && p.start < p.end <= |doc| && Boundary(doc, p.start) && Boundary(doc, p.end)
    requires EndsWithBody(doc, p.(text := embed)) && depth <= 3 && (depth == 3 ==> p.end - p.start <= cfg.Cap())
    requires hot == Tightened(cfg, 3 - depth).Cap() && p.end - p.start <= size
    ensures Progress(out, doc, count, size, hot, p.start, p.end)
    ensures count(embed) <= MAX_SAFE_BODY_TOKENS ==> out == [Piece(p.start, p.end, embed, count(embed))]
    ensures Resettled(out, doc, p.(text := embed), cfg, count, depth)
    decreases 3 - depth, 1
  {
    hide Resplit;
    var tokens := count(embed);
    if tokens <= MAX_SAFE_BODY_TOKENS {
      out := [Piece(p.start, p.end, embed, tokens)];
    } else {
      out := SplitOversized(doc, p.start, p.end, cfg, count, depth);
    }
  }
}
