// Chunking a whole document: the small-file path, the line path, and the tiling on item
// boundaries, all of which tile the file.
module Documents {
  import opened Utf8
  import opened Chunking

  // A top-level item found by the outline parser.
  datatype ItemSpan = ItemSpan(start: nat, end: nat, signature: bytes, doc: bytes)

  ghost predicate SpansInside(spans: seq<ItemSpan>, doc: bytes) {
    forall i :: 0 <= i < |spans| ==> spans[i].start <= |doc| && Boundary(doc, spans[i].start)
  }

  // ---------- item headers ----------

  // " - " with an em dash, as UTF-8.
  const DASH: bytes := [0x20, 0xE2, 0x80, 0x94, 0x20]

  function ItemLine(sp: ItemSpan): bytes {
    if sp.doc == [] then sp.signature else sp.signature + DASH + sp.doc
  }

  function ItemLines(spans: seq<ItemSpan>, a: nat, b: nat): seq<bytes> {
    if spans == [] then []
    else (if a <= spans[0].start < b then [ItemLine(spans[0])] else []) + ItemLines(spans[1..], a, b)
  }

  // Lines are taken until one would overflow the header; the first always goes in.
  function Header(lines: seq<bytes>, header: bytes): bytes
    decreases |lines|
  {
    if lines == [] || (header != [] && |header| + |lines[0]| > MAX_HEADER_CHARS) then header
    else Header(lines[1..], (if header != [] then header + [NEWLINE] else []) + lines[0])
  }

  // The header outgrows its limit by the joining line feed at most, unless a single
  // item's line is longer than that by itself.
  lemma {:induction false} HeaderBound(lines: seq<bytes>, header: bytes, most: nat)
    requires |header| <= most && MAX_HEADER_CHARS + 1 <= most
    requires forall i :: 0 <= i < |lines| ==> |lines[i]| <= most
    ensures |Header(lines, header)| <= most
    decreases |lines|
  {
    if !(lines == [] || (header != [] && |header| + |lines[0]| > MAX_HEADER_CHARS)) {
      HeaderBound(lines[1..], (if header != [] then header + [NEWLINE] else []) + lines[0], most);
    }
  }

  // The text of the first lines, each behind a line feed unless nothing stands before it.
  function Joined(lines: seq<bytes>): bytes {
    if lines == [] then []
    else
      var before := Joined(lines[..|lines| - 1]);
      (if before == [] then [] else before + [NEWLINE]) + lines[|lines| - 1]
  }

  // The first `n` lines go in, and no more: each found the header empty or fitted its limit
  // with what stood there, line feeds aside, and the next one does not.
  ghost predicate GoIn(lines: seq<bytes>, n: nat) {
    && n <= |lines|
    && (forall m :: 0 <= m < n ==> Joined(lines[..m]) == [] || |Joined(lines[..m])| + |lines[m]| <= MAX_HEADER_CHARS)
    && (n < |lines| ==> Joined(lines[..n]) != [] && |Joined(lines[..n])| + |lines[n]| > MAX_HEADER_CHARS)
  }

  lemma {:induction false} HeaderFrom(lines: seq<bytes>, m: nat)
    requires m <= |lines|
    requires forall i :: 0 <= i < m ==> Joined(lines[..i]) == [] || |Joined(lines[..i])| + |lines[i]| <= MAX_HEADER_CHARS
    ensures exists n: nat :: m <= n <= |lines| && GoIn(lines, n) && Header(lines[m..], Joined(lines[..m])) == Joined(lines[..n])
    decreases |lines| - m
  {
    var h := Joined(lines[..m]);
    if m == |lines| || (h != [] && |h| + |lines[m]| > MAX_HEADER_CHARS) {
      assert GoIn(lines, m);
    } else {
      assert lines[m..][0] == lines[m] && lines[m..][1..] == lines[m + 1..];
      assert lines[..m + 1][..m] == lines[..m];
      assert Joined(lines[..m + 1]) == (if h == [] then [] else h + [NEWLINE]) + lines[m];
      HeaderFrom(lines, m + 1);
    }
  }

  // One line for each item that begins in the tile, in the order of the items.
  ghost predicate LinesOfItems(lines: seq<bytes>, spans: seq<ItemSpan>, a: nat, b: nat, at: seq<nat>) {
    && |at| == |lines|
    && (forall i :: 0 <= i < |at| ==> at[i] < |spans| && spans[at[i]].start < b && a <= spans[at[i]].start)
    && (forall i, j :: 0 <= i < j < |at| ==> at[i] < at[j])
    && (forall k :: 0 <= k < |spans| && a <= spans[k].start && spans[k].start < b ==> k in at)
    && forall i :: 0 <= i < |at| ==> ItemShown(lines[i], spans[at[i]])
  }

  // The signature, and behind a dash the documentation where there is some.
  predicate ItemShown(line: bytes, sp: ItemSpan) {
    if |sp.doc| > 0 then line == sp.signature + DASH + sp.doc else line == sp.signature
  }

  lemma {:induction false} ItemLinesFrom(spans: seq<ItemSpan>, a: nat, b: nat) returns (at: seq<nat>)
    ensures LinesOfItems(ItemLines(spans, a, b), spans, a, b, at)
  {
    if spans == [] {
      at := [];
    } else {
      var n := |spans| - 1;
      var before := ItemLinesFrom(spans[..n], a, b);
      assert spans == spans[..n] + [spans[n]];
      ItemLinesSnoc(spans[..n], spans[n], a, b);
      var lines := ItemLines(spans[..n], a, b);
      at := if a <= spans[n].start < b then before + [n] else before;
      hide ItemLines, ItemLine, ItemShown, LinesOfItems;
      if a <= spans[n].start < b {
        OneMoreItem(lines, spans[..n], a, b, before, ItemLine(spans[n]), spans[n]);
      } else {
        assert lines + [] == lines;
        ItemElsewhere(lines, spans[..n], a, b, before, spans[n]);
      }
    }
  }

  lemma OneMoreItem(lines: seq<bytes>, spans: seq<ItemSpan>, a: nat, b: nat, at: seq<nat>, line: bytes, sp: ItemSpan)
    requires LinesOfItems(lines, spans, a, b, at) && a <= sp.start < b && ItemShown(line, sp)
    ensures LinesOfItems(lines + [line], spans + [sp], a, b, at + [|spans|])
  {
    hide ItemShown;
    var all, more := spans + [sp], at + [|spans|];
    forall k | 0 <= k < |all| && a <= all[k].start && all[k].start < b ensures k in more {
      if k < |spans| { assert spans[k] == all[k]; assert k in at; } else { assert more[|at|] == k; }
    }
  }

  lemma ItemElsewhere(lines: seq<bytes>, spans: seq<ItemSpan>, a: nat, b: nat, at: seq<nat>, sp: ItemSpan)
    requires LinesOfItems(lines, spans, a, b, at) && !(a <= sp.start < b)
    ensures LinesOfItems(lines, spans + [sp], a, b, at)
  {
    hide ItemShown;
    var all := spans + [sp];
    forall k | 0 <= k < |all| && a <= all[k].start && all[k].start < b ensures k in at {
      assert spans[k] == all[k];
    }
  }

  lemma {:induction false} ItemLinesSnoc(spans: seq<ItemSpan>, sp: ItemSpan, a: nat, b: nat)
    ensures ItemLines(spans + [sp], a, b)
         == ItemLines(spans, a, b) + if a <= sp.start < b then [ItemLine(sp)] else []
    ensures ItemShown(ItemLine(sp), sp)
  {
    if spans == [] {
      assert [] + [sp] == [sp] && [sp][1..] == [];
    } else {
      assert (spans + [sp])[0] == spans[0] && (spans + [sp])[1..] == spans[1..] + [sp];
      ItemLinesSnoc(spans[1..], sp, a, b);
    }
  }

  // The header of a tile lists the items that begin in it, as many as fit.
  lemma HeaderListsItems(spans: seq<ItemSpan>, a: nat, b: nat)
    ensures exists lines, at, n: nat ::
              && LinesOfItems(lines, spans, a, b, at) && n <= |lines| && GoIn(lines, n)
              && ItemHeader(spans, a, b) == Joined(lines[..n])
  {
    hide LinesOfItems, GoIn, Header, ItemLines, Joined;
    var at := ItemLinesFrom(spans, a, b);
    var lines := ItemLines(spans, a, b);
    HeaderFromStart(lines);
    var n: nat :| n <= |lines| && GoIn(lines, n) && Header(lines, []) == Joined(lines[..n]);
    assert LinesOfItems(lines, spans, a, b, at) && GoIn(lines, n) && ItemHeader(spans, a, b) == Joined(lines[..n]);
  }

  lemma HeaderFromStart(lines: seq<bytes>)
    ensures exists n: nat :: n <= |lines| && GoIn(lines, n) && Header(lines, []) == Joined(lines[..n])
  {
    hide GoIn, Header;
    HeaderFrom(lines, 0);
    var n: nat :| n <= |lines| && GoIn(lines, n) && Header(lines[0..], Joined(lines[..0])) == Joined(lines[..n]);
    assert lines[0..] == lines && Joined(lines[..0]) == [];
    assert Header(lines, []) == Joined(lines[..n]);
  }

  method BuildItemHeader(spans: seq<ItemSpan>, a: nat, b: nat) returns (header: bytes)
    ensures header == Header(ItemLines(spans, a, b), [])
  {
    header := [];
    var i := 0;
    while i < |spans|
      invariant i <= |spans|
      invariant Header(ItemLines(spans[i..], a, b), header) == Header(ItemLines(spans, a, b), [])
    {
      var sp := spans[i];
      assert spans[i..][0] == sp && spans[i..][1..] == spans[i + 1..];
      if a <= sp.start < b {
        var line := ItemLine(sp);
        HeaderTakes(line, ItemLines(spans[i + 1..], a, b), header);
        if header != [] && |header| + |line| > MAX_HEADER_CHARS { return; }
        if header != [] {
          header := header + [NEWLINE];
        }
        header := header + line;
      } else {
        assert [] + ItemLines(spans[i + 1..], a, b) == ItemLines(spans[i + 1..], a, b);
      }
      i := i + 1;
    }
  }

  lemma HeaderTakes(line: bytes, rest: seq<bytes>, header: bytes)
    ensures Header([line] + rest, header) ==
              if header != [] && |header| + |line| > MAX_HEADER_CHARS then header
              else Header(rest, (if header != [] then header + [NEWLINE] else []) + line)
  {
    assert ([line] + rest)[1..] == rest;
    assert [] + line == line;
  }

  function Prepend(header: bytes, text: bytes): bytes {
    if header == [] then text else header + [NEWLINE, NEWLINE] + text
  }

  lemma PrependKeepsBody(doc: bytes, p: Piece, header: bytes)
    requires EndsWithBody(doc, p)
    ensures EndsWithBody(doc, p.(text := Prepend(header, p.text)))
  {
    var n := p.end - p.start;
    var front := p.text[..|p.text| - n];
    assert p.text == front + p.text[|p.text| - n..];
    if header != [] {
      var text := Prepend(header, p.text);
      assert text == (header + [NEWLINE, NEWLINE] + front) + doc[p.start..p.end];
      assert text[|text| - n..] == doc[p.start..p.end];
    }
  }

  // ---------- item boundaries ----------

  ghost predicate CutPoints(bs: seq<nat>, doc: bytes) {
    && bs != [] && bs[0] == 0
    && (forall i :: 0 <= i < |bs| ==> bs[i] <= |doc| && Boundary(doc, bs[i]))
    && (forall i, j :: 0 <= i < j < |bs| ==> bs[i] <= bs[j])
  }

  function Dedup(bs: seq<nat>): seq<nat> {
    if |bs| < 2 then bs
    else if bs[|bs| - 2] == bs[|bs| - 1] then Dedup(bs[..|bs| - 1])
    else Dedup(bs[..|bs| - 1]) + [bs[|bs| - 1]]
  }

  lemma {:induction false} DedupCutPoints(bs: seq<nat>, doc: bytes)
    requires CutPoints(bs, doc)
    ensures CutPoints(Dedup(bs), doc) && Dedup(bs)[|Dedup(bs)| - 1] == bs[|bs| - 1]
  {
    if |bs| >= 2 {
      hide Boundary;
      var front := bs[..|bs| - 1];
      DedupCutPoints(front, doc);
      var d, last := Dedup(front), bs[|bs| - 1];
      assert CutPoints(d, doc) && d[|d| - 1] == bs[|bs| - 2] <= last;
      assert Dedup(bs) == if bs[|bs| - 2] == last then d else d + [last];
      hide Dedup;
      CutPointsSnoc(d, doc, last);
    }
  }

  lemma CutPointsSnoc(d: seq<nat>, doc: bytes, last: nat)
    requires CutPoints(d, doc) && d[|d| - 1] <= last <= |doc| && Boundary(doc, last)
    ensures CutPoints(d + [last], doc)
  {
    hide Boundary;
    forall i | 0 <= i < |d| ensures d[i] <= last {
      assert i == |d| - 1 || d[i] <= d[|d| - 1];
    }
  }

  // The item does not fit the chunk that starts at `cur`.
  predicate Overflows(sp: ItemSpan, total: nat, target: nat, cur: nat) {
    (if sp.end < total then sp.end else total) > cur + target && sp.start > cur
  }

  // The item starts that open a new chunk, the current one starting at `cur`.
  function Opens(spans: seq<ItemSpan>, total: nat, target: nat, cur: nat): seq<nat>
    decreases |spans|
  {
    if spans == [] then []
    else if Overflows(spans[0], total, target, cur)
    then [spans[0].start] + Opens(spans[1..], total, target, spans[0].start)
    else Opens(spans[1..], total, target, cur)
  }

  // The item begins after the chunk's start and reaches, inside the file, past its target.
  predicate PastTarget(sp: ItemSpan, total: nat, target: nat, cur: nat) {
    cur < sp.start && target < sp.end - cur && target < total - cur
  }

  // Adjacent small items share a chunk: a chunk is closed exactly by the first item
  // after which it would exceed the target, at that item's start.
  lemma {:induction false} OpensAtFirstOverflow(spans: seq<ItemSpan>, total: nat, target: nat, cur: nat)
    ensures var cuts := Opens(spans, total, target, cur);
            if cuts == [] then forall i :: 0 <= i < |spans| ==> !PastTarget(spans[i], total, target, cur)
            else exists k ::
              && 0 <= k < |spans| && PastTarget(spans[k], total, target, cur) && cuts[0] == spans[k].start
              && (forall i :: 0 <= i < k ==> !PastTarget(spans[i], total, target, cur))
              && cuts[1..] == Opens(spans[k + 1..], total, target, cuts[0])
    decreases |spans|
  {
    assert forall sp: ItemSpan, c: nat :: PastTarget(sp, total, target, c) <==> Overflows(sp, total, target, c);
    hide Overflows, PastTarget;
    if spans != [] && !PastTarget(spans[0], total, target, cur) {
      var rest := spans[1..];
      OpensAtFirstOverflow(rest, total, target, cur);
      var cuts := Opens(rest, total, target, cur);
      if cuts != [] {
        var k :| 0 <= k < |rest| && PastTarget(rest[k], total, target, cur) && cuts[0] == rest[k].start
                 && (forall i :: 0 <= i < k ==> !PastTarget(rest[i], total, target, cur))
                 && cuts[1..] == Opens(rest[k + 1..], total, target, cuts[0]);
        assert spans[k + 1] == rest[k] && spans[k + 1 + 1..] == rest[k + 1..];
        forall i | 0 <= i < k + 1 ensures !PastTarget(spans[i], total, target, cur) {
          if i > 0 { assert spans[i] == rest[i - 1]; }
        }
      } else {
        forall i | 0 <= i < |spans| ensures !PastTarget(spans[i], total, target, cur) {
          if i > 0 { assert spans[i] == rest[i - 1]; }
        }
      }
    }
  }

  function Boundaries(doc: bytes, spans: seq<ItemSpan>, cfg: Config): seq<nat> {
    Dedup([0] + Opens(spans, |doc|, cfg.Target(), 0) + [|doc|])
  }

  // The items, by position from `from` on, that open a new chunk, the current one starting
  // at `cur`: each is the first past the target of the chunk before it, and after the last
  // there is none.
  ghost predicate OpensFrom(ks: seq<nat>, spans: seq<ItemSpan>, total: nat, target: nat, from: nat, cur: nat)
    decreases |ks|
  {
    if ks == [] then forall j :: from <= j < |spans| ==> !PastTarget(spans[j], total, target, cur)
    else
      && from <= ks[0] < |spans| && PastTarget(spans[ks[0]], total, target, cur)
      && (forall j :: from <= j < ks[0] ==> !PastTarget(spans[j], total, target, cur))
      && OpensFrom(ks[1..], spans, total, target, ks[0] + 1, spans[ks[0]].start)
  }

  // Where the chunks opened by those items start.
  function StartsOf(ks: seq<nat>, spans: seq<ItemSpan>): seq<nat> {
    if ks == [] then []
    else [if ks[0] < |spans| then spans[ks[0]].start else 0] + StartsOf(ks[1..], spans)
  }

  ghost predicate Rising(bs: seq<nat>) {
    forall i :: 0 <= i < |bs| - 1 ==> bs[i] < bs[i + 1]
  }

  lemma {:induction false} OpenItems(spans: seq<ItemSpan>, total: nat, target: nat, from: nat, cur: nat) returns (ks: seq<nat>)
    requires from <= |spans|
    ensures OpensFrom(ks, spans, total, target, from, cur)
    ensures Opens(spans[from..], total, target, cur) == StartsOf(ks, spans)
    ensures Rising([cur] + StartsOf(ks, spans))
    decreases |spans| - from
  {
    if from == |spans| {
      ks := [];
    } else {
      assert spans[from..][0] == spans[from] && spans[from..][1..] == spans[from + 1..];
      if PastTarget(spans[from], total, target, cur) {
        var start := spans[from].start;
        var rest := OpenItems(spans, total, target, from + 1, start);
        ks := [from] + rest;
        assert ks[1..] == rest;
        RisingCons(cur, start, StartsOf(rest, spans));
      } else {
        ks := OpenItems(spans, total, target, from + 1, cur);
      }
    }
  }

  lemma RisingCons(a: nat, b: nat, rest: seq<nat>)
    requires a < b && Rising([b] + rest)
    ensures Rising([a] + ([b] + rest))
  {
    var all := [a] + ([b] + rest);
    forall i | 0 <= i < |all| - 1 ensures all[i] < all[i + 1] {
      if i > 0 { assert ([b] + rest)[i - 1] < ([b] + rest)[i]; }
    }
  }

  lemma {:induction false} DedupRising(bs: seq<nat>)
    requires Rising(bs)
    ensures Dedup(bs) == bs
  {
    if |bs| >= 2 {
      assert bs[|bs| - 2] < bs[|bs| - 1];
      DedupRising(bs[..|bs| - 1]);
      assert bs == bs[..|bs| - 1] + [bs[|bs| - 1]];
    }
  }

  // The boundaries are the start of the file, the starts of the items that open a chunk, and
  // the end of the file, once each.
  lemma BoundariesExactly(doc: bytes, spans: seq<ItemSpan>, cfg: Config)
    ensures exists ks ::
              && OpensFrom(ks, spans, |doc|, cfg.Target(), 0, 0)
              && var starts := [0] + StartsOf(ks, spans);
                 Boundaries(doc, spans, cfg) == if starts[|starts| - 1] == |doc| then starts else starts + [|doc|]
  {
    var ks := OpenItems(spans, |doc|, cfg.Target(), 0, 0);
    var starts := [0] + StartsOf(ks, spans);
    assert spans[0..] == spans;
    assert Boundaries(doc, spans, cfg) == Dedup(starts + [|doc|]);
    DedupEnd(starts, |doc|);
    hide Boundaries, Dedup, StartsOf, OpensFrom;
  }

  lemma DedupEnd(starts: seq<nat>, end: nat)
    requires starts != [] && Rising(starts)
    ensures Dedup(starts + [end]) == if starts[|starts| - 1] == end then starts else starts + [end]
  {
    DedupRising(starts);
    assert (starts + [end])[..|starts|] == starts;
  }

  method ItemBoundaries(doc: bytes, spans: seq<ItemSpan>, cfg: Config) returns (bs: seq<nat>)
    requires SpansInside(spans, doc)
    ensures bs == Boundaries(doc, spans, cfg)
    ensures CutPoints(bs, doc) && bs[|bs| - 1] == |doc|
  {
    hide Boundary;
    assert CutPoints([0], doc) by { EndsAreBoundaries(doc); }
    bs := [0];
    var curStart := 0;
    var i := 0;
    while i < |spans|
      invariant i <= |spans| && CutPoints(bs, doc) && bs[|bs| - 1] == curStart
      invariant bs + Opens(spans[i..], |doc|, cfg.Target(), curStart) == [0] + Opens(spans, |doc|, cfg.Target(), 0)
    {
      var sp := spans[i];
      assert spans[i..][0] == sp && spans[i..][1..] == spans[i + 1..];
      var end := if sp.end < |doc| then sp.end else |doc|;
      var since := if end > curStart then end - curStart else 0;
      if since > cfg.Target() && sp.start > curStart {
        assert bs + ([sp.start] + Opens(spans[i + 1..], |doc|, cfg.Target(), sp.start))
            == (bs + [sp.start]) + Opens(spans[i + 1..], |doc|, cfg.Target(), sp.start);
        bs := bs + [sp.start];
        curStart := sp.start;
      }
      i := i + 1;
    }
    assert bs + [] == bs;
    EndsAreBoundaries(doc);
    bs := bs + [|doc|];
    DedupCutPoints(bs, doc);
    bs := Dedup(bs);
  }

  // ---------- the item path ----------

  ghost predicate Chunked(out: seq<Piece>, doc: bytes, cfg: Config, count: Tokenizer, hi: nat) {
    Progress(out, doc, count, cfg.Cap(), Tightened(cfg, 3).Cap(), 0, hi)
  }

  lemma OneSettledPiece(doc: bytes, p: Piece, count: Tokenizer, size: nat, hot: nat)
    requires p.start < p.end && Boundary(doc, p.start) && Boundary(doc, p.end) && EndsWithBody(doc, p)
    requires p.end - p.start <= size && p.tokens == count(p.text) <= MAX_SAFE_BODY_TOKENS
    ensures Progress([p], doc, count, size, hot, p.start, p.end)
  {
  }

  lemma BodyEndsWithBody(doc: bytes, a: nat, b: nat)
    requires a <= b && Boundary(doc, a) && Boundary(doc, b)
    ensures b <= |doc| && EndsWithBody(doc, Piece(a, b, doc[a..b], 0))
  {
  }

  function ItemHeader(spans: seq<ItemSpan>, a: nat, b: nat): bytes {
    Header(ItemLines(spans, a, b), [])
  }

  // The piece carries the header, unless with it the text up to some later cut would
  // tokenize past the ceiling.
  ghost predicate Headed(p: Piece, doc: bytes, header: bytes, b: nat, count: Tokenizer)
    requires p.start <= p.end <= |doc| && b <= |doc|
  {
    || p.text == Prepend(header, doc[p.start..p.end])
    || exists c: nat :: p.end <= c <= b && count(Prepend(header, doc[p.start..c])) > MAX_SAFE_BODY_TOKENS
  }

  // A tile opens with a headed piece.
  ghost predicate OpensHeaded(out: seq<Piece>, doc: bytes, header: bytes, b: nat, count: Tokenizer) {
    out != [] && out[0].start <= out[0].end <= b <= |doc| && Headed(out[0], doc, header, b, count)
  }

  // The header goes on the first piece only.
  function WithHeader(subs: seq<Piece>, header: bytes): (r: seq<Piece>)
    ensures |r| == |subs|
  {
    if subs == [] then [] else [subs[0].(text := Prepend(header, subs[0].text))] + subs[1..]
  }

  // What an item tile becomes: one headed piece if that fits the cap and the ceiling, else
  // its line pieces, the first of them headed, each settled in turn.
  ghost predicate ItemTiled(out: seq<Piece>, doc: bytes, header: bytes, a: nat, b: nat, cfg: Config, count: Tokenizer) {
    && a <= b <= |doc|
    && var whole := Prepend(header, doc[a..b]);
       if b - a <= cfg.Cap() && count(whole) <= MAX_SAFE_BODY_TOKENS then out == [Piece(a, b, whole, count(whole))]
       else exists subs :: LineRange(subs, doc, cfg, a, b)
                        && SettledAs(out, WithHeader(subs, header), doc, cfg, count, 0)
  }

  lemma HeadedAt(subs: seq<Piece>, header: bytes, i: nat)
    requires i < |subs|
    ensures WithHeader(subs, header)[i] == subs[i].(text := if i == 0 then Prepend(header, subs[i].text) else subs[i].text)
  {
    if i > 0 { assert subs[1..][i - 1] == subs[i]; }
  }

  lemma NoHeader(subs: seq<Piece>)
    ensures WithHeader(subs, []) == subs
  {
  }

  lemma ItemSplit(out: seq<Piece>, subs: seq<Piece>, doc: bytes, header: bytes, a: nat, b: nat, cfg: Config, count: Tokenizer)
    requires a <= b <= |doc| && LineRange(subs, doc, cfg, a, b)
    requires b - a > cfg.Cap() || count(Prepend(header, doc[a..b])) > MAX_SAFE_BODY_TOKENS
    requires SettledAs(out, WithHeader(subs, header), doc, cfg, count, 0)
    ensures ItemTiled(out, doc, header, a, b, cfg, count)
  {
    hide SettledAs, WithHeader, LineRange;
  }

  method ItemTile(doc: bytes, spans: seq<ItemSpan>, a: nat, b: nat, cfg: Config, count: Tokenizer) returns (out: seq<Piece>)
    requires Valid(doc) && cfg.Cap() >= 4 && a < b && Boundary(doc, a) && Boundary(doc, b)
    ensures Progress(out, doc, count, cfg.Cap(), Tightened(cfg, 3).Cap(), a, b)
    ensures OpensHeaded(out, doc, ItemHeader(spans, a, b), b, count)
    ensures ItemTiled(out, doc, ItemHeader(spans, a, b), a, b, cfg, count)
  {
    hide Progress, EndsWithBody, Boundary, Valid, Tightened, Config.Cap, Prepend, RawPieces, SettledAs, LineRange, WithHeader;
    BodyEndsWithBody(doc, a, b);
    var header := BuildItemHeader(spans, a, b);
    var body := doc[a..b];
    if b - a <= cfg.Cap() {
      var embed := Prepend(header, body);
      var tokens := count(embed);
      if tokens <= MAX_SAFE_BODY_TOKENS {
        PrependKeepsBody(doc, Piece(a, b, body, 0), header);
        var p := Piece(a, b, embed, tokens);
        EndsIgnoresTokens(doc, Piece(a, b, embed, 0), tokens);
        OneSettledPiece(doc, p, count, cfg.Cap(), Tightened(cfg, 3).Cap());
        out := [p];
        return;
      }
    }
    var subs := ChunkRange(doc, a, b, cfg);
    out := ItemSubPieces(doc, a, b, subs, header, cfg, count);
    ItemSplit(out, subs, doc, header, a, b, cfg, count);
  }

  lemma EndsIgnoresTokens(doc: bytes, p: Piece, tokens: nat)
    requires EndsWithBody(doc, p)
    ensures EndsWithBody(doc, p.(tokens := tokens))
  {
  }

  lemma OpensHeadedGrows(out: seq<Piece>, more: seq<Piece>, doc: bytes, header: bytes, b: nat, count: Tokenizer)
    ensures OpensHeaded(out, doc, header, b, count) ==> OpensHeaded(out + more, doc, header, b, count)
    ensures out == [] ==> out + more == more
  {
  }

  lemma FirstHeaded(subs: seq<Piece>, more: seq<Piece>, doc: bytes, header: bytes, cfg: Config, count: Tokenizer, hot: nat,
                    a: nat, b: nat)
    requires subs != [] && RawPieces(subs, doc, cfg.Cap(), a, b)
    requires Progress(more, doc, count, cfg.Cap(), hot, a, subs[0].end) && a < subs[0].end
    requires var embed := Prepend(header, subs[0].text);
             count(embed) <= MAX_SAFE_BODY_TOKENS ==> more == [Piece(a, subs[0].end, embed, count(embed))]
    ensures OpensHeaded(more, doc, header, b, count)
  {
    var c := subs[0].end;
    TilesStay(subs, doc, a, b, 0);
    TilesStay(more, doc, a, c, 0);
    assert b <= |doc| && more[0].start == a;
    hide RawPieces, Progress, Tiles, Prepend;
    assert c <= b && more[0].end <= c;
    assert subs[0].text == doc[a..c];
  }

  // Settle the line pieces of an item, the header going on the first one only.
  method ItemSubPieces(doc: bytes, a: nat, b: nat, subs: seq<Piece>, header: bytes, cfg: Config, count: Tokenizer)
    returns (out: seq<Piece>)
    requires Valid(doc) && a < b && RawPieces(subs, doc, cfg.Cap(), a, b)
    ensures Progress(out, doc, count, cfg.Cap(), Tightened(cfg, 3).Cap(), a, b)
    ensures OpensHeaded(out, doc, header, b, count)
    ensures SettledAs(out, WithHeader(subs, header), doc, cfg, count, 0)
  {
    ghost var headed := WithHeader(subs, header);
    hide *;
    NothingSettled(headed, doc, cfg, count, 0);
    assert headed[..|subs|] == headed;
    ghost var hot := Tightened(cfg, 3).Cap();
    ProgressStart(subs, doc, cfg.Cap(), count, cfg.Cap(), hot, a, b);
    out := [];
    var i := 0;
    while i < |subs|
      invariant i <= |subs|
      invariant Progress(out, doc, count, cfg.Cap(), hot, a, if i == 0 then a else subs[i - 1].end)
      invariant if i == 0 then out == [] else OpensHeaded(out, doc, header, b, count)
      invariant SettledAs(out, headed[..i], doc, cfg, count, 0)
    {
      RawPieceAt(subs, doc, cfg.Cap(), a, b, i);
      PrependKeepsBody(doc, subs[i], header);
      var p := subs[i];
      assert p.(text := p.text) == p;
      var embed := if i == 0 then Prepend(header, p.text) else p.text;
      var more := Resettle(doc, p, embed, cfg, count, 0, hot, cfg.Cap());
      HeadedAt(subs, header, i);
      SettledNext(out, more, headed, i, doc, cfg, count, 0);
      ProgressStep(out, more, doc, count, cfg.Cap(), hot, a, p.start, p.end);
      if i == 0 {
        FirstHeaded(subs, more, doc, header, cfg, count, hot, a, b);
      }
      OpensHeadedGrows(out, more, doc, header, b, count);
      out := out + more;
      i := i + 1;
    }
    RawPieceAt(subs, doc, cfg.Cap(), a, b, i);
  }

  // Some piece opens the tile `[a, b)` with the header of the items that begin in it.
  ghost predicate TileHeaded(out: seq<Piece>, doc: bytes, spans: seq<ItemSpan>, a: nat, b: nat, count: Tokenizer) {
    exists j :: 0 <= j < |out| && out[j].start == a && OpensHeaded(out[j..], doc, ItemHeader(spans, a, b), b, count)
  }

  ghost predicate HeadersShown(out: seq<Piece>, doc: bytes, spans: seq<ItemSpan>, bs: seq<nat>, n: int, count: Tokenizer)
    requires n <= |bs|
  {
    forall k :: 0 < k < n && bs[k - 1] < bs[k] ==> TileHeaded(out, doc, spans, bs[k - 1], bs[k], count)
  }

  lemma TileHeadedGrows(out: seq<Piece>, more: seq<Piece>, doc: bytes, spans: seq<ItemSpan>, a: nat, b: nat, count: Tokenizer)
    requires TileHeaded(out, doc, spans, a, b, count)
    ensures TileHeaded(out + more, doc, spans, a, b, count)
  {
    var header := ItemHeader(spans, a, b);
    var j :| 0 <= j < |out| && out[j].start == a && OpensHeaded(out[j..], doc, header, b, count);
    OpensHeadedGrows(out[j..], more, doc, header, b, count);
    hide OpensHeaded, ItemHeader;
    var all := out + more;
    assert all[j..] == out[j..] + more && all[j] == out[j] by { DropOfSum(out, more, j); }
    assert OpensHeaded(all[j..], doc, header, b, count);
  }

  lemma DropOfSum(out: seq<Piece>, more: seq<Piece>, j: nat)
    requires j < |out|
    ensures (out + more)[j..] == out[j..] + more && (out + more)[j] == out[j]
  {
  }

  lemma TileHeadedNow(out: seq<Piece>, more: seq<Piece>, doc: bytes, spans: seq<ItemSpan>, a: nat, b: nat, count: Tokenizer)
    requires more != [] && more[0].start == a && OpensHeaded(more, doc, ItemHeader(spans, a, b), b, count)
    ensures TileHeaded(out + more, doc, spans, a, b, count)
  {
    hide OpensHeaded, ItemHeader;
    assert (out + more)[|out|..] == more && (out + more)[|out|].start == a;
  }

  lemma HeadersGrow(out: seq<Piece>, more: seq<Piece>, doc: bytes, spans: seq<ItemSpan>, bs: seq<nat>, i: nat, count: Tokenizer)
    requires 0 < i < |bs| && HeadersShown(out, doc, spans, bs, i, count)
    requires bs[i - 1] < bs[i] ==> TileHeaded(out + more, doc, spans, bs[i - 1], bs[i], count)
    ensures HeadersShown(out + more, doc, spans, bs, i + 1, count)
  {
    hide TileHeaded;
    forall k | 0 < k < i + 1 && bs[k - 1] < bs[k]
      ensures TileHeaded(out + more, doc, spans, bs[k - 1], bs[k], count)
    {
      if k < i { TileHeadedGrows(out, more, doc, spans, bs[k - 1], bs[k], count); }
    }
  }

  // The first `n - 1` tiles, one after the other.
  ghost predicate TiledAs(out: seq<Piece>, doc: bytes, spans: seq<ItemSpan>, bs: seq<nat>, n: nat, cfg: Config, count: Tokenizer)
    requires n <= |bs|
    decreases n
  {
    if n <= 1 then out == []
    else
      var a, b := bs[n - 2], bs[n - 1];
      exists m :: 0 <= m <= |out| && TiledAs(out[..m], doc, spans, bs, n - 1, cfg, count)
               && if a < b then ItemTiled(out[m..], doc, ItemHeader(spans, a, b), a, b, cfg, count) else out[m..] == []
  }

  lemma TiledStep(out: seq<Piece>, more: seq<Piece>, doc: bytes, spans: seq<ItemSpan>, bs: seq<nat>, n: nat, cfg: Config,
                  count: Tokenizer)
    requires 0 < n < |bs| && TiledAs(out, doc, spans, bs, n, cfg, count)
    requires var a, b := bs[n - 1], bs[n];
             if a < b then ItemTiled(more, doc, ItemHeader(spans, a, b), a, b, cfg, count) else more == []
    ensures TiledAs(out + more, doc, spans, bs, n + 1, cfg, count)
  {
    assert (out + more)[..|out|] == out && (out + more)[|out|..] == more;
    hide ItemTiled, ItemHeader;
  }

  lemma ChunkedStep(out: seq<Piece>, more: seq<Piece>, doc: bytes, cfg: Config, count: Tokenizer, a: nat, b: nat)
    requires Chunked(out, doc, cfg, count, a) && Progress(more, doc, count, cfg.Cap(), Tightened(cfg, 3).Cap(), a, b)
    ensures Chunked(out + more, doc, cfg, count, b)
  {
    hide Progress, Config.Cap, Tightened;
    ProgressStep(out, more, doc, count, cfg.Cap(), Tightened(cfg, 3).Cap(), 0, a, b);
  }

  lemma NoTilesYet(doc: bytes, spans: seq<ItemSpan>, cfg: Config, count: Tokenizer, bs: seq<nat>)
    requires bs != [] && Boundary(doc, 0)
    ensures Chunked([], doc, cfg, count, 0) && HeadersShown([], doc, spans, bs, 1, count)
    ensures TiledAs([], doc, spans, bs, 1, cfg, count)
  {
  }

  lemma CutPointAt(bs: seq<nat>, doc: bytes, i: nat)
    requires CutPoints(bs, doc) && 0 < i < |bs|
    ensures bs[0] == 0 && bs[i - 1] <= bs[i] <= |doc| && Boundary(doc, bs[i - 1]) && Boundary(doc, bs[i])
  {
  }

  method ChunkByItems(doc: bytes, spans: seq<ItemSpan>, cfg: Config, count: Tokenizer) returns (out: seq<Piece>)
    requires Valid(doc) && cfg.Cap() >= 4 && SpansInside(spans, doc)
    ensures Chunked(out, doc, cfg, count, |doc|)
    ensures var bs := Boundaries(doc, spans, cfg);
            HeadersShown(out, doc, spans, bs, |bs|, count) && TiledAs(out, doc, spans, bs, |bs|, cfg, count)
  {
    var bs := ItemBoundaries(doc, spans, cfg);
    assert bs != [] && bs[0] == 0;
    EndsAreBoundaries(doc);
    hide *;
    out := [];
    NoTilesYet(doc, spans, cfg, count, bs);
    var i := 1;
    while i < |bs|
      invariant 1 <= i <= |bs| && Chunked(out, doc, cfg, count, bs[i - 1])
      invariant HeadersShown(out, doc, spans, bs, i, count)
      invariant TiledAs(out, doc, spans, bs, i, cfg, count)
    {
      var a, b := bs[i - 1], bs[i];
      CutPointAt(bs, doc, i);
      if a < b {
        var more := ItemTile(doc, spans, a, b, cfg, count);
        NextTile(out, more, doc, spans, bs, i, cfg, count);
        out := out + more;
      } else {
        EmptyTile(out, doc, spans, bs, i, cfg, count);
      }
      i := i + 1;
    }
  }

  lemma NextTile(out: seq<Piece>, more: seq<Piece>, doc: bytes, spans: seq<ItemSpan>, bs: seq<nat>, i: nat, cfg: Config,
                 count: Tokenizer)
    requires 0 < i < |bs| && bs[i - 1] < bs[i]
    requires Chunked(out, doc, cfg, count, bs[i - 1]) && HeadersShown(out, doc, spans, bs, i, count)
    requires TiledAs(out, doc, spans, bs, i, cfg, count)
    requires Progress(more, doc, count, cfg.Cap(), Tightened(cfg, 3).Cap(), bs[i - 1], bs[i])
    requires var header := ItemHeader(spans, bs[i - 1], bs[i]);
             OpensHeaded(more, doc, header, bs[i], count) && ItemTiled(more, doc, header, bs[i - 1], bs[i], cfg, count)
    ensures Chunked(out + more, doc, cfg, count, bs[i]) && HeadersShown(out + more, doc, spans, bs, i + 1, count)
    ensures TiledAs(out + more, doc, spans, bs, i + 1, cfg, count)
  {
    hide *;
    ChunkedStep(out, more, doc, cfg, count, bs[i - 1], bs[i]);
    FirstStarts(more, doc, count, cfg, bs[i - 1], bs[i]);
    TileHeadedNow(out, more, doc, spans, bs[i - 1], bs[i], count);
    HeadersGrow(out, more, doc, spans, bs, i, count);
    TiledStep(out, more, doc, spans, bs, i, cfg, count);
  }

  lemma EmptyTile(out: seq<Piece>, doc: bytes, spans: seq<ItemSpan>, bs: seq<nat>, i: nat, cfg: Config, count: Tokenizer)
    requires 0 < i < |bs| && bs[i - 1] == bs[i] && HeadersShown(out, doc, spans, bs, i, count)
    requires TiledAs(out, doc, spans, bs, i, cfg, count)
    ensures HeadersShown(out, doc, spans, bs, i + 1, count) && TiledAs(out, doc, spans, bs, i + 1, cfg, count)
  {
    hide *;
    HeadersGrow(out, [], doc, spans, bs, i, count);
    TiledStep(out, [], doc, spans, bs, i, cfg, count);
    assert out + [] == out;
  }

  lemma FirstStarts(more: seq<Piece>, doc: bytes, count: Tokenizer, cfg: Config, a: nat, b: nat)
    requires Progress(more, doc, count, cfg.Cap(), Tightened(cfg, 3).Cap(), a, b) && a < b
    ensures more != [] && more[0].start == a
  {
  }

  // ---------- the document ----------

  datatype Chunk = Chunk(content: bytes, index: nat, total: nat, bodyStart: nat, bodyEnd: nat, tokens: nat)

  datatype Items = NoOutline | Outline(spans: seq<ItemSpan>)

  function AsPiece(c: Chunk): Piece {
    Piece(c.bodyStart, c.bodyEnd, c.content, c.tokens)
  }

  function AsPieces(cs: seq<Chunk>): (r: seq<Piece>)
    ensures |r| == |cs|
  {
    seq(|cs|, i requires 0 <= i < |cs| => AsPiece(cs[i]))
  }

  predicate Numbered(cs: seq<Chunk>) {
    forall i :: 0 <= i < |cs| ==> cs[i].index == i && cs[i].total == |cs|
  }

  // The line path: the line pieces of the document, each settled in turn.
  method ChunkPlain(doc: bytes, cfg: Config, count: Tokenizer) returns (out: seq<Piece>)
    requires Valid(doc) && cfg.Cap() >= 4 && doc != []
    ensures Chunked(out, doc, cfg, count, |doc|)
    ensures exists ps :: LinePieces(ps, doc, cfg, |doc|) && SettledAs(out, ps, doc, cfg, count, 0)
  {
    EndsAreBoundaries(doc);
    hide Valid, Boundary, Progress, RawPieces, Config.Cap, Tightened, OpensHeaded, SettledAs, LineRange, LinePieces, WithHeader;
    var raw := ChunkRange(doc, 0, |doc|, cfg);
    WholeRange(raw, doc, cfg);
    NoHeader(raw);
    out := ItemSubPieces(doc, 0, |doc|, raw, [], cfg, count);
  }

  // Small documents are one chunk; all others are tiled within the cap, and what still
  // tokenizes past the ceiling is within the three times tightened cap.
  method ChunkDocument(doc: bytes, items: Items, cfg: Config, count: Tokenizer) returns (cs: seq<Chunk>)
    requires Valid(doc) && cfg.Cap() >= 4 && (items.Outline? ==> SpansInside(items.spans, doc))
    ensures Numbered(cs)
    ensures |doc| / 3 <= cfg.tokenThreshold ==> cs == [Chunk(doc, 0, 1, 0, |doc|, |doc| / 3)]
    ensures |doc| / 3 > cfg.tokenThreshold ==> Chunked(AsPieces(cs), doc, cfg, count, |doc|)
    ensures |doc| / 3 > cfg.tokenThreshold && items.Outline? && items.spans != [] ==>
              var bs := Boundaries(doc, items.spans, cfg);
              HeadersShown(AsPieces(cs), doc, items.spans, bs, |bs|, count)
              && TiledAs(AsPieces(cs), doc, items.spans, bs, |bs|, cfg, count)
    ensures |doc| / 3 > cfg.tokenThreshold && !(items.Outline? && items.spans != []) ==>
              exists ps :: LinePieces(ps, doc, cfg, |doc|) && SettledAs(AsPieces(cs), ps, doc, cfg, count, 0)
  {
    var upperBound := |doc| / 3;
    if upperBound <= cfg.tokenThreshold {
      return [Chunk(doc, 0, 1, 0, |doc|, upperBound)];
    }
    assert doc != [];
    hide *;
    var safe: seq<Piece>;
    if items.Outline? && items.spans != [] {
      safe := ChunkByItems(doc, items.spans, cfg, count);
    } else {
      safe := ChunkPlain(doc, cfg, count);
    }
    AsPiecesNumber(safe);
    return Number(safe);
  }

  function Number(ps: seq<Piece>): (cs: seq<Chunk>)
    ensures |cs| == |ps|
    ensures forall i :: 0 <= i < |cs| ==> cs[i].index == i && cs[i].total == |cs|
  {
    seq(|ps|, i requires 0 <= i < |ps| => Chunk(ps[i].text, i, |ps|, ps[i].start, ps[i].end, ps[i].tokens))
  }

  lemma AsPiecesNumber(ps: seq<Piece>)
    ensures AsPieces(Number(ps)) == ps
  {
  }

  lemma EndsAreBoundaries(s: bytes)
    ensures Boundary(s, 0) && Boundary(s, |s|)
  {
  }

  // What the index relies on: bodies tile the file, so re-reading them by offset from
  // disk gives back the file, each body being well-formed text within the cap.
  lemma ChunksTileTheFile(cs: seq<Chunk>, doc: bytes, cfg: Config, count: Tokenizer)
    requires Valid(doc) && doc != [] && Chunked(AsPieces(cs), doc, cfg, count, |doc|)
    ensures cs != [] && cs[0].bodyStart == 0 && cs[|cs| - 1].bodyEnd == |doc|
    ensures forall i :: 0 <= i < |cs| - 1 ==> cs[i].bodyEnd == cs[i + 1].bodyStart
    ensures forall i :: 0 <= i < |cs| ==>
              && cs[i].bodyStart < cs[i].bodyEnd <= |doc| && cs[i].bodyEnd - cs[i].bodyStart <= cfg.Cap()
              && Valid(doc[cs[i].bodyStart..cs[i].bodyEnd])
    ensures Bodies(AsPieces(cs), doc) == doc
  {
    var ps := AsPieces(cs);
    TilesRebuild(ps, doc, 0, |doc|);
    assert doc[0..|doc|] == doc;
    hide Valid, Boundary, EndsWithBody, Bodies, AsPieces;
    forall i | 0 <= i < |cs|
      ensures ps[i] == AsPiece(cs[i])
      ensures Valid(doc[ps[i].start..ps[i].end])
    {
      PieceOfChunk(cs, i);
      TilesWellFormed(ps, doc, 0, |doc|, i);
    }
    PiecesMeet(ps, doc, cfg, count);
  }

  lemma PieceOfChunk(cs: seq<Chunk>, i: nat)
    requires i < |cs|
    ensures AsPieces(cs)[i] == AsPiece(cs[i])
  {
  }

  lemma PiecesMeet(ps: seq<Piece>, doc: bytes, cfg: Config, count: Tokenizer)
    requires doc != [] && Chunked(ps, doc, cfg, count, |doc|)
    ensures ps != [] && ps[0].start == 0 && ps[|ps| - 1].end == |doc|
    ensures forall i :: 0 <= i < |ps| - 1 ==> ps[i].end == ps[i + 1].start
    ensures forall i :: 0 <= i < |ps| ==> ps[i].start < ps[i].end <= |doc| && ps[i].end - ps[i].start <= cfg.Cap()
  {
  }

  // A cap below the longest character breaks the line splitter: in a text of four-byte
  // characters without a line feed its floor is the start itself, so the cut it is pushed
  // on to, one byte further, falls inside the first character.
  lemma CapBelowFourCutsACharacter(cfg: Config)
    requires cfg.Cap() < 4
    ensures var s: bytes := [0xF0, 0x9F, 0x98, 0x80, 0xF0, 0x9F, 0x98, 0x80];
            && Valid(s) && |s| > cfg.Cap() && NoNewline(s, 0, |s|)
            && IsFloor(s, cfg.Target(), 0) && IsFloor(s, cfg.Cap(), 0)
            && !Boundary(s, 1) && forall cut: nat :: !LineCut(s, cfg, 0, cut)
  {
    var s: bytes := [0xF0, 0x9F, 0x98, 0x80, 0xF0, 0x9F, 0x98, 0x80];
    assert s[4..] == [0xF0, 0x9F, 0x98, 0x80];
    assert s[4..][4..] == [];
    assert !Boundary(s, 1) && !Boundary(s, 2) && !Boundary(s, 3);
    assert cfg.Target() <= cfg.Cap();
    forall hard | IsFloor(s, cfg.Cap(), hard) ensures hard == 0 {}
  }
}
