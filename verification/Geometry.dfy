// From a source line to the chunk that holds it.
module Geometry {
  import opened Text
  import opened Utf8
  import opened Chunking
  import opened Documents

  datatype Stub = Stub(id: string, offset: nat, length: nat)

  // ---------- lines ----------

  function Newlines(s: bytes): nat {
    if s == [] then 0 else Newlines(s[..|s| - 1]) + if s[|s| - 1] == NEWLINE then 1 else 0
  }

  // Byte offset of each line: the first is 0, and every line feed opens another.
  function Starts(s: bytes): (r: seq<nat>)
    ensures r != []
  {
    if s == [] then [0]
    else Starts(s[..|s| - 1]) + if s[|s| - 1] == NEWLINE then [|s|] else []
  }

  method LineStartOffsets(s: bytes) returns (starts: seq<nat>)
    ensures starts == Starts(s)
  {
    starts := [0];
    var i := 0;
    while i < |s|
      invariant i <= |s| && starts == Starts(s[..i])
    {
      assert s[..i + 1][..i] == s[..i];
      if s[i] == NEWLINE {
        starts := starts + [i + 1];
      }
      i := i + 1;
    }
    assert s[..|s|] == s;
  }

  // Line k + 1 starts after exactly k line feeds, the last of them just before it.
  lemma {:induction false} StartsMeaning(s: bytes)
    ensures |Starts(s)| == Newlines(s) + 1 && Starts(s)[0] == 0
    ensures forall k :: 0 <= k < |Starts(s)| ==>
              && Starts(s)[k] <= |s| && Newlines(s[..Starts(s)[k]]) == k
              && (k > 0 ==> Starts(s)[k] > 0 && s[Starts(s)[k] - 1] == NEWLINE)
    ensures forall j, k :: 0 <= j < k < |Starts(s)| ==> Starts(s)[j] < Starts(s)[k]
  {
    if s != [] {
      var front := s[..|s| - 1];
      StartsMeaning(front);
      assert forall n :: 0 <= n <= |front| ==> front[..n] == s[..n];
      assert s[..|s|] == s;
    }
  }

  // Clamped to the last line when the line number is past the end of the file.
  function ByteOffsetOfLine(starts: seq<nat>, line: nat): nat {
    if line == 0 || starts == [] then 0
    else starts[if line - 1 < |starts| then line - 1 else |starts| - 1]
  }

  lemma OffsetMonotone(s: bytes, line: nat, line': nat)
    requires line <= line'
    ensures ByteOffsetOfLine(Starts(s), line) <= ByteOffsetOfLine(Starts(s), line')
  {
    StartsMeaning(s);
  }

  // ---------- chunks ----------

  predicate Covers(g: Stub, byteOffset: nat) {
    g.offset <= byteOffset < g.offset + g.length
  }

  function FirstCovering(geom: seq<Stub>, at: nat): (r: Option<nat>)
    ensures r.Some? ==> r.value < |geom| && Covers(geom[r.value], at)
    ensures r.Some? ==> forall j :: 0 <= j < r.value ==> !Covers(geom[j], at)
    ensures r.None? ==> forall j :: 0 <= j < |geom| ==> !Covers(geom[j], at)
  {
    if geom == [] then None
    else if Covers(geom[0], at) then Some(0)
    else
      match FirstCovering(geom[1..], at)
      case None =>
        assert forall j :: 0 < j < |geom| ==> geom[j] == geom[1..][j - 1];
        None
      case Some(i) =>
        assert forall j :: 0 < j < i + 1 ==> geom[j] == geom[1..][j - 1];
        Some(i + 1)
  }

  // The stub with the greatest offset at or before `at`; the last such on a tie.
  function LastBelow(geom: seq<Stub>, at: nat): (r: Option<nat>)
    ensures r.Some? ==> r.value < |geom| && geom[r.value].offset <= at
    ensures r.Some? ==> forall j :: 0 <= j < |geom| && geom[j].offset <= at ==>
              geom[j].offset < geom[r.value].offset || (geom[j].offset == geom[r.value].offset && j <= r.value)
    ensures r.None? ==> forall j :: 0 <= j < |geom| ==> geom[j].offset > at
  {
    if geom == [] then None
    else
      var n := |geom| - 1;
      var best := LastBelow(geom[..n], at);
      if geom[n].offset <= at && (best.None? || geom[best.value].offset <= geom[n].offset) then Some(n) else best
  }

  // Position in `geom` of the stub a byte is mapped to.
  function StubForByte(geom: seq<Stub>, at: nat): Option<nat> {
    var covering := FirstCovering(geom, at);
    if covering.Some? then covering else LastBelow(geom, at)
  }

  // Whatever the chunks, a byte goes to the first one that covers it; a byte that none
  // covers to the one that starts last at or before it, and to none if all start later.
  lemma StubForByteMeaning(geom: seq<Stub>, at: nat)
    ensures match StubForByte(geom, at)
            case None => forall j :: 0 <= j < |geom| ==> geom[j].offset > at
            case Some(i) =>
              && i < |geom| && geom[i].offset <= at
              && if Covers(geom[i], at) then forall j :: 0 <= j < i ==> !Covers(geom[j], at)
                 else forall j :: 0 <= j < |geom| ==>
                   && !Covers(geom[j], at)
                   && (geom[j].offset <= at ==> geom[j].offset <= geom[i].offset)
                   && (geom[j].offset == geom[i].offset ==> j <= i)
  {
  }

  ghost predicate GeometryTiles(geom: seq<Stub>, total: nat) {
    && geom != [] && geom[0].offset == 0
    && geom[|geom| - 1].offset + geom[|geom| - 1].length == total
    && (forall i :: 0 <= i < |geom| ==> geom[i].length > 0)
    && (forall i :: 0 <= i < |geom| - 1 ==> geom[i].offset + geom[i].length == geom[i + 1].offset)
  }

  function GeometryOf(cs: seq<Chunk>, idOf: nat -> string): (geom: seq<Stub>)
    ensures |geom| == |cs|
  {
    seq(|cs|, i requires 0 <= i < |cs| =>
      Stub(idOf(cs[i].index), cs[i].bodyStart,
           if cs[i].bodyStart <= cs[i].bodyEnd then cs[i].bodyEnd - cs[i].bodyStart else 0))
  }

  // What the chunker emits for a non-empty file is a tiling in this sense.
  lemma ChunkerGivesTiling(cs: seq<Chunk>, doc: bytes, cfg: Chunking.Config, count: Tokenizer, idOf: nat -> string)
    requires Valid(doc) && doc != []
    requires cs == [Chunk(doc, 0, 1, 0, |doc|, |doc| / 3)] || Chunked(AsPieces(cs), doc, cfg, count, |doc|)
    ensures GeometryTiles(GeometryOf(cs, idOf), |doc|)
  {
    hide Chunked, Valid, AsPieces, Bodies, GeometryOf, GeometryTiles, Config.Cap;
    if Chunked(AsPieces(cs), doc, cfg, count, |doc|) {
      ChunksTileTheFile(cs, doc, cfg, count);
    }
    GeometryFromBounds(cs, |doc|, idOf);
  }

  lemma GeometryFromBounds(cs: seq<Chunk>, total: nat, idOf: nat -> string)
    requires cs != [] && cs[0].bodyStart == 0 && cs[|cs| - 1].bodyEnd == total
    requires forall i :: 0 <= i < |cs| - 1 ==> cs[i].bodyEnd == cs[i + 1].bodyStart
    requires forall i :: 0 <= i < |cs| ==> cs[i].bodyStart < cs[i].bodyEnd
    ensures GeometryTiles(GeometryOf(cs, idOf), total)
  {
  }

  lemma {:induction false} OffsetsIncrease(geom: seq<Stub>, total: nat, i: nat, j: nat)
    requires GeometryTiles(geom, total) && i < j < |geom|
    ensures geom[i].offset + geom[i].length <= geom[j].offset
    decreases j
  {
    if i + 1 < j { OffsetsIncrease(geom, total, i, j - 1); }
  }

  lemma {:induction false} SomeChunkCovers(geom: seq<Stub>, total: nat, at: nat, n: nat) returns (i: nat)
    requires GeometryTiles(geom, total) && n < |geom| && at < geom[n].offset + geom[n].length
    ensures i <= n && Covers(geom[i], at)
  {
    if at >= geom[n].offset { return n; }
    assert geom[n - 1].offset + geom[n - 1].length == geom[n - 1 + 1].offset;
    i := SomeChunkCovers(geom, total, at, n - 1);
  }

  // On a tiling a byte of the file is mapped to the one chunk that holds it, and a byte
  // past the end to the last chunk.
  lemma StubForByteOnTiling(geom: seq<Stub>, total: nat, at: nat)
    requires GeometryTiles(geom, total)
    ensures var r := StubForByte(geom, at);
            && r.Some? && r.value < |geom|
            && (at < total ==> forall i :: 0 <= i < |geom| ==> (Covers(geom[i], at) <==> i == r.value))
            && (at >= total ==> r.value == |geom| - 1)
  {
    var last := |geom| - 1;
    forall i, j | 0 <= i < j < |geom| ensures geom[i].offset + geom[i].length <= geom[j].offset {
      OffsetsIncrease(geom, total, i, j);
    }
    if at < total {
      var i := SomeChunkCovers(geom, total, at, last);
    } else {
      assert forall i :: 0 <= i < |geom| ==> !Covers(geom[i], at);
    }
  }

  lemma StubMonotone(geom: seq<Stub>, total: nat, at: nat, at': nat)
    requires GeometryTiles(geom, total) && at <= at'
    ensures StubForByte(geom, at).value <= StubForByte(geom, at').value
  {
    StubForByteOnTiling(geom, total, at);
    StubForByteOnTiling(geom, total, at');
    var r, r' := StubForByte(geom, at).value, StubForByte(geom, at').value;
    if at' < total {
      assert Covers(geom[r], at) && Covers(geom[r'], at');
      if r' < r { OffsetsIncrease(geom, total, r', r); }
    }
  }

  function StubOfLine(geom: seq<Stub>, doc: bytes, line: nat): Option<nat> {
    StubForByte(geom, ByteOffsetOfLine(Starts(doc), line))
  }

  // A line of the file goes to the unique chunk holding its first byte, or to the last
  // chunk when it is the empty line after a final line feed; later lines never go to
  // earlier chunks.
  lemma LineToChunk(geom: seq<Stub>, doc: bytes, line: nat, line': nat)
    requires GeometryTiles(geom, |doc|) && 1 <= line <= line'
    ensures var r := StubOfLine(geom, doc, line);
            var at := ByteOffsetOfLine(Starts(doc), line);
            && r.Some? && r.value < |geom| && StubOfLine(geom, doc, line').Some?
            && (line <= Newlines(doc) + 1 ==> at <= |doc| && Newlines(doc[..at]) == line - 1)
            && (at < |doc| ==> forall i :: 0 <= i < |geom| ==> (Covers(geom[i], at) <==> i == r.value))
            && (at == |doc| ==> r.value == |geom| - 1)
            && r.value <= StubOfLine(geom, doc, line').value
  {
    StartsMeaning(doc);
    OffsetMonotone(doc, line, line');
    var at, at' := ByteOffsetOfLine(Starts(doc), line), ByteOffsetOfLine(Starts(doc), line');
    StubForByteOnTiling(geom, |doc|, at);
    StubForByteOnTiling(geom, |doc|, at');
    StubMonotone(geom, |doc|, at, at');
  }

  // A line past the end of the file is mapped to the last chunk exactly when the last
  // line starts in the last chunk.
  lemma PastTheEnd(geom: seq<Stub>, doc: bytes, line: nat)
    requires GeometryTiles(geom, |doc|) && line > |Starts(doc)|
    ensures var lastStart := Starts(doc)[|Starts(doc)| - 1];
            StubOfLine(geom, doc, line) == Some(|geom| - 1) <==> lastStart >= geom[|geom| - 1].offset
  {
    StartsMeaning(doc);
    var at := Starts(doc)[|Starts(doc)| - 1];
    assert ByteOffsetOfLine(Starts(doc), line) == at;
    StubForByteOnTiling(geom, |doc|, at);
    assert Covers(geom[|geom| - 1], at) <==> geom[|geom| - 1].offset <= at < |doc|;
  }

  // It is not always so: one long line cut in two.
  lemma PastTheEndCanMissTheLastChunk()
    ensures var doc: bytes := [0x61, 0x61, 0x61, 0x61, 0x61, 0x61];
            var geom := [Stub("a", 0, 4), Stub("b", 4, 2)];
            && GeometryTiles(geom, |doc|) && 99 > |Starts(doc)|
            && StubOfLine(geom, doc, 99) == Some(0)
  {
    var doc: bytes := [0x61, 0x61, 0x61, 0x61, 0x61, 0x61];
    var geom := [Stub("a", 0, 4), Stub("b", 4, 2)];
    NoNewlineOneLine(doc);
    StubForByteOnTiling(geom, |doc|, 0);
    assert Covers(geom[0], 0);
  }

  lemma {:induction false} NoNewlineOneLine(s: bytes)
    requires forall i :: 0 <= i < |s| ==> s[i] != NEWLINE
    ensures Starts(s) == [0]
  {
    if s != [] { NoNewlineOneLine(s[..|s| - 1]); }
  }
}
