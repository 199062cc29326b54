// UTF-8 well-formedness and character boundaries, after sections 3 and 4 of RFC 3629.
module Utf8 {

  newtype byte = x: int | 0 <= x < 256

  predicate IsTail(b: byte) {
    0x80 <= b < 0xC0
  }

  // Length announced by a leading byte; 0 when no character starts with it.
  function CharLen(b: byte): nat {
    if b < 0x80 then 1
    else if 0xC2 <= b < 0xE0 then 2
    else if 0xE0 <= b < 0xF0 then 3
    else if 0xF0 <= b < 0xF5 then 4
    else 0
  }

  // The second byte may be restricted to rule out overlong forms, surrogates and
  // values above U+10FFFF.
  predicate SecondByte(lead: byte, b: byte) {
    if lead == 0xE0 then 0xA0 <= b < 0xC0
    else if lead == 0xED then 0x80 <= b < 0xA0
    else if lead == 0xF0 then 0x90 <= b < 0xC0
    else if lead == 0xF4 then 0x80 <= b < 0x90
    else IsTail(b)
  }

  // The text begins with one well-formed character.
  predicate StartsWithChar(s: seq<byte>) {
    && s != []
    && 0 < CharLen(s[0]) <= |s|
    && (CharLen(s[0]) > 1 ==> SecondByte(s[0], s[1]))
    && forall i :: 2 <= i < CharLen(s[0]) ==> IsTail(s[i])
  }

  predicate Valid(s: seq<byte>)
    decreases |s|
  {
    s == [] || (StartsWithChar(s) && Valid(s[CharLen(s[0])..]))
  }

  // A cut at `i` does not split a character.
  predicate Boundary(s: seq<byte>, i: int) {
    0 <= i <= |s| && (i == 0 || i == |s| || !IsTail(s[i]))
  }

  // `f` is the last boundary at or before `i`.
  ghost predicate IsFloor(s: seq<byte>, i: int, f: int) {
    f <= i <= |s| && Boundary(s, f) && forall j :: f < j <= i ==> !Boundary(s, j)
  }

  lemma CharInterior(s: seq<byte>, i: int)
    requires StartsWithChar(s) && 0 < i < CharLen(s[0])
    ensures IsTail(s[i])
  {
  }

  lemma LeadIsNotTail(s: seq<byte>)
    requires Valid(s) && s != []
    ensures !IsTail(s[0])
  {
  }

  lemma PrefixStarts(s: seq<byte>, i: int)
    requires StartsWithChar(s) && CharLen(s[0]) <= i <= |s|
    ensures StartsWithChar(s[..i])
  {
  }

  // Both sides of a boundary are well-formed.
  lemma {:induction false} SplitValid(s: seq<byte>, i: int)
    requires Valid(s) && Boundary(s, i)
    ensures Valid(s[..i]) && Valid(s[i..])
    decreases |s|
  {
    if i == 0 {
      assert s[0..] == s;
    } else {
      var n := CharLen(s[0]);
      if i < n {
        CharInterior(s, i);
      } else {
        var rest, front := s[n..], s[..i];
        PrefixStarts(s, i);
        hide StartsWithChar, CharLen, SecondByte;
        if 0 < i - n < |rest| { assert rest[i - n] == s[i]; }
        SplitValid(rest, i - n);
        assert front[0] == s[0] && front[n..] == rest[..i - n];
        assert s[i..] == rest[i - n..];
      }
    }
  }

  lemma SliceValid(s: seq<byte>, i: int, j: int)
    requires Valid(s) && i <= j && Boundary(s, i) && Boundary(s, j)
    ensures Valid(s[i..j])
  {
    SplitValid(s, j);
    assert Boundary(s[..j], i);
    SplitValid(s[..j], i);
    assert s[..j][i..] == s[i..j];
  }

  // Boundaries inside a slice are the boundaries of the whole.
  lemma SliceBoundary(s: seq<byte>, a: int, b: int, i: int)
    requires a <= i <= b && Boundary(s, a) && Boundary(s, b)
    ensures Boundary(s[a..b], i - a) <==> Boundary(s, i)
  {
    if a < i < b { assert s[a..b][i - a] == s[i]; }
  }

  // A line feed, like any ASCII byte, is followed by a boundary.
  lemma {:induction false} AfterAscii(s: seq<byte>, p: int)
    requires Valid(s) && 0 <= p < |s| && s[p] < 0x80
    ensures Boundary(s, p + 1)
    decreases |s|
  {
    var n := CharLen(s[0]);
    var rest := s[n..];
    if p < n {
      if 0 < p { CharInterior(s, p); }
      if rest != [] { LeadIsNotTail(rest); }
    } else {
      assert rest[p - n] == s[p];
      AfterAscii(rest, p - n);
      if p + 1 < |s| { assert rest[p + 1 - n] == s[p + 1]; }
    }
  }

  // No offset is more than three bytes past a boundary.
  lemma {:induction false} NearBoundary(s: seq<byte>, i: int) returns (f: int)
    requires Valid(s) && 0 <= i <= |s|
    ensures 0 <= f <= i <= f + 3 && Boundary(s, f)
    decreases |s|
  {
    if s == [] || i < CharLen(s[0]) {
      return 0;
    }
    var n := CharLen(s[0]);
    var rest := s[n..];
    var g := NearBoundary(rest, i - n);
    f := n + g;
    if g == 0 && rest != [] { LeadIsNotTail(rest); }
    if g < |rest| { assert rest[g] == s[f]; }
  }

  // Largest boundary at or before `idx`; the whole length when `idx` is past the end.
  method FloorCharBoundary(s: seq<byte>, idx: nat) returns (f: nat)
    ensures idx >= |s| ==> f == |s|
    ensures idx < |s| ==> IsFloor(s, idx, f)
    ensures Boundary(s, f) && f <= idx
    ensures Valid(s) && idx <= |s| ==> idx <= f + 3
  {
    if idx >= |s| { return |s|; }
    f := idx;
    while f > 0 && !Boundary(s, f)
      invariant f <= idx && forall j :: f < j <= idx ==> !Boundary(s, j)
    {
      f := f - 1;
    }
    if Valid(s) {
      var g := NearBoundary(s, idx);
    }
  }
}
