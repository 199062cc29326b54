// Finding the first JSON object in model output. JSON texts follow RFC 8259: any spacing
// (section 2), any number (section 6), any spelling of a string (section 7).
module JsonExtract {
  import opened Text

  // ---------- JSON texts ----------

  // One character of a string, as it may be spelled.
  datatype Spelled = Plain(c: char) | Escape(c: char) | Unicode(hex: string)

  datatype Number = Number(minus: bool, digits: string, fraction: string, exponent: string)

  datatype Json =
    | Literal(text: string)
    | Num(number: Number)
    | Str(chars: seq<Spelled>)
    | Arr(items: Items, space: string)
    | Obj(members: Members, space: string)

  datatype Items = NoItems | Item(before: string, value: Json, after: string, rest: Items)

  datatype Members =
    | NoMembers
    | Member(before: string, key: seq<Spelled>, beforeColon: string, afterColon: string, value: Json, after: string,
             rest: Members)

  predicate Space(s: string) {
    forall i :: 0 <= i < |s| ==> s[i] in " \t\n\r"
  }

  predicate IsHex(c: char) {
    '0' <= c <= '9' || 'a' <= c <= 'f' || 'A' <= c <= 'F'
  }

  predicate GoodChar(p: Spelled) {
    match p
    case Plain(c) => c >= '\U{0020}' && c != '"' && c != '\\'
    case Escape(c) => c in "\"\\/bfnrt"
    case Unicode(hex) => |hex| == 4 && forall i :: 0 <= i < 4 ==> IsHex(hex[i])
  }

  predicate GoodString(ps: seq<Spelled>) {
    forall i :: 0 <= i < |ps| ==> GoodChar(ps[i])
  }

  predicate GoodNumber(n: Number) {
    && n.digits != "" && AllDigits(n.digits) && (|n.digits| > 1 ==> n.digits[0] != '0')
    && (n.fraction == "" || (|n.fraction| > 1 && n.fraction[0] == '.' && AllDigits(n.fraction[1..])))
    && (n.exponent == ""
        || (|n.exponent| > 1 && n.exponent[0] in "eE" && AllDigits(n.exponent[1..]))
        || (|n.exponent| > 2 && n.exponent[0] in "eE" && n.exponent[1] in "+-" && AllDigits(n.exponent[2..])))
  }

  predicate Good(v: Json) {
    match v
    case Literal(text) => text == "null" || text == "true" || text == "false"
    case Num(n) => GoodNumber(n)
    case Str(ps) => GoodString(ps)
    case Arr(items, space) => GoodItems(items) && Space(space)
    case Obj(members, space) => GoodMembers(members) && Space(space)
  }

  predicate GoodItems(items: Items) {
    match items
    case NoItems => true
    case Item(before, value, after, rest) => Space(before) && Good(value) && Space(after) && GoodItems(rest)
  }

  predicate GoodMembers(members: Members) {
    match members
    case NoMembers => true
    case Member(before, key, beforeColon, afterColon, value, after, rest) =>
      && Space(before) && GoodString(key) && Space(beforeColon) && Space(afterColon)
      && Good(value) && Space(after) && GoodMembers(rest)
  }

  function PrintChar(p: Spelled): string {
    match p
    case Plain(c) => [c]
    case Escape(c) => ['\\', c]
    case Unicode(hex) => "\\u" + hex
  }

  function PrintChars(ps: seq<Spelled>): string {
    if ps == [] then "" else PrintChar(ps[0]) + PrintChars(ps[1..])
  }

  function PrintString(ps: seq<Spelled>): string {
    "\"" + (PrintChars(ps) + "\"")
  }

  function PrintNumber(n: Number): string {
    (if n.minus then "-" else "") + n.digits + n.fraction + n.exponent
  }

  function Print(v: Json): string {
    match v
    case Literal(text) => text
    case Num(n) => PrintNumber(n)
    case Str(ps) => PrintString(ps)
    case Arr(items, space) => "[" + (PrintItems(items) + (space + "]"))
    case Obj(members, space) => "{" + (PrintMembers(members) + (space + "}"))
  }

  function PrintItems(items: Items): string {
    match items
    case NoItems => ""
    case Item(before, value, after, rest) =>
      before + (Print(value) + (after + ((if rest.NoItems? then "" else ",") + PrintItems(rest))))
  }

  function PrintMembers(members: Members): string {
    match members
    case NoMembers => ""
    case Member(before, key, beforeColon, afterColon, value, after, rest) =>
      before + (PrintString(key) + (beforeColon + (":" + (afterColon + (Print(value)
        + (after + ((if rest.NoMembers? then "" else ",") + PrintMembers(rest))))))))
  }

  // ---------- the scanner ----------

  datatype Scan = Scan(start: Option<nat>, depth: nat, inString: bool, escaped: bool)

  const INITIAL := Scan(None, 0, false, false)

  function Next(st: Scan, c: char, idx: nat): Scan {
    if st.inString then
      if st.escaped then st.(escaped := false)
      else if c == '\\' then st.(escaped := true)
      else if c == '"' then st.(inString := false)
      else st
    else if c == '"' then st.(inString := true)
    else if c == '{' then st.(start := if st.start.None? then Some(idx) else st.start, depth := st.depth + 1)
    else if c == '}' && st.depth > 0 then st.(depth := st.depth - 1)
    else st
  }

  predicate Closes(st: Scan, c: char) {
    !st.inString && c == '}' && st.depth == 1
  }

  // First and last offset of the object found in `s`, which begins at offset `idx`.
  function ScanFrom(s: string, idx: nat, st: Scan): Option<(nat, nat)>
    decreases |s|
  {
    if s == "" then None
    else if Closes(st, s[0]) then match st.start case None => None case Some(b) => Some((b, idx))
    else ScanFrom(s[1..], idx + 1, Next(st, s[0], idx))
  }

  // What the extractor returns on a text.
  function Extracted(raw: string): Option<string> {
    match ScanFrom(raw, 0, INITIAL)
    case Some((b, e)) => if b <= e < |raw| then Some(raw[b..e + 1]) else None
    case None => None
  }

  // A found object is a slice of the text that opens and closes with a brace.
  method ExtractJsonObject(raw: string) returns (r: Option<string>)
    ensures r == Extracted(raw)
    ensures r.Some? ==> exists b, e :: 0 <= b < e < |raw| && r.value == raw[b..e + 1] && raw[b] == '{' && raw[e] == '}'
  {
    var start: Option<nat> := None;
    var depth, inString, escaped := 0, false, false;
    var idx := 0;
    while idx < |raw|
      invariant idx <= |raw|
      invariant ScanFrom(raw[idx..], idx, Scan(start, depth, inString, escaped)) == ScanFrom(raw, 0, INITIAL)
      invariant start.Some? ==> start.value < idx && raw[start.value] == '{'
      invariant depth > 0 ==> start.Some?
      invariant depth >= 0
    {
      var ch := raw[idx];
      assert raw[idx..][0] == ch && raw[idx..][1..] == raw[idx + 1..];
      if inString {
        if escaped {
          escaped := false;
        } else if ch == '\\' {
          escaped := true;
        } else if ch == '"' {
          inString := false;
        }
      } else if ch == '"' {
        inString := true;
      } else if ch == '{' {
        if start.None? { start := Some(idx); }
        depth := depth + 1;
      } else if ch == '}' && depth > 0 {
        depth := depth - 1;
        if depth == 0 {
          return Some(raw[start.value..idx + 1]);
        }
      }
      idx := idx + 1;
    }
    return None;
  }

  // ---------- scanning printed values ----------

  // Outside strings, inside some object.
  function Inside(start: nat, depth: nat): Scan {
    Scan(Some(start), depth, false, false)
  }

  lemma ScanCons(c: char, rest: string, idx: nat, st: Scan)
    requires !Closes(st, c)
    ensures ScanFrom([c] + rest, idx, st) == ScanFrom(rest, idx + 1, Next(st, c, idx))
  {
    assert ([c] + rest)[1..] == rest;
  }

  // Inside any object, the scanner reads the whole text and comes out as it went in.
  ghost predicate Passes(s: string) {
    forall rest, idx: nat, start: nat, depth: nat :: depth >= 1 ==>
      ScanFrom(s + rest, idx, Inside(start, depth)) == ScanFrom(rest, idx + |s|, Inside(start, depth))
  }

  lemma Pass(s: string, rest: string, idx: nat, start: nat, depth: nat)
    requires Passes(s) && depth >= 1
    ensures ScanFrom(s + rest, idx, Inside(start, depth)) == ScanFrom(rest, idx + |s|, Inside(start, depth))
  {
  }

  lemma PassesBoth(a: string, b: string)
    requires Passes(a) && Passes(b)
    ensures Passes(a + b)
  {
    hide ScanFrom;
    forall rest, idx: nat, start: nat, depth: nat | depth >= 1
      ensures ScanFrom((a + b) + rest, idx, Inside(start, depth))
           == ScanFrom(rest, idx + |a + b|, Inside(start, depth))
    {
      AppendAssociative(a, b, rest);
      Pass(a, b + rest, idx, start, depth);
      Pass(b, rest, idx + |a|, start, depth);
    }
  }

  predicate Quiet(s: string) {
    forall i :: 0 <= i < |s| ==> s[i] != '"' && s[i] != '{' && s[i] != '}'
  }

  lemma {:induction false} PassQuiet(s: string, rest: string, idx: nat, start: nat, depth: nat)
    requires Quiet(s)
    ensures ScanFrom(s + rest, idx, Inside(start, depth)) == ScanFrom(rest, idx + |s|, Inside(start, depth))
    decreases |s|
  {
    if s == "" {
      assert s + rest == rest;
    } else {
      assert s + rest == [s[0]] + (s[1..] + rest);
      ScanCons(s[0], s[1..] + rest, idx, Inside(start, depth));
      PassQuiet(s[1..], rest, idx + 1, start, depth);
    }
  }

  // Text without quotes or braces changes nothing.
  lemma QuietPasses(s: string)
    requires Quiet(s)
    ensures Passes(s)
  {
    forall rest, idx: nat, start: nat, depth: nat | depth >= 1
      ensures ScanFrom(s + rest, idx, Inside(start, depth)) == ScanFrom(rest, idx + |s|, Inside(start, depth))
    {
      PassQuiet(s, rest, idx, start, depth);
    }
  }

  // Ordinary characters of a string, none of which can end it.
  lemma {:induction false} PassOrdinary(s: string, rest: string, idx: nat, st: Scan)
    requires st.inString && !st.escaped && forall i :: 0 <= i < |s| ==> s[i] != '"' && s[i] != '\\'
    ensures ScanFrom(s + rest, idx, st) == ScanFrom(rest, idx + |s|, st)
    decreases |s|
  {
    if s == "" {
      assert s + rest == rest;
    } else {
      assert s + rest == [s[0]] + (s[1..] + rest);
      ScanCons(s[0], s[1..] + rest, idx, st);
      PassOrdinary(s[1..], rest, idx + 1, st);
    }
  }

  lemma PassChar(p: Spelled, rest: string, idx: nat, st: Scan)
    requires GoodChar(p) && st.inString && !st.escaped
    ensures ScanFrom(PrintChar(p) + rest, idx, st) == ScanFrom(rest, idx + |PrintChar(p)|, st)
  {
    match p
    case Plain(c) => ScanCons(c, rest, idx, st);
    case Escape(c) =>
      assert PrintChar(p) + rest == ['\\'] + ([c] + rest);
      ScanCons('\\', [c] + rest, idx, st);
      ScanCons(c, rest, idx + 1, st.(escaped := true));
    case Unicode(hex) =>
      assert PrintChar(p) + rest == ['\\'] + (['u'] + (hex + rest));
      ScanCons('\\', ['u'] + (hex + rest), idx, st);
      ScanCons('u', hex + rest, idx + 1, st.(escaped := true));
      PassOrdinary(hex, rest, idx + 2, st);
  }

  lemma {:induction false} PassChars(ps: seq<Spelled>, rest: string, idx: nat, st: Scan)
    requires GoodString(ps) && st.inString && !st.escaped
    ensures ScanFrom(PrintChars(ps) + rest, idx, st) == ScanFrom(rest, idx + |PrintChars(ps)|, st)
    decreases |ps|
  {
    if ps == [] {
      assert PrintChars(ps) + rest == rest;
    } else {
      AppendAssociative(PrintChar(ps[0]), PrintChars(ps[1..]), rest);
      PassChar(ps[0], PrintChars(ps[1..]) + rest, idx, st);
      PassChars(ps[1..], rest, idx + |PrintChar(ps[0])|, st);
    }
  }

  lemma StringPasses(ps: seq<Spelled>)
    requires GoodString(ps)
    ensures Passes(PrintString(ps))
  {
    var body := PrintChars(ps);
    forall rest, idx: nat, start: nat, depth: nat | depth >= 1
      ensures ScanFrom(PrintString(ps) + rest, idx, Inside(start, depth))
           == ScanFrom(rest, idx + |PrintString(ps)|, Inside(start, depth))
    {
      var st := Inside(start, depth);
      Regroup("\"", body, "\"", rest);
      ScanCons('"', body + ("\"" + rest), idx, st);
      PassChars(ps, "\"" + rest, idx + 1, st.(inString := true));
      ScanCons('"', rest, idx + 1 + |body|, st.(inString := true));
    }
  }

  lemma NumberQuiet(n: Number)
    requires GoodNumber(n)
    ensures Quiet(PrintNumber(n))
  {
    var sign := if n.minus then "-" else "";
    assert Quiet(sign) && Quiet(n.digits);
    assert Quiet(n.fraction) by {
      forall i | 0 <= i < |n.fraction| ensures n.fraction[i] != '"' && n.fraction[i] != '{' && n.fraction[i] != '}' {
        if i > 0 { assert IsDigit(n.fraction[1..][i - 1]); }
      }
    }
    assert Quiet(n.exponent) by { ExponentQuiet(n.exponent); }
  }

  lemma ExponentQuiet(e: string)
    requires e == ""
      || (|e| > 1 && e[0] in "eE" && AllDigits(e[1..]))
      || (|e| > 2 && e[0] in "eE" && e[1] in "+-" && AllDigits(e[2..]))
    ensures Quiet(e)
  {
    forall i | 0 <= i < |e| ensures e[i] != '"' && e[i] != '{' && e[i] != '}' {
      if i > 0 && AllDigits(e[1..]) {
        assert IsDigit(e[1..][i - 1]);
      } else if i > 1 {
        assert IsDigit(e[2..][i - 2]);
      }
    }
  }

  lemma Regroup(a: string, b: string, c: string, rest: string)
    ensures (a + (b + c)) + rest == a + (b + (c + rest))
  {
  }

  // An object's closing brace undoes its opening one.
  lemma BracesPass(body: string)
    requires Passes(body)
    ensures Passes("{" + (body + "}"))
  {
    hide ScanFrom;
    forall rest, idx: nat, start: nat, depth: nat | depth >= 1
      ensures ScanFrom(("{" + (body + "}")) + rest, idx, Inside(start, depth))
           == ScanFrom(rest, idx + |"{" + (body + "}")|, Inside(start, depth))
    {
      Regroup("{", body, "}", rest);
      ScanCons('{', body + ("}" + rest), idx, Inside(start, depth));
      Pass(body, "}" + rest, idx + 1, start, depth + 1);
      ScanCons('}', rest, idx + 1 + |body|, Inside(start, depth + 1));
    }
  }

  // Every printed value leaves the scanner as it found it, inside any object.
  lemma {:induction false} ValuePasses(v: Json)
    requires Good(v)
    ensures Passes(Print(v))
    decreases v, 1
  {
    hide Passes;
    match v
    case Literal(text) => QuietPasses(text);
    case Num(n) =>
      NumberQuiet(n);
      QuietPasses(PrintNumber(n));
    case Str(ps) => StringPasses(ps);
    case Arr(items, space) =>
      ItemsPass(items);
      QuietPasses(space + "]");
      QuietPasses("[");
      PassesBoth(PrintItems(items), space + "]");
      PassesBoth("[", PrintItems(items) + (space + "]"));
    case Obj(members, space) =>
      MembersPass(members);
      QuietPasses(space);
      PassesBoth(PrintMembers(members), space);
      BracesPass(PrintMembers(members) + space);
      AppendAssociative(PrintMembers(members), space, "}");
  }

  lemma {:induction false} ItemsPass(items: Items)
    requires GoodItems(items)
    ensures Passes(PrintItems(items))
    decreases items, 0
  {
    hide Passes;
    if items.NoItems? {
      QuietPasses("");
    } else {
      var comma := if items.rest.NoItems? then "" else ",";
      ItemsPass(items.rest);
      ValuePasses(items.value);
      QuietPasses(comma);
      QuietPasses(items.after);
      QuietPasses(items.before);
      var s0 := comma + PrintItems(items.rest);
      PassesBoth(comma, PrintItems(items.rest));
      PassesBoth(items.after, s0);
      PassesBoth(Print(items.value), items.after + s0);
      PassesBoth(items.before, Print(items.value) + (items.after + s0));
    }
  }

  lemma {:induction false} MembersPass(members: Members)
    requires GoodMembers(members)
    ensures Passes(PrintMembers(members))
    decreases members, 0
  {
    hide Passes;
    if members.NoMembers? {
      QuietPasses("");
    } else {
      var comma := if members.rest.NoMembers? then "" else ",";
      MembersPass(members.rest);
      ValuePasses(members.value);
      StringPasses(members.key);
      QuietPasses(comma);
      QuietPasses(members.after);
      QuietPasses(members.afterColon);
      QuietPasses(":");
      QuietPasses(members.beforeColon);
      QuietPasses(members.before);
      var s0 := comma + PrintMembers(members.rest);
      var s1 := Print(members.value) + (members.after + s0);
      var s2 := ":" + (members.afterColon + s1);
      PassesBoth(comma, PrintMembers(members.rest));
      PassesBoth(members.after, s0);
      PassesBoth(Print(members.value), members.after + s0);
      PassesBoth(members.afterColon, s1);
      PassesBoth(":", members.afterColon + s1);
      PassesBoth(members.beforeColon, s2);
      PassesBoth(PrintString(members.key), members.beforeColon + s2);
      PassesBoth(members.before, PrintString(members.key) + (members.beforeColon + s2));
    }
  }

  // Prose before the object may hold anything but a quote or an opening brace.
  lemma {:induction false} PassProse(s: string, rest: string, idx: nat)
    requires forall i :: 0 <= i < |s| ==> s[i] != '"' && s[i] != '{'
    ensures ScanFrom(s + rest, idx, INITIAL) == ScanFrom(rest, idx + |s|, INITIAL)
    decreases |s|
  {
    if s == "" {
      assert s + rest == rest;
    } else {
      assert s + rest == [s[0]] + (s[1..] + rest);
      ScanCons(s[0], s[1..] + rest, idx, INITIAL);
      PassProse(s[1..], rest, idx + 1);
    }
  }

  // An object in prose is extracted exactly, however it is spelled and spaced and
  // whatever follows it.
  lemma ObjectExtracted(prefix: string, v: Json, suffix: string)
    requires forall i :: 0 <= i < |prefix| ==> prefix[i] != '"' && prefix[i] != '{'
    requires Good(v) && v.Obj?
    ensures Extracted(prefix + Print(v) + suffix) == Some(Print(v))
  {
    hide ScanFrom, Passes;
    var n := |prefix|;
    var body := PrintMembers(v.members) + v.space;
    MembersPass(v.members);
    QuietPasses(v.space);
    PassesBoth(PrintMembers(v.members), v.space);
    AppendAssociative(PrintMembers(v.members), v.space, "}");
    assert Print(v) == "{" + (body + "}");
    var raw := prefix + Print(v) + suffix;
    hide Print, PrintMembers, Good;
    AppendAssociative(prefix, Print(v), suffix);
    Regroup("{", body, "}", suffix);
    PassProse(prefix, "{" + (body + ("}" + suffix)), 0);
    ScanCons('{', body + ("}" + suffix), n, INITIAL);
    Pass(body, "}" + suffix, n + 1, n, 1);
    ScanClose(suffix, n + 1 + |body|, n);
    assert raw[n..n + |Print(v)|] == Print(v);
  }

  lemma ScanClose(suffix: string, idx: nat, start: nat)
    ensures ScanFrom("}" + suffix, idx, Inside(start, 1)) == Some((start, idx))
  {
  }
}
