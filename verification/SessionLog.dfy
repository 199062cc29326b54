// The session log: turns appended to a markdown file, and the parser that reads earlier
// sessions back.
module SessionLog {
  import opened Text

  const SENTINEL := "[DEGENERATE] "
  const USER_LABEL := "[User]: "
  const ASSISTANT_LABEL := "[Assistant]: "
  const SECTION_BREAK := "\n## Turn "
  const TURN_END := "\n\n---"
  const NEXT_FIELD := "\n\n["

  // ---------- writing ----------

  // A turn as it was handed to the writer; a failed turn carries a sample of the bad output.
  datatype Turn = Turn(number: nat, user: string, text: string, failed: bool)

  function Body(t: Turn): string {
    if t.failed then SENTINEL + t.text else t.text
  }

  const CLOSE := "\n\n---\n"

  // A turn from its number on, ended by `close`.
  function Section(t: Turn, close: string): string {
    (Dec(t.number) + "\n\n") + (USER_LABEL + (t.user + ("\n\n" + (ASSISTANT_LABEL + (Body(t) + close)))))
  }

  function Format(t: Turn): string {
    "## Turn " + Section(t, CLOSE + "\n")
  }

  function Log(turns: seq<Turn>): string {
    if turns == [] then "" else Format(turns[0]) + Log(turns[1..])
  }

  class SessionFile {
    var contents: string

    // The file is opened for appending: what it held before stays.
    constructor (existing: string)
      ensures contents == existing
    {
      contents := existing;
    }

    method WriteText(text: string)
      modifies this
      ensures contents == old(contents) + text
    {
      contents := contents + text;
    }

    method WriteTurn(number: nat, user: string, answer: string) returns (text: string)
      modifies this
      ensures text == Format(Turn(number, user, answer, false))
      ensures contents == old(contents) + text
    {
      text := "## Turn " + Dec(number) + "\n\n[User]: " + user + "\n\n[Assistant]: " + answer + "\n\n---\n\n";
      FormatText(Turn(number, user, answer, false));
      WriteText(text);
    }

    method WriteDegenerateTurn(number: nat, user: string, sample: string) returns (text: string)
      modifies this
      ensures text == Format(Turn(number, user, sample, true))
      ensures contents == old(contents) + text
    {
      text := "## Turn " + Dec(number) + "\n\n[User]: " + user
           + "\n\n[Assistant]: " + (SENTINEL + sample) + "\n\n---\n\n";
      FormatText(Turn(number, user, sample, true));
      WriteText(text);
    }
  }

  lemma FormatText(t: Turn)
    ensures Format(t) ==
              "## Turn " + Dec(t.number) + "\n\n[User]: " + t.user + "\n\n[Assistant]: " + Body(t) + "\n\n---\n\n"
  {
    var d, u, a := Dec(t.number), t.user, Body(t);
    hide Dec, Body;
    assert USER_LABEL == "[User]: " && ASSISTANT_LABEL == "[Assistant]: ";
    assert "\n\n" + (ASSISTANT_LABEL + (a + "\n\n---\n\n")) == "\n\n[Assistant]: " + a + "\n\n---\n\n";
    assert Format(t) == "## Turn " + ((d + "\n\n")
             + (USER_LABEL + (u + ("\n\n" + (ASSISTANT_LABEL + (a + "\n\n---\n\n"))))));
    assert (d + "\n\n") + (USER_LABEL + (u + ("\n\n[Assistant]: " + a + "\n\n---\n\n")))
        == d + "\n\n[User]: " + u + "\n\n[Assistant]: " + a + "\n\n---\n\n";
  }

  // ---------- reading ----------

  // The field after `marker`, up to the turn's end or the next field.
  function ExtractField(section: string, marker: string): string {
    match Find(section, marker)
    case None => ""
    case Some(i) =>
      var rest := section[i + |marker|..];
      Trim(rest[..FieldEnd(rest)])
  }

  function FieldEnd(rest: string): (n: nat)
    ensures n <= |rest|
  {
    match (Find(rest, TURN_END), Find(rest, NEXT_FIELD))
    case (None, None) => |rest|
    case (Some(i), None) => i
    case (None, Some(j)) => j
    case (Some(i), Some(j)) => if i <= j then i else j
  }

  // A field stops at whichever separator comes first, or at the end of its section.
  lemma FieldStopsFirst(rest: string)
    ensures var n := FieldEnd(rest);
            && (n < |rest| ==> OccursAt(rest, "\n\n---", n) || OccursAt(rest, "\n\n[", n))
            && forall i :: 0 <= i < n ==> !OccursAt(rest, "\n\n---", i) && !OccursAt(rest, "\n\n[", i)
  {
    assert TURN_END == "\n\n---" && NEXT_FIELD == "\n\n[";
  }

  function Answer(raw: string): Option<string> {
    if SENTINEL <= raw || raw == "" then None else Some(raw)
  }

  // The turns a list of sections yields.
  function Turns(sections: seq<string>): seq<(string, Option<string>)> {
    if sections == [] then [] else TurnOf(sections[0]) + Turns(sections[1..])
  }

  function TurnOf(section: string): seq<(string, Option<string>)> {
    if section == "" || !IsDigit(section[0]) || ExtractField(section, USER_LABEL) == "" then []
    else [(ExtractField(section, USER_LABEL), Answer(ExtractField(section, ASSISTANT_LABEL)))]
  }

  lemma {:induction false} TurnsSnoc(sections: seq<string>, s: string)
    ensures Turns(sections + [s]) == Turns(sections) + TurnOf(s)
  {
    if sections == [] {
      assert [] + [s] == [s];
    } else {
      assert (sections + [s])[0] == sections[0] && (sections + [s])[1..] == sections[1..] + [s];
      TurnsSnoc(sections[1..], s);
      AppendAssociative(TurnOf(sections[0]), Turns(sections[1..]), TurnOf(s));
    }
  }

  lemma NoTurns()
    ensures Turns([]) == []
  {
  }

  function Parsed(content: string): seq<(string, Option<string>)> {
    Turns(Split(content, SECTION_BREAK))
  }

  method ParseSessionTurns(content: string) returns (turns: seq<(string, Option<string>)>)
    ensures turns == Parsed(content)
  {
    hide Turns, ExtractField, Split;
    turns := [];
    var sections := Split(content, SECTION_BREAK);
    NoTurns();
    assert sections[..0] == [];
    for k := 0 to |sections|
      invariant turns == Turns(sections[..k])
    {
      assert sections[..k + 1] == sections[..k] + [sections[k]];
      TurnsSnoc(sections[..k], sections[k]);
      var section := sections[k];
      if section == "" || !IsDigit(section[0]) {
        continue;
      }
      var user := ExtractField(section, USER_LABEL);
      var raw := ExtractField(section, ASSISTANT_LABEL);
      if user != "" {
        var answer;
        if SENTINEL <= raw {
          answer := None;
        } else if raw == "" {
          answer := None;
        } else {
          answer := Some(raw);
        }
        turns := turns + [(user, answer)];
      }
    }
    assert sections[..|sections|] == sections;
  }

  // ---------- reading back what was written ----------

  // Free of the field and turn separators.
  ghost predicate Clean(s: string) {
    Free(s, SECTION_BREAK) && Free(s, TURN_END) && Free(s, NEXT_FIELD)
  }

  ghost predicate CleanTurn(t: Turn) {
    Clean(t.user) && Clean(t.text) && Free(t.user, ASSISTANT_LABEL)
  }

  ghost predicate AllClean(turns: seq<Turn>) {
    forall i :: 0 <= i < |turns| ==> CleanTurn(turns[i])
  }

  // What a reader should get for one turn.
  function Recalled(t: Turn): seq<(string, Option<string>)> {
    if Trim(t.user) == "" then [] else [(Trim(t.user), Answer(Trim(Body(t))))]
  }

  function RecalledAll(turns: seq<Turn>): seq<(string, Option<string>)> {
    if turns == [] then [] else Recalled(turns[0]) + RecalledAll(turns[1..])
  }

  lemma BodyClean(t: Turn)
    requires Clean(t.text)
    ensures Clean(Body(t))
  {
    if t.failed {
      FindSkipLabel(SENTINEL, t.text, SECTION_BREAK);
      FindSkipLabel(SENTINEL, t.text, TURN_END);
      FindSkipLabel(SENTINEL, t.text, NEXT_FIELD);
      FoundNowhere(t.text, SECTION_BREAK);
      FoundNowhere(t.text, TURN_END);
      FoundNowhere(t.text, NEXT_FIELD);
    }
  }

  lemma FoundNowhere(s: string, pat: string)
    ensures Free(s, pat) <==> Find(s, pat).None?
  {
  }

  lemma FindHere(s: string, pat: string, rest: string)
    requires s == pat + rest
    ensures Find(s, pat) == Some(0)
  {
    assert s[0..|pat|] == pat;
  }

  predicate Closing(close: string) {
    close == CLOSE || close == CLOSE + "\n"
  }

  lemma ExtractIs(s: string, marker: string, field: string, tail: string, at: nat)
    requires Find(s, marker) == Some(at) && at + |marker| <= |s| && s[at + |marker|..] == field + tail
    requires FieldEnd(field + tail) == |field|
    ensures ExtractField(s, marker) == Trim(field)
  {
    hide Find, FieldEnd, Trim;
    assert (field + tail)[..|field|] == field;
  }

  // A clean field ends at the next field's opening bracket.
  lemma EndsAtField(field: string, tail: string)
    requires Clean(field)
    ensures FieldEnd(field + ("\n\n[" + tail)) == |field|
  {
    var b := "\n\n[" + tail;
    assert NEXT_FIELD == "\n\n[" && TURN_END == "\n\n---";
    FindHere(b, NEXT_FIELD, tail);
    assert b[0] == '\n' && b[1] == '\n' && b[2] == '[';
    assert NoStraddle(NEXT_FIELD, b) by {
      assert NEXT_FIELD[1..] == "\n[" && NEXT_FIELD[2..] == "[";
    }
    assert NoStraddle(TURN_END, b) by {
      assert TURN_END[1..][1] == '-' && TURN_END[2..][0] == '-' && TURN_END[3..][0] == '-' && TURN_END[4..][0] == '-';
    }
    FindSkipFree(field, b, NEXT_FIELD);
    FindSkipFree(field, b, TURN_END);
  }

  // A clean answer ends at the rule that closes the turn.
  lemma EndsAtRule(field: string, close: string)
    requires Clean(field) && Closing(close)
    ensures FieldEnd(field + close) == |field|
  {
    RuleFacts(close);
    FindSkipFree(field, close, NEXT_FIELD);
    FindSkipFree(field, close, TURN_END);
  }

  // The rule begins with a turn end, holds no next field, and no separator runs into it.
  lemma RuleFacts(close: string)
    requires Closing(close)
    ensures Find(close, TURN_END) == Some(0) && Find(close, NEXT_FIELD).None?
    ensures NoStraddle(NEXT_FIELD, close) && NoStraddle(TURN_END, close)
  {
    assert NEXT_FIELD == "\n\n[" && TURN_END == "\n\n---";
    assert close == TURN_END + close[5..];
    FindHere(close, TURN_END, close[5..]);
    FreeByMissing(close, NEXT_FIELD, 2);
    FoundNowhere(close, NEXT_FIELD);
    hide Find;
    RuleUncrossed(close);
  }

  lemma RuleUncrossed(close: string)
    requires Closing(close)
    ensures NoStraddle(NEXT_FIELD, close) && NoStraddle(TURN_END, close)
  {
    assert NEXT_FIELD == "\n\n[" && TURN_END == "\n\n---";
    assert NoStraddle(NEXT_FIELD, close) by {
      assert NEXT_FIELD[1..][1] == '[' && NEXT_FIELD[2..][0] == '[';
    }
    assert NoStraddle(TURN_END, close) by {
      assert TURN_END[1..][1] == '-' && TURN_END[2..][0] == '-' && TURN_END[3..][0] == '-' && TURN_END[4..][0] == '-';
    }
  }

  lemma UserRead(s: string, head: string, user: string, more: string)
    requires s == head + ("[User]: " + (user + ("\n\n[" + more)))
    requires 'U' !in head && (head != [] ==> head[|head| - 1] != '[') && Clean(user)
    ensures ExtractField(s, "[User]: ") == Trim(user)
  {
    hide Clean, Find, FieldEnd, ExtractField, Trim;
    FieldStarts(head, "[User]: ", user + ("\n\n[" + more));
    EndsAtField(user, more);
    ExtractIs(s, "[User]: ", user, "\n\n[" + more, |head|);
  }

  // The user field stops at the assistant's label, whatever the answer holds.
  lemma UserField(t: Turn, close: string)
    requires Clean(t.user)
    ensures ExtractField(Section(t, close), USER_LABEL) == Trim(t.user)
  {
    var head, s := Dec(t.number) + "\n\n", Section(t, close);
    var more := "Assistant]: " + (Body(t) + close);
    assert "\n\n" + (ASSISTANT_LABEL + (Body(t) + close)) == "\n\n[" + more;
    DecAvoids(t.number, 'U');
    assert s == head + ("[User]: " + (t.user + ("\n\n[" + more))) && 'U' !in head && head[|head| - 1] == '\n';
    hide *;
    UserRead(s, head, t.user, more);
  }

  lemma FieldStarts(head: string, marker: string, rest: string)
    requires |marker| >= 2 && marker[1] !in head && (head != [] ==> head[|head| - 1] != marker[0])
    ensures var s := head + (marker + rest);
            Find(s, marker) == Some(|head|) && |head| + |marker| <= |s| && s[|head| + |marker|..] == rest
  {
    FindHere(marker + rest, marker, rest);
    FindSkipLabel(head, marker + rest, marker);
  }

  // A turn up to its user's text.
  function Front(t: Turn): string {
    (Dec(t.number) + "\n\n") + "[User]: "
  }

  function Answered(body: string, close: string): string {
    "\n\n" + ("[Assistant]: " + (body + close))
  }

  lemma SectionParts(t: Turn, close: string)
    ensures Section(t, close) == Front(t) + (t.user + Answered(Body(t), close))
  {
    hide Dec, Body;
    AppendAssociative(Dec(t.number) + "\n\n", "[User]: ", t.user + Answered(Body(t), close));
  }

  lemma FrontPlain(t: Turn)
    ensures 'A' !in Front(t) && '#' !in Front(t) && Last(Front(t)) == ' '
  {
    DecAvoids(t.number, 'A');
    DecAvoids(t.number, '#');
    hide Dec;
  }

  lemma AssistantFound(front: string, user: string, body: string, close: string)
    requires front != [] && 'A' !in front && Last(front) == ' ' && Free(user, "[Assistant]: ")
    ensures var s := front + (user + Answered(body, close));
            var at := |front| + |user| + 2;
            Find(s, "[Assistant]: ") == Some(at) && at + 13 <= |s| && s[at + 13..] == body + close
  {
    hide Find, Free;
    FieldStarts("\n\n", "[Assistant]: ", body + close);
    FindSkipLabel(front, user + Answered(body, close), "[Assistant]: ");
    FindSkipClean(user, Answered(body, close), "[Assistant]: ");
  }

  lemma AssistantRead(s: string, front: string, user: string, body: string, close: string)
    requires s == front + (user + Answered(body, close))
    requires front != [] && 'A' !in front && Last(front) == ' ' && Free(user, "[Assistant]: ")
    requires Clean(body) && Closing(close)
    ensures ExtractField(s, "[Assistant]: ") == Trim(body)
  {
    hide Clean, Free, ExtractField, Trim, Answered;
    AssistantFound(front, user, body, close);
    EndsAtRule(body, close);
    hide FieldEnd, Find, Closing;
    ExtractIs(s, "[Assistant]: ", body, close, |front| + |user| + 2);
  }

  lemma AssistantField(t: Turn, close: string)
    requires CleanTurn(t) && Closing(close)
    ensures ExtractField(Section(t, close), ASSISTANT_LABEL) == Trim(Body(t))
  {
    BodyClean(t);
    assert ASSISTANT_LABEL == "[Assistant]: " && Free(t.user, "[Assistant]: ");
    FrontPlain(t);
    assert Front(t) != [];
    SectionParts(t, close);
    hide *;
    AssistantRead(Section(t, close), Front(t), t.user, Body(t), close);
  }

  // Reading one clean turn gives what should be recalled of it.
  lemma TurnReads(t: Turn, close: string)
    requires CleanTurn(t) && Closing(close)
    ensures TurnOf(Section(t, close)) == Recalled(t)
  {
    UserField(t, close);
    AssistantField(t, close);
    assert IsDigit(Dec(t.number)[0]);
    assert Section(t, close)[0] == Dec(t.number)[0];
    hide Section, ExtractField, Dec, Trim;
  }

  lemma BreakNowhere(front: string, user: string, body: string, close: string)
    requires front != [] && '#' !in front && Last(front) == ' ' && Closing(close)
    requires Free(user, SECTION_BREAK) && Free(body, SECTION_BREAK)
    ensures Find(front + (user + Answered(body, close)), SECTION_BREAK).None?
  {
    hide Find, Free;
    var heading := "\n\n" + "[Assistant]: ";
    AppendAssociative("\n\n", "[Assistant]: ", body + close);
    FindSkipLabel(front, user + Answered(body, close), SECTION_BREAK);
    FindSkipClean(user, Answered(body, close), SECTION_BREAK);
    FindSkipLabel(heading, body + close, SECTION_BREAK);
    FindSkipClean(body, close, SECTION_BREAK);
    FreeByMissing(close, SECTION_BREAK, 1);
    FoundNowhere(close, SECTION_BREAK);
  }

  // No section break hides in a clean turn.
  lemma SectionUnbroken(t: Turn, close: string)
    requires CleanTurn(t) && Closing(close)
    ensures Free(Section(t, close), SECTION_BREAK)
  {
    BodyClean(t);
    FrontPlain(t);
    SectionParts(t, close);
    assert Free(t.user, SECTION_BREAK) && Free(Body(t), SECTION_BREAK);
    hide *;
    BreakNowhere(Front(t), t.user, Body(t), close);
    FoundNowhere(Section(t, close), SECTION_BREAK);
  }

  // The sections a log splits into, after the leading "## Turn ".
  function Sections(turns: seq<Turn>): (r: seq<string>)
    requires turns != []
    ensures |r| == |turns|
  {
    if |turns| == 1 then [Section(turns[0], CLOSE + "\n")]
    else [Section(turns[0], CLOSE)] + Sections(turns[1..])
  }

  function Unheaded(turns: seq<Turn>): string
    requires turns != []
  {
    if |turns| == 1 then Section(turns[0], CLOSE + "\n")
    else Section(turns[0], CLOSE) + SECTION_BREAK + Unheaded(turns[1..])
  }

  lemma BreakSplits(section: string, more: string)
    ensures "## Turn " + (section + SECTION_BREAK + more) == ("## Turn " + (section + "\n")) + ("## Turn " + more)
  {
    assert SECTION_BREAK == "\n" + "## Turn ";
    AppendAssociative(section, "\n", "## Turn ");
    AppendAssociative(section + "\n", "## Turn ", more);
    AppendAssociative("## Turn ", section + "\n", "## Turn " + more);
  }

  lemma {:induction false} LogShape(turns: seq<Turn>)
    requires turns != []
    ensures Log(turns) == "## Turn " + Unheaded(turns)
  {
    SectionCloses(turns[0]);
    hide Section;
    if |turns| > 1 {
      LogShape(turns[1..]);
      BreakSplits(Section(turns[0], CLOSE), Unheaded(turns[1..]));
    } else {
      assert Log(turns[1..]) == "";
    }
  }

  lemma SectionCloses(t: Turn)
    ensures Section(t, CLOSE + "\n") == Section(t, CLOSE) + "\n"
  {
    hide Dec, Body;
  }

  lemma {:induction false} SplitUnheaded(turns: seq<Turn>)
    requires turns != [] && AllClean(turns)
    ensures Split(Unheaded(turns), SECTION_BREAK) == Sections(turns)
  {
    var close := if |turns| == 1 then CLOSE + "\n" else CLOSE;
    SectionUnbroken(turns[0], close);
    if |turns| == 1 {
      FoundNowhere(Unheaded(turns), SECTION_BREAK);
    } else {
      SplitUnheaded(turns[1..]);
      var section, more := Section(turns[0], CLOSE), Unheaded(turns[1..]);
      assert Unheaded(turns) == section + SECTION_BREAK + more;
      assert Sections(turns) == [section] + Sections(turns[1..]);
      hide *;
      SplitAtBreak(section, more);
    }
  }

  lemma SplitAtBreak(section: string, more: string)
    requires Free(section, SECTION_BREAK)
    ensures Split(section + SECTION_BREAK + more, SECTION_BREAK) == [section] + Split(more, SECTION_BREAK)
  {
    hide Free, Find, Split;
    AppendAssociative(section, SECTION_BREAK, more);
    FindSkipClean(section, SECTION_BREAK + more, SECTION_BREAK);
    FindHere(SECTION_BREAK + more, SECTION_BREAK, more);
    SplitAtFirst(section + SECTION_BREAK + more, SECTION_BREAK, section, more);
  }

  lemma {:induction false} SectionsRead(turns: seq<Turn>)
    requires turns != [] && AllClean(turns)
    ensures Turns(Sections(turns)) == RecalledAll(turns)
    ensures Turns(Sections(turns)[1..]) == RecalledAll(turns[1..])
  {
    var close := if |turns| == 1 then CLOSE + "\n" else CLOSE;
    TurnReads(turns[0], close);
    hide CleanTurn, Section, TurnOf, Recalled;
    if |turns| == 1 {
      assert Sections(turns)[1..] == [] && turns[1..] == [];
    } else {
      SectionsRead(turns[1..]);
      assert Sections(turns)[1..] == Sections(turns[1..]);
    }
  }

  // Text put before the first piece of a split, without a separator of its own, joins that
  // piece.
  lemma SplitHeaded(head: string, text: string, sep: string)
    requires sep != []
    requires Find(head + text, sep) == Past(|head|, Find(text, sep))
    ensures Split(head + text, sep) == [head + Split(text, sep)[0]] + Split(text, sep)[1..]
  {
    if Find(text, sep).Some? {
      var piece, rest := FindParts(text, sep);
      hide Find, Split, OccursAt;
      SplitAtFirst(text, sep, piece, rest);
      AppendAssociative(head, piece + sep, rest);
      AppendAssociative(head, piece, sep);
      SplitAtFirst(head + text, sep, head + piece, rest);
      SplitParts(head, [piece] + Split(rest, sep));
      assert ([piece] + Split(rest, sep))[1..] == Split(rest, sep);
    }
  }

  lemma SplitParts(head: string, pieces: seq<string>)
    requires pieces != []
    ensures var all := [head + pieces[0]] + pieces[1..]; all[0] == head + pieces[0] && all[1..] == pieces[1..]
  {
  }

  lemma UnheadedStarts(turns: seq<Turn>)
    requires turns != []
    ensures Unheaded(turns) != [] && IsDigit(Unheaded(turns)[0])
  {
    var t := turns[0];
    assert IsDigit(Dec(t.number)[0]);
    forall close ensures Section(t, close) != [] && Section(t, close)[0] == Dec(t.number)[0] {}
  }

  lemma DigitOutside(c: char)
    requires IsDigit(c)
    ensures c !in SECTION_BREAK[1..]
  {
  }

  lemma HeadedNoTurn(piece: string)
    ensures TurnOf("## Turn " + piece) == []
  {
    hide ExtractField;
    assert ("## Turn " + piece)[0] == '#';
  }

  lemma HeadedDropped(text: string)
    requires text != [] && IsDigit(text[0])
    ensures Parsed("## Turn " + text) == Turns(Split(text, SECTION_BREAK)[1..])
  {
    FreeByFirst("## Turn ", SECTION_BREAK);
    DigitOutside(text[0]);
    assert Parsed("## Turn " + text) == Turns(Split("## Turn " + text, SECTION_BREAK));
    hide *;
    PastClean("## Turn ", text, SECTION_BREAK);
    SplitHeaded("## Turn ", text, SECTION_BREAK);
    FirstDropped(Split(text, SECTION_BREAK));
  }

  lemma FirstDropped(pieces: seq<string>)
    requires pieces != []
    ensures Turns(["## Turn " + pieces[0]] + pieces[1..]) == Turns(pieces[1..])
  {
    HeadedNoTurn(pieces[0]);
    SplitParts("## Turn ", pieces);
    hide TurnOf;
  }

  // A log of clean turns reads back as every turn after the first, in order: the first
  // section has no break before it, keeps its heading, and is skipped.
  lemma LogReadsBack(turns: seq<Turn>)
    requires AllClean(turns)
    ensures Parsed(Log(turns)) == if turns == [] then [] else RecalledAll(turns[1..])
  {
    hide *;
    if turns == [] {
      EmptyLog();
    } else {
      LogRecalls(turns);
    }
  }

  lemma LogRecalls(turns: seq<Turn>)
    requires turns != [] && AllClean(turns)
    ensures Parsed(Log(turns)) == RecalledAll(turns[1..])
  {
    SectionsRead(turns);
    hide *;
    LogShape(turns);
    SplitUnheaded(turns);
    UnheadedStarts(turns);
    HeadedDropped(Unheaded(turns));
  }

  lemma EmptyLog()
    ensures Parsed(Log([])) == []
  {
    FreeByFirst("", SECTION_BREAK);
    FoundNowhere("", SECTION_BREAK);
    assert Split("", SECTION_BREAK) == [""];
    assert Turns([""]) == TurnOf("") + Turns([""][1..]);
  }

  // The whole log reads back exactly when there is no turn to lose, or the first is one the
  // reader drops anyway.
  lemma ReadsBackWhole(turns: seq<Turn>)
    requires AllClean(turns)
    ensures Parsed(Log(turns)) == RecalledAll(turns) <==> turns == [] || Trim(turns[0].user) == ""
  {
    LogReadsBack(turns);
    hide Parsed, Log, Trim;
    if turns != [] {
      assert |RecalledAll(turns)| == |Recalled(turns[0])| + |RecalledAll(turns[1..])|;
    }
  }

  lemma OneTurnIsLost()
    ensures var t := Turn(1, "q", "a", false);
            Parsed(Log([t])) == [] && RecalledAll([t]) == [("q", Some("a"))]
  {
    var t := Turn(1, "q", "a", false);
    ShortIsClean("q");
    ShortIsClean("a");
    FreeByFirst("q", ASSISTANT_LABEL);
    TrimShape("q");
    TrimShape("a");
    assert AllClean([t]) && [t][1..] == [];
    hide Clean, Trim, Parsed, Log;
    LogReadsBack([t]);
    assert RecalledAll([]) == [];
    assert RecalledAll([t]) == Recalled(t) + RecalledAll([t][1..]);
    assert !(SENTINEL <= "a");
  }

  lemma ShortIsClean(s: string)
    requires '\n' !in s
    ensures Clean(s)
  {
    FreeByFirst(s, SECTION_BREAK);
    FreeByFirst(s, TURN_END);
    FreeByFirst(s, NEXT_FIELD);
  }

  // ---------- failed turns ----------

  // What a sample shows: its text before the first section break, turn end or next field.
  function Shown(text: string): string {
    var piece := Split(text, SECTION_BREAK)[0];
    piece[..FieldEnd(piece)]
  }

  // What is read of a failed turn. When nothing but blanks follows the sentinel, trimming
  // eats the blank that ends it, and it is taken for an answer.
  function FailedRead(t: Turn): seq<(string, Option<string>)> {
    if Trim(t.user) == "" then []
    else [(Trim(t.user), if Trim(Shown(t.text)) == "" then Some("[DEGENERATE]") else None)]
  }

  // Turns made up of what follows a section break inside the sample.
  function Stray(text: string): seq<(string, Option<string>)> {
    Turns(Split(text + (CLOSE + "\n"), SECTION_BREAK)[1..])
  }

  lemma SentinelTrimmed(shown: string)
    ensures Answer(Trim(SENTINEL + shown)) == if Trim(shown) == "" then Some("[DEGENERATE]") else None
  {
    var tail := TrimEnd(shown);
    SentinelTight(shown);
    TrimBehindSentinel(shown);
    BlankBothWays(shown);
    hide Trim, TrimEnd, TrimStart;
    assert SENTINEL <= SENTINEL + tail;
    assert !(SENTINEL <= "[DEGENERATE]");
  }

  lemma TrimBehindSentinel(shown: string)
    ensures Trim(SENTINEL + shown) == if TrimEnd(shown) == "" then "[DEGENERATE]" else SENTINEL + TrimEnd(shown)
  {
    var front, body, tail := "[DEGENERATE]", SENTINEL + shown, TrimEnd(shown);
    assert body == front + (" " + shown);
    assert front + (" " + tail) == SENTINEL + tail;
    SentinelTight(shown);
    TrimEndBehind(front, " " + shown);
    TrimEndBehind(" ", shown);
    hide TrimStart, TrimEnd;
  }

  // Everything of a failed turn before its sample.
  function Lead(t: Turn): string {
    Front(t) + (t.user + ("\n\n" + ("[Assistant]: " + SENTINEL)))
  }

  lemma LeadParts(t: Turn, rest: string)
    ensures Lead(t) + rest == Front(t) + (t.user + Answered(SENTINEL, rest))
  {
    hide Front;
    var marker := "[Assistant]: ";
    AppendAssociative(marker, SENTINEL, rest);
    AppendAssociative("\n\n", marker + SENTINEL, rest);
    AppendAssociative(t.user, "\n\n" + (marker + SENTINEL), rest);
    AppendAssociative(Front(t), t.user + ("\n\n" + (marker + SENTINEL)), rest);
  }

  lemma FailedSection(t: Turn, close: string)
    requires t.failed
    ensures Section(t, close) == Lead(t) + (t.text + close)
  {
    SectionParts(t, close);
    LeadParts(t, t.text + close);
    hide Front, Section, Lead;
    AppendAssociative(SENTINEL, t.text, close);
  }

  function Past(n: nat, found: Option<nat>): Option<nat> {
    match found case None => None case Some(i) => Some(n + i)
  }

  lemma PastClean(a: string, b: string, pat: string)
    requires pat != [] && Free(a, pat) && b != [] && b[0] !in pat[1..]
    ensures Find(a + b, pat) == Past(|a|, Find(b, pat))
  {
    FindSkipClean(a, b, pat);
  }

  lemma PastLabel(a: string, b: string, pat: string)
    requires |pat| >= 2 && pat[1] !in a && (a != [] ==> a[|a| - 1] != pat[0])
    ensures Find(a + b, pat) == Past(|a|, Find(b, pat))
  {
    FindSkipLabel(a, b, pat);
  }

  lemma FrontUnbroken(front: string, mid: string)
    requires front != [] && '#' !in front && Last(front) == ' '
    ensures Find(front + mid, SECTION_BREAK) == Past(|front|, Find(mid, SECTION_BREAK))
  {
    hide Find;
    PastLabel(front, mid, SECTION_BREAK);
  }

  lemma UserUnbroken(user: string, tail: string)
    requires Free(user, SECTION_BREAK) && tail != [] && tail[0] == '\n'
    ensures Find(user + tail, SECTION_BREAK) == Past(|user|, Find(tail, SECTION_BREAK))
  {
    hide Find, Free;
    FeedOutside();
    PastClean(user, tail, SECTION_BREAK);
  }

  lemma FeedOutside()
    ensures '\n' !in SECTION_BREAK[1..]
  {
    assert SECTION_BREAK[1..] == "## Turn ";
  }

  lemma PastPast(m: nat, n: nat, found: Option<nat>)
    ensures Past(m, Past(n, found)) == Past(m + n, found)
  {
  }

  lemma AnsweredUnbroken(rest: string)
    ensures Find(Answered(SENTINEL, rest), SECTION_BREAK) == Past(15 + |SENTINEL|, Find(rest, SECTION_BREAK))
    ensures Answered(SENTINEL, rest) != [] && Answered(SENTINEL, rest)[0] == '\n'
  {
    var heading := "\n\n" + ("[Assistant]: " + SENTINEL);
    AppendAssociative("[Assistant]: ", SENTINEL, rest);
    AppendAssociative("\n\n", "[Assistant]: " + SENTINEL, rest);
    assert Answered(SENTINEL, rest) == heading + rest && |heading| == 15 + |SENTINEL|;
    hide Find, Answered;
    FindSkipLabel(heading, rest, SECTION_BREAK);
  }

  // No section break begins before the sample.
  lemma LeadUnbroken(t: Turn, rest: string)
    requires Clean(t.user)
    ensures Find(Lead(t) + rest, SECTION_BREAK) == Past(|Lead(t)|, Find(rest, SECTION_BREAK))
  {
    LeadParts(t, rest);
    LeadFacts(t);
    hide *;
    AnsweredUnbroken(rest);
    UserUnbroken(t.user, Answered(SENTINEL, rest));
    FrontUnbroken(Front(t), t.user + Answered(SENTINEL, rest));
    PastPast(|t.user|, 15 + |SENTINEL|, Find(rest, SECTION_BREAK));
    PastPast(|Front(t)|, |t.user| + (15 + |SENTINEL|), Find(rest, SECTION_BREAK));
  }

  lemma LeadFacts(t: Turn)
    ensures Front(t) != [] && '#' !in Front(t) && Last(Front(t)) == ' '
    ensures |Lead(t)| == |Front(t)| + |t.user| + (15 + |SENTINEL|)
    ensures Clean(t.user) ==> Free(t.user, SECTION_BREAK)
  {
    FrontPlain(t);
    assert Front(t) != [];
    hide Front, Free;
  }

  lemma EndBehindSentinel(rest: string)
    ensures FieldEnd(SENTINEL + rest) == |SENTINEL| + FieldEnd(rest)
  {
    FindSkipLabel(SENTINEL, rest, TURN_END);
    FindSkipLabel(SENTINEL, rest, NEXT_FIELD);
    hide Find;
  }

  lemma LeadRead(t: Turn, rest: string)
    requires Clean(t.user) && Free(t.user, ASSISTANT_LABEL)
    ensures ExtractField(Lead(t) + rest, USER_LABEL) == Trim(t.user)
    ensures ExtractField(Lead(t) + rest, ASSISTANT_LABEL) == Trim(SENTINEL + rest[..FieldEnd(rest)])
  {
    LeadUser(t, rest);
    LeadAnswer(t, rest);
  }

  lemma LeadUser(t: Turn, rest: string)
    requires Clean(t.user)
    ensures ExtractField(Lead(t) + rest, USER_LABEL) == Trim(t.user)
  {
    var head, more := Dec(t.number) + "\n\n", "Assistant]: " + (SENTINEL + rest);
    LeadParts(t, rest);
    assert Answered(SENTINEL, rest) == "\n\n[" + more;
    DecAvoids(t.number, 'U');
    AppendAssociative(head, "[User]: ", t.user + ("\n\n[" + more));
    assert 'U' !in head && head[|head| - 1] == '\n';
    assert USER_LABEL == "[User]: ";
    hide *;
    UserRead(Lead(t) + rest, head, t.user, more);
  }

  lemma LeadAnswer(t: Turn, rest: string)
    requires Free(t.user, ASSISTANT_LABEL)
    ensures ExtractField(Lead(t) + rest, ASSISTANT_LABEL) == Trim(SENTINEL + rest[..FieldEnd(rest)])
  {
    FrontPlain(t);
    LeadParts(t, rest);
    assert Front(t) != [] && ASSISTANT_LABEL == "[Assistant]: ";
    hide *;
    AnswerRead(Lead(t) + rest, Front(t), t.user, rest);
  }

  lemma AnswerRead(s: string, front: string, user: string, rest: string)
    requires s == front + (user + Answered(SENTINEL, rest))
    requires front != [] && 'A' !in front && Last(front) == ' ' && Free(user, "[Assistant]: ")
    ensures ExtractField(s, "[Assistant]: ") == Trim(SENTINEL + rest[..FieldEnd(rest)])
  {
    hide *;
    var n := FieldEnd(rest);
    SentinelField(rest);
    AssistantFound(front, user, SENTINEL, rest);
    ExtractIs(s, "[Assistant]: ", SENTINEL + rest[..n], rest[n..], |front| + |user| + 2);
  }

  lemma SentinelField(rest: string)
    ensures var n := FieldEnd(rest);
            && (SENTINEL + rest[..n]) + rest[n..] == SENTINEL + rest
            && FieldEnd(SENTINEL + rest) == |SENTINEL + rest[..n]|
  {
    EndBehindSentinel(rest);
    hide FieldEnd;
    var n := FieldEnd(rest);
    assert rest == rest[..n] + rest[n..];
    AppendAssociative(SENTINEL, rest[..n], rest[n..]);
  }

  // The rule that closes the turn ends no field earlier than the sample's own text does.
  lemma EndBeforeRule(text: string, close: string)
    requires Closing(close)
    ensures FieldEnd(text + close) == FieldEnd(text)
  {
    RuleFacts(close);
    if Find(text, TURN_END).Some? {
      FindStable(text, close, TURN_END);
    } else {
      FoundNowhere(text, TURN_END);
      FindSkipFree(text, close, TURN_END);
    }
    if Find(text, NEXT_FIELD).Some? {
      FindStable(text, close, NEXT_FIELD);
    } else {
      FoundNowhere(text, NEXT_FIELD);
      FindSkipFree(text, close, NEXT_FIELD);
    }
    hide Find;
  }

  // The first section that a failed turn leaves in the log.
  lemma FailedPieces(t: Turn) returns (rest: string)
    requires t.failed && Clean(t.user)
    ensures rest[..FieldEnd(rest)] == Shown(t.text)
    ensures var pieces := Split(Section(t, CLOSE + "\n"), SECTION_BREAK);
            pieces[0] == Lead(t) + rest && Turns(pieces[1..]) == Stray(t.text)
  {
    var close := CLOSE + "\n";
    var pieces := Split(t.text + close, SECTION_BREAK);
    rest := pieces[0];
    assert Stray(t.text) == Turns(pieces[1..]) && Closing(close);
    hide *;
    FailedSection(t, close);
    LeadUnbroken(t, t.text + close);
    SplitHeaded(Lead(t), t.text + close, SECTION_BREAK);
    ShownPiece(t.text, close);
    SplitParts(Lead(t), pieces);
  }

  lemma ShownPiece(text: string, close: string)
    requires Closing(close)
    ensures var rest := Split(text + close, SECTION_BREAK)[0]; rest[..FieldEnd(rest)] == Shown(text)
    ensures Free(text, SECTION_BREAK) ==> |Split(text + close, SECTION_BREAK)| == 1
  {
    FoundNowhere(text, SECTION_BREAK);
    if Find(text, SECTION_BREAK).Some? {
      BrokenPiece(text, close);
    } else {
      WholePiece(text, close);
      EndBeforeRule(text, close);
      hide Find, Split, FieldEnd, Free;
      var n := FieldEnd(text);
      assert (text + close)[..n] == text[..n];
    }
  }

  lemma BrokenPiece(text: string, close: string)
    requires Find(text, SECTION_BREAK).Some?
    ensures Split(text + close, SECTION_BREAK)[0] == Split(text, SECTION_BREAK)[0]
  {
    FindStable(text, close, SECTION_BREAK);
    var i := Find(text, SECTION_BREAK).value;
    hide Find;
    assert (text + close)[..i] == text[..i];
  }

  lemma WholePiece(text: string, close: string)
    requires Find(text, SECTION_BREAK).None? && Closing(close)
    ensures Split(text, SECTION_BREAK) == [text] && Split(text + close, SECTION_BREAK) == [text + close]
  {
    FindSkipClean(text, close, SECTION_BREAK);
    FreeByMissing(close, SECTION_BREAK, 1);
    FoundNowhere(close, SECTION_BREAK);
    hide Find;
  }

  lemma FailedSectionRead(t: Turn)
    requires t.failed && Clean(t.user) && Free(t.user, ASSISTANT_LABEL)
    ensures Turns(Split(Section(t, CLOSE + "\n"), SECTION_BREAK)) == FailedRead(t) + Stray(t.text)
  {
    var pieces := Split(Section(t, CLOSE + "\n"), SECTION_BREAK);
    var rest := FailedPieces(t);
    LeadRead(t, rest);
    SentinelTrimmed(Shown(t.text));
    assert IsDigit(Dec(t.number)[0]);
    assert (Lead(t) + rest)[0] == Dec(t.number)[0];
    hide Split, Section, Lead, ExtractField, Shown, Dec, Trim, FieldEnd, Answer, Stray;
    assert TurnOf(pieces[0]) == FailedRead(t);
    assert Turns(pieces) == TurnOf(pieces[0]) + Turns(pieces[1..]);
  }

  function ClosedSections(turns: seq<Turn>): (r: seq<string>)
    ensures |r| == |turns|
  {
    if turns == [] then [] else [Section(turns[0], CLOSE)] + ClosedSections(turns[1..])
  }

  lemma {:induction false} SplitBeforeLast(turns: seq<Turn>, t: Turn)
    requires AllClean(turns)
    ensures Split(Unheaded(turns + [t]), SECTION_BREAK)
         == ClosedSections(turns) + Split(Section(t, CLOSE + "\n"), SECTION_BREAK)
  {
    hide Section, CleanTurn;
    if turns == [] {
      assert turns + [t] == [t];
      assert ClosedSections(turns) == [];
    } else {
      var whole, rest := turns + [t], turns[1..];
      assert whole[0] == turns[0] && whole[1..] == rest + [t];
      SectionUnbroken(turns[0], CLOSE);
      SplitBeforeLast(rest, t);
      var section, more := Section(turns[0], CLOSE), Unheaded(rest + [t]);
      assert Unheaded(whole) == section + SECTION_BREAK + more;
      assert ClosedSections(turns) == [section] + ClosedSections(rest);
      hide *;
      SplitAtBreak(section, more);
      AppendAssociative([section], ClosedSections(rest), Split(Section(t, CLOSE + "\n"), SECTION_BREAK));
    }
  }

  lemma {:induction false} ClosedRead(turns: seq<Turn>, more: seq<string>)
    requires AllClean(turns)
    ensures Turns(ClosedSections(turns) + more) == RecalledAll(turns) + Turns(more)
  {
    hide Section, CleanTurn, TurnOf, Recalled;
    if turns == [] {
      assert ClosedSections(turns) + more == more;
    } else {
      var all := ClosedSections(turns) + more;
      TurnReads(turns[0], CLOSE);
      assert all[0] == Section(turns[0], CLOSE) && all[1..] == ClosedSections(turns[1..]) + more;
      ClosedRead(turns[1..], more);
      AppendAssociative(Recalled(turns[0]), RecalledAll(turns[1..]), Turns(more));
    }
  }

  lemma TailClean(turns: seq<Turn>)
    requires turns != [] && AllClean(turns)
    ensures AllClean(turns[1..])
  {
    hide CleanTurn;
  }

  lemma ClosedTail(turns: seq<Turn>, more: seq<string>)
    requires turns != []
    ensures (ClosedSections(turns) + more)[1..] == ClosedSections(turns[1..]) + more
  {
    hide Section;
    assert ClosedSections(turns)[1..] == ClosedSections(turns[1..]);
  }

  lemma TailParsed(turns: seq<Turn>, t: Turn)
    requires turns != [] && AllClean(turns)
    ensures Parsed(Log(turns) + Format(t))
         == RecalledAll(turns[1..]) + Turns(Split(Section(t, CLOSE + "\n"), SECTION_BREAK))
  {
    var last := Split(Section(t, CLOSE + "\n"), SECTION_BREAK);
    TailClean(turns);
    ClosedTail(turns, last);
    assert turns + [t] != [];
    hide *;
    LogSnoc(turns, t);
    LogShape(turns + [t]);
    UnheadedStarts(turns + [t]);
    HeadedDropped(Unheaded(turns + [t]));
    SplitBeforeLast(turns, t);
    ClosedRead(turns[1..], last);
  }

  // A failed turn reads back as unanswered exactly when what its sample shows is not blank;
  // earlier turns are not disturbed, and only a section break in the sample adds others.
  lemma FailedReadsUnanswered(turns: seq<Turn>, t: Turn)
    requires turns != [] && AllClean(turns)
    requires t.failed && Clean(t.user) && Free(t.user, ASSISTANT_LABEL)
    ensures var before, after := Parsed(Log(turns)), Parsed(Log(turns) + Format(t));
            && after == before + FailedRead(t) + Stray(t.text)
            && (Free(t.text, SECTION_BREAK) ==> Stray(t.text) == [])
            && (Trim(t.user) != "" ==>
                  |after| > |before| && after[|before|].0 == Trim(t.user)
                  && (after[|before|].1.None? <==> Trim(Shown(t.text)) != ""))
  {
    TailParsed(turns, t);
    FailedSectionRead(t);
    LogRecalls(turns);
    ShownPiece(t.text, CLOSE + "\n");
    NoTurns();
    hide Parsed, Log, Format, Section, Trim, Shown, Split, Turns;
    AppendAssociative(RecalledAll(turns[1..]), FailedRead(t), Stray(t.text));
    assert Free(t.text, SECTION_BREAK) ==> Split(t.text + (CLOSE + "\n"), SECTION_BREAK)[1..] == [];
  }

  // Samples that read back as answers: a blank one, and one that begins with a turn end.
  lemma SamplesTakenForAnswers()
    ensures forall text | text in ["", " ", "\n\n---\nx"] ::
              Parsed(Log([Turn(1, "q", "a", false)]) + Format(Turn(2, "q", text, true))) == [("q", Some("[DEGENERATE]"))]
  {
    forall text | text in ["", " ", "\n\n---\nx"]
      ensures Parsed(Log([Turn(1, "q", "a", false)]) + Format(Turn(2, "q", text, true))) == [("q", Some("[DEGENERATE]"))]
    {
      BlankShown(text);
      TakenForAnswer(text);
    }
  }

  lemma BlankShown(text: string)
    requires text in ["", " ", "\n\n---\nx"]
    ensures Trim(Shown(text)) == "" && Free(text, SECTION_BREAK)
  {
    FreeByMissing(text, SECTION_BREAK, 1);
    FoundNowhere(text, SECTION_BREAK);
    assert Split(text, SECTION_BREAK) == [text];
    if text == "\n\n---\nx" {
      FindHere(text, TURN_END, "\nx");
      assert text[..FieldEnd(text)] == "";
    } else {
      var n := FieldEnd(text);
      assert text[..n] == (if n == 0 then "" else " ");
    }
    assert " "[1..] == "" && Trim("") == "" && Trim(" ") == "";
  }

  lemma SampleTurns(text: string)
    requires Trim(Shown(text)) == ""
    ensures AllClean([Turn(1, "q", "a", false)])
    ensures Clean("q") && Free("q", ASSISTANT_LABEL) && FailedRead(Turn(2, "q", text, true)) == [("q", Some("[DEGENERATE]"))]
  {
    ShortIsClean("q");
    ShortIsClean("a");
    FreeByFirst("q", ASSISTANT_LABEL);
    TrimShape("q");
    hide Trim, Shown;
  }

  lemma TakenForAnswer(text: string)
    requires Trim(Shown(text)) == "" && Free(text, SECTION_BREAK)
    ensures Parsed(Log([Turn(1, "q", "a", false)]) + Format(Turn(2, "q", text, true))) == [("q", Some("[DEGENERATE]"))]
  {
    SampleTurns(text);
    OneTurnIsLost();
    hide *;
    var t := Turn(2, "q", text, true);
    FailedReadsUnanswered([Turn(1, "q", "a", false)], t);
    assert ([] + FailedRead(t)) + [] == FailedRead(t);
  }

  lemma SentinelTight(text: string)
    ensures TrimStart("[DEGENERATE]" + (" " + text)) == "[DEGENERATE]" + (" " + text)
    ensures TrimEnd("[DEGENERATE]") == "[DEGENERATE]" && TrimEnd(" ") == ""
  {
    assert " "[..0] == "";
  }

  // The log only grows, and an appended clean turn never disturbs what reads back already.
  lemma AppendKeepsRecall(turns: seq<Turn>, t: Turn)
    requires turns != [] && CleanTurn(t) && AllClean(turns)
    ensures Parsed(Log(turns) + Format(t)) == Parsed(Log(turns)) + Recalled(t)
  {
    var whole := turns + [t];
    CleanSnoc(turns, t);
    assert whole != [] && whole[1..] == turns[1..] + [t];
    hide *;
    LogSnoc(turns, t);
    LogRecalls(turns);
    LogRecalls(whole);
    RecalledSnoc(turns[1..], t);
  }

  lemma CleanSnoc(turns: seq<Turn>, t: Turn)
    requires AllClean(turns) && CleanTurn(t)
    ensures AllClean(turns + [t])
  {
    hide CleanTurn;
  }

  lemma {:induction false} LogSnoc(turns: seq<Turn>, t: Turn)
    ensures Log(turns + [t]) == Log(turns) + Format(t)
  {
    hide Format;
    if turns == [] {
      assert [] + [t] == [t] && Log([]) == "";
      assert [t][1..] == [];
    } else {
      assert (turns + [t])[0] == turns[0] && (turns + [t])[1..] == turns[1..] + [t];
      LogSnoc(turns[1..], t);
      AppendAssociative(Format(turns[0]), Log(turns[1..]), Format(t));
    }
  }

  lemma {:induction false} RecalledSnoc(turns: seq<Turn>, t: Turn)
    ensures RecalledAll(turns + [t]) == RecalledAll(turns) + Recalled(t)
  {
    hide Recalled;
    if turns == [] {
      assert [] + [t] == [t];
      assert [t][1..] == [];
    } else {
      assert (turns + [t])[0] == turns[0] && (turns + [t])[1..] == turns[1..] + [t];
      RecalledSnoc(turns[1..], t);
      AppendAssociative(Recalled(turns[0]), RecalledAll(turns[1..]), Recalled(t));
    }
  }
}
