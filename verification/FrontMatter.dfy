/** `generator/frontmatter.py`: the fence logic; the YAML between the fences is abstract. */
module FrontMatter {
  import opened Basics
  import opened TextLines

  const FENCE := "---\n"
  const CLOSING := "\n---\n"

  /** Index of the first closing fence, as `find` reports it. */
  function FindClosing(s: string): (r: Option<nat>)
    ensures r.Some? ==> r.value + 5 <= |s| && s[r.value..r.value + 5] == CLOSING
  {
    if |s| < 5 then
      None
    else if s[..5] == CLOSING then
      Some(0)
    else
      match FindClosing(s[1..])
      case None => None
      case Some(k) => Some(k + 1)
  }

  /** Raw front-matter lines, the body, and everything from the closing fence on. */
  datatype Parts = Parts(raw: string, body: string, rest: string)

  /** The fence part of `split`, also used by the status writer. */
  function Divide(text: string): (r: Option<Parts>)
  {
    if |text| < 4 || text[..4] != FENCE then
      None
    else
      match FindClosing(text[3..])
      case None => None
      case Some(k) => Some(Parts(text[4..k + 4], text[k + 8..], text[k + 4..]))
  }

  /** The parts put together are the text. */
  lemma DivideWhole(text: string)
    requires Divide(text).Some?
    ensures var p := Divide(text).value; text == FENCE + p.raw + p.rest && p.rest == FENCE + p.body
  {
    var k := FindClosing(text[3..]).value;
    var p := Divide(text).value;
    assert text == text[..4] + text[4..k + 4] + text[k + 4..];
    var five := text[3..][k..k + 5];
    assert five[1..] == FENCE;
    assert text[k + 4..k + 8] == five[1..];
    assert text[k + 4..] == text[k + 4..k + 8] + text[k + 8..];
  }

  /** The emitted block of the given lines. */
  function Emit(lines: seq<string>): string {
    FENCE + Terminated(lines) + FENCE
  }

  predicate FieldLines(lines: seq<string>) {
    forall i :: 0 <= i < |lines| ==> NewlineFree(lines[i]) && lines[i] != "---"
  }

  function Shifted(r: Option<nat>, n: nat): Option<nat> {
    match r case None => None case Some(k) => Some(k + n)
  }

  lemma SkipChar(c: char, t: string)
    requires c != '\n'
    ensures FindClosing([c] + t) == Shifted(FindClosing(t), 1)
  {
    var s := [c] + t;
    assert s[1..] == t;
    if |s| >= 5 { assert s[..5][0] == c; }
  }

  lemma {:induction false} SkipLine(line: string, t: string)
    requires NewlineFree(line)
    ensures FindClosing(line + t) == Shifted(FindClosing(t), |line|)
  {
    hide FindClosing;
    if line == "" {
      assert line + t == t;
    } else {
      SkipLine(line[1..], t);
      SkipChar(line[0], line[1..] + t);
      assert line + t == [line[0]] + (line[1..] + t);
    }
  }

  predicate AtClosing(s: string) {
    |s| >= 5 && s[..5] == CLOSING
  }

  /** Text that starts on a new line. */
  function OnNewLine(t: string): string {
    "\n" + t
  }

  /** A line that reads as a closing fence is one. */
  lemma FenceLine(line: string, t: string)
    requires NewlineFree(line) && AtClosing(OnNewLine(line + OnNewLine(t)))
    ensures line == "---"
  {
    var s := "\n" + (line + ("\n" + t));
    var five := s[..5];
    assert five[1] == '-' && five[2] == '-' && five[3] == '-' && five[4] == '\n';
    assert s[1 + |line|] == '\n';
    assert forall i :: 0 <= i < |line| ==> s[1 + i] == line[i] && line[i] != '\n';
    assert s[1] == five[1] && s[2] == five[2] && s[3] == five[3] && s[4] == five[4];
    assert |line| == 3;
    assert line == [line[0], line[1], line[2]];
  }

  lemma FindStep(t: string)
    requires !AtClosing(OnNewLine(t))
    ensures FindClosing(OnNewLine(t)) == Shifted(FindClosing(t), 1)
  {
    assert OnNewLine(t)[1..] == t;
  }

  lemma FindPastLine(line: string, rest: string)
    requires NewlineFree(line) && line != "---"
    ensures FindClosing(OnNewLine(line + OnNewLine(rest))) == Shifted(FindClosing(OnNewLine(rest)), |line| + 1)
  {
    hide FindClosing, AtClosing, NewlineFree, OnNewLine;
    if AtClosing(OnNewLine(line + OnNewLine(rest))) {
      FenceLine(line, rest);
    } else {
      FindStep(line + OnNewLine(rest));
      SkipLine(line, OnNewLine(rest));
    }
  }

  lemma LineBreak(line: string, rest: string, tail: string)
    ensures line + "\n" + rest + tail == line + OnNewLine(rest + tail)
  {
  }

  /** The first closing fence after field lines is the emitted one. */
  lemma {:induction false} FindAfterFields(lines: seq<string>, tail: string)
    requires FieldLines(lines)
    ensures FindClosing(OnNewLine(Terminated(lines) + tail)) == Shifted(FindClosing(OnNewLine(tail)), |Terminated(lines)|)
  {
    hide FindClosing, OnNewLine;
    if lines == [] {
      assert Terminated(lines) + tail == tail;
    } else {
      LineBreak(lines[0], Terminated(lines[1..]), tail);
      FindPastLine(lines[0], Terminated(lines[1..]) + tail);
      FindAfterFields(lines[1..], tail);
    }
  }

  lemma Slices(open: string, raw: string, close: string, body: string)
    requires open != ""
    ensures var text := open + raw + close + body;
            && text[..|open|] == open
            && text[|open|..|open| + |raw|] == raw
            && text[|open| + |raw|..] == close + body
            && text[|open| + |raw| + |close|..] == body
            && text[|open| - 1..] == [open[|open| - 1]] + (raw + (close + body))
  {
  }

  lemma ClosingHere(body: string)
    ensures FindClosing(OnNewLine(FENCE + body)) == Some(0)
  {
    assert OnNewLine(FENCE + body)[..5] == CLOSING;
  }

  /** Splitting an emitted document gives back its lines and its body. */
  lemma DivideEmitted(lines: seq<string>, body: string)
    requires FieldLines(lines)
    ensures Divide(Emit(lines) + body) == Some(Parts(Terminated(lines), body, FENCE + body))
  {
    hide FindClosing, Terminated, FieldLines;
    var raw := Terminated(lines);
    Slices(FENCE, raw, FENCE, body);
    FindAfterFields(lines, FENCE + body);
    ClosingHere(body);
    var text := FENCE + raw + FENCE + body;
    assert text[3..] == OnNewLine(raw + (FENCE + body));
    assert FindClosing(text[3..]) == Some(|raw|);
  }

  // ---------------------------------------------------------------------------
  // The lines of a block

  /** The lines of newline-terminated text. */
  function HeadLines(raw: string): seq<string> {
    var parts := SplitLines(raw);
    parts[..|parts| - 1]
  }

  lemma {:induction false} HeadOfTerminated(lines: seq<string>)
    requires AllNewlineFree(lines)
    ensures HeadLines(Terminated(lines)) == lines
  {
    if lines != [] {
      HeadOfTerminated(lines[1..]);
      SplitFirstLine(lines[0], Terminated(lines[1..]));
    }
  }

  lemma HeadOfNewline(raw: string)
    requires raw != "" && raw[0] == '\n'
    ensures HeadLines(raw) == [""] + HeadLines(raw[1..])
  {
  }

  lemma HeadOfChar(raw: string)
    requires raw != "" && raw[0] != '\n' && HeadLines(raw[1..]) != []
    ensures HeadLines(raw) == [[raw[0]] + HeadLines(raw[1..])[0]] + HeadLines(raw[1..])[1..]
  {
  }

  lemma HeadNotEmpty(raw: string)
    requires raw != "" && raw[|raw| - 1] == '\n'
    ensures HeadLines(raw) != []
    decreases |raw|
  {
    if raw[0] != '\n' {
      HeadNotEmpty(raw[1..]);
      HeadOfChar(raw);
    }
  }

  lemma {:induction false} TerminatedHead(raw: string)
    requires raw == "" || raw[|raw| - 1] == '\n'
    ensures Terminated(HeadLines(raw)) == raw
  {
    if raw == "" {
      assert HeadLines(raw) == [];
    } else {
      hide HeadLines;
      TerminatedHead(raw[1..]);
      var rest := HeadLines(raw[1..]);
      assert raw == [raw[0]] + raw[1..];
      if raw[0] == '\n' {
        HeadOfNewline(raw);
        assert ([""] + rest)[1..] == rest;
      } else {
        HeadNotEmpty(raw[1..]);
        HeadOfChar(raw);
        hide Terminated;
        TerminatedPush(raw[0], rest);
      }
    }
  }

  lemma TerminatedPush(c: char, rest: seq<string>)
    requires rest != []
    ensures Terminated([[c] + rest[0]] + rest[1..]) == [c] + Terminated(rest)
  {
    var l := [[c] + rest[0]] + rest[1..];
    assert l[1..] == rest[1..];
    assert [c] + rest[0] + "\n" + Terminated(rest[1..]) == [c] + (rest[0] + "\n" + Terminated(rest[1..]));
  }

  lemma RawIsTerminated(text: string)
    requires Divide(text).Some?
    ensures var raw := Divide(text).value.raw; raw == "" || raw[|raw| - 1] == '\n'
  {
    var k := FindClosing(text[3..]).value;
    assert text[3..][k..k + 5][0] == '\n';
    assert text[3 + k] == '\n';
  }

  lemma AfterOpening(x: string)
    ensures (FENCE + x)[3..] == OnNewLine(x)
  {
  }

  lemma FoundAt(text: string)
    requires Divide(text).Some?
    ensures FindClosing(text[3..]) == Some(|Divide(text).value.raw|)
  {
    hide FindClosing;
  }

  /** Where the closing fence was found: right after the raw lines. */
  lemma ClosingAfterRaw(text: string)
    requires Divide(text).Some?
    ensures var p := Divide(text).value; FindClosing(OnNewLine(p.raw + p.rest)) == Some(|p.raw|)
  {
    hide Divide, FindClosing, OnNewLine;
    DivideWhole(text);
    FoundAt(text);
    var p := Divide(text).value;
    AfterOpening(p.raw + p.rest);
    assert FENCE + p.raw + p.rest == FENCE + (p.raw + p.rest);
  }

  /** A fence line inside a block would have closed it. */
  lemma NoFenceInside(before: seq<string>, after: string, rest: string)
    requires FieldLines(before)
    ensures FindClosing(OnNewLine(Terminated(before) + (FENCE + after) + rest)) == Some(|Terminated(before)|)
  {
    hide FindClosing, FieldLines, Terminated;
    FindAfterFields(before, FENCE + (after + rest));
    ClosingHere(after + rest);
    assert Terminated(before) + (FENCE + after) + rest == Terminated(before) + (FENCE + (after + rest));
  }

  lemma {:induction false} RawAreFields(lines: seq<string>, k: nat, rest: string)
    requires AllNewlineFree(lines) && k <= |lines|
    requires FindClosing(OnNewLine(Terminated(lines) + rest)) == Some(|Terminated(lines)|)
    ensures FieldLines(lines[..k])
  {
    hide FindClosing, Terminated;
    if k > 0 {
      RawAreFields(lines, k - 1, rest);
      if lines[k - 1] == "---" {
        var after := Terminated(lines[k..]);
        assert Terminated(lines) == Terminated(lines[..k - 1]) + (FENCE + after) by {
          TerminatedConcat(lines[..k - 1], lines[k - 1..]);
          assert lines == lines[..k - 1] + lines[k - 1..];
          FenceFirst(lines[k - 1..]);
          assert lines[k - 1..][1..] == lines[k..];
        }
        NoFenceInside(lines[..k - 1], after, rest);
      }
    }
  }

  lemma FenceFirst(lines: seq<string>)
    requires lines != [] && lines[0] == "---"
    ensures Terminated(lines) == FENCE + Terminated(lines[1..])
  {
    assert "---" + "\n" == FENCE;
  }

  /** Every text that divides is an emitted block of field lines with its body behind. */
  lemma DivideExact(text: string)
    requires Divide(text).Some?
    ensures var p := Divide(text).value; var lines := HeadLines(p.raw);
            FieldLines(lines) && p.raw == Terminated(lines) && text == Emit(lines) + p.body
  {
    var p := Divide(text).value;
    var lines := HeadLines(p.raw);
    SplitIsNewlineFree(p.raw);
    hide FindClosing;
    RawIsTerminated(text);
    ClosingAfterRaw(text);
    DivideWhole(text);
    TerminatedHead(p.raw);
    RawAreFields(lines, |lines|, p.rest);
    assert lines[..|lines|] == lines;
    assert FENCE + p.raw + (FENCE + p.body) == FENCE + p.raw + FENCE + p.body;
  }
}
