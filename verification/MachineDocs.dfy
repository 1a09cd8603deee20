/**
 `_write_machine` of `generator/render.py`: one machine doc and its `generated_at` stamp.
 A file is written as bytes and read back in text mode.  The YAML reader of the stamp is a
 parameter; what a snapshot and the tree give a doc is part of its entry.
 */
module MachineDocs {
  import opened Basics
  import opened TextLines
  import opened TextFiles
  import opened FrontMatter
  import opened PurposeSlots

  type Files = map<string, string>

  datatype RawBody = Body(t: Template, fills: seq<string>)

  /** What fills a slot is a cell: neither newline nor carriage return. */
  predicate BodyOk(b: RawBody) {
    TemplateOk(b.t) && |b.fills| == |b.t| && AllNewlineFree(b.fills) && AllCrFree(b.fills)
  }

  type Body = b: RawBody | BodyOk(b) witness RawBody.Body([Fixed("")], [""])

  function Text(b: Body): string {
    Fill(b.t, b.fills)
  }

  /** A planned machine doc: its path, its front-matter lines around the stamp, and the body a tree gives it. */
  datatype Entry = Entry(path: string, before: seq<string>, after: seq<string>, body: Files -> Body)

  /** The date-shaped `generated_at` of a raw front-matter block, if it parses to one. */
  type Stamp = string -> Option<string>

  predicate Digit(c: char) {
    '0' <= c <= '9'
  }

  predicate DateShaped(d: string) {
    && |d| == 10 && d[4] == '-' && d[7] == '-'
    && Digit(d[0]) && Digit(d[1]) && Digit(d[2]) && Digit(d[3]) && Digit(d[5]) && Digit(d[6]) && Digit(d[8]) && Digit(d[9])
  }

  function FieldsAt(e: Entry, date: string): seq<string> {
    e.before + ["generated_at: " + date] + e.after
  }

  function Head(e: Entry, date: string): string {
    Emit(FieldsAt(e, date)) + "\n"
  }

  predicate EntryOk(e: Entry) {
    FieldLines(e.before) && FieldLines(e.after) && AllCrFree(e.before) && AllCrFree(e.after)
  }

  /** The reader finds the stamp of every block the renderer emits. */
  ghost predicate StampOk(stamp: Stamp, e: Entry) {
    && (forall d | DateShaped(d) :: stamp(Terminated(FieldsAt(e, d))) == Some(d))
    && (forall raw :: stamp(raw).Some? ==> DateShaped(stamp(raw).value))
  }

  function StampOf(stamp: Stamp, text: string): Option<string> {
    match Divide(text)
    case None => None
    case Some(p) => stamp(p.raw)
  }

  predicate StartsWith(s: string, prefix: string) {
    |prefix| <= |s| && s[..|prefix|] == prefix
  }

  function AbsentText(b: Body): string {
    Fill(b.t, Uniform(b.t, DASH))
  }

  function MarkedText(b: Body): string {
    Fill(b.t, Uniform(b.t, MARKER))
  }

  /** The date a rewrite carries: the old one if only purpose slots changed. */
  function NewStamp(stamp: Stamp, text: string, e: Entry, b: Body, newDate: string): string {
    match StampOf(stamp, text)
    case None => newDate
    case Some(d) =>
      if StartsWith(text, Head(e, d)) && Confined(text[|Head(e, d)|..], AbsentText(b), MarkedText(b)) then d else newDate
  }

  predicate UpToDate(stamp: Stamp, text: string, e: Entry, b: Body) {
    match StampOf(stamp, text)
    case None => false
    case Some(d) => text == Head(e, d) + Text(b)
  }

  /** The file reads as the doc. */
  predicate Fresh(stamp: Stamp, files: Files, e: Entry, b: Body) {
    e.path in files && UpToDate(stamp, ReadText(files[e.path]), e, b)
  }

  /** Writes one machine doc unless the file already reads the same; the flag tells whether it wrote. */
  function WriteMachine(stamp: Stamp, files: Files, e: Entry, b: Body, newDate: string): (Files, bool) {
    if Fresh(stamp, files, e, b) then
      (files, false)
    else
      var date := if e.path in files then NewStamp(stamp, ReadText(files[e.path]), e, b, newDate) else newDate;
      (files[e.path := Head(e, date) + Text(b)], true)
  }

  // ---------------------------------------------------------------------------
  // Heads

  lemma DateChars(d: string)
    requires DateShaped(d)
    ensures NewlineFree(d) && CrFree(d)
  {
    assert d == [d[0], d[1], d[2], d[3], d[4], d[5], d[6], d[7], d[8], d[9]];
  }

  lemma StampLineOk(d: string)
    requires DateShaped(d)
    ensures NewlineFree("generated_at: " + d) && "generated_at: " + d != "---" && CrFree("generated_at: " + d)
  {
    DateChars(d);
    var line := "generated_at: " + d;
    assert line[0] == 'g';
    assert NewlineFree("generated_at: ") && CrFree("generated_at: ");
  }

  lemma FieldsOk(e: Entry, d: string)
    requires EntryOk(e) && DateShaped(d)
    ensures FieldLines(FieldsAt(e, d)) && AllCrFree(FieldsAt(e, d))
  {
    StampLineOk(d);
    var mid := ["generated_at: " + d];
    var lines := e.before + mid + e.after;
    forall i | 0 <= i < |lines| ensures NewlineFree(lines[i]) && lines[i] != "---" && CrFree(lines[i]) {
      if i < |e.before| { assert lines[i] == e.before[i]; }
      else if i == |e.before| { assert lines[i] == mid[0]; }
      else { assert lines[i] == e.after[i - |e.before| - 1]; }
    }
  }

  lemma {:induction false} TerminatedCrFree(lines: seq<string>)
    requires AllCrFree(lines)
    ensures CrFree(Terminated(lines))
  {
    if lines != [] { TerminatedCrFree(lines[1..]); }
  }

  lemma HeadCrFree(e: Entry, d: string)
    requires EntryOk(e) && DateShaped(d)
    ensures CrFree(Head(e, d))
  {
    FieldsOk(e, d);
    TerminatedCrFree(FieldsAt(e, d));
    hide Terminated, FieldsAt;
  }

  /** The stamp of a rendered file reads back. */
  lemma StampReadsBack(stamp: Stamp, e: Entry, d: string, body: string)
    requires EntryOk(e) && StampOk(stamp, e) && DateShaped(d)
    ensures StampOf(stamp, Head(e, d) + body) == Some(d)
  {
    FieldsOk(e, d);
    assert Head(e, d) + body == Emit(FieldsAt(e, d)) + ("\n" + body);
    DivideEmitted(FieldsAt(e, d), "\n" + body);
  }

  lemma HeadTail(e: Entry, d: string, body: string)
    ensures StartsWith(Head(e, d) + body, Head(e, d)) && (Head(e, d) + body)[|Head(e, d)|..] == body
  {
    hide Head;
  }

  lemma SameHead(head: string, a: string, b: string)
    ensures head + a == head + b <==> a == b
  {
    if head + a == head + b {
      assert (head + a)[|head|..] == a && (head + b)[|head|..] == b;
    }
  }

  // ---------------------------------------------------------------------------
  // Writing

  /** The file reads as the doc with this body, under this date. */
  ghost predicate Shows(files: Files, e: Entry, d: string, b: Body) {
    DateShaped(d) && e.path in files && ReadText(files[e.path]) == Head(e, d) + ReadText(Text(b))
  }

  lemma StampShown(stamp: Stamp, files: Files, e: Entry, d: string, b: Body)
    requires EntryOk(e) && StampOk(stamp, e) && Shows(files, e, d, b)
    ensures StampOf(stamp, ReadText(files[e.path])) == Some(d)
  {
    hide Head, Text, StampOf, StampOk, ReadText;
    StampReadsBack(stamp, e, d, ReadText(Text(b)));
  }

  /** A rendered file counts as up to date exactly if the new body is the old one as it reads. */
  lemma FreshIff(stamp: Stamp, files: Files, e: Entry, d: string, was: Body, b: Body)
    requires EntryOk(e) && StampOk(stamp, e) && Shows(files, e, d, was)
    ensures Fresh(stamp, files, e, b) <==> Text(b) == ReadText(Text(was))
  {
    StampShown(stamp, files, e, d, was);
    hide StampOf, Text, Head, StampOk, ReadText;
    SameHead(Head(e, d), ReadText(Text(was)), Text(b));
  }

  lemma TextCrFreeIff(b: Body)
    ensures CrFree(Text(b)) <==> TemplateCrFree(b.t)
  {
    FillCrFreeIff(b.t, b.fills);
  }

  lemma TextReadsIff(b: Body)
    ensures ReadText(Text(b)) == Text(b) <==> TemplateCrFree(b.t)
  {
    TextCrFreeIff(b);
    ReadSameIff(Text(b));
  }

  /** A rendered doc is left alone if and only if its body holds no carriage return. */
  lemma WriteIdleIff(stamp: Stamp, files: Files, e: Entry, b: Body, d: string, newDate: string)
    requires EntryOk(e) && StampOk(stamp, e) && Shows(files, e, d, b)
    ensures WriteMachine(stamp, files, e, b, newDate) == (files, false) <==> TemplateCrFree(b.t)
    ensures WriteMachine(stamp, files, e, b, newDate).1 <==> !TemplateCrFree(b.t)
  {
    hide Fresh, Text, Head, StampOk, ReadText, TemplateCrFree;
    FreshIff(stamp, files, e, d, b, b);
    TextReadsIff(b);
  }

  /** The stamp the doc has after a write. */
  function DateAfter(stamp: Stamp, files: Files, e: Entry, b: Body, newDate: string): string {
    if e.path !in files then newDate else
    var text := ReadText(files[e.path]);
    if UpToDate(stamp, text, e, b) && StampOf(stamp, text).Some? then StampOf(stamp, text).value
    else NewStamp(stamp, text, e, b, newDate)
  }

  lemma StampsAreDates(stamp: Stamp, e: Entry, text: string)
    requires StampOk(stamp, e)
    ensures StampOf(stamp, text).Some? ==> DateShaped(StampOf(stamp, text).value)
  {
  }

  /** Whatever the tree held, the doc reads as rendered afterwards, under its date, and nothing else changed. */
  lemma WriteSettles(stamp: Stamp, files: Files, e: Entry, b: Body, newDate: string)
    requires EntryOk(e) && StampOk(stamp, e) && DateShaped(newDate)
    ensures var f := WriteMachine(stamp, files, e, b, newDate).0;
            && Shows(f, e, DateAfter(stamp, files, e, b, newDate), b)
            && f.Keys == files.Keys + {e.path} && forall p :: p in files && p != e.path ==> f[p] == files[p]
  {
    if e.path in files { StampsAreDates(stamp, e, ReadText(files[e.path])); }
    var d := DateAfter(stamp, files, e, b, newDate);
    hide ReadText, Head, Text, StampOf, StampOk;
    if Fresh(stamp, files, e, b) {
      ReadTwice(files[e.path], Head(e, d), Text(b));
    } else {
      HeadCrFree(e, d);
      ReadAfterCrFree(Head(e, d), Text(b));
    }
  }

  /** A text as read ends in text that reads as itself. */
  lemma ReadTwice(file: string, head: string, body: string)
    requires ReadText(file) == head + body
    ensures ReadText(body) == body
  {
    ReadIsCrFree(file);
    hide ReadText;
    assert CrFree(body) by { assert forall i :: 0 <= i < |body| ==> body[i] == (head + body)[|head| + i]; }
    ReadSameIff(body);
  }

  lemma OldBodyConfinedIff(t: Template, was: Body)
    requires was.t == t
    ensures Confined(ReadText(Text(was)), Fill(t, Uniform(t, DASH)), Fill(t, Uniform(t, MARKER))) <==> TemplateCrFree(t)
  {
    StampRuleExact(t, ReadText(Text(was)));
    assert Fits(t, Text(was));
    hide Confined, Fill, Fits, ReadText, TemplateCrFree;
    TextReadsIff(was);
    if !TemplateCrFree(t) { ReadTextFitsNot(t, Text(was)); }
  }

  /** The file reads as the doc under the date it carries, with some text in each purpose slot. */
  ghost predicate OnlySlotsDiffer(stamp: Stamp, text: string, e: Entry, t: Template)
    requires t != []
  {
    StampOf(stamp, text).Some? && exists body :: text == Head(e, StampOf(stamp, text).value) + body && Fits(t, body)
  }

  lemma SlotsUnder(head: string, text: string, b: Body)
    ensures (exists body :: text == head + body && Fits(b.t, body)) <==>
              StartsWith(text, head) && Confined(text[|head|..], AbsentText(b), MarkedText(b))
  {
    hide Confined, Fill, Fits;
    if StartsWith(text, head) {
      assert text == head + text[|head|..];
      StampRuleExact(b.t, text[|head|..]);
    }
    if body :| text == head + body && Fits(b.t, body) {
      assert text[|head|..] == body;
      StampRuleExact(b.t, body);
    }
  }

  lemma NewStampIff(stamp: Stamp, text: string, e: Entry, b: Body, newDate: string)
    ensures NewStamp(stamp, text, e, b, newDate) == if OnlySlotsDiffer(stamp, text, e, b.t) then StampOf(stamp, text).value else newDate
  {
    hide Head, StampOf, Confined, Fits, AbsentText, MarkedText, StartsWith;
    if StampOf(stamp, text).Some? { SlotsUnder(Head(e, StampOf(stamp, text).value), text, b); }
  }

  lemma UpToDateSlots(stamp: Stamp, text: string, e: Entry, b: Body)
    requires UpToDate(stamp, text, e, b)
    ensures OnlySlotsDiffer(stamp, text, e, b.t)
  {
    assert Fits(b.t, Text(b));
    hide Head, StampOf, Fits, Text;
  }

  /** The date is kept exactly if at most the purpose slots changed; any other change takes the new date. */
  lemma DateKeptIff(stamp: Stamp, files: Files, e: Entry, b: Body, newDate: string)
    requires e.path in files
    ensures var text := ReadText(files[e.path]);
            DateAfter(stamp, files, e, b, newDate) == if OnlySlotsDiffer(stamp, text, e, b.t) then StampOf(stamp, text).value else newDate
  {
    hide ReadText, NewStamp, OnlySlotsDiffer, UpToDate, StampOf;
    var text := ReadText(files[e.path]);
    NewStampIff(stamp, text, e, b, newDate);
    if UpToDate(stamp, text, e, b) { UpToDateSlots(stamp, text, e, b); }
  }

  /**
   A render that only refills slots keeps the stamp, whatever its own date, if and only if the
   body holds no carriage return; otherwise it stamps its own date.
   */
  lemma RefillKeepsStampIff(stamp: Stamp, files: Files, e: Entry, was: Body, b: Body, d: string, newDate: string)
    requires EntryOk(e) && StampOk(stamp, e) && Shows(files, e, d, was) && was.t == b.t
    ensures DateAfter(stamp, files, e, b, newDate) == if TemplateCrFree(b.t) then d else newDate
  {
    StampShown(stamp, files, e, d, was);
    HeadTail(e, d, ReadText(Text(was)));
    OldBodyConfinedIff(b.t, was);
    FreshIff(stamp, files, e, d, was, b);
    ReadIsCrFree(Text(was));
    TextCrFreeIff(b);
    hide Head, StampOf, Confined, Fill, StampOk, TemplateCrFree, ReadText, Text;
  }
}
