/**
 `generator/statuses.py`: one instruction applied to a text.
 */
module StatusInstructions {
  import opened Basics
  import opened TextLines
  import opened FrontMatter
  import opened StatusWrites
  import opened ReplacementTemplates

  /** What YAML finds in a block; an absent contamination reads as the null value. */
  datatype Fields<V> = Fields(status: Option<string>, contamination: V)

  datatype Instruction<V> = Instruction(doc: string, status: string, contamination: Option<V>)

  /**
   The library calls: `parse` loads a block, `flow` prints a contamination value on one line
   (none for an unsupported type), `expand` expands a replacement template (none for a bad one).
   */
  datatype Library<!V> = Library(parse: string -> Option<Fields<V>>, flow: V -> Option<string>, expand: string -> Option<string>)

  /** `frontmatter.split`. */
  function Split<V>(lib: Library<V>, text: string): (Option<Fields<V>>, string) {
    match Divide(text)
    case None => (None, text)
    case Some(p) => if lib.parse(p.raw).None? then (None, text) else (lib.parse(p.raw), p.body)
  }

  function StatusText(s: string): string {
    "status: " + s
  }

  function ContaminationText(s: string): string {
    "contamination: " + s
  }

  /** The contamination edit; the replaced block goes through the template, the inserted line does not. */
  function MarkHead<V>(lib: Library<V>, head: string, v: V): Option<string> {
    var lines := HeadLines(head);
    match lib.flow(v)
    case None => None
    case Some(f) =>
      if !HasBlock(lines) then Some(Terminated(SetContamination(lines, ContaminationText(f))))
      else if lib.expand(f).None? then None
      else Some(Terminated(SetContamination(lines, ContaminationText(lib.expand(f).value))))
  }

  function EditHead<V>(lib: Library<V>, raw: string, i: Instruction<V>): Option<string> {
    var lines := HeadLines(raw);
    if i.status == "" || !HasStatus(lines) || lib.expand(i.status).None? then None else
    var head := Terminated(SetStatus(lines, StatusText(lib.expand(i.status).value)));
    if i.contamination.None? then Some(head) else MarkHead(lib, head, i.contamination.value)
  }

  /** The values asked for are the values read back. */
  predicate ReadsBack<V(==)>(fields: Option<Fields<V>>, i: Instruction<V>) {
    && fields.Some? && fields.value.status == Some(i.status)
    && (i.contamination.Some? ==> fields.value.contamination == i.contamination.value)
  }

  /** The edited text, or a refusal. */
  function Apply<V(==)>(lib: Library<V>, text: string, i: Instruction<V>): Option<string> {
    if Divide(text).None? then None else
    var p := Divide(text).value;
    match EditHead(lib, p.raw, i)
    case None => None
    case Some(head) =>
      var edited := FENCE + head + p.rest;
      var (fields, body) := Split(lib, edited);
      if body == Split(lib, text).1 && ReadsBack(fields, i) then Some(edited) else None
  }

  /**
   Whatever is inserted, the closing fence and everything behind it are kept byte for byte,
   the document still splits at the same body, and the values read back are those asked for.
   */
  lemma RestKept<V>(lib: Library<V>, text: string, i: Instruction<V>)
    requires Apply(lib, text, i).Some?
    ensures var edited := Apply(lib, text, i).value; var rest := Divide(text).value.rest;
            && |rest| <= |edited| && edited[|edited| - |rest|..] == rest
            && Split(lib, edited).1 == Split(lib, text).1
            && ReadsBack(Split(lib, edited).0, i)
  {
    hide Divide, EditHead;
  }

  // ---------------------------------------------------------------------------
  // Insertions of one line: the exact outcome

  /** No text that can be inserted holds a newline, before or after the template is expanded. */
  predicate OneLineInserts<V>(lib: Library<V>, i: Instruction<V>) {
    && (lib.expand(i.status).Some? ==> NewlineFree(lib.expand(i.status).value))
    && (i.contamination.Some? && lib.flow(i.contamination.value).Some? ==>
          var f := lib.flow(i.contamination.value).value;
          NewlineFree(f) && (lib.expand(f).Some? ==> NewlineFree(lib.expand(f).value)))
  }

  /** The contamination text that is written: expanded when it replaces a block, as it is otherwise. */
  function Marking<V>(lib: Library<V>, lines: seq<string>, i: Instruction<V>): Option<string> {
    if i.contamination.None? || lib.flow(i.contamination.value).None? then None
    else if HasBlock(lines) then lib.expand(lib.flow(i.contamination.value).value)
    else lib.flow(i.contamination.value)
  }

  /** Every text asked for can be written. */
  predicate Writable<V>(lib: Library<V>, lines: seq<string>, i: Instruction<V>) {
    lib.expand(i.status).Some? && (i.contamination.Some? ==> Marking(lib, lines, i).Some?)
  }

  function Line<V>(lib: Library<V>, lines: seq<string>, i: Instruction<V>): Option<string> {
    if Marking(lib, lines, i).Some? then Some(ContaminationText(Marking(lib, lines, i).value)) else None
  }

  function NewStatus<V>(lib: Library<V>, i: Instruction<V>): string {
    StatusText(if lib.expand(i.status).Some? then lib.expand(i.status).value else "")
  }

  lemma Kinds(s: string)
    ensures StatusLine(StatusText(s)) && ContaminationLine(ContaminationText(s))
    ensures NewlineFree(s) ==> FieldLine(StatusText(s)) && FieldLine(ContaminationText(s))
  {
    assert StatusText(s)[..7] == STATUS;
    assert ContaminationText(s)[..14] == CONTAMINATION;
    assert StatusText(s)[0] == 's' && ContaminationText(s)[0] == 'c';
  }

  /** The lines after the edit. */
  function EditedLines<V>(lib: Library<V>, lines: seq<string>, i: Instruction<V>): seq<string>
    requires HasStatus(lines)
  {
    Kinds(if lib.expand(i.status).Some? then lib.expand(i.status).value else "");
    NewLines(lines, NewStatus(lib, i), Line(lib, lines, i))
  }

  predicate FieldLine(line: string) {
    NewlineFree(line) && line != "---"
  }

  lemma SetStatusFields(lines: seq<string>, s: string)
    requires FieldLines(lines) && HasStatus(lines) && FieldLine(s)
    ensures FieldLines(SetStatus(lines, s))
  {
    hide First;
  }

  lemma SetContaminationFields(lines: seq<string>, c: string)
    requires FieldLines(lines) && FieldLine(c)
    ensures FieldLines(SetContamination(lines, c))
  {
    hide First, RunEnd;
    var r := SetContamination(lines, c);
    forall k | 0 <= k < |r| ensures FieldLine(r[k]) {
      assert r[k] in lines || r[k] == c;
    }
  }

  lemma FieldsReadBack(lines: seq<string>)
    requires FieldLines(lines)
    ensures HeadLines(Terminated(lines)) == lines
  {
    HeadOfTerminated(lines);
  }

  /** The edit of a block is the edit of its lines. */
  lemma LineEdit<V>(lib: Library<V>, raw: string, i: Instruction<V>)
    requires OneLineInserts(lib, i) && i.status != "" && FieldLines(HeadLines(raw)) && HasStatus(HeadLines(raw))
    ensures EditHead(lib, raw, i) ==
              if Writable(lib, HeadLines(raw), i) then Some(Terminated(EditedLines(lib, HeadLines(raw), i))) else None
    ensures Writable(lib, HeadLines(raw), i) ==> FieldLines(EditedLines(lib, HeadLines(raw), i))
  {
    hide First, RunEnd, HeadLines, Terminated, FieldLines, StatusText, ContaminationText;
    var lines := HeadLines(raw);
    if lib.expand(i.status).Some? {
      var s := NewStatus(lib, i);
      Kinds(lib.expand(i.status).value);
      SetStatusKeeps(lines, s);
      var l := SetStatus(lines, s);
      SetStatusFields(lines, s);
      FieldsReadBack(l);
      if Marking(lib, lines, i).Some? {
        var f := Marking(lib, lines, i).value;
        Kinds(f);
        SetContaminationFields(l, ContaminationText(f));
      }
    }
  }

  /** Whether an instruction goes through: every text can be written, there is a status line, and YAML reads both blocks. */
  predicate Accepted<V(==)>(lib: Library<V>, lines: seq<string>, i: Instruction<V>) {
    && i.status != "" && HasStatus(lines) && Writable(lib, lines, i) && lib.parse(Terminated(lines)).Some?
    && ReadsBack(lib.parse(Terminated(EditedLines(lib, lines, i))), i)
  }

  lemma SplitEmitted<V>(lib: Library<V>, lines: seq<string>, body: string)
    requires FieldLines(lines)
    ensures Divide(Emit(lines) + body) == Some(Parts(Terminated(lines), body, FENCE + body))
    ensures var text := Emit(lines) + body; var fields := lib.parse(Terminated(lines));
            Split(lib, text) == if fields.None? then (None, text) else (fields, body)
  {
    DivideEmitted(lines, body);
    hide Divide, Terminated, FieldLines, Emit;
  }

  lemma EmitWith(raw: string, lines: seq<string>, body: string)
    requires raw == Terminated(lines)
    ensures FENCE + raw + (FENCE + body) == Emit(lines) + body && |body| < |Emit(lines) + body|
  {
    hide Terminated;
    assert FENCE + raw + (FENCE + body) == FENCE + raw + FENCE + body;
  }

  /**
   An instruction is refused or changes exactly the first status line and the first
   contamination block of the front matter; the body is kept.
   */
  lemma ApplyExact<V>(lib: Library<V>, lines: seq<string>, body: string, i: Instruction<V>)
    requires OneLineInserts(lib, i) && FieldLines(lines)
    ensures Apply(lib, Emit(lines) + body, i) == if Accepted(lib, lines, i) then Some(Emit(EditedLines(lib, lines, i)) + body) else None
  {
    hide Divide, Terminated, FieldLines, First, RunEnd, HeadLines, Emit, EditedLines, StatusText, Split, OneLineInserts;
    var raw := Terminated(lines);
    SplitEmitted(lib, lines, body);
    FieldsReadBack(lines);
    EmitWith(raw, lines, body);
    if i.status != "" && HasStatus(lines) {
      LineEdit(lib, raw, i);
      if Writable(lib, lines, i) {
        var r := EditedLines(lib, lines, i);
        SplitEmitted(lib, r, body);
        EmitWith(Terminated(r), r, body);
      }
    }
  }

  /** A text without a front-matter block is refused; any other is a block with its body. */
  lemma ApplyOther<V>(lib: Library<V>, text: string, i: Instruction<V>)
    ensures Divide(text).None? ==> Apply(lib, text, i).None?
    ensures Divide(text).Some? ==> var p := Divide(text).value; FieldLines(HeadLines(p.raw)) && text == Emit(HeadLines(p.raw)) + p.body
  {
    hide EditHead, Split;
    if Divide(text).Some? { DivideExact(text); }
  }

  lemma LineKind<V>(lib: Library<V>, lines: seq<string>, i: Instruction<V>)
    ensures StatusLine(NewStatus(lib, i))
    ensures Line(lib, lines, i).Some? ==> ContaminationLine(Line(lib, lines, i).value)
    ensures Writable(lib, lines, i) ==> (Line(lib, lines, i).Some? <==> i.contamination.Some?)
  {
    Kinds(if lib.expand(i.status).Some? then lib.expand(i.status).value else "");
    if Marking(lib, lines, i).Some? { Kinds(Marking(lib, lines, i).value); }
    hide StatusText, ContaminationText, StatusLine, ContaminationLine;
  }

  /** What the requested lines say. */
  lemma WrittenLines<V>(lib: Library<V>, lines: seq<string>, i: Instruction<V>)
    requires Writable(lib, lines, i)
    ensures lib.expand(i.status).Some? && NewStatus(lib, i) == "status: " + lib.expand(i.status).value
    ensures i.contamination.Some? ==>
              Marking(lib, lines, i).Some? && Line(lib, lines, i) == Some("contamination: " + Marking(lib, lines, i).value)
  {
  }

  /** Different blocks give different documents. */
  lemma EmitInjective(a: seq<string>, b: seq<string>, body: string)
    requires FieldLines(a) && FieldLines(b) && Emit(a) + body == Emit(b) + body
    ensures a == b
  {
    hide Divide, Terminated, FieldLines, HeadLines, Emit;
    DivideEmitted(a, body);
    DivideEmitted(b, body);
    FieldsReadBack(a);
    FieldsReadBack(b);
  }

  /**
   An edit that went through: the document was a block `lines` with a body; it is now the block
   `r` with the same body; `r` has the requested lines and, apart from them, the other lines of
   `lines` in order.
   */
  lemma EditKeepsTheRest<V>(lib: Library<V>, text: string, i: Instruction<V>) returns (lines: seq<string>, r: seq<string>, body: string)
    requires OneLineInserts(lib, i) && Apply(lib, text, i).Some?
    ensures text == Emit(lines) + body && Apply(lib, text, i).value == Emit(r) + body
    ensures FieldLines(lines) && Accepted(lib, lines, i) && r == EditedLines(lib, lines, i) && FieldLines(r)
    ensures HasStatus(lines) && HasStatus(r) && lib.expand(i.status).Some? && r[First(r, STATUS)] == "status: " + lib.expand(i.status).value
    ensures i.contamination.None? ==> DropLine(r, STATUS) == DropLine(lines, STATUS)
    ensures i.contamination.Some? ==>
              && HasBlock(r) && Marking(lib, lines, i).Some? && r[First(r, CONTAMINATION)] == "contamination: " + Marking(lib, lines, i).value
              && DropLine(DropLine(r, CONTAMINATION), STATUS) == DropLine(DropBlock(lines), STATUS)
  {
    hide Divide, Terminated, FieldLines, First, RunEnd, HeadLines, Emit, NewLines, Apply, DropLine, DropBlock, ContaminationLine, StatusLine,
         NewStatus, Line, Writable;
    ApplyOther(lib, text, i);
    var p := Divide(text).value;
    lines, body := HeadLines(p.raw), p.body;
    ApplyExact(lib, lines, body, i);
    r := EditedLines(lib, lines, i);
    LineKind(lib, lines, i);
    WrittenLines(lib, lines, i);
    OthersKept(lines, NewStatus(lib, i), Line(lib, lines, i));
    FieldsReadBack(lines);
    LineEdit(lib, Terminated(lines), i);
  }

  /** The template turns the printed value into itself. */
  predicate ExpandsToItself<V(==)>(lib: Library<V>, i: Instruction<V>) {
    i.contamination.Some? && lib.flow(i.contamination.value).Some? ==>
      lib.expand(lib.flow(i.contamination.value).value) == lib.flow(i.contamination.value)
  }

  /** When a second application writes what the first one left. */
  ghost predicate Stable<V>(lib: Library<V>, lines: seq<string>, i: Instruction<V>)
    requires HasStatus(lines)
  {
    !Swallows(lines, Line(lib, lines, i)) && (HasBlock(lines) || ExpandsToItself(lib, i))
  }

  lemma SecondLine<V>(lib: Library<V>, lines: seq<string>, r: seq<string>, i: Instruction<V>)
    requires Writable(lib, lines, i) && (i.contamination.Some? ==> HasBlock(r))
    ensures Writable(lib, r, i) && Line(lib, r, i) == Line(lib, lines, i) <==> HasBlock(lines) || ExpandsToItself(lib, i)
    ensures i.contamination.None? ==> Line(lib, r, i) == Line(lib, lines, i) == None
  {
    if Marking(lib, r, i).Some? && Marking(lib, lines, i).Some? {
      SameMarking(Marking(lib, r, i).value, Marking(lib, lines, i).value);
    }
    hide ContaminationText;
  }

  lemma SameMarking(a: string, b: string)
    ensures ContaminationText(a) == ContaminationText(b) <==> a == b
  {
    if ContaminationText(a) == ContaminationText(b) {
      var n := |"contamination: "|;
      assert ContaminationText(a)[n..] == a && ContaminationText(b)[n..] == b;
    }
  }

  lemma SecondLines<V>(lib: Library<V>, lines: seq<string>, i: Instruction<V>)
    requires HasStatus(lines) && Writable(lib, lines, i)
    ensures HasStatus(EditedLines(lib, lines, i))
    ensures var r := EditedLines(lib, lines, i); Writable(lib, r, i) && EditedLines(lib, r, i) == r <==> Stable(lib, lines, i)
  {
    hide First, RunEnd, NewStatus, Line, Writable, NewLines, StatusLine, ContaminationLine, Swallows;
    var s, c, r := NewStatus(lib, i), Line(lib, lines, i), EditedLines(lib, lines, i);
    LineKind(lib, lines, i);
    LineKind(lib, r, i);
    TwiceIsOnce(lines, s, c);
    if i.contamination.Some? { BlockThere(lines, s, c.value); }
    SecondLine(lib, lines, r, i);
    if i.contamination.Some? && Writable(lib, r, i) {
      SecondEditIff(lines, s, c.value, Line(lib, r, i).value);
    } else if i.contamination.None? {
      NothingMarked(lib, lines, i);
      NothingMarked(lib, r, i);
    }
  }

  lemma NothingMarked<V>(lib: Library<V>, lines: seq<string>, i: Instruction<V>)
    requires i.contamination.None?
    ensures Line(lib, lines, i) == None && ExpandsToItself(lib, i) && (Writable(lib, lines, i) <==> lib.expand(i.status).Some?)
  {
  }

  /**
   Applying an accepted instruction again leaves the document alone if and only if no inserted
   line swallows indented lines and, where there was no block, the template expands to itself.
   */
  lemma ApplyTwiceIff<V>(lib: Library<V>, text: string, i: Instruction<V>) returns (lines: seq<string>)
    requires OneLineInserts(lib, i) && Apply(lib, text, i).Some?
    ensures Divide(text).Some? && lines == HeadLines(Divide(text).value.raw) && HasStatus(lines)
    ensures Apply(lib, Apply(lib, text, i).value, i) == Apply(lib, text, i) <==> Stable(lib, lines, i)
  {
    hide Terminated, FieldLines, First, RunEnd, Emit, NewLines, Apply, DropLine, DropBlock, Stable, Writable, ReadsBack, OneLineInserts, EditedLines,
         HeadLines, Divide;
    var r, body;
    lines, r, body := EditKeepsTheRest(lib, text, i);
    SplitEmitted(lib, lines, body);
    FieldsReadBack(lines);
    SecondLines(lib, lines, i);
    ApplyExact(lib, r, body, i);
    if Writable(lib, r, i) {
      FieldsReadBack(r);
      LineEdit(lib, Terminated(r), i);
      if Emit(EditedLines(lib, r, i)) + body == Emit(r) + body { EmitInjective(EditedLines(lib, r, i), r, body); }
    }
    ParsedAgain(lib, lines, i);
  }

  /** What read back once parses. */
  lemma ParsedAgain<V>(lib: Library<V>, lines: seq<string>, i: Instruction<V>)
    requires Accepted(lib, lines, i)
    ensures lib.parse(Terminated(EditedLines(lib, lines, i))).Some? && ReadsBack(lib.parse(Terminated(EditedLines(lib, lines, i))), i)
    ensures i.status != "" && Writable(lib, lines, i)
  {
  }

  /**
   A contamination value with a backslash, such as a path, marked on a document that had no
   block: the same instruction again does not leave the document alone.
   */
  lemma BackslashIsNotStable<V>(lib: Library<V>, text: string, i: Instruction<V>, a: string, b: string)
    requires OneLineInserts(lib, i) && Apply(lib, text, i).Some? && (forall s :: lib.expand(s) == Template(s))
    requires '\\' !in a && '\\' !in b && i.contamination.Some? && lib.flow(i.contamination.value) == Some(a + "\\\\" + b)
    requires !HasBlock(HeadLines(Divide(text).value.raw))
    ensures Apply(lib, Apply(lib, text, i).value, i) != Apply(lib, text, i)
  {
    hide Apply, Divide, HeadLines, OneLineInserts, Template;
    DoubledBackslash(a, b);
    var lines := ApplyTwiceIff(lib, text, i);
    assert !ExpandsToItself(lib, i);
  }
}
