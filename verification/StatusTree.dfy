/** `apply_all` of `generator/statuses.py`: a list of instructions applied to a tree, all or nothing. */
module StatusTree {
  import opened Basics
  import opened Ordering
  import opened TextFiles
  import opened FrontMatter
  import opened StatusInstructions

  datatype Summary = Refused(doc: string) | Applied(edited: seq<string>, idle: seq<string>)

  /** What an instruction makes of its document, as it was read before the call. */
  function Outcome<V(==)>(lib: Library<V>, files: map<string, string>, i: Instruction<V>): Option<string> {
    if i.doc in files then Apply(lib, ReadText(files[i.doc]), i) else None
  }

  predicate Changes<V(==)>(lib: Library<V>, files: map<string, string>, i: Instruction<V>) {
    i.doc in files && Outcome(lib, files, i).Some? && Outcome(lib, files, i).value != ReadText(files[i.doc])
  }

  /** No instruction from `k` on changes the document. */
  predicate QuietFrom<V(==)>(lib: Library<V>, files: map<string, string>, instructions: seq<Instruction<V>>, doc: string, k: nat) {
    forall m :: k <= m < |instructions| && instructions[m].doc == doc ==> !Changes(lib, files, instructions[m])
  }

  predicate DecidedBy<V(==)>(lib: Library<V>, files: map<string, string>, instructions: seq<Instruction<V>>, doc: string, text: string, k: nat)
    requires k < |instructions|
  {
    && instructions[k].doc == doc && Changes(lib, files, instructions[k])
    && Outcome(lib, files, instructions[k]) == Some(text)
    && QuietFrom(lib, files, instructions, doc, k + 1)
  }

  /** The text of a document: the last changing instruction for it wins; without one it stays as it was. */
  predicate LastChange<V(==)>(lib: Library<V>, files: map<string, string>, instructions: seq<Instruction<V>>, doc: string, text: string)
    requires doc in files
  {
    || (QuietFrom(lib, files, instructions, doc, 0) && text == files[doc])
    || exists k :: 0 <= k < |instructions| && DecidedBy(lib, files, instructions, doc, text, k)
  }

  /** The planned writes, and their effect on the tree. */
  function Plan<V(==)>(lib: Library<V>, files: map<string, string>, instructions: seq<Instruction<V>>): seq<(string, string)> {
    if instructions == [] then [] else
    var last := instructions[|instructions| - 1];
    Plan(lib, files, instructions[..|instructions| - 1])
    + (if Changes(lib, files, last) then [(last.doc, Outcome(lib, files, last).value)] else [])
  }

  function Written(files: map<string, string>, plan: seq<(string, string)>): map<string, string> {
    if plan == [] then files else
    var (doc, text) := plan[|plan| - 1];
    Written(files, plan[..|plan| - 1])[doc := text]
  }

  lemma WrittenOne(files: map<string, string>, plan: seq<(string, string)>, doc: string, text: string)
    ensures Written(files, plan + [(doc, text)]) == Written(files, plan)[doc := text]
  {
    assert (plan + [(doc, text)])[..|plan|] == plan;
  }

  lemma {:induction false} WrittenLast<V>(lib: Library<V>, files: map<string, string>, instructions: seq<Instruction<V>>)
    ensures var after := Written(files, Plan(lib, files, instructions));
            && after.Keys == files.Keys
            && forall d :: d in after ==> LastChange(lib, files, instructions, d, after[d])
  {
    var after := Written(files, Plan(lib, files, instructions));
    if instructions != [] {
      var n := |instructions| - 1;
      var front, last := instructions[..n], instructions[n];
      WrittenLast(lib, files, front);
      var before := Written(files, Plan(lib, files, front));
      if Changes(lib, files, last) {
        WrittenOne(files, Plan(lib, files, front), last.doc, Outcome(lib, files, last).value);
      } else {
        assert Plan(lib, files, instructions) == Plan(lib, files, front);
      }
      assert after == if Changes(lib, files, last) then before[last.doc := Outcome(lib, files, last).value] else before;
      hide Written, Plan, Outcome;
      forall d | d in after ensures LastChange(lib, files, instructions, d, after[d]) {
        LastChangeStep(lib, files, instructions, d, before[d], after[d]);
      }
    }
  }

  lemma LastChangeStep<V>(lib: Library<V>, files: map<string, string>, instructions: seq<Instruction<V>>, d: string, before: string, after: string)
    requires instructions != [] && d in files
    requires var n := |instructions| - 1; var last := instructions[n];
             && LastChange(lib, files, instructions[..n], d, before)
             && (if last.doc == d && Changes(lib, files, last) then Outcome(lib, files, last) == Some(after) else after == before)
    ensures LastChange(lib, files, instructions, d, after)
  {
    hide Outcome, Changes;
    var n := |instructions| - 1;
    var front, last := instructions[..n], instructions[n];
    if last.doc == d && Changes(lib, files, last) {
      assert DecidedBy(lib, files, instructions, d, after, n);
    } else if !QuietFrom(lib, files, front, d, 0) || before != files[d] {
      var k :| 0 <= k < |front| && DecidedBy(lib, files, front, d, before, k);
      assert front[k] == instructions[k];
      assert DecidedBy(lib, files, instructions, d, after, k);
    }
  }

  /** The docs of the instructions that change, or do not change, their document. */
  function Docs<V(==)>(lib: Library<V>, files: map<string, string>, instructions: seq<Instruction<V>>, changed: bool): seq<string> {
    if instructions == [] then [] else
    var last := instructions[|instructions| - 1];
    Docs(lib, files, instructions[..|instructions| - 1], changed)
    + (if Changes(lib, files, last) == changed then [last.doc] else [])
  }

  lemma PlanOfNone<V>(lib: Library<V>, files: map<string, string>)
    ensures Plan(lib, files, []) == [] && Docs(lib, files, [], true) == [] && Docs(lib, files, [], false) == []
  {
  }

  /** One more instruction read. */
  lemma ReadOne<V>(lib: Library<V>, files: map<string, string>, instructions: seq<Instruction<V>>, n: nat)
    requires n < |instructions|
    ensures var i := instructions[n]; var changed := Changes(lib, files, i);
            && Plan(lib, files, instructions[..n + 1])
               == Plan(lib, files, instructions[..n]) + (if changed then [(i.doc, Outcome(lib, files, i).value)] else [])
            && Docs(lib, files, instructions[..n + 1], true) == Docs(lib, files, instructions[..n], true) + (if changed then [i.doc] else [])
            && Docs(lib, files, instructions[..n + 1], false) == Docs(lib, files, instructions[..n], false) + (if changed then [] else [i.doc])
  {
    assert instructions[..n + 1][..n] == instructions[..n];
    hide Apply;
  }

  class DocTree {
    var files: map<string, string>

    constructor (files: map<string, string>)
      ensures this.files == files
    {
      this.files := files;
    }

    method Write(planned: seq<(string, string)>)
      modifies this
      ensures files == Written(old(files), planned)
    {
      var n := 0;
      while n < |planned|
        invariant 0 <= n <= |planned| && files == Written(old(files), planned[..n])
      {
        assert planned[..n + 1] == planned[..n] + [planned[n]];
        WrittenOne(old(files), planned[..n], planned[n].0, planned[n].1);
        files := files[planned[n].0 := planned[n].1];
        n := n + 1;
      }
      assert planned[..n] == planned;
    }

    /** Validates every edit against the tree as it is, then writes; a refusal writes nothing. */
    method ApplyAll<V(==)>(lib: Library<V>, instructions: seq<Instruction<V>>) returns (r: Summary)
      modifies this
      ensures r.Refused? <==> exists k :: 0 <= k < |instructions| && Outcome(lib, old(files), instructions[k]).None?
      ensures r.Refused? ==> files == old(files)
      ensures r.Applied? ==> files.Keys == old(files).Keys
      ensures r.Applied? ==> forall d :: d in files ==> LastChange(lib, old(files), instructions, d, files[d])
      ensures r.Applied? ==> r == Applied(Sort(StrLe, Docs(lib, old(files), instructions, true)),
                                          Sort(StrLe, Docs(lib, old(files), instructions, false)))
    {
      hide Plan, Docs, Apply, Written, LastChange, Sort;
      var planned: seq<(string, string)> := [];
      var edited, idle := [], [];
      PlanOfNone(lib, files);
      var n := 0;
      while n < |instructions|
        invariant 0 <= n <= |instructions| && files == old(files)
        invariant planned == Plan(lib, old(files), instructions[..n])
        invariant edited == Docs(lib, old(files), instructions[..n], true) && idle == Docs(lib, old(files), instructions[..n], false)
        invariant forall k :: 0 <= k < n ==> Outcome(lib, old(files), instructions[k]).Some?
      {
        var i := instructions[n];
        ReadOne(lib, files, instructions, n);
        if i.doc !in files { return Refused(i.doc); }
        var text := ReadText(files[i.doc]);
        var next := Apply(lib, text, i);
        if next.None? { return Refused(i.doc); }
        if next.value == text {
          idle := idle + [i.doc];
        } else {
          planned := planned + [(i.doc, next.value)];
          edited := edited + [i.doc];
        }
        n := n + 1;
      }
      assert instructions[..n] == instructions;
      Write(planned);
      WrittenLast(lib, old(files), instructions);
      r := Applied(Sort(StrLe, edited), Sort(StrLe, idle));
    }
  }

  // ---------------------------------------------------------------------------
  // Line endings

  /** What the file holds from its closing fence on. */
  function Tail(file: string): string
    requires Divide(ReadText(file)).Some?
  {
    Unread(file, |ReadText(file)| - TailLength(file))
  }

  function TailLength(file: string): (n: nat)
    requires Divide(ReadText(file)).Some?
    ensures n <= |ReadText(file)|
  {
    DivideWhole(ReadText(file));
    |Divide(ReadText(file)).value.rest|
  }

  lemma TailReads(file: string)
    requires Divide(ReadText(file)).Some?
    ensures |Tail(file)| <= |file| && file[|file| - |Tail(file)|..] == Tail(file)
    ensures ReadText(Tail(file)) == Divide(ReadText(file)).value.rest
  {
    var text := ReadText(file);
    DivideWhole(text);
    UnreadIsSuffix(file, |text| - TailLength(file));
    hide ReadText, Unread, Divide;
    var p := Divide(text).value;
    assert text == FENCE + p.raw + p.rest;
    assert text[|text| - |p.rest|..] == p.rest;
  }

  /**
   The new file is the old one from the closing fence on, byte for byte, if and only if the old
   one holds no carriage return there.
   */
  lemma TailKeptIff<V>(lib: Library<V>, file: string, i: Instruction<V>)
    requires Apply(lib, ReadText(file), i).Some?
    ensures Divide(ReadText(file)).Some?
    ensures var edited := Apply(lib, ReadText(file), i).value; var n := TailLength(file);
            n <= |edited| && (edited[|edited| - n..] == Tail(file) <==> CrFree(Tail(file)))
  {
    RestKept(lib, ReadText(file), i);
    TailReads(file);
    ReadSameIff(Tail(file));
    hide ReadText, Divide, Apply, Tail;
  }

  /** The text with the line endings of another platform. */
  function Crlf(s: string): string {
    if s == "" then "" else (if s[0] == '\n' then "\r\n" else [s[0]]) + Crlf(s[1..])
  }

  lemma {:induction false} ReadCrlf(s: string)
    requires CrFree(s)
    ensures ReadText(Crlf(s)) == s
  {
    if s != "" {
      ReadCrlf(s[1..]);
      assert s == [s[0]] + s[1..];
      if s[0] == '\n' {
        var c := Crlf(s);
        assert c[0] == '\r' && c[1] == '\n' && c[2..] == Crlf(s[1..]);
      } else {
        hide ReadText;
        ReadPlainChar(s[0], Crlf(s[1..]));
      }
    }
  }

  /** A document with such line endings is edited like the same document without them, and its body is rewritten. */
  lemma CrlfRewritten<V>(lib: Library<V>, text: string, i: Instruction<V>)
    requires CrFree(text) && Apply(lib, text, i).Some?
    ensures ReadText(Crlf(text)) == text
    ensures var edited := Apply(lib, text, i).value; var n := TailLength(Crlf(text));
            n <= |edited| && edited[|edited| - n..] != Tail(Crlf(text))
  {
    hide Apply, Crlf, ReadText, Divide, Tail, TailLength, CrFree;
    ReadCrlf(text);
    TailKeptIff(lib, Crlf(text), i);
    TailHasCr(text);
  }

  lemma TailHasCr(text: string)
    requires CrFree(text) && ReadText(Crlf(text)) == text && Divide(text).Some?
    ensures !CrFree(Tail(Crlf(text)))
  {
    var n := |text| - |Divide(text).value.rest|;
    DivideWhole(text);
    UnreadCrlf(text, n);
    var rest := Divide(text).value.rest;
    assert text[n..] == rest && rest[3] == '\n';
    hide ReadText, Divide, Unread;
    CrlfHasCr(rest, 3);
  }

  lemma {:induction false} CrlfHasCr(s: string, k: nat)
    requires k < |s| && s[k] == '\n'
    ensures '\r' in Crlf(s)
  {
    if k > 0 {
      CrlfHasCr(s[1..], k - 1);
    } else {
      assert Crlf(s)[0] == '\r';
    }
  }

  lemma {:induction false} UnreadCrlf(s: string, n: nat)
    requires n <= |s| && CrFree(s)
    ensures Unread(Crlf(s), n) == Crlf(s[n..])
  {
    if n > 0 {
      UnreadCrlf(s[1..], n - 1);
      var c := Crlf(s);
      assert c[Step(c)..] == Crlf(s[1..]);
      assert s[1..][n - 1..] == s[n..];
    }
  }
}
