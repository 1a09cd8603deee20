/** The stamp rule of `generator/render.py`: is an edit confined to purpose slots? */
module PurposeSlots {
  import opened TextLines
  import opened TextFiles

  /** The "absent fact" mark, and the sentinel that is never written. */
  const DASH := "\U{2014}"
  const MARKER := "purpose-slot"

  /** A template line has no slot, or exactly one. */
  datatype Piece = Fixed(text: string) | Slot(prefix: string, suffix: string)

  type Template = seq<Piece>

  predicate PieceOk(p: Piece) {
    match p
    case Fixed(text) => NewlineFree(text)
    case Slot(prefix, suffix) => NewlineFree(prefix) && NewlineFree(suffix)
  }

  predicate TemplateOk(t: Template) {
    t != [] && forall i :: 0 <= i < |t| ==> PieceOk(t[i])
  }

  function FillPiece(p: Piece, fill: string): string {
    match p
    case Fixed(text) => text
    case Slot(prefix, suffix) => prefix + fill + suffix
  }

  function FillLines(t: Template, fills: seq<string>): (r: seq<string>)
    requires |fills| == |t|
    ensures |r| == |t|
  {
    seq(|t|, i requires 0 <= i < |t| => FillPiece(t[i], fills[i]))
  }

  /** The body a template spells with the given fills, one per line. */
  function Fill(t: Template, fills: seq<string>): string
    requires t != [] && |fills| == |t|
  {
    JoinLines(FillLines(t, fills))
  }

  function Uniform(t: Template, fill: string): (r: seq<string>)
    ensures |r| == |t|
  {
    seq(|t|, i => fill)
  }

  // ---------------------------------------------------------------------------
  // The matcher

  /** Length of the longest common prefix, and of the longest common suffix. */
  function CommonPrefix(a: string, b: string): (p: nat)
    ensures p <= |a| && p <= |b| && a[..p] == b[..p]
  {
    if a == "" || b == "" || a[0] != b[0] then 0
    else
      var p := CommonPrefix(a[1..], b[1..]);
      FrontOf(a, p);
      FrontOf(b, p);
      p + 1
  }

  lemma FrontOf(a: string, p: nat)
    requires p < |a|
    ensures a[..p + 1] == [a[0]] + a[1..][..p]
  {
  }

  function CommonSuffix(a: string, b: string): (q: nat)
    ensures q <= |a| && q <= |b|
  {
    if a == "" || b == "" || a[|a| - 1] != b[|b| - 1] then 0 else 1 + CommonSuffix(a[..|a| - 1], b[..|b| - 1])
  }

  /** The line test, given the line in the absent and in the marked rendering. */
  predicate LineConfined(lo: string, la: string, lm: string)
  {
    if la == lm then
      lo == la
    else
      var p := CommonPrefix(la, lm);
      var q := CommonSuffix(la[p..], lm[p..]);
      |lo| >= p + q && lo[..p] == la[..p] && lo[|lo| - q..] == la[|la| - q..]
  }

  predicate Confined(old_: string, absent: string, marked: string)
  {
    var o, a, m := SplitLines(old_), SplitLines(absent), SplitLines(marked);
    |o| == |a| == |m| && forall i :: 0 <= i < |o| ==> LineConfined(o[i], a[i], m[i])
  }

  method PrefixLength(a: string, b: string) returns (p: nat)
    ensures p == CommonPrefix(a, b)
  {
    p := 0;
    while p < |a| && p < |b| && a[p] == b[p]
      invariant p <= |a| && p <= |b|
      invariant CommonPrefix(a, b) == p + CommonPrefix(a[p..], b[p..])
    {
      assert a[p..][1..] == a[p + 1..] && b[p..][1..] == b[p + 1..];
      p := p + 1;
    }
  }

  lemma SuffixStep(x: string, y: string, q: nat)
    requires q < |x| && q < |y| && x[|x| - 1 - q] == y[|y| - 1 - q]
    ensures CommonSuffix(x[..|x| - q], y[..|y| - q]) == 1 + CommonSuffix(x[..|x| - q - 1], y[..|y| - q - 1])
  {
    var a, b := x[..|x| - q], y[..|y| - q];
    assert a[..|a| - 1] == x[..|x| - q - 1] && b[..|b| - 1] == y[..|y| - q - 1];
  }

  lemma SuffixStop(x: string, y: string, q: nat)
    requires q <= |x| && q <= |y| && (q < |x| && q < |y| ==> x[|x| - 1 - q] != y[|y| - 1 - q])
    ensures CommonSuffix(x[..|x| - q], y[..|y| - q]) == 0
  {
  }

  method SuffixLength(a: string, b: string, p: nat) returns (q: nat)
    requires p <= |a| && p <= |b|
    ensures q == CommonSuffix(a[p..], b[p..])
  {
    hide CommonSuffix;
    q := 0;
    ghost var x, y := a[p..], b[p..];
    assert x[..|x|] == x && y[..|y|] == y;
    while q < |a| - p && q < |b| - p && a[|a| - 1 - q] == b[|b| - 1 - q]
      invariant q <= |x| && q <= |y|
      invariant CommonSuffix(x, y) == q + CommonSuffix(x[..|x| - q], y[..|y| - q])
    {
      SuffixStep(x, y, q);
      q := q + 1;
    }
    SuffixStop(x, y, q);
  }

  /** The test of one line. */
  method MatchLine(lo: string, la: string, lm: string) returns (ok: bool)
    ensures ok == LineConfined(lo, la, lm)
  {
    hide CommonPrefix, CommonSuffix;
    if la == lm { return lo == la; }
    var p := PrefixLength(la, lm);
    var q := SuffixLength(la, lm, p);
    ok := !(|lo| < p + q || lo[..p] != la[..p] || (q > 0 && lo[|lo| - q..] != la[|la| - q..]));
  }

  method PurposeConfined(oldBody: string, absentBody: string, markedBody: string) returns (ok: bool)
    ensures ok == Confined(oldBody, absentBody, markedBody)
  {
    var o, a, m := SplitLines(oldBody), SplitLines(absentBody), SplitLines(markedBody);
    if !(|o| == |a| == |m|) { return false; }
    for i := 0 to |o|
      invariant forall k :: 0 <= k < i ==> LineConfined(o[k], a[k], m[k])
    {
      var line := MatchLine(o[i], a[i], m[i]);
      if !line { return false; }
    }
    ok := true;
  }

  // ---------------------------------------------------------------------------
  // Exactness

  /** Two slot texts whose ends tell them apart. */
  predicate EndsDiffer(d: string, m: string) {
    d != "" && m != "" && d[0] != m[0] && d[|d| - 1] != m[|m| - 1]
  }

  lemma {:induction false} PrefixIsExact(prefix: string, a: string, b: string)
    requires a != "" && b != "" && a[0] != b[0]
    ensures CommonPrefix(prefix + a, prefix + b) == |prefix|
  {
    if prefix == "" {
      assert prefix + a == a && prefix + b == b;
    } else {
      PrefixIsExact(prefix[1..], a, b);
      assert (prefix + a)[1..] == prefix[1..] + a && (prefix + b)[1..] == prefix[1..] + b;
    }
  }

  lemma {:induction false} SuffixIsExact(suffix: string, a: string, b: string)
    requires a != "" && b != "" && a[|a| - 1] != b[|b| - 1]
    ensures CommonSuffix(a + suffix, b + suffix) == |suffix|
  {
    if suffix == "" {
      assert a + suffix == a && b + suffix == b;
    } else {
      var n := |suffix| - 1;
      SuffixIsExact(suffix[..n], a, b);
      assert (a + suffix)[..|a + suffix| - 1] == a + suffix[..n];
      assert (b + suffix)[..|b + suffix| - 1] == b + suffix[..n];
    }
  }

  /** A slot line is accepted exactly when its fixed ends are in place. */
  lemma SlotLineExact(prefix: string, suffix: string, d: string, m: string, lo: string)
    requires EndsDiffer(d, m)
    ensures LineConfined(lo, prefix + d + suffix, prefix + m + suffix) <==>
              |lo| >= |prefix| + |suffix| && lo[..|prefix|] == prefix && lo[|lo| - |suffix|..] == suffix
  {
    var la, lm := prefix + d + suffix, prefix + m + suffix;
    assert la == prefix + (d + suffix) && lm == prefix + (m + suffix);
    PrefixIsExact(prefix, d + suffix, m + suffix);
    SuffixIsExact(suffix, d, m);
    assert la[|prefix|] == d[0] && lm[|prefix|] == m[0];
    assert la[|prefix|..] == d + suffix && lm[|prefix|..] == m + suffix;
    assert la[..|prefix|] == prefix && la[|la| - |suffix|..] == suffix;
  }

  ghost predicate PieceFits(p: Piece, line: string) {
    exists fill :: line == FillPiece(p, fill)
  }

  lemma PieceExact(p: Piece, d: string, m: string, lo: string)
    requires EndsDiffer(d, m)
    ensures LineConfined(lo, FillPiece(p, d), FillPiece(p, m)) <==> PieceFits(p, lo)
  {
    match p
    case Fixed(text) =>
      assert FillPiece(p, "") == text;
    case Slot(prefix, suffix) =>
      SlotLineExact(prefix, suffix, d, m, lo);
      hide LineConfined;
      SlotFits(prefix, suffix, lo);
  }

  lemma SlotFits(prefix: string, suffix: string, lo: string)
    ensures PieceFits(Slot(prefix, suffix), lo) <==>
              |lo| >= |prefix| + |suffix| && lo[..|prefix|] == prefix && lo[|lo| - |suffix|..] == suffix
  {
    var p := Slot(prefix, suffix);
    if |lo| >= |prefix| + |suffix| && lo[..|prefix|] == prefix && lo[|lo| - |suffix|..] == suffix {
      assert lo == FillPiece(p, lo[|prefix|..|lo| - |suffix|]);
    }
    if PieceFits(p, lo) {
      var fill :| lo == FillPiece(p, fill);
      assert lo[..|prefix|] == prefix && lo[|lo| - |suffix|..] == suffix;
    }
  }

  function Extract(p: Piece, line: string): string {
    match p
    case Fixed(_) => ""
    case Slot(prefix, suffix) => if |line| >= |prefix| + |suffix| then line[|prefix|..|line| - |suffix|] else ""
  }

  lemma ExtractFills(p: Piece, line: string, fill: string)
    requires line == FillPiece(p, fill)
    ensures line == FillPiece(p, Extract(p, line))
    ensures NewlineFree(line) ==> NewlineFree(Extract(p, line))
  {
    if p.Slot? { assert Extract(p, line) == fill; }
  }

  lemma LinesNewlineFree(t: Template, fills: seq<string>)
    requires TemplateOk(t) && |fills| == |t| && AllNewlineFree(fills)
    ensures AllNewlineFree(FillLines(t, fills)) && SplitLines(Fill(t, fills)) == FillLines(t, fills)
  {
    forall i | 0 <= i < |t| ensures NewlineFree(FillLines(t, fills)[i]) {
      assert PieceOk(t[i]) && NewlineFree(fills[i]);
    }
    SplitOfJoin(FillLines(t, fills));
  }

  /** `body` is the template with every slot filled by some newline-free text. */
  ghost predicate Fits(t: Template, body: string)
    requires t != []
  {
    exists fills :: |fills| == |t| && AllNewlineFree(fills) && body == Fill(t, fills)
  }

  ghost predicate LinesFit(t: Template, lines: seq<string>) {
    |lines| == |t| && forall i :: 0 <= i < |t| ==> PieceFits(t[i], lines[i])
  }

  lemma FitsIfLinesFit(t: Template, body: string)
    requires TemplateOk(t) && LinesFit(t, SplitLines(body))
    ensures Fits(t, body)
  {
    var o := SplitLines(body);
    SplitIsNewlineFree(body);
    JoinOfSplit(body);
    hide SplitLines, JoinLines;
    var fills := seq(|t|, i requires 0 <= i < |t| => Extract(t[i], o[i]));
    forall i | 0 <= i < |t| ensures NewlineFree(fills[i]) && o[i] == FillPiece(t[i], fills[i]) {
      assert PieceFits(t[i], o[i]);
      var fill :| o[i] == FillPiece(t[i], fill);
      ExtractFills(t[i], o[i], fill);
    }
    assert FillLines(t, fills) == o;
  }

  lemma LinesFitIfFits(t: Template, body: string)
    requires TemplateOk(t) && Fits(t, body)
    ensures LinesFit(t, SplitLines(body))
  {
    var fills :| |fills| == |t| && AllNewlineFree(fills) && body == Fill(t, fills);
    LinesNewlineFree(t, fills);
    hide SplitLines, Fill, FillPiece, NewlineFree, PieceOk;
    var lines := FillLines(t, fills);
    forall i | 0 <= i < |t| ensures PieceFits(t[i], lines[i]) {
      assert lines[i] == FillPiece(t[i], fills[i]);
    }
  }

  lemma ConfinedLines(t: Template, d: string, m: string, o: seq<string>)
    requires EndsDiffer(d, m) && |o| == |t|
    ensures (forall i :: 0 <= i < |o| ==> LineConfined(o[i], FillLines(t, Uniform(t, d))[i], FillLines(t, Uniform(t, m))[i]))
              <==> LinesFit(t, o)
  {
    hide LineConfined, PieceFits, FillPiece, EndsDiffer;
    var a, b := FillLines(t, Uniform(t, d)), FillLines(t, Uniform(t, m));
    forall i | 0 <= i < |t| ensures LineConfined(o[i], a[i], b[i]) <==> PieceFits(t[i], o[i]) {
      PieceExact(t[i], d, m, o[i]);
      assert a[i] == FillPiece(t[i], d) && b[i] == FillPiece(t[i], m);
    }
  }

  /** The matcher accepts a body if and only if it is the template with its slots refilled. */
  lemma ConfinedExact(t: Template, d: string, m: string, body: string)
    requires TemplateOk(t) && EndsDiffer(d, m) && NewlineFree(d) && NewlineFree(m)
    ensures Confined(body, Fill(t, Uniform(t, d)), Fill(t, Uniform(t, m))) <==> Fits(t, body)
  {
    var o := SplitLines(body);
    LinesNewlineFree(t, Uniform(t, d));
    LinesNewlineFree(t, Uniform(t, m));
    hide SplitLines, Fill, LineConfined, Fits, LinesFit;
    if |o| == |t| { ConfinedLines(t, d, m, o); }
    if Fits(t, body) { LinesFitIfFits(t, body); LinesFitLength(t, o); }
    if LinesFit(t, o) { FitsIfLinesFit(t, body); }
  }

  lemma LinesFitLength(t: Template, lines: seq<string>)
    requires LinesFit(t, lines)
    ensures |lines| == |t|
  {
  }

  /** The renderer's own pair of slot texts. */
  lemma StampRuleExact(t: Template, body: string)
    requires TemplateOk(t)
    ensures Confined(body, Fill(t, Uniform(t, DASH)), Fill(t, Uniform(t, MARKER))) <==> Fits(t, body)
  {
    ConfinedExact(t, DASH, MARKER, body);
  }

  /** Emptying the only slot of a one-line body is refused when the slot texts share an end. */
  lemma SharedEndRefuses(d: string, m: string)
    requires d != "" && m != "" && !EndsDiffer(d, m) && NewlineFree(d) && NewlineFree(m)
    ensures !Confined("", Fill([Slot("", "")], [d]), Fill([Slot("", "")], [m]))
  {
    var t := [Slot("", "")];
    assert "" + d + "" == d && "" + m + "" == m;
    assert FillLines(t, [d]) == [d] && FillLines(t, [m]) == [m];
    SplitOneLine(d);
    SplitOneLine(m);
    assert SplitLines("") == [""];
    if d != m && d[0] != m[0] {
      assert CommonPrefix(d, m) == 0 && d[0..] == d && m[0..] == m;
      assert CommonSuffix(d, m) > 0;
    }
    assert !LineConfined("", d, m);
  }

  /** Exactness on every template and body holds precisely for slot texts that differ at both ends. */
  lemma ExactIffEndsDiffer(d: string, m: string)
    requires d != "" && m != "" && NewlineFree(d) && NewlineFree(m)
    ensures (forall t, body | TemplateOk(t) :: Confined(body, Fill(t, Uniform(t, d)), Fill(t, Uniform(t, m))) <==> Fits(t, body))
            <==> EndsDiffer(d, m)
  {
    if EndsDiffer(d, m) {
      forall t, body | TemplateOk(t)
        ensures Confined(body, Fill(t, Uniform(t, d)), Fill(t, Uniform(t, m))) <==> Fits(t, body)
      {
        ConfinedExact(t, d, m, body);
      }
    } else {
      SharedEndRefuses(d, m);
      var t := [Slot("", "")];
      assert PieceOk(t[0]) && TemplateOk(t);
      assert Uniform(t, d) == [d] && Uniform(t, m) == [m];
      assert FillLines(t, [""]) == [""] && Fill(t, [""]) == "";
      assert AllNewlineFree([""]) && Fits(t, "");
    }
  }

  // ---------------------------------------------------------------------------
  // Carriage returns

  predicate AllCrFree(texts: seq<string>) {
    forall i :: 0 <= i < |texts| ==> CrFree(texts[i])
  }

  predicate PieceCrFree(p: Piece) {
    match p
    case Fixed(text) => CrFree(text)
    case Slot(prefix, suffix) => CrFree(prefix) && CrFree(suffix)
  }

  /** No carriage return outside the slots. */
  predicate TemplateCrFree(t: Template) {
    forall i :: 0 <= i < |t| ==> PieceCrFree(t[i])
  }

  /** A carriage return outside the slots is in every body. */
  lemma CrInEveryFill(t: Template, fills: seq<string>)
    requires t != [] && |fills| == |t| && !TemplateCrFree(t)
    ensures !CrFree(Fill(t, fills))
  {
    hide PieceCrFree, FillPiece;
    var i :| 0 <= i < |t| && !PieceCrFree(t[i]);
    CrInPiece(t[i], fills[i]);
    var lines := FillLines(t, fills);
    assert '\r' in lines[i];
    hide JoinLines;
    JoinHolds(lines, '\r');
  }

  lemma CrInPiece(p: Piece, fill: string)
    ensures !PieceCrFree(p) ==> '\r' in FillPiece(p, fill)
    ensures PieceCrFree(p) && CrFree(fill) ==> '\r' !in FillPiece(p, fill)
  {
  }

  /** Filled with cells, a body holds a carriage return exactly if its template does. */
  lemma FillCrFreeIff(t: Template, fills: seq<string>)
    requires t != [] && |fills| == |t| && AllCrFree(fills)
    ensures CrFree(Fill(t, fills)) <==> TemplateCrFree(t)
  {
    if TemplateCrFree(t) {
      var lines := FillLines(t, fills);
      forall i | 0 <= i < |lines| ensures '\r' !in lines[i] { CrInPiece(t[i], fills[i]); }
      hide JoinLines, FillPiece;
      JoinHolds(lines, '\r');
    } else {
      CrInEveryFill(t, fills);
    }
  }

  /** Text read from a file fits no template that holds a carriage return. */
  lemma ReadTextFitsNot(t: Template, s: string)
    requires TemplateOk(t) && !TemplateCrFree(t)
    ensures !Fits(t, ReadText(s))
  {
    hide Fill, ReadText, TemplateCrFree;
    ReadIsCrFree(s);
    forall fills | |fills| == |t| && AllNewlineFree(fills) ensures ReadText(s) != Fill(t, fills) { CrInEveryFill(t, fills); }
  }

  // ---------------------------------------------------------------------------
  // Cells are newline-free

  function ReplaceChar(s: string, c: char, by_: string): string {
    if s == "" then "" else (if s[0] == c then by_ else [s[0]]) + ReplaceChar(s[1..], c, by_)
  }

  function ReplaceCrLf(s: string): string {
    if s == "" then ""
    else if |s| > 1 && s[0] == '\r' && s[1] == '\n' then "<br>" + ReplaceCrLf(s[2..])
    else [s[0]] + ReplaceCrLf(s[1..])
  }

  /** `cell`: the chain of replacements, in order. */
  function Cell(text: string): string {
    ReplaceChar(ReplaceChar(ReplaceCrLf(ReplaceChar(ReplaceChar(text, '\\', "\\\\"), '|', "\\|")), '\n', "<br>"), '\r', "<br>")
  }

  lemma {:induction false} ReplaceCharRemoves(s: string, c: char, by_: string, x: char)
    requires x !in by_ && (x == c || x !in s)
    ensures x !in ReplaceChar(s, c, by_)
  {
    if s != "" { ReplaceCharRemoves(s[1..], c, by_, x); }
  }

  /** No cell breaks its table row: neither newline nor carriage return survives. */
  lemma CellIsOneLine(text: string)
    ensures NewlineFree(Cell(text)) && CrFree(Cell(text))
  {
    var s := ReplaceCrLf(ReplaceChar(ReplaceChar(text, '\\', "\\\\"), '|', "\\|"));
    ReplaceCharRemoves(s, '\n', "<br>", '\n');
    ReplaceCharRemoves(ReplaceChar(s, '\n', "<br>"), '\r', "<br>", '\n');
    ReplaceCharRemoves(ReplaceChar(s, '\n', "<br>"), '\r', "<br>", '\r');
  }

  /** What one character that is no half of a pair becomes. */
  function CellOf(c: char): string {
    match c
    case '\\' => "\\\\"
    case '|' => "\\|"
    case '\n' => "<br>"
    case '\r' => "<br>"
    case _ => [c]
  }

  /** `Cell` in one pass: backslashes and bars are escaped, a line break of any kind becomes one tag. */
  function CellOnce(text: string): string {
    if text == "" then ""
    else if |text| > 1 && text[0] == '\r' && text[1] == '\n' then "<br>" + CellOnce(text[2..])
    else CellOf(text[0]) + CellOnce(text[1..])
  }

  lemma ReplaceMore(x: char, s: string, c: char, by_: string)
    ensures ReplaceChar([x] + s, c, by_) == (if x == c then by_ else [x]) + ReplaceChar(s, c, by_)
  {
    assert ([x] + s)[1..] == s;
  }

  lemma Associates(x: string, p: string, q: string)
    ensures x + (p + q) == (x + p) + q
  {
  }

  lemma ReplaceNone(c: char, by_: string)
    ensures ReplaceChar("", c, by_) == ""
  {
  }

  lemma {:induction false} ReplaceConcat(a: string, b: string, c: char, by_: string)
    ensures ReplaceChar(a + b, c, by_) == ReplaceChar(a, c, by_) + ReplaceChar(b, c, by_)
  {
    hide ReplaceChar;
    if a == "" {
      ReplaceNone(c, by_);
      assert a + b == b;
    } else {
      var tail := a[1..];
      ReplaceConcat(tail, b, c, by_);
      Associates([a[0]], tail, b);
      assert a == [a[0]] + tail;
      ReplaceMore(a[0], tail + b, c, by_);
      ReplaceMore(a[0], tail, c, by_);
      Associates(if a[0] == c then by_ else [a[0]], ReplaceChar(tail, c, by_), ReplaceChar(b, c, by_));
    }
  }

  lemma {:induction false} ReplaceAbsent(s: string, c: char, by_: string)
    requires c !in s
    ensures ReplaceChar(s, c, by_) == s
  {
    if s != "" {
      ReplaceAbsent(s[1..], c, by_);
      assert s == [s[0]] + s[1..];
    }
  }

  /** The two escapes, and the two line breaks, of the chain. */
  function Escapes(text: string): string {
    ReplaceChar(ReplaceChar(text, '\\', "\\\\"), '|', "\\|")
  }

  function BreakTags(text: string): string {
    ReplaceChar(ReplaceChar(ReplaceCrLf(text), '\n', "<br>"), '\r', "<br>")
  }

  lemma ReplaceOne(x: char, c: char, by_: string)
    ensures ReplaceChar([x], c, by_) == if x == c then by_ else [x]
  {
    assert [x][1..] == "";
    assert ReplaceChar([x], c, by_) == (if x == c then by_ else [x]) + ReplaceChar("", c, by_);
  }

  lemma EscapesConcat(a: string, b: string)
    ensures Escapes(a + b) == Escapes(a) + Escapes(b)
  {
    hide ReplaceChar;
    ReplaceConcat(a, b, '\\', "\\\\");
    ReplaceConcat(ReplaceChar(a, '\\', "\\\\"), ReplaceChar(b, '\\', "\\\\"), '|', "\\|");
  }

  lemma EscapesChar(c: char)
    ensures Escapes([c]) == if c == '\\' then "\\\\" else if c == '|' then "\\|" else [c]
  {
    hide ReplaceChar;
    ReplaceOne(c, '\\', "\\\\");
    ReplaceOne(c, '|', "\\|");
    ReplaceAbsent("\\\\", '|', "\\|");
  }

  /** A text that starts with neither half of a pair breaks off its first character. */
  lemma BreaksStep(c: char, rest: string)
    requires !(c == '\r' && rest != "" && rest[0] == '\n')
    ensures BreakTags([c] + rest) == (if c == '\n' || c == '\r' then "<br>" else [c]) + BreakTags(rest)
  {
    assert ([c] + rest)[1..] == rest && (rest != "" ==> ([c] + rest)[1] == rest[0]);
    assert ReplaceCrLf([c] + rest) == [c] + ReplaceCrLf(rest);
    hide ReplaceChar, ReplaceCrLf;
    var t := ReplaceCrLf(rest);
    ReplaceConcat([c], t, '\n', "<br>");
    ReplaceOne(c, '\n', "<br>");
    ReplaceConcat(ReplaceChar([c], '\n', "<br>"), ReplaceChar(t, '\n', "<br>"), '\r', "<br>");
    ReplaceOne(c, '\r', "<br>");
    ReplaceAbsent("<br>", '\r', "<br>");
  }

  lemma BreaksPair(rest: string)
    ensures BreakTags("\r\n" + rest) == "<br>" + BreakTags(rest)
  {
    assert ("\r\n" + rest)[2..] == rest;
    assert ReplaceCrLf("\r\n" + rest) == "<br>" + ReplaceCrLf(rest);
    hide ReplaceChar, ReplaceCrLf;
    var t := ReplaceCrLf(rest);
    ReplaceConcat("<br>", t, '\n', "<br>");
    ReplaceAbsent("<br>", '\n', "<br>");
    ReplaceConcat("<br>", ReplaceChar(t, '\n', "<br>"), '\r', "<br>");
    ReplaceAbsent("<br>", '\r', "<br>");
  }

  lemma EscapesFirst(text: string)
    requires text != ""
    ensures Escapes(text) != "" && (Escapes(text)[0] == '\n' <==> text[0] == '\n')
  {
    assert text == [text[0]] + text[1..];
    EscapesConcat([text[0]], text[1..]);
    EscapesChar(text[0]);
    hide Escapes;
  }

  lemma EmptyCells()
    ensures Escapes("") == "" && BreakTags("") == "" && CellOnce("") == ""
  {
  }

  /** The chain of replacements is the single pass. */
  lemma {:induction false} CellExact(text: string)
    ensures Cell(text) == CellOnce(text)
    decreases |text|
  {
    assert Cell(text) == BreakTags(Escapes(text));
    EmptyCells();
    if text == "" {
    } else if |text| > 1 && text[0] == '\r' && text[1] == '\n' {
      CellPair(text);
      CellExact(text[2..]);
    } else {
      CellStep(text);
      CellExact(text[1..]);
    }
  }

  /** Bars that no backslash escapes: the ones that end a table cell. */
  function OpenBars(s: string): nat {
    if s == "" then 0
    else if s[0] == '\\' && |s| > 1 then OpenBars(s[2..])
    else (if s[0] == '|' then 1 else 0) + OpenBars(s[1..])
  }

  lemma PlainBarFree(c: char, rest: string)
    requires c != '\\' && c != '|'
    ensures OpenBars([c] + rest) == OpenBars(rest)
  {
    assert ([c] + rest)[1..] == rest;
  }

  lemma EscapedBarFree(c: char, rest: string)
    ensures OpenBars(['\\', c] + rest) == OpenBars(rest)
  {
    assert (['\\', c] + rest)[2..] == rest;
  }

  lemma OpenBarsStep(c: char, rest: string)
    ensures OpenBars(CellOf(c) + rest) == OpenBars(rest) && OpenBars("<br>" + rest) == OpenBars(rest)
  {
    hide OpenBars;
    PlainBarFree('>', rest);
    PlainBarFree('r', ['>'] + rest);
    PlainBarFree('b', ['r'] + (['>'] + rest));
    PlainBarFree('<', ['b'] + (['r'] + (['>'] + rest)));
    assert "<br>" + rest == ['<'] + (['b'] + (['r'] + (['>'] + rest)));
    EscapedBarFree(c, rest);
    if c != '\\' && c != '|' { PlainBarFree(c, rest); }
  }

  /** A cell never ends early: all its bars are escaped. */
  lemma {:induction false} CellHasNoOpenBar(text: string)
    ensures OpenBars(Cell(text)) == 0
  {
    CellExact(text);
    hide Cell;
    OnceHasNoOpenBar(text);
  }

  lemma {:induction false} OnceHasNoOpenBar(text: string)
    ensures OpenBars(CellOnce(text)) == 0
    decreases |text|
  {
    hide OpenBars, CellOf;
    if text == "" {
      NoBars();
    } else if |text| > 1 && text[0] == '\r' && text[1] == '\n' {
      OpenBarsStep(' ', CellOnce(text[2..]));
      OnceHasNoOpenBar(text[2..]);
    } else {
      OpenBarsStep(text[0], CellOnce(text[1..]));
      OnceHasNoOpenBar(text[1..]);
    }
  }

  lemma NoBars()
    ensures OpenBars("") == 0
  {
  }

  lemma CellPair(text: string)
    requires |text| > 1 && text[0] == '\r' && text[1] == '\n'
    ensures BreakTags(Escapes(text)) == "<br>" + BreakTags(Escapes(text[2..]))
  {
    hide Escapes, BreakTags;
    var rest := text[2..];
    assert text == ['\r'] + (['\n'] + rest);
    EscapesMore('\r', ['\n'] + rest);
    EscapesMore('\n', rest);
    BreaksPair(Escapes(rest));
    assert ['\r'] + (['\n'] + Escapes(rest)) == "\r\n" + Escapes(rest);
  }

  lemma EscapesMore(c: char, rest: string)
    ensures Escapes([c] + rest) == (if c == '\\' || c == '|' then ['\\', c] else [c]) + Escapes(rest)
  {
    hide Escapes;
    EscapesConcat([c], rest);
    EscapesChar(c);
  }

  lemma EscapedStep(c: char, rest: string)
    requires c == '\\' || c == '|'
    ensures BreakTags(['\\', c] + rest) == ['\\', c] + BreakTags(rest)
  {
    hide BreakTags;
    BreaksStep(c, rest);
    BreaksStep('\\', [c] + rest);
    assert ['\\', c] + rest == ['\\'] + ([c] + rest);
    assert ['\\', c] + BreakTags(rest) == ['\\'] + ([c] + BreakTags(rest));
  }

  lemma CellStep(text: string)
    requires text != "" && !(|text| > 1 && text[0] == '\r' && text[1] == '\n')
    ensures BreakTags(Escapes(text)) == CellOf(text[0]) + BreakTags(Escapes(text[1..]))
  {
    hide Escapes, BreakTags;
    var c, tail := text[0], text[1..];
    var rest := Escapes(tail);
    assert text == [c] + tail;
    EscapesMore(c, tail);
    EmptyCells();
    if tail != "" { EscapesFirst(tail); }
    if c == '\\' || c == '|' {
      EscapedStep(c, rest);
    } else {
      BreaksStep(c, rest);
    }
  }
}
