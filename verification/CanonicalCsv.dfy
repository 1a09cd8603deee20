/**
 `benchmark/canonical.py`: the canonical CSV of a table of string cells, and the parser of
 section 2 of RFC 4180 that reads it back.
 */
module CanonicalCsv {
  import opened Ordering
  import opened TextLines

  type Record = seq<string>

  // ---------------------------------------------------------------------------
  // Printing

  predicate Special(c: char) {
    c == ',' || c == '"' || c == '\n' || c == '\r'
  }

  predicate NeedsQuotes(text: string) {
    exists i :: 0 <= i < |text| && Special(text[i])
  }

  function Doubled(text: string): string {
    if text == "" then "" else (if text[0] == '"' then "\"\"" else [text[0]]) + Doubled(text[1..])
  }

  function Escape(text: string): string {
    if NeedsQuotes(text) then "\"" + Doubled(text) + "\"" else text
  }

  /** Quoting is minimal: a cell is quoted exactly if it holds a comma, a quote or a line break. */
  lemma EscapeMinimal(text: string)
    ensures Escape(text) == text <==> ',' !in text && '"' !in text && '\n' !in text && '\r' !in text
    ensures Escape(text) != text ==> |Escape(text)| >= 2 && Escape(text)[0] == '"' == Escape(text)[|Escape(text)| - 1]
  {
    if NeedsQuotes(text) {
      DoubledLonger(text);
      assert |Escape(text)| > |text|;
    }
  }

  lemma {:induction false} DoubledLonger(text: string)
    ensures |Doubled(text)| >= |text|
  {
    if text != "" { DoubledLonger(text[1..]); }
  }

  function Line(row: Record): string {
    if row == [] then "" else if |row| == 1 then Escape(row[0]) else Escape(row[0]) + "," + Line(row[1..])
  }

  function LinesOf(rows: seq<Record>): seq<string> {
    if rows == [] then [] else [Line(rows[0])] + LinesOf(rows[1..])
  }

  /** Header first, then the data lines in code-point order, each with its terminator. */
  function CanonicalCsv(columns: Record, rows: seq<Record>): string {
    Terminated([Line(columns)] + Sort(StrLe, LinesOf(rows)))
  }

  // ---------------------------------------------------------------------------
  // Parsing

  datatype Parsed<+T> = Malformed | Parsed(value: T, rest: string)

  /** The inside of a quoted field, up to its closing quote. */
  function ParseQuoted(s: string): (r: Parsed<string>)
    ensures r.Parsed? ==> |r.rest| < |s|
  {
    if s == "" then
      Malformed
    else if s[0] != '"' then
      match ParseQuoted(s[1..])
      case Malformed => Malformed
      case Parsed(v, rest) => Parsed([s[0]] + v, rest)
    else if |s| > 1 && s[1] == '"' then
      match ParseQuoted(s[2..])
      case Malformed => Malformed
      case Parsed(v, rest) => Parsed("\"" + v, rest)
    else
      Parsed("", s[1..])
  }

  function ParsePlain(s: string): (r: Parsed<string>)
    ensures r.Parsed? ==> |r.rest| <= |s|
  {
    if s == "" || s[0] == ',' || s[0] == '\n' then
      Parsed("", s)
    else if Special(s[0]) then
      Malformed
    else
      match ParsePlain(s[1..])
      case Malformed => Malformed
      case Parsed(v, rest) => Parsed([s[0]] + v, rest)
  }

  function ParseField(s: string): (r: Parsed<string>)
    ensures r.Parsed? ==> |r.rest| <= |s|
  {
    if s != "" && s[0] == '"' then ParseQuoted(s[1..]) else ParsePlain(s)
  }

  function ParseRecord(s: string): (r: Parsed<Record>)
    ensures r.Parsed? ==> |r.rest| < |s|
    decreases |s|
  {
    match ParseField(s)
    case Malformed => Malformed
    case Parsed(field, rest) =>
      if rest == "" then
        Malformed
      else if rest[0] == '\n' then
        Parsed([field], rest[1..])
      else if rest[0] == ',' then
        match ParseRecord(rest[1..])
        case Malformed => Malformed
        case Parsed(fields, rest') => Parsed([field] + fields, rest')
      else
        Malformed
  }

  function Parse(s: string): Parsed<seq<Record>>
    decreases |s|
  {
    if s == "" then
      Parsed([], "")
    else
      match ParseRecord(s)
      case Malformed => Malformed
      case Parsed(record, rest) =>
        match Parse(rest)
        case Malformed => Malformed
        case Parsed(records, rest') => Parsed([record] + records, rest')
  }

  // ---------------------------------------------------------------------------
  // The parser inverts the printer

  predicate Delimited(tail: string) {
    tail != "" && (tail[0] == ',' || tail[0] == '\n')
  }

  /** One character of a quoted field: itself, or a quote from its doubled form. */
  lemma QuotedChar(c: char, rest: string, v: string, tail: string)
    requires ParseQuoted(rest) == Parsed(v, tail)
    ensures ParseQuoted((if c == '"' then "\"\"" else [c]) + rest) == Parsed([c] + v, tail)
  {
    var s := (if c == '"' then "\"\"" else [c]) + rest;
    if c == '"' { assert s[2..] == rest; } else { assert s[1..] == rest; }
  }

  lemma QuoteCloses(tail: string)
    requires Delimited(tail)
    ensures ParseQuoted("\"" + tail) == Parsed("", tail)
  {
    assert ("\"" + tail)[1..] == tail;
  }

  lemma {:induction false} QuotedInverts(text: string, tail: string)
    requires Delimited(tail)
    ensures ParseQuoted(Doubled(text) + "\"" + tail) == Parsed(text, tail)
  {
    hide ParseQuoted, Delimited;
    if text == "" {
      QuoteCloses(tail);
      assert Doubled(text) + "\"" + tail == "\"" + tail;
    } else {
      QuotedInverts(text[1..], tail);
      var rest := Doubled(text[1..]) + "\"" + tail;
      QuotedChar(text[0], rest, text[1..], tail);
      assert Doubled(text) + "\"" + tail == (if text[0] == '"' then "\"\"" else [text[0]]) + rest;
      assert text == [text[0]] + text[1..];
    }
  }

  lemma {:induction false} PlainInverts(text: string, tail: string)
    requires Delimited(tail) && !NeedsQuotes(text)
    ensures ParsePlain(text + tail) == Parsed(text, tail)
  {
    if text == "" {
      assert text + tail == tail;
    } else {
      assert Special(text[0]) ==> NeedsQuotes(text);
      assert forall i :: 0 <= i < |text[1..]| ==> text[1..][i] == text[i + 1];
      PlainInverts(text[1..], tail);
      assert text + tail == [text[0]] + (text[1..] + tail);
      assert (text + tail)[1..] == text[1..] + tail;
      assert text == [text[0]] + text[1..];
    }
  }

  lemma QuotedField(rest: string)
    ensures ParseField("\"" + rest) == ParseQuoted(rest)
  {
    assert ("\"" + rest)[1..] == rest;
  }

  lemma EscapedQuoted(text: string, tail: string)
    requires NeedsQuotes(text)
    ensures Escape(text) + tail == "\"" + (Doubled(text) + "\"" + tail)
  {
    hide Doubled;
  }

  lemma PlainField(text: string, tail: string)
    requires Delimited(tail) && !NeedsQuotes(text)
    ensures ParseField(text + tail) == ParsePlain(text + tail) && Escape(text) == text
  {
    assert text != "" ==> !Special(text[0]);
    assert (text + tail)[0] == if text == "" then tail[0] else text[0];
    hide ParsePlain, ParseQuoted;
  }

  lemma FieldInverts(text: string, tail: string)
    requires Delimited(tail)
    ensures ParseField(Escape(text) + tail) == Parsed(text, tail)
  {
    hide ParseField, ParseQuoted, ParsePlain, Escape, Doubled, Delimited, NeedsQuotes;
    if NeedsQuotes(text) {
      QuotedInverts(text, tail);
      EscapedQuoted(text, tail);
      QuotedField(Doubled(text) + "\"" + tail);
    } else {
      PlainInverts(text, tail);
      PlainField(text, tail);
    }
  }

  lemma LastField(text: string, tail: string)
    ensures ParseRecord(Escape(text) + "\n" + tail) == Parsed([text], tail)
  {
    hide Escape;
    FieldInverts(text, "\n" + tail);
    assert Escape(text) + "\n" + tail == Escape(text) + ("\n" + tail);
    assert ("\n" + tail)[1..] == tail;
    hide ParseField;
  }

  lemma FieldThenMore(text: string, more: string)
    ensures ParseRecord(Escape(text) + "," + more) ==
              match ParseRecord(more)
              case Malformed => Malformed
              case Parsed(fields, rest) => Parsed([text] + fields, rest)
  {
    hide Escape;
    FieldInverts(text, "," + more);
    assert Escape(text) + "," + more == Escape(text) + ("," + more);
    assert ("," + more)[1..] == more;
    hide ParseField;
  }

  lemma {:induction false} RecordInverts(row: Record, tail: string)
    requires row != []
    ensures ParseRecord(Line(row) + "\n" + tail) == Parsed(row, tail)
  {
    hide ParseRecord, Escape;
    if |row| == 1 {
      LastField(row[0], tail);
      assert row == [row[0]];
    } else {
      var more := Line(row[1..]) + "\n" + tail;
      RecordInverts(row[1..], tail);
      FieldThenMore(row[0], more);
      assert Line(row) + "\n" + tail == Escape(row[0]) + "," + more;
      assert row == [row[0]] + row[1..];
    }
  }

  lemma RecordThenMore(row: Record, more: string)
    requires row != []
    ensures Parse(Line(row) + "\n" + more) ==
              match Parse(more)
              case Malformed => Malformed
              case Parsed(records, rest) => Parsed([row] + records, rest)
  {
    hide Line;
    RecordInverts(row, more);
    hide ParseRecord;
  }

  /** Reading a printed table gives the table back, embedded commas, quotes and newlines included. */
  lemma {:induction false} ParseInverts(rows: seq<Record>)
    requires forall i :: 0 <= i < |rows| ==> rows[i] != []
    ensures Parse(Terminated(LinesOf(rows))) == Parsed(rows, "")
  {
    hide Line;
    if rows != [] {
      hide Parse;
      RecordThenMore(rows[0], Terminated(LinesOf(rows[1..])));
      ParseInverts(rows[1..]);
      assert rows == [rows[0]] + rows[1..];
    }
  }

  // ---------------------------------------------------------------------------
  // The text determines the table

  /** Sorting the lines is sorting the rows by their lines. */
  predicate RowLe(a: Record, b: Record) {
    StrLe(Line(a), Line(b))
  }

  lemma {:induction false} InsertLine(row: Record, rows: seq<Record>)
    ensures LinesOf(Insert(RowLe, row, rows)) == Insert(StrLe, Line(row), LinesOf(rows))
  {
    if rows != [] && !RowLe(row, rows[0]) {
      InsertLine(row, rows[1..]);
    }
  }

  lemma {:induction false} SortLines(rows: seq<Record>)
    ensures LinesOf(Sort(RowLe, rows)) == Sort(StrLe, LinesOf(rows))
  {
    if rows != [] {
      SortLines(rows[1..]);
      InsertLine(rows[0], Sort(RowLe, rows[1..]));
    }
  }

  /** A row without cells prints like a row with one empty cell. */
  function Padded(row: Record): (r: Record)
    ensures r != []
  {
    if row == [] then [""] else row
  }

  function PaddedAll(rows: seq<Record>): (r: seq<Record>)
    ensures forall i :: 0 <= i < |r| ==> r[i] != []
  {
    if rows == [] then [] else [Padded(rows[0])] + PaddedAll(rows[1..])
  }

  lemma {:induction false} PaddedLines(rows: seq<Record>)
    ensures LinesOf(PaddedAll(rows)) == LinesOf(rows)
  {
    if rows != [] {
      PaddedLines(rows[1..]);
      assert Line([""]) == "" == Line([]);
    }
  }

  lemma LineInjective(a: Record, b: Record)
    requires a != [] && b != [] && Line(a) == Line(b)
    ensures a == b
  {
    RecordInverts(a, "");
    RecordInverts(b, "");
  }

  /** The table a canonical text spells: header, then the rows in line order. */
  lemma CsvParses(columns: Record, rows: seq<Record>)
    ensures Parse(CanonicalCsv(columns, rows)) == Parsed([Padded(columns)] + Sort(RowLe, PaddedAll(rows)), "")
  {
    var sorted := Sort(RowLe, PaddedAll(rows));
    SortLines(PaddedAll(rows));
    PaddedLines(rows);
    SortMembers(RowLe, PaddedAll(rows));
    var all := [Padded(columns)] + sorted;
    assert all[1..] == sorted;
    assert LinesOf(all) == [Line(Padded(columns))] + LinesOf(sorted);
    assert Line([""]) == "" == Line([]);
    forall i | 0 <= i < |all| ensures all[i] != [] {
      if i > 0 { assert all[i] in sorted; }
    }
    ParseInverts(all);
  }

  lemma RowOrder(rows: seq<Record>)
    requires forall i :: 0 <= i < |rows| ==> rows[i] != []
    ensures TotalPreorder(RowLe) && TieFree(RowLe, rows)
  {
    StrLeOrders();
    forall a, b | a in rows && b in rows && RowLe(a, b) && RowLe(b, a) ensures a == b { LineInjective(a, b); }
  }

  lemma EqualCsvEqualTables(c1: Record, r1: seq<Record>, c2: Record, r2: seq<Record>)
    requires CanonicalCsv(c1, r1) == CanonicalCsv(c2, r2)
    ensures Padded(c1) == Padded(c2) && multiset(PaddedAll(r1)) == multiset(PaddedAll(r2))
  {
    hide CanonicalCsv, Parse, Sort, Padded, PaddedAll;
    var p1, p2 := PaddedAll(r1), PaddedAll(r2);
    CsvParses(c1, r1);
    CsvParses(c2, r2);
    SortPermutes(RowLe, p1);
    SortPermutes(RowLe, p2);
    var a, b := [Padded(c1)] + Sort(RowLe, p1), [Padded(c2)] + Sort(RowLe, p2);
    assert a == b;
    assert a[0] == b[0] && a[1..] == b[1..];
    assert a[1..] == Sort(RowLe, p1) && b[1..] == Sort(RowLe, p2);
  }

  lemma EqualTablesEqualCsv(c1: Record, r1: seq<Record>, c2: Record, r2: seq<Record>)
    requires Padded(c1) == Padded(c2) && multiset(PaddedAll(r1)) == multiset(PaddedAll(r2))
    ensures CanonicalCsv(c1, r1) == CanonicalCsv(c2, r2)
  {
    var p1, p2 := PaddedAll(r1), PaddedAll(r2);
    RowOrder(p1);
    SortPermutationInvariant(RowLe, p1, p2);
    SortLines(p1);
    SortLines(p2);
    PaddedLines(r1);
    PaddedLines(r2);
    assert Line([""]) == "" == Line([]);
    hide Sort, PaddedAll, LinesOf, Terminated;
  }

  /** Two outputs are equal if and only if headers and rows are, rows as a multiset, an empty row counting as one empty cell. */
  lemma CsvDeterminesTable(c1: Record, r1: seq<Record>, c2: Record, r2: seq<Record>)
    ensures CanonicalCsv(c1, r1) == CanonicalCsv(c2, r2) <==>
              Padded(c1) == Padded(c2) && multiset(PaddedAll(r1)) == multiset(PaddedAll(r2))
  {
    hide CanonicalCsv, Padded, PaddedAll;
    if CanonicalCsv(c1, r1) == CanonicalCsv(c2, r2) { EqualCsvEqualTables(c1, r1, c2, r2); }
    if Padded(c1) == Padded(c2) && multiset(PaddedAll(r1)) == multiset(PaddedAll(r2)) { EqualTablesEqualCsv(c1, r1, c2, r2); }
  }

  lemma {:induction false} PaddingIdle(rows: seq<Record>)
    requires forall i :: 0 <= i < |rows| ==> rows[i] != []
    ensures PaddedAll(rows) == rows
  {
    if rows != [] {
      PaddingIdle(rows[1..]);
      assert rows == [rows[0]] + rows[1..];
    }
  }

  /** For tables with columns and no row without cells, checksum inputs agree exactly when the tables do. */
  lemma CsvDeterminesProperTable(c1: Record, r1: seq<Record>, c2: Record, r2: seq<Record>)
    requires c1 != [] && c2 != []
    requires (forall i :: 0 <= i < |r1| ==> r1[i] != []) && (forall i :: 0 <= i < |r2| ==> r2[i] != [])
    ensures CanonicalCsv(c1, r1) == CanonicalCsv(c2, r2) <==> c1 == c2 && multiset(r1) == multiset(r2)
  {
    CsvDeterminesTable(c1, r1, c2, r2);
    PaddingIdle(r1);
    PaddingIdle(r2);
  }

  /** A row without cells and a row with one empty cell cannot be told apart. */
  lemma EmptyRowAmbiguous(columns: Record)
    ensures CanonicalCsv(columns, [[]]) == CanonicalCsv(columns, [[""]])
  {
    CsvDeterminesTable(columns, [[]], columns, [[""]]);
    assert PaddedAll([[]]) == [[""]] == PaddedAll([[""]]);
  }
}
