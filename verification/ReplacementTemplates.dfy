/** The replacement text of `re.sub`, which is a template: backslashes in it are reinterpreted. */
module ReplacementTemplates {
  import opened Basics

  /** The escapes that stand for a control character. */
  function Escape(c: char): Option<char> {
    match c
    case 'a' => Some('\U{07}')
    case 'b' => Some('\U{08}')
    case 'f' => Some('\U{0C}')
    case 'n' => Some('\n')
    case 'r' => Some('\r')
    case 't' => Some('\t')
    case 'v' => Some('\U{0B}')
    case '\\' => Some('\\')
    case _ => None
  }

  predicate LetterOrDigit(c: char) {
    'a' <= c <= 'z' || 'A' <= c <= 'Z' || '0' <= c <= '9'
  }

  function Prepended(c: string, r: Option<string>): Option<string> {
    if r.None? then None else Some(c + r.value)
  }

  /** How a template without group references expands; other escaped letters, digits and a last backslash are errors. */
  function Template(s: string): Option<string> {
    if s == "" then Some("")
    else if s[0] != '\\' then Prepended([s[0]], Template(s[1..]))
    else if |s| == 1 then None
    else if Escape(s[1]).Some? then Prepended([Escape(s[1]).value], Template(s[2..]))
    else if LetterOrDigit(s[1]) then None
    else Prepended(s[..2], Template(s[2..]))
  }

  /** A template without backslashes expands to itself. */
  lemma {:induction false} PlainTemplate(s: string)
    requires '\\' !in s
    ensures Template(s) == Some(s)
  {
    if s != "" {
      PlainTemplate(s[1..]);
      assert s == [s[0]] + s[1..];
    }
  }

  /** A doubled backslash, as JSON prints one, loses a backslash. */
  lemma DoubledBackslash(a: string, b: string)
    requires '\\' !in a && '\\' !in b
    ensures Template(a + "\\\\" + b) == Some(a + "\\" + b) && a + "\\" + b != a + "\\\\" + b
  {
    PlainTemplate(b);
    var t := "\\\\" + b;
    assert t[2..] == b;
    assert Template(t) == Some(['\\'] + b);
    assert ['\\'] + b == "\\" + b;
    TemplateAfter(a, t);
    assert a + "\\\\" + b == a + t && a + ("\\" + b) == a + "\\" + b;
    assert |a + "\\" + b| != |a + "\\\\" + b|;
  }

  /** An escaped `n` becomes a line break. */
  lemma EscapedNewline(a: string, b: string)
    requires '\\' !in a && '\\' !in b
    ensures Template(a + "\\n" + b) == Some(a + "\n" + b)
  {
    PlainTemplate(b);
    var t := "\\n" + b;
    assert t[2..] == b;
    assert Template(t) == Some(['\n'] + b);
    hide Template;
    TemplateAfter(a, t);
    assert a + "\\n" + b == a + t && a + (['\n'] + b) == a + "\n" + b;
  }

  /** An escaped capital letter, or a last backslash, is an error. */
  lemma BadEscape(a: string, c: char, b: string)
    requires '\\' !in a && 'A' <= c <= 'Z'
    ensures Template(a + ['\\', c] + b) == None && Template(a + "\\") == None
  {
    var u := ['\\', c] + b;
    assert Template(u) == None && Template("\\") == None;
    hide Template;
    TemplateAfter(a, u);
    TemplateAfter(a, "\\");
    assert a + ['\\', c] + b == a + u;
  }

  lemma TemplateOne(c: char, t: string)
    requires c != '\\'
    ensures Template([c] + t) == Prepended([c], Template(t))
  {
    assert ([c] + t)[1..] == t;
  }

  lemma PrependedTwice(c: char, a: string, r: Option<string>)
    ensures Prepended([c], Prepended(a, r)) == Prepended([c] + a, r)
  {
    if r.Some? { assert [c] + (a + r.value) == [c] + a + r.value; }
  }

  lemma {:induction false} TemplateAfter(a: string, t: string)
    requires '\\' !in a
    ensures Template(a + t) == Prepended(a, Template(t))
  {
    hide Template;
    if a == "" {
      assert a + t == t;
      if Template(t).Some? { assert "" + Template(t).value == Template(t).value; }
    } else {
      TemplateAfter(a[1..], t);
      TemplateOne(a[0], a[1..] + t);
      PrependedTwice(a[0], a[1..], Template(t));
      assert a + t == [a[0]] + (a[1..] + t) && a == [a[0]] + a[1..];
    }
  }
}
