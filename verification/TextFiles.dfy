/**
 Reading a file in text mode: `\r\n` and `\r` become `\n`.  Writing leaves text as it is, so a
 file is given by its characters and a read by `ReadText`.
 */
module TextFiles {

  predicate CrFree(s: string) {
    '\r' !in s
  }

  /** How many characters of the file the first character read stands for. */
  function Step(s: string): (n: nat)
    requires s != ""
    ensures 1 <= n <= |s|
  {
    if s[0] == '\r' && |s| > 1 && s[1] == '\n' then 2 else 1
  }

  function ReadChar(c: char): char {
    if c == '\r' then '\n' else c
  }

  function ReadText(s: string): string {
    if s == "" then "" else [ReadChar(s[0])] + ReadText(s[Step(s)..])
  }

  lemma {:induction false} ReadIsCrFree(s: string)
    ensures CrFree(ReadText(s))
    decreases |s|
  {
    if s != "" { ReadIsCrFree(s[Step(s)..]); }
  }

  lemma {:induction false} ReadOfCrFree(s: string)
    requires CrFree(s)
    ensures ReadText(s) == s
  {
    if s != "" {
      ReadOfCrFree(s[1..]);
      assert s == [s[0]] + s[1..];
    }
  }

  /** Reading gives back what the file holds if and only if it holds no carriage return. */
  lemma ReadSameIff(s: string)
    ensures ReadText(s) == s <==> CrFree(s)
  {
    ReadIsCrFree(s);
    if CrFree(s) { ReadOfCrFree(s); }
  }

  /** Each of the three line ends reads as a newline, and any other character as itself. */
  lemma ReadsLineEnds(c: char, rest: string)
    ensures ReadText("\r\n" + rest) == "\n" + ReadText(rest)
    ensures ReadText("\n" + rest) == "\n" + ReadText(rest)
    ensures !(rest != "" && rest[0] == '\n') ==> ReadText("\r" + rest) == "\n" + ReadText(rest)
    ensures c != '\r' ==> ReadText([c] + rest) == [c] + ReadText(rest)
    ensures ReadText("") == ""
  {
    assert ("\r\n" + rest)[2..] == rest && ("\n" + rest)[1..] == rest && ("\r" + rest)[1..] == rest && ([c] + rest)[1..] == rest;
    assert ("\r" + rest)[0] == '\r' && (|rest| > 0 ==> ("\r" + rest)[1] == rest[0]);
  }

  lemma ReadPlainChar(c: char, t: string)
    requires c != '\r'
    ensures ReadText([c] + t) == [c] + ReadText(t)
  {
    assert ([c] + t)[1..] == t;
  }

  lemma {:induction false} ReadAfterCrFree(a: string, b: string)
    requires CrFree(a)
    ensures ReadText(a + b) == a + ReadText(b)
  {
    hide ReadText;
    if a == "" {
      assert a + b == b;
    } else {
      ReadAfterCrFree(a[1..], b);
      ReadPlainChar(a[0], a[1..] + b);
      assert a + b == [a[0]] + (a[1..] + b);
      assert a + ReadText(b) == [a[0]] + (a[1..] + ReadText(b));
    }
  }

  /** What is left of the file once `n` characters have been read. */
  function Unread(s: string, n: nat): string
  {
    if n == 0 || s == "" then s else Unread(s[Step(s)..], n - 1)
  }

  lemma ReadLength(s: string)
    requires s != ""
    ensures |ReadText(s)| == 1 + |ReadText(s[Step(s)..])|
    ensures forall n :: 0 < n <= |ReadText(s)| ==> ReadText(s)[n..] == ReadText(s[Step(s)..])[n - 1..]
  {
  }

  /** The unread part is an end of the file, and reads as the rest of the text. */
  lemma {:induction false} UnreadIsSuffix(s: string, n: nat)
    requires n <= |ReadText(s)|
    ensures |Unread(s, n)| <= |s| && s[|s| - |Unread(s, n)|..] == Unread(s, n)
    ensures ReadText(Unread(s, n)) == ReadText(s)[n..]
    decreases |s|
  {
    if n > 0 {
      ReadLength(s);
      var rest := s[Step(s)..];
      UnreadIsSuffix(rest, n - 1);
      hide ReadText;
      assert rest[|rest| - |Unread(s, n)|..] == s[|s| - |Unread(s, n)|..];
    }
  }
}
