/** Text as lines: `"\n".join`, `str.split("\n")`, and terminated lines. */
module TextLines {

  predicate NewlineFree(s: string) {
    '\n' !in s
  }

  predicate AllNewlineFree(lines: seq<string>) {
    forall i :: 0 <= i < |lines| ==> NewlineFree(lines[i])
  }

  function SplitLines(s: string): (r: seq<string>)
    ensures r != []
  {
    if s == "" then
      [""]
    else if s[0] == '\n' then
      [""] + SplitLines(s[1..])
    else
      var rest := SplitLines(s[1..]);
      [[s[0]] + rest[0]] + rest[1..]
  }

  function JoinLines(lines: seq<string>): string
    requires lines != []
  {
    if |lines| == 1 then lines[0] else lines[0] + "\n" + JoinLines(lines[1..])
  }

  lemma {:induction false} SplitIsNewlineFree(s: string)
    ensures AllNewlineFree(SplitLines(s))
  {
    if s != "" { SplitIsNewlineFree(s[1..]); }
  }

  lemma JoinHead(head: string, rest: seq<string>)
    requires rest != []
    ensures JoinLines([head + rest[0]] + rest[1..]) == head + JoinLines(rest)
  {
    var r := [head + rest[0]] + rest[1..];
    assert r[1..] == rest[1..];
    if |rest| > 1 { assert head + rest[0] + "\n" + JoinLines(rest[1..]) == head + (rest[0] + "\n" + JoinLines(rest[1..])); }
  }

  lemma {:induction false} JoinOfSplit(s: string)
    ensures JoinLines(SplitLines(s)) == s
  {
    if s != "" {
      JoinOfSplit(s[1..]);
      var rest := SplitLines(s[1..]);
      assert s == [s[0]] + s[1..];
      if s[0] == '\n' {
        assert ([""] + rest)[1..] == rest;
      } else {
        hide JoinLines;
        JoinHead([s[0]], rest);
      }
    }
  }

  lemma {:induction false} SplitOneLine(line: string)
    requires NewlineFree(line)
    ensures SplitLines(line) == [line]
  {
    if line != "" {
      SplitOneLine(line[1..]);
      assert line == [line[0]] + line[1..];
    }
  }

  lemma {:induction false} SplitFirstLine(line: string, more: string)
    requires NewlineFree(line)
    ensures SplitLines(line + "\n" + more) == [line] + SplitLines(more)
  {
    if line == "" {
      assert line + "\n" + more == "\n" + more;
    } else {
      SplitFirstLine(line[1..], more);
      assert line + "\n" + more == [line[0]] + (line[1..] + "\n" + more);
      assert line == [line[0]] + line[1..];
    }
  }

  lemma {:induction false} SplitOfJoin(lines: seq<string>)
    requires lines != [] && AllNewlineFree(lines)
    ensures SplitLines(JoinLines(lines)) == lines
  {
    if |lines| == 1 {
      SplitOneLine(lines[0]);
    } else {
      SplitOfJoin(lines[1..]);
      SplitFirstLine(lines[0], JoinLines(lines[1..]));
    }
  }

  /** Each line followed by its newline. */
  function Terminated(lines: seq<string>): string {
    if lines == [] then "" else lines[0] + "\n" + Terminated(lines[1..])
  }

  lemma {:induction false} TerminatedConcat(a: seq<string>, b: seq<string>)
    ensures Terminated(a + b) == Terminated(a) + Terminated(b)
  {
    if a == [] {
      assert a + b == b;
    } else {
      TerminatedConcat(a[1..], b);
      assert (a + b)[1..] == a[1..] + b;
    }
  }

  /** Joining adds newlines only. */
  lemma {:induction false} JoinHolds(lines: seq<string>, c: char)
    requires lines != [] && c != '\n'
    ensures c in JoinLines(lines) <==> exists i :: 0 <= i < |lines| && c in lines[i]
  {
    if |lines| > 1 {
      JoinHolds(lines[1..], c);
      assert c in JoinLines(lines) <==> c in lines[0] || c in JoinLines(lines[1..]);
      assert forall i :: 1 <= i < |lines| ==> lines[i] == lines[1..][i - 1];
      if exists i :: 0 <= i < |lines| && c in lines[i] {
        var i :| 0 <= i < |lines| && c in lines[i];
        if i > 0 { assert c in lines[1..][i - 1]; }
      }
    }
  }

  /** Terminated lines are the first lines of what follows. */
  lemma {:induction false} SplitAfterLines(lines: seq<string>, more: string)
    requires AllNewlineFree(lines)
    ensures SplitLines(Terminated(lines) + more) == lines + SplitLines(more)
  {
    if lines == [] {
      assert Terminated(lines) + more == more;
    } else {
      SplitAfterLines(lines[1..], more);
      SplitFirstLine(lines[0], Terminated(lines[1..]) + more);
      hide SplitLines;
      assert Terminated(lines) + more == lines[0] + "\n" + (Terminated(lines[1..]) + more);
      assert lines == [lines[0]] + lines[1..];
    }
  }
}
