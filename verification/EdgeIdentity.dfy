/** `edge_id` of `lineage/graph.py`: what the hashed payload identifies. */
module EdgeIdentity {
  import opened TextLines

  function Payload(source: string, target: string, operation: string): string {
    source + "\n" + target + "\n" + operation
  }

  lemma PayloadLines(source: string, target: string, operation: string)
    requires NewlineFree(source) && NewlineFree(target) && NewlineFree(operation)
    ensures SplitLines(Payload(source, target, operation)) == [source, target, operation]
  {
    SplitOneLine(operation);
    SplitFirstLine(target, operation);
    SplitFirstLine(source, target + "\n" + operation);
    assert Payload(source, target, operation) == source + "\n" + (target + "\n" + operation);
    hide SplitLines;
    assert [source] + ([target] + [operation]) == [source, target, operation];
  }

  /** On names without newlines the hashed payload identifies source, target and operation. */
  lemma PayloadInjective(s: string, t: string, o: string, s': string, t': string, o': string)
    requires NewlineFree(s) && NewlineFree(t) && NewlineFree(o) && NewlineFree(s') && NewlineFree(t') && NewlineFree(o')
    ensures Payload(s, t, o) == Payload(s', t', o') <==> s == s' && t == t' && o == o'
  {
    hide SplitLines, Payload;
    PayloadLines(s, t, o);
    PayloadLines(s', t', o');
    var a, b := [s, t, o], [s', t', o'];
    if a == b { assert a[0] == b[0] && a[1] == b[1] && a[2] == b[2]; }
  }

  lemma {:induction false} LinesOfTwo(a: string, b: string)
    ensures |SplitLines(a + "\n" + b)| == |SplitLines(a)| + |SplitLines(b)|
  {
    if a == "" {
      assert a + "\n" + b == "\n" + b;
    } else {
      LinesOfTwo(a[1..], b);
      assert a + "\n" + b == [a[0]] + (a[1..] + "\n" + b);
    }
  }

  lemma {:induction false} OneLineIff(s: string)
    ensures |SplitLines(s)| == 1 <==> NewlineFree(s)
  {
    if s != "" { OneLineIff(s[1..]); }
  }

  lemma PayloadSize(s: string, t: string, o: string)
    ensures |SplitLines(Payload(s, t, o))| == |SplitLines(s)| + |SplitLines(t)| + |SplitLines(o)|
  {
    hide SplitLines;
    assert Payload(s, t, o) == s + "\n" + (t + "\n" + o);
    LinesOfTwo(s, t + "\n" + o);
    LinesOfTwo(t, o);
  }

  lemma Break(s: string) returns (a: string, b: string)
    requires !NewlineFree(s)
    ensures s == a + "\n" + b
  {
    var i :| 0 <= i < |s| && s[i] == '\n';
    a, b := s[..i], s[i + 1..];
    assert s == s[..i] + [s[i]] + s[i + 1..];
  }

  /** A newline moved from one name to the next gives the same payload. */
  lemma NewlineMoves(a: string, b: string, c: string, d: string)
    ensures Payload(a + "\n" + b, c, d) == Payload(a, b + "\n" + c, d)
    ensures Payload(a, b, c + "\n" + d) == Payload(a, b + "\n" + c, d)
  {
    assert (a + "\n" + b) + "\n" + c + "\n" + d == a + "\n" + (b + "\n" + c) + "\n" + d;
    assert a + "\n" + b + "\n" + (c + "\n" + d) == a + "\n" + (b + "\n" + c) + "\n" + d;
  }

  lemma Longer(a: string, b: string)
    ensures a + "\n" + b != a && a + "\n" + b != b
  {
    assert |a + "\n" + b| == |a| + 1 + |b|;
  }

  /** Another edge with the same payload, when a name or the operation holds a newline. */
  lemma Collision(s: string, t: string, o: string) returns (s': string, t': string, o': string)
    requires !(NewlineFree(s) && NewlineFree(t) && NewlineFree(o))
    ensures Payload(s', t', o') == Payload(s, t, o) && !(s' == s && t' == t && o' == o)
  {
    hide Payload;
    if !NewlineFree(s) {
      var a, b := Break(s);
      s', t', o' := a, b + "\n" + t, o;
      NewlineMoves(a, b, t, o);
      Longer(a, b);
    } else if !NewlineFree(t) {
      var a, b := Break(t);
      s', t', o' := s + "\n" + a, b, o;
      NewlineMoves(s, a, b, o);
      Longer(s, a);
    } else {
      var a, b := Break(o);
      s', t', o' := s, t + "\n" + a, b;
      NewlineMoves(s, t, a, b);
      Longer(t, a);
    }
  }

  /** The payload of an edge belongs to that edge alone if and only if its names and operation hold no newline. */
  lemma PayloadUniqueIff(s: string, t: string, o: string)
    ensures (forall s', t', o' :: Payload(s', t', o') == Payload(s, t, o) ==> s' == s && t' == t && o' == o)
            <==> NewlineFree(s) && NewlineFree(t) && NewlineFree(o)
  {
    hide Payload, SplitLines, NewlineFree;
    if NewlineFree(s) && NewlineFree(t) && NewlineFree(o) {
      forall s', t', o' | Payload(s', t', o') == Payload(s, t, o) ensures s' == s && t' == t && o' == o {
        PayloadSize(s, t, o);
        PayloadSize(s', t', o');
        OneLineIff(s); OneLineIff(t); OneLineIff(o);
        OneLineIff(s'); OneLineIff(t'); OneLineIff(o');
        PayloadInjective(s, t, o, s', t', o');
      }
    } else {
      var s', t', o' := Collision(s, t, o);
    }
  }
}
