/** Names of the form `system.schema.name`, taken apart at their dots. */
module DottedNames {

  /** The texts between the dots of a name. */
  function DotParts(s: string): (r: seq<string>)
    ensures r != []
  {
    if s == "" then
      [""]
    else
      var rest := DotParts(s[1..]);
      if s[0] == '.' then [""] + rest else [[s[0]] + rest[0]] + rest[1..]
  }

  lemma {:induction false} PartsOfJoin(a: string, b: string)
    ensures DotParts(a + "." + b) == DotParts(a) + DotParts(b)
  {
    if a == "" {
      assert a + "." + b == "." + b && ("." + b)[1..] == b;
    } else {
      hide DotParts;
      var rest := a[1..] + "." + b;
      assert a + "." + b == [a[0]] + rest && a == [a[0]] + a[1..];
      PartsOfJoin(a[1..], b);
      PartsOfMore(a[0], rest);
      PartsOfMore(a[0], a[1..]);
      MoreOfJoin(a[0], DotParts(a[1..]), DotParts(b));
    }
  }

  lemma MoreOfJoin(c: char, p: seq<string>, q: seq<string>)
    requires p != []
    ensures [[c] + (p + q)[0]] + (p + q)[1..] == [[c] + p[0]] + p[1..] + q
    ensures [""] + (p + q) == [""] + p + q
  {
    assert (p + q)[1..] == p[1..] + q;
  }

  lemma PartsOfMore(c: char, s: string)
    ensures var rest := DotParts(s); DotParts([c] + s) == if c == '.' then [""] + rest else [[c] + rest[0]] + rest[1..]
  {
    assert ([c] + s)[1..] == s;
  }

  lemma EmptyParts(s: string)
    ensures DotParts(s) == [""] <==> s == ""
  {
    if s != "" {
      if s[0] == '.' { assert |DotParts(s)| > 1; } else { assert |DotParts(s)[0]| > 0; }
    }
  }

  lemma {:induction false} DotFreePart(s: string)
    ensures DotParts(s) == [s] <==> '.' !in s
  {
    if s != "" {
      assert s == [s[0]] + s[1..];
      DotFreePart(s[1..]);
      if s[0] == '.' { assert DotParts(s)[0] == ""; }
      if DotParts(s) == [s] && s[0] != '.' {
        assert DotParts(s)[0] == [s[0]] + DotParts(s[1..])[0];
        assert DotParts(s[1..])[0] == s[1..];
        assert |DotParts(s[1..])| == 1;
      }
    }
  }

  /** Different names have different parts. */
  lemma {:induction false} PartsIdentify(s: string, t: string)
    requires DotParts(s) == DotParts(t)
    ensures s == t
    decreases |s|
  {
    EmptyParts(s);
    EmptyParts(t);
    if s != "" {
      var a, b := DotParts(s[1..]), DotParts(t[1..]);
      var p := DotParts(s);
      assert s == [s[0]] + s[1..] && t == [t[0]] + t[1..];
      if s[0] == '.' {
        assert p[0] == "";
        assert a == p[1..];
        assert t[0] == '.';
        assert b == p[1..];
      } else {
        assert p[0] == [s[0]] + a[0];
        assert t[0] != '.';
        assert p[0] == [t[0]] + b[0];
        assert s[0] == p[0][0] == t[0];
        assert a[0] == p[0][1..] == b[0];
        assert a == [a[0]] + a[1..] && b == [b[0]] + b[1..];
        assert a[1..] == p[1..] == b[1..];
      }
      PartsIdentify(s[1..], t[1..]);
    }
  }

  /** `name` is the dotted name of these three parts, in this order. */
  predicate Named(name: string, system: string, schema: string, object_: string) {
    DotParts(name) == DotParts(system) + DotParts(schema) + DotParts(object_)
  }

  /** For parts without dots the name falls apart into exactly them. */
  lemma NamedDotFree(name: string, system: string, schema: string, object_: string)
    requires '.' !in system && '.' !in schema && '.' !in object_
    ensures Named(name, system, schema, object_) <==> DotParts(name) == [system, schema, object_]
  {
    DotFreePart(system);
    DotFreePart(schema);
    DotFreePart(object_);
    hide DotParts;
    assert [system] + [schema] + [object_] == [system, schema, object_];
  }

  /** The name that belongs to three parts is the only one. */
  lemma NamedIff(name: string, system: string, schema: string, object_: string)
    ensures Named(name, system, schema, object_) <==> name == system + "." + schema + "." + object_
  {
    var n := system + "." + schema + "." + object_;
    PartsOfJoin(system + "." + schema, object_);
    PartsOfJoin(system, schema);
    hide DotParts;
    assert DotParts(n) == DotParts(system) + DotParts(schema) + DotParts(object_);
    if Named(name, system, schema, object_) { PartsIdentify(name, n); }
  }
}
