/** `generator/naming.py` and the paths of `generator/render.py`: where docs and their human siblings lie. */
module DocPaths {
  import opened MachineDocs
  import opened RenderTree

  predicate NameChar(c: char) {
    'a' <= c <= 'z' || '0' <= c <= '9' || c == '_' || c == '-'
  }

  predicate Mangled(s: string) {
    forall i :: 0 <= i < |s| ==> NameChar(s[i])
  }

  /** Lower case (as the given function has it), then a dash for every other character. */
  function Mangle(lower: string -> string, name: string): (r: string)
    ensures Mangled(r)
  {
    var l := lower(name);
    seq(|l|, i requires 0 <= i < |l| => if NameChar(l[i]) then l[i] else '-')
  }

  /** Small letters, digits, underscores and dashes stay; every other character becomes a dash. */
  lemma MangleChars(lower: string -> string, name: string, i: nat)
    requires i < |lower(name)|
    ensures |Mangle(lower, name)| == |lower(name)|
    ensures var c := lower(name)[i];
            Mangle(lower, name)[i] == if 'a' <= c <= 'z' || '0' <= c <= '9' || c == '_' || c == '-' then c else '-'
  {
    assert Mangle(lower, name)[i] == if NameChar(lower(name)[i]) then lower(name)[i] else '-';
  }

  /** A name that is already in mangled form mangles to itself. */
  lemma MangleSame(lower: string -> string, name: string)
    requires Mangled(lower(name))
    ensures Mangle(lower, name) == lower(name)
  {
  }

  function In(dir: string, name: string): string {
    dir + "/" + name
  }

  function SystemDir(name: string): string {
    In("systems", name)
  }

  /** The doc of a stem, machine-owned and human-owned. */
  function SchemaDoc(dir: string, stem: string): string {
    In(dir, stem + ".schema.md")
  }

  function HumanDoc(dir: string, stem: string): string {
    In(dir, stem + ".md")
  }

  function IndexDoc(dir: string): string {
    In(dir, "index.md")
  }

  // ---------------------------------------------------------------------------
  // Ownership of paths

  lemma InIsUnder(dir: string, name: string)
    ensures Under(dir, In(dir, name))
  {
    assert In(dir, name)[..|dir + "/"|] == dir + "/";
  }

  lemma InnerIsUnder(dir: string, sub: string, name: string)
    ensures Under(dir, In(In(dir, sub), name))
  {
    assert In(In(dir, sub), name) == dir + "/" + (sub + "/" + name);
    assert In(In(dir, sub), name)[..|dir + "/"|] == dir + "/";
  }

  lemma SystemDirStarts(name: string)
    ensures StartsWith(SystemDir(name), "systems/")
  {
    assert SystemDir(name) == "systems/" + name;
  }

  lemma EndsIn(s: string, a: string, b: string)
    requires s == a + b
    ensures EndsWith(s, b)
  {
  }

  lemma SchemaDocIsMachine(dir: string, stem: string)
    ensures MachineName(SchemaDoc(dir, stem))
  {
    EndsIn(SchemaDoc(dir, stem), dir + "/" + stem, ".schema.md");
  }

  lemma IndexDocIsMachine(dir: string)
    ensures MachineName(IndexDoc(dir))
  {
    EndsIn(IndexDoc(dir), dir, "/index.md");
  }

  lemma SlashFree(s: string)
    requires Mangled(s)
    ensures '/' !in s && '.' !in s
  {
  }

  /** What follows the last slash. */
  function FileName(s: string): string {
    if s == "" || s[|s| - 1] == '/' then "" else FileName(s[..|s| - 1]) + [s[|s| - 1]]
  }

  lemma {:induction false} FileNameOf(dir: string, tail: string)
    requires '/' !in tail
    ensures FileName(In(dir, tail)) == tail
  {
    var s := In(dir, tail);
    if tail == "" {
      assert s[|s| - 1] == '/';
    } else {
      var n := |tail| - 1;
      FileNameOf(dir, tail[..n]);
      assert s[..|s| - 1] == In(dir, tail[..n]);
      assert s[|s| - 1] == tail[n] && tail == tail[..n] + [tail[n]];
    }
  }

  lemma LastSlash(dir: string, tail: string, name: string)
    requires '/' !in tail && '/' !in name && EndsWith(In(dir, tail), "/" + name)
    ensures tail == name
  {
    var s := In(dir, tail);
    var pre := s[..|s| - |"/" + name|];
    assert s == pre + ("/" + name) == In(pre, name);
    FileNameOf(dir, tail);
    FileNameOf(pre, name);
  }

  /** A human doc never has a `.schema.md` path: its stem holds no dot. */
  lemma HumanDocNotSchema(dir: string, stem: string)
    requires Mangled(stem)
    ensures !EndsWith(HumanDoc(dir, stem), ".schema.md")
  {
    var s, at := HumanDoc(dir, stem), |dir|;
    assert s[at] == '/';
    assert forall i :: 0 <= i < |stem| ==> s[at + 1 + i] == stem[i];
    if |s| >= 10 {
      var n := |s| - 10;
      var k := if n >= at then 0 else at - n;
      assert '/' !in ".schema.md";
      assert s[n + k] != ".schema.md"[k] by {
        if n > at { assert NameChar(stem[n - at - 1]); }
      }
      assert s[n..][k] == s[n + k];
    }
  }

  lemma HumanDocTail(dir: string, stem: string)
    requires Mangled(stem)
    ensures '/' !in stem + ".md" && (stem + ".md" == "index.md" <==> stem == "index")
  {
    SlashFree(stem);
    if stem + ".md" == "index.md" { assert (stem + ".md")[..5] == stem && "index.md"[..5] == "index"; }
    if stem == "index" { assert stem + ".md" == "index.md"; }
  }

  /** It has an `index.md` path exactly if the stem is `index`. */
  lemma HumanDocIndexIff(dir: string, stem: string)
    requires Mangled(stem)
    ensures MachineName(HumanDoc(dir, stem)) <==> stem == "index"
    ensures stem == "index" ==> HumanDoc(dir, stem) == IndexDoc(dir)
  {
    hide EndsWith, In;
    var s, tail := HumanDoc(dir, stem), stem + ".md";
    HumanDocNotSchema(dir, stem);
    HumanDocTail(dir, stem);
    IndexDocIsMachine(dir);
    SlashInside(dir, tail);
    if EndsWith(s, "/index.md") {
      assert "/" + "index.md" == "/index.md" && '/' !in "index.md";
      LastSlash(dir, tail, "index.md");
    }
  }

  lemma SlashInside(dir: string, tail: string)
    ensures In(dir, tail) != "index.md"
  {
    assert In(dir, tail)[|dir|] == '/';
    assert '/' !in "index.md";
  }

  // ---------------------------------------------------------------------------
  // Directories

  lemma UnderSystemDir(a: string, p: string)
    requires Under(SystemDir(a), p)
    ensures |p| > 8 + |a| && p[8 + |a|] == '/' && p[8..8 + |a|] == a
  {
    var x := SystemDir(a) + "/";
    assert x == "systems/" + a + "/";
    assert p[..|x|] == x;
    assert x[8 + |a|] == '/' && x[8..8 + |a|] == a;
    assert p[8..8 + |a|] == p[..|x|][8..8 + |a|];
  }

  lemma SlashAt(a: string, b: string, p: string)
    requires Mangled(b) && |p| > 8 + |b| && p[8..8 + |b|] == b && |p| > 8 + |a| && p[8 + |a|] == '/'
    ensures |a| >= |b|
  {
    assert forall i :: 0 <= i < |b| ==> p[8 + i] == p[8..8 + |b|][i] == b[i];
  }

  /** Different mangled names give directories without common paths. */
  lemma MangledDirsDisjoint(a: string, b: string, p: string)
    requires Mangled(a) && Mangled(b) && Under(SystemDir(a), p) && Under(SystemDir(b), p)
    ensures a == b
  {
    UnderSystemDir(a, p);
    UnderSystemDir(b, p);
    SlashAt(a, b, p);
    SlashAt(b, a, p);
  }
}
