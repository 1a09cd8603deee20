/**
 How the lineage graph, the knowledge base and the snapshots name the same object: node ids and
 qualified names, node docs and planned docs, and the human doc beside each of them.
 */
module SiblingDocs {
  import opened Basics
  import opened Snapshots
  import opened LineageGraph
  import opened DottedNames
  import opened DocPaths
  import M = Merge
  import F = SeverityFinal
  import W = LineageWalk
  import Layout = DocLayout
  import opened ContaminationScan

  // ---------------------------------------------------------------------------
  // Paths

  /** The human doc beside a machine doc is the one the generator would name. */
  lemma HumanPathOf(dir: string, stem: string)
    ensures HumanPath(SchemaDoc(dir, stem)) == HumanDoc(dir, stem)
  {
    var base := dir + "/" + stem;
    assert SchemaDoc(dir, stem) == base + ".schema.md" && HumanDoc(dir, stem) == base + ".md";
    hide HumanPath;
  }

  /** A machine doc other than an index. */
  predicate IsSchemaDoc(doc: string) {
    |doc| >= |".schema.md"| && doc[|doc| - |".schema.md"|..] == ".schema.md"
  }

  /** No other machine doc has that human doc. */
  lemma HumanPathIff(doc: string, dir: string, stem: string)
    requires IsSchemaDoc(doc)
    ensures HumanPath(doc) == HumanDoc(dir, stem) <==> doc == SchemaDoc(dir, stem)
  {
    HumanPathOf(dir, stem);
    var base, k := dir + "/" + stem, |doc| - |".schema.md"|;
    assert doc == doc[..k] + ".schema.md";
    assert HumanPath(doc) == doc[..k] + ".md";
    hide HumanPath;
    assert HumanDoc(dir, stem) == base + ".md" && SchemaDoc(dir, stem) == base + ".schema.md";
    if HumanPath(doc) == HumanDoc(dir, stem) { SameBase(doc[..k], base, ".md"); }
  }

  lemma SameBase(a: string, b: string, end: string)
    requires a + end == b + end
    ensures a == b
  {
    assert (a + end)[..|a|] == a && (b + end)[..|b|] == b;
  }

  // ---------------------------------------------------------------------------
  // Siblings

  ghost predicate SchemaDocs(nodes: seq<Node>) {
    forall x :: x in nodes && x.doc.Some? ==> IsSchemaDoc(x.doc.value)
  }

  /** `n` is the node documented at `path`, the last one if several are. */
  ghost predicate Documents(nodes: seq<Node>, path: string, n: string) {
    exists i :: 0 <= i < |nodes| && nodes[i].id == n && nodes[i].doc == Some(path)
                && forall j :: i < j < |nodes| ==> nodes[j].doc != Some(path)
  }

  lemma DocumentsLast(nodes: seq<Node>, x: Node, path: string, n: string)
    ensures Documents(nodes + [x], path, n) <==> if x.doc == Some(path) then x.id == n else Documents(nodes, path, n)
  {
    var all := nodes + [x];
    assert all[|nodes|] == x;
    if Documents(nodes, path, n) && x.doc != Some(path) {
      var i :| 0 <= i < |nodes| && nodes[i].id == n && nodes[i].doc == Some(path) && forall j :: i < j < |nodes| ==> nodes[j].doc != Some(path);
      assert all[i] == nodes[i] && forall j :: i < j < |all| ==> all[j].doc != Some(path);
    }
    if Documents(all, path, n) && x.doc != Some(path) {
      var i :| 0 <= i < |all| && all[i].id == n && all[i].doc == Some(path) && forall j :: i < j < |all| ==> all[j].doc != Some(path);
      assert all[i] == nodes[i] && forall j :: i < j < |nodes| ==> nodes[j] == all[j];
    }
  }

  /** The sibling table maps a human doc to the node whose machine doc lies beside it. */
  lemma {:induction false} SiblingIff(nodes: seq<Node>, dir: string, stem: string, n: string)
    requires SchemaDocs(nodes)
    ensures var rel := HumanDoc(dir, stem);
            (rel in Siblings(nodes) && Siblings(nodes)[rel] == n) <==> Documents(nodes, SchemaDoc(dir, stem), n)
  {
    if nodes != [] {
      var front, x := nodes[..|nodes| - 1], nodes[|nodes| - 1];
      assert nodes == front + [x];
      assert x in nodes && forall y :: y in front ==> y in nodes;
      SiblingIff(front, dir, stem, n);
      DocumentsLast(front, x, SchemaDoc(dir, stem), n);
      if x.doc.Some? { HumanPathIff(x.doc.value, dir, stem); }
      hide Documents, HumanPath, SchemaDoc, HumanDoc, IsSchemaDoc;
    }
  }

  /** Some chain of edges carries data from `a` to `b`. */
  ghost predicate Flows(es: seq<Edge>, a: string, b: string) {
    exists p :: Flow(es, a, p, b)
  }

  /**
   A broken object contaminates the human doc of a machine doc exactly if the doc declares it,
   or if data flows from it to another node that the doc declares or that the machine doc describes.
   */
  lemma ContaminatesIffFlows(g: Graph, doc: Doc, fqn: string, dir: string, stem: string)
    requires SchemaDocs(g.nodes) && doc.rel == HumanDoc(dir, stem)
    ensures Contaminates(g, doc, fqn) <==>
              || fqn in doc.deps
              || (&& (exists x :: x in g.nodes && x.id == fqn)
                  && exists n :: n != fqn && (n in doc.deps || Documents(g.nodes, SchemaDoc(dir, stem), n)) && Flows(g.edges, fqn, n))
  {
    ContaminatesIffReaches(g, doc, fqn);
    hide Contaminates, SchemaDoc, HumanDoc, Documents, IsPath, Flow, Siblings;
    forall n ensures Hit(doc, Siblings(g.nodes), n) <==> n in doc.deps || Documents(g.nodes, SchemaDoc(dir, stem), n) {
      SiblingIff(g.nodes, dir, stem, n);
    }
    hide Hit;
    hide Reachable, Flows;
    forall n ensures Reachable(g.edges, Downstream, None, fqn, n) <==> Flows(g.edges, fqn, n) { ReachesIffFlows(g.edges, fqn, n); }
    KnownNode(g.nodes, fqn);
    hide W.NodeTable;
  }

  lemma KnownNode(nodes: seq<Node>, id: string)
    ensures id in W.NodeTable(nodes) <==> exists x :: x in nodes && x.id == id
  {
    hide W.NodeTable;
  }

  lemma ReachesIffFlows(es: seq<Edge>, a: string, b: string)
    ensures Reachable(es, Downstream, None, a, b) <==> Flows(es, a, b)
  {
    hide IsPath, Flow;
    if Reachable(es, Downstream, None, a, b) {
      var p :| IsPath(es, Downstream, a, p, b) && Within(None, |p|);
      DownstreamIsFlow(es, a, p, b);
    }
    if Flows(es, a, b) {
      var p :| Flow(es, a, p, b);
      DownstreamIsFlow(es, a, p, b);
      assert Within(None, |p|);
    }
  }

  // ---------------------------------------------------------------------------
  // Names and docs of merged nodes

  /** The qualified name in a doc's front matter is the name under which the drift pipeline files the object. */
  lemma QualifiedNameIsFqn(s: Snapshot, o: Object)
    ensures Layout.QualifiedName(s, o) == F.Fqn(s.system, o.id)
  {
  }

  /** What the graph takes for the system of a node is the first part of its name. */
  lemma {:induction false} SystemIsFirstPart(name: string)
    ensures M.SystemOf(name) == DotParts(name)[0]
  {
    if name != "" && name[0] != '.' { SystemIsFirstPart(name[1..]); }
  }

  lemma DocOfIsSchemaDoc(n: M.Naming, system: string, schema: string, name: string)
    ensures IsSchemaDoc(M.DocOf(n, system, schema, name))
  {
    var doc := M.DocOf(n, system, schema, name);
    var base := In(In(SystemDir(Mangle(n.lower, system)), Mangle(n.lower, schema)), Mangle(n.lower, name));
    assert doc == base + ".schema.md";
  }

  /** Every doc of a merged graph is a schema doc, so the sibling rule is exact on it. */
  lemma MergedDocs(n: M.Naming, atts: seq<M.Attestation>, g: Graph)
    requires M.IsMerge(n, atts, g)
    ensures SchemaDocs(g.nodes)
  {
    hide M.FirstMeta, M.IsEdge, IsSchemaDoc, M.DocOf;
    forall x | x in g.nodes && x.doc.Some? ensures IsSchemaDoc(x.doc.value) {
      var m := M.FirstMeta(atts, x.id);
      DocOfIsSchemaDoc(n, M.SystemOf(x.id), m.schema.value, m.name);
    }
  }

  /** The node of an object points at the doc the renderer plans for it, and its sibling is that doc's human doc. */
  lemma NodeOfObject(lib: Layout.Library, n: M.Naming, s: Snapshot, o: Object, id: string, m: M.Meta)
    requires n.lower == lib.lower && '.' !in s.system && o.id.schema != "" && F.NameOf(id, s.system, o.id)
    requires m == M.Meta(true, o.id.kind, Some(o.id.schema), o.id.name)
    ensures M.NodeOf(n, id, m).doc == Some(Layout.Path(lib, s, Layout.ObjectDoc(o)))
    ensures HumanPath(Layout.Path(lib, s, Layout.ObjectDoc(o))) == Layout.ObjectSibling(lib, s, o)
  {
    SystemIsFirstPart(id);
    DotFreePart(s.system);
    hide DotParts, Mangle, HumanPath;
    assert M.SystemOf(id) == s.system;
    HumanPathOf(Layout.SchemaDir(lib, s, o.id.schema), Mangle(lib.lower, o.id.name));
  }
}
