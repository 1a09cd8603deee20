# Drift pipeline verification

A Dafny model of the deterministic drift pipeline and of the stateful loops around it:
snapshots are put into canonical order, hashed and diffed; the severity of every change is
finalized against the lineage graph; the contamination scan walks that graph and marks the
documents that rely on a broken object; the renderer and the status writer put the result
into the knowledge base. Beside the pipeline stand the Power BI delivery protocol with its
rollback, the token bucket, the row caps of three executors, the canonical CSV, the job
runner's threads and the freshness monitor.

Everything is stated for all inputs, all runs or all fault schedules. Where the code does
less than its comments say, the model follows the code, a lemma gives an input that shows it,
and another lemma gives the exact condition under which the comment holds.

## Layout

| file | content |
|---|---|
| `Basics.dfy`, `Ordering.dfy` | shared types; Python's string order and stable sort, and when sorting forgets the input order |
| `LineageGraph.dfy`, `Search.dfy`, `LineageCycles.dfy`, `LineageWalk.dfy` | graph, paths, the breadth-first argument, cycle search, `get_lineage` |
| `DownstreamWalk.dfy`, `ContaminationScan.dfy` | contamination walk and scan |
| `EdgeIdentity.dfy`, `Merge.dfy`, `MergeLaws.dfy` | attestations merged into a graph, and what that means |
| `DottedNames.dfy`, `SiblingDocs.dfy` | qualified names and their parts; how graph, knowledge base and snapshots name one object and its docs |
| `Snapshots.dfy`, `Canonical.dfy` | snapshot documents, canonical form, schema hash |
| `SubDiffs.dfy`, `SnapshotDiffs.dfy`, `DiffLaws.dfy` | field-level differences, the snapshot diff, its laws |
| `SeverityFinal.dfy`, `Verdicts.dfy`, `VerdictNotes.dfy`, `StructureLaws.dfy`, `ScanInput.dfy`, `DriftVerdict.dfy` | finalization, what a verdict means and when it carries a note, what the hash sees, classification, the end-to-end theorem |
| `TextLines.dfy`, `TextFiles.dfy`, `FrontMatter.dfy` | lines, reading files in text mode, front matter |
| `PurposeSlots.dfy`, `MachineDocs.dfy`, `RenderTree.dfy` | the stamp rule, one machine doc, rendering a tree |
| `DocPaths.dfy`, `DocLayout.dfy`, `Estate.dfy`, `Settling.dfy`, `PlanLaws.dfy`, `Renderer.dfy` | names and paths, planned docs and their bodies, from snapshots to systems, when rendering settles, which docs a snapshot defines, the renderer's loops |
| `StatusWrites.dfy`, `StatusSpelling.dfy`, `ReplacementTemplates.dfy`, `StatusInstructions.dfy`, `StatusTree.dfy` | status and contamination edits of lines, the replacement template, of a text, of a tree |
| `ModelDelivery.dfy`, `ModelPublisher.dfy` | the Power BI protocol as functions of a fault schedule, and as a class |
| `CanonicalCsv.dfy`, `Quota.dfy`, `RowCaps.dfy` | CSV, token bucket, row caps |
| `JobRunner.dfy`, `Freshness.dfy` | runner threads, freshness reconciliation |

## Assumptions

- SHA-256 is injective: a free constructor in `Snapshots`, an injective function parameter in `MergeLaws`.
- Canonical JSON text is injective on ordered values, so ordered values stand for their bytes; a statistics value is given by its canonical text.
- YAML loading, lower-casing, the printed form of front-matter scalars (one line, injective, no carriage return; a trailing newline is allowed) and the sections of machine docs other than the schema index and the verbatim parts of an object doc are parameters. What human docs contribute to those sections goes through cells, and YAML finds the ten-character date in every block the renderer emits.
- Files are read in text mode, which turns `\r\n` and `\r` into `\n`, and are written as they are.
- A remote call to Power BI succeeds or fails without effect.
- Time is real-valued; clock readings are parameters.

## Where the code and its text disagree

- `lineage/scan.py:31-33` says the first reason is chosen in (object, path length) order; the code sorts by path length first. The model follows the code.
- `connectors/powerbi/publisher.py:19-26` and `:551` say that a failed revision leaves the previous model unless the restore fails too. The table being replaced when a call fails is neither untouched nor restored, and changed columns are never put back, so new columns can stay with old rows. `ModelDelivery.CompleteOrPreviousIff` gives the exact condition under which the claim holds.
- The create path can report a failure although the model is complete, when only the final listing call fails (`ModelDelivery.CreateGuarantee`, outcome `CompleteButUnlisted`).
- The GA4 and GSC paging loops miss a truncation exactly when the cap is a multiple of the page maximum (`RowCaps.Page`).
- A sibling document of the breaking object itself is not flagged through the walk, only through a declared dependency (`ContaminationScan.ContaminatesIffReaches`).
- A second render is meant to write nothing. It does write when two systems share a directory (duplicates are refused by name, before names are mangled), when an object's name mangles to `index`, and when a planned text holds a carriage return, because the file is compared as it reads in text mode. `Settling.SettlesIff` shows that these are all the cases.
- `generator/statuses.py:9-10` says every other byte of a document survives a status edit. A document with carriage returns is rewritten with plain newlines (`StatusTree.TailKeptIff`, `StatusTree.CrlfRewritten`).
- A contamination value with a backslash is inserted as it is but replaced through a template, so the same instruction twice does not leave the document alone (`StatusInstructions.ApplyTwiceIff`, `StatusInstructions.BackslashIsNotStable`).
- The foreign-key sort has ties (`Canonical.ForeignKeysTie`), and the foreign-key diff is keyed by the column list alone (`DriftVerdict.ForeignKeysGuardedIff`).

## Model

| member | source | states |
|---|---|---|
| `Ordering.OrderForgottenIffTieFree` | snapshot/canonical.py:27-42 | sorting gives one result for all orders of its input if and only if no two different elements compare equal |
| `LineageGraph.Adjacency` | lineage/walk.py:57-61 | the dictionary holds for every node, in order, exactly the edges whose target it is (upstream) or whose source it is (downstream) |
| `LineageGraph.DownstreamIsFlow` | lineage/walk.py:94-94 | a downstream walk is a chain of edges in which each edge starts where the one before ended |
| `LineageGraph.UpstreamIsFlow` | lineage/walk.py:94-94 | an upstream walk from one node to another is such a chain from the second to the first, read backwards |
| `LineageGraph.UpstreamMirrorsDownstream` | lineage/walk.py:57-68 | a node is at upstream distance d of another if and only if the other is at downstream distance d of it |
| `Search.Complete` | lineage/walk.py:79-102 | when the queue is empty every node on a path within the bound has been reached, by a path no longer than it |
| `Search.Exact` | lineage/walk.py:79-102 | the reached nodes are those reachable within the bound, each with its minimum number of hops |
| `LineageCycles.TurnKeeps` | lineage/walk.py:116-135 | every turn of the white/grey/black search keeps its invariant: grey nodes form the stack's path, finished nodes point only to lower finishing ranks or over reported edges |
| `LineageCycles.Explore` | lineage/walk.py:116-135 | the search from one start ends and leaves no grey node |
| `LineageCycles.Cycles` | lineage/walk.py:105-136 | without the reported edges the subgraph is acyclic, each reported edge closes a directed cycle of it, and nothing is reported if and only if it is acyclic; self-loops and parallel edges included |
| `LineageWalk.Bfs` | lineage/walk.py:79-102 | one walk adds exactly the nodes within the bound with their minimum hops, and the edges leaving nodes strictly inside it |
| `LineageWalk.WalkAll` | lineage/walk.py:63-68 | depths are the lengths of the shortest flows of data into the root (upstream), out of it (downstream) or either; edges are those whose target (upstream) or source (downstream) is nearer than the bound |
| `LineageWalk.DepthMirrors` | lineage/walk.py:57-68 | `n` is at upstream depth d of `r` if and only if `r` is at downstream depth d of `n` |
| `LineageWalk.LastNodeKept` | lineage/walk.py:45-45 | of several nodes with one id the last one answers |
| `LineageWalk.GetLineage` | lineage/walk.py:23-76 | bad direction and negative depth are refused; an unknown root gives an empty answer; otherwise exactly the nodes within the hop bound that data flows from (upstream) or to (downstream), by minimum depth and id, exactly the edges whose nearer end is inside the bound, and a cut of their cycles |
| `DownstreamWalk.ContaminationWalk` | lineage/scan.py:199-218 | exactly the reachable nodes, each with the edge ids of a real path of minimum length |
| `ContaminationScan.ContaminatesIffReaches` | lineage/scan.py:225-271 | a doc is contaminated by an object if and only if it depends on it, or on a node the object reaches, or its sibling node is another node the object reaches |
| `SiblingDocs.HumanPathOf` | lineage/scan.py:229-233 | the sibling of a machine doc is the human doc of the same directory and stem |
| `SiblingDocs.SiblingIff` | lineage/scan.py:229-233 | the sibling table maps a human doc to the last node whose machine doc lies beside it |
| `SiblingDocs.ContaminatesIffFlows` | lineage/scan.py:249-269 | the human doc of a machine doc is contaminated by an object if and only if it declares it, or data flows from it to another node that the doc declares or that the machine doc describes |
| `SiblingDocs.MergedDocs` | lineage/graph.py:106-115 | every doc of a merged graph is a schema doc, so the rule is exact on it |
| `SiblingDocs.NodeOfObject` | lineage/graph.py:102-116 | the node of an object points at the doc the renderer plans for it, and the sibling is that doc's human doc |
| `SiblingDocs.SystemIsFirstPart` | lineage/graph.py:111-111 | the system of a node is the first part of its dotted name |
| `SiblingDocs.QualifiedNameIsFqn` | generator/naming.py:25-27 | a doc and the drift pipeline give an object one name |
| `ContaminationScan.FlagObject` | lineage/scan.py:239-271 | one object gives each doc it contaminates one reason, with a shortest route; reasons of other objects stay |
| `ContaminationScan.CollectReasons` | lineage/scan.py:225-271 | after all breaking objects a doc has a reason for an object exactly if that object contaminates it |
| `ContaminationScan.OneVerdict` | lineage/scan.py:273-285 | no doc is both contaminated and stale |
| `ContaminationScan.Scan` | lineage/scan.py:225-319 | the contaminated and stale lists are exact, sorted and disjoint, with one entry per doc and one reason per object; the recorded contamination is the first reason by path length and object |
| `ContaminationScan.ContaminatedIff` | lineage/scan.py:239-273 | a doc is listed as contaminated if and only if it has a status and a class that is not a machine class, and a breaking object reaches it |
| `ContaminationScan.StaleIff` | lineage/scan.py:275-282 | a doc is listed as stale if and only if it is verified, not contaminated, and declares an object that changed additively |
| `ContaminationScan.NearestRecorded` | lineage/scan.py:295-309 | the recorded contamination is no longer than any route from any breaking object, and first by name among equally short ones |
| `ContaminationScan.UndeclaredReferences` | lineage/scan.py:284-293 | exactly the searched names that a doc mentions without declaring them, each once, in order of doc and name |
| `EdgeIdentity.PayloadInjective` | lineage/graph.py:27-30 | on newline-free names the hashed payload identifies source, target and operation |
| `EdgeIdentity.PayloadUniqueIff` | lineage/graph.py:27-30 | an edge's payload is no other edge's payload if and only if its names and operation hold no newline |
| `Merge.MergeAttestations` | lineage/graph.py:38-99 | refused if and only if an operation or tier is outside its set; otherwise a merge: sorted edges with deduplicated evidence strongest first and united column mappings, nodes exactly the endpoints with their first resolved facts; each edge is trusted by its strongest tier and lists its evidence strongest first, by the names of the tiers |
| `Merge.TrustIsStrongest` | lineage/graph.py:22-24 | trust is pipeline-tool if some attestation of the edge has that tier, else sql-parse if some has that, else human; evidence is ordered by the same names |
| `Merge.Absorb` | lineage/graph.py:61-70 | one more attestation extends exactly its edge's evidence and mappings |
| `MergeLaws.EdgeIdIdentifies` | lineage/graph.py:27-30 | edge ids of admissible attestations are equal if and only if source, target and operation are |
| `MergeLaws.OneEdgePerIdentity` | lineage/graph.py:61-98 | each attestation is about exactly one merged edge, which carries its evidence and mappings and is trusted at least as much as its tier |
| `MergeLaws.TrustOf` | lineage/graph.py:84-94 | the same over the attestations with the edge's source, target and operation |
| `MergeLaws.FirstMetaIsClaim` | lineage/graph.py:71-77 | a node's facts are a resolved claim about it if there is one, and external otherwise |
| `MergeLaws.FirstMetaIsLead` | lineage/graph.py:71-77 | a node's facts are what some attestation says first of it |
| `MergeLaws.MergeDetermined` | lineage/graph.py:38-99 | two lists with the same attestations, in any order and with any repetition, merge to the same graph, if the attestations that resolve a name give it the same node |
| `MergeLaws.DisagreementShows` | lineage/graph.py:71-77 | if they do not, two orders of the same attestations never merge to the same graph |
| `Canonical.ObjectIdempotent` | snapshot/canonical.py:38-42 | the canonical form of a canonical object is itself |
| `Canonical.BodyIdempotent` | snapshot/canonical.py:50-58 | the canonical body of a canonical body is itself, whatever the excluded fields say |
| `Canonical.CanonicalIffDistinguished` | snapshot/canonical.py:27-42 | the canonical object forgets the listed order of columns, foreign keys and unique keys if and only if ordinals and foreign-key sort keys tell different entries apart |
| `Canonical.HashIffDistinguished` | snapshot/hashing.py:26-53 | the same for the schema hash: exactly when equal sort keys mean equal structure |
| `Canonical.BodyForgetsOrder` | snapshot/canonical.py:50-62 | the canonical body is invariant under any rearrangement of objects and of the lists inside them, for distinct identities and sort keys |
| `Canonical.BodyTells` | snapshot/canonical.py:50-58 | equal canonical bodies have equal system, class, source properties and canonical objects |
| `Canonical.ForeignKeysTie` | snapshot/canonical.py:30-32 | two ways in which different foreign keys have one sort key |
| `Canonical.IdentityLexicographic` | snapshot/canonical.py:50-58 | objects are ordered by kind, then schema, then name |
| `Canonical.ForeignLexicographic` | snapshot/canonical.py:30-32 | foreign keys are ordered by their column list as one text, then by the table they refer to |
| `Canonical.CanonicalOrder` | snapshot/canonical.py:38-58 | a canonical body lists its objects in that order and their columns by ordinal |
| `SubDiffs.ColumnSubDiffs` | snapshot/diff.py:173-224 | records exactly the column differences of the two name tables and exactly the rename candidates |
| `SubDiffs.ForeignSubDiffs` | snapshot/diff.py:244-257 | records exactly the foreign keys added, removed or altered per column list |
| `SubDiffs.KeySubDiffs` | snapshot/diff.py:227-267 | records exactly the differences of primary, foreign and unique keys |
| `SubDiffs.StatsSubDiffs` | snapshot/diff.py:270-293 | records exactly the hash-included statistics that differ or appear or disappear, a definition change as downgradable |
| `SnapshotDiffs.MaxSeverity` | snapshot/diff.py:169-170 | the result is the worst severity present |
| `SnapshotDiffs.MetadataChanges` | snapshot/diff.py:296-309 | lists exactly the differing descriptions and hash-excluded statistics |
| `SnapshotDiffs.DiffObject` | snapshot/diff.py:312-331 | class by hash first and canonical form second; all differences recorded; severity the worst one, breaking when none is seen |
| `SnapshotDiffs.IndexObjects` | snapshot/diff.py:146-166 | fails if and only if two registered objects share an identity; otherwise indexes exactly the registered objects and lists the others as skipped |
| `SnapshotDiffs.DiffSnapshots` | snapshot/diff.py:334-381 | the three errors, each exactly when it applies; otherwise every class lists its identities once, in order, with their diffs |
| `DiffLaws.ClassesPartition` | snapshot/diff.py:355-376 | every registered identity of either snapshot is listed in exactly one of the five classes |
| `DiffLaws.OneSided` | snapshot/diff.py:359-369 | added objects are additive and removed ones breaking, each with its own hash |
| `DiffLaws.PropertiesChangedIff` | snapshot/diff.py:378-380 | source properties count as changed if and only if some property does; absent properties are no properties |
| `DiffLaws.RenamesExact` | snapshot/diff.py:218-223 | a renaming is suggested for a lost and a new column name if and only if type and place agree |
| `DiffLaws.EmptyIffSameObjects` | snapshot/diff.py:119-125 | the diff is empty if and only if the canonical objects are equal as sets |
| `DiffLaws.SwapExchanges` | snapshot/diff.py:359-376 | swapping the snapshots exchanges added with removed and keeps the other classes |
| `DiffLaws.DiffersOpposite` | snapshot/diff.py:173-293 | every field-level difference is seen from both sides, as its opposite |
| `DiffLaws.MetadataExplained` | snapshot/diff.py:325-330 | on registered statistics and distinct column names the list of metadata changes is empty exactly when the canonical forms are equal |
| `SeverityFinal.Incoming` | lineage/severity.py:56-74 | the map of arriving edges to their normalized mappings |
| `SeverityFinal.NormalizedIff` | lineage/severity.py:67-72 | mappings normalize alike if and only if they are the same up to the order of the list and of the sources in each |
| `SeverityFinal.SameIncomingIff` | lineage/severity.py:56-74 | for distinct edge ids the maps are equal if and only if the same edges with the same mappings arrive |
| `DottedNames.NamedIff` | generator/naming.py:25-27 | a name falls apart at its dots into the parts of system, schema and name, in this order, if and only if it is their dotted name |
| `DottedNames.NamedDotFree` | generator/naming.py:25-27 | for parts without dots it falls apart into exactly the three |
| `SeverityFinal.FqnIsName` | lineage/severity.py:96-97 | the name under which arrivals are compared falls apart into the system and the object's schema and name |
| `SeverityFinal.SameArrivalsIff` | lineage/severity.py:96-99 | for distinct edge ids the arrivals are the same if and only if the edges whose target falls apart into these parts are, by id and mappings |
| `SeverityFinal.FinalizeSeverity` | lineage/severity.py:77-109 | fails exactly when a downgrade is asked for and a graph is missing; otherwise a definition change is downgraded only with unchanged column shape and equal arrivals, and nothing else changes |
| `Verdicts.ColumnsExact` | snapshot/diff.py:173-216 | no column difference is breaking if and only if every old column goes on with its type and place and no tighter nullability |
| `Verdicts.KeysExact` | snapshot/diff.py:227-267 | no key difference is breaking if and only if the old primary, foreign and unique keys are kept |
| `Verdicts.VerdictExact` | lineage/severity.py:84-107 | a finalized structural change is not breaking if and only if the new object preserves columns, keys and statistics and some difference is seen |
| `Verdicts.VerdictSafe` | lineage/severity.py:84-107 | a change that is not breaking preserves columns, keys and statistics whatever the new object lists |
| `VerdictNotes.ShapeSeenIff` | lineage/severity.py:13-18 | the changes that block a downgrade are seen if and only if the two column sets differ in a name, a type or a place |
| `VerdictNotes.DowngradedIff` | lineage/severity.py:98-104 | a changed definition is downgraded if and only if the same edges arrive and the column set is the same |
| `VerdictNotes.AdditiveIff` | lineage/severity.py:105-107 | a change that does not break is plainly additive if and only if no column was loosened, no default changed and the definition stayed; otherwise it carries a note |
| `StructureLaws.StructureExplained` | snapshot/diff.py:312-324 | with the same key lists present and every entry listed once under its own keys, the field-level comparison sees a difference if and only if the hashed structures differ |
| `StructureLaws.StructuralIffVisible` | snapshot/diff.py:312-324 | with true hashes an object is structurally changed if and only if the comparison sees a difference, under the same conditions |
| `StructureLaws.AbsentListUnseen` | snapshot/diff.py:259-267 | an absent list against an empty one changes the hashed structure unseen |
| `StructureLaws.StatHashedIff` | snapshot/registry.py:19-46 | with all else equal a statistic changes the hash if and only if it is one of the structural statistics of the kind |
| `ScanInput.BreakingEntry` | lineage/scan.py:101-108 | the entry names the breaking changes, each label once and sorted |
| `ScanInput.JoinConcat` | lineage/scan.py:104-108 | a joined text is its parts with the separator between them |
| `ScanInput.OnlyBreakingCounts` | lineage/scan.py:101-101 | the entry is built from the breaking sub-diffs, each as often as it is listed |
| `ScanInput.ClassifyDiffs` | lineage/scan.py:79-111 | refused if and only if a diff is not finalized; otherwise breaking, additive and search names are exactly those of the diffs, and every text comes from one of them, under the name that falls apart into the object's parts |
| `ScanInput.VerdictNames` | lineage/scan.py:68-109 | a name is breaking or additive if and only if it falls apart into the parts of an object the diffs call so |
| `ScanInput.SeverityByLabel` | snapshot/diff.py:173-293 | which change labels are additive, noted and breaking |
| `ScanInput.DetailOf` | lineage/scan.py:44-76 | the detail names the column, the key or the statistic that differs |
| `DriftVerdict.NoUnsafeAdditive` | lineage/scan.py:79-111 | through diff, finalization and classification: an object in both snapshots with differing hashes that is absent from the breaking map keeps every column, key and hash-included statistic, a definition with equal arrivals aside, and is listed as additive; arrivals and verdict are those of the name that falls apart into the object's system, schema and name |
| `DriftVerdict.BreakingIffNotPreserved` | lineage/scan.py:97-110 | with its name to itself an object is in the breaking map if and only if something was lost or nothing visible explains its hash; stated for the name that falls apart into the object's parts |
| `DriftVerdict.ForeignKeysGuardedIff` | snapshot/diff.py:244-257 | an additive verdict guarantees all old foreign keys, against every new version, if and only if no two different ones share their columns |
| `FrontMatter.DivideEmitted` | generator/frontmatter.py:47-106 | splitting an emitted block with a body behind it gives back its lines and the body |
| `FrontMatter.DivideExact` | generator/frontmatter.py:86-99 | every text that splits is an emitted block of fence-free lines followed by its body |
| `PurposeSlots.MatchLine` | generator/render.py:130-140 | the index loops decide whether a line is the rendered line with its slot refilled |
| `PurposeSlots.PurposeConfined` | generator/render.py:118-141 | the loop decides the line-by-line condition for whole bodies |
| `PurposeSlots.ConfinedExact` | generator/render.py:118-141 | a body is accepted if and only if it is the template with newline-free fills, for any two slot texts whose first and last characters differ |
| `PurposeSlots.StampRuleExact` | generator/render.py:101-141 | the same for the dash and the marker the renderer uses |
| `PurposeSlots.ExactIffEndsDiffer` | generator/render.py:101-101 | the rule is exact for all templates if and only if the two slot texts differ in first and last character |
| `PurposeSlots.CellIsOneLine` | generator/render.py:68-76 | a cell's text never breaks the line |
| `PurposeSlots.CellExact` | generator/render.py:68-76 | the chain of replacements is one pass that escapes backslashes and bars and turns each line break of any kind into one tag |
| `PurposeSlots.CellHasNoOpenBar` | generator/render.py:68-76 | every bar of a cell is escaped, so no text ends its table cell early |
| `TextFiles.ReadSameIff` | generator/render.py:581-581 | a file reads as what it holds if and only if it holds no carriage return |
| `TextFiles.ReadsLineEnds` | generator/render.py:581-581 | each of the three line ends reads as one newline, every other character as itself |
| `PurposeSlots.ReadTextFitsNot` | generator/render.py:588-595 | a body read from a file never fits a template that holds a carriage return |
| `MachineDocs.StampReadsBack` | generator/render.py:571-597 | the date written into a doc is the date read back from it |
| `MachineDocs.FreshIff` | generator/render.py:581-587 | a rendered file counts as up to date exactly if the new body is the old one as it reads |
| `MachineDocs.WriteIdleIff` | generator/render.py:571-597 | a rendered doc is left alone if and only if its body holds no carriage return |
| `MachineDocs.WriteSettles` | generator/render.py:571-597 | after a write the doc reads as rendered under the kept or new date, and no other file changes |
| `MachineDocs.RefillKeepsStampIff` | generator/render.py:588-597 | a render that only refills slots keeps the date if the body holds no carriage return, and stamps its own date otherwise |
| `MachineDocs.DateKeptIff` | generator/render.py:581-597 | a write keeps the date of the file if and only if the file differs from the new doc in purpose slots at most; any other file takes the new date |
| `RenderTree.IdleIff` | generator/render.py:627-750 | for every tree: a render writes and deletes nothing if and only if every planned doc reads as it would be rendered, there are no strays and the root docs are there |
| `RenderTree.TreeOutcome` | generator/render.py:627-750 | after a render every planned doc is settled, no stray machine file is left, and other files under the systems are untouched |
| `RenderTree.SecondRenderIff` | generator/render.py:627-684 | the second render is idle if and only if every body built from the rendered tree is the first one as it reads back |
| `RenderTree.RenderFixpointIff` | generator/render.py:627-684 | with bodies built from human docs alone, the second render is idle if and only if no planned body holds a carriage return |
| `RenderTree.SharedPathNeverIdle` | generator/render.py:571-597 | two docs of different systems with one path and different front matter: no tree is left alone |
| `RenderTree.RenderKeepsStampsIff` | generator/render.py:571-597 | a render after purpose edits changes no date if and only if each doc holds no carriage return or is rendered on its own date |
| `RenderTree.RunKeepsStampsIff` | generator/render.py:571-597 | the same over any run of renders separated by purpose edits |
| `RenderTree.HumanFilesKept` | generator/render.py:600-625 | files that are not machine files of a rendered system are kept byte for byte |
| `DocPaths.HumanDocIndexIff` | generator/render.py:600-601 | the human doc of a mangled name has a machine path exactly if the name is `index` |
| `DocPaths.MangledDirsDisjoint` | generator/naming.py:20-22 | different mangled system names share no path |
| `DocPaths.MangleChars` | generator/naming.py:20-22 | small letters, digits, underscores and dashes stay, every other character becomes a dash |
| `DocLayout.IndexBodyOk` | generator/render.py:420-453 | the schema index is a template with one slot per row, and holds a carriage return exactly if the system name does |
| `DocLayout.ObjectBodyOk` | generator/render.py:288-365 | an object doc holds a carriage return exactly if one of its verbatim facts or tables does |
| `Estate.SystemReadsHuman` | generator/render.py:627-668 | without an object that mangles to `index` every body is built from human-owned files alone |
| `Estate.SystemIsOk` | generator/render.py:148-240 | planned docs lie in their system's directory under machine names, with well-formed front matter |
| `PlanLaws.PlanExact` | generator/render.py:148-240 | planned are exactly: one doc for each object of a SQL kind, an index for each schema in use, a doc for each group in use of another system, and the system index |
| `PlanLaws.OneDocPerPath` | generator/render.py:184-191 | unless the render is refused, every planned path belongs to one planned doc |
| `PlanLaws.PathsExact` | generator/render.py:193-238 | the planned paths, spelled out over the snapshot's objects |
| `PlanLaws.RenderedDocs` | generator/render.py:604-684 | after a render the machine files in a system's directory are exactly those its snapshot defines |
| `PlanLaws.RosterExact` | generator/render.py:213-233 | a group doc lists the objects of its kind and nobody else, each as often as the snapshot does, in canonical order |
| `PlanLaws.OneGroup` | generator/naming.py:12-16 | an object lies in one group at most |
| `PlanLaws.IndexMembers` | generator/render.py:193-212 | the index of a schema has a row for each of its objects and no other |
| `PlanLaws.IndexRowExact` | generator/render.py:420-446 | the row of an object shows its name, kind and doc, and whether the human doc beside it is there, with its status and purpose |
| `PlanLaws.HotCounts` | generator/render.py:428-433 | the summary counts the rows whose human doc is there |
| `PlanLaws.ReadsExact` | generator/render.py:420-505 | a planned doc looks at exactly the human docs beside what it lists, and the notes |
| `PlanLaws.ObjectHeadTells` | generator/render.py:549-554 | the front matter of an object doc tells the object's name, kind and hash |
| `PlanLaws.ModeTells` | generator/render.py:534-540 | the front matter after the stamp tells the source mode |
| `PlanLaws.NewDocDated` | generator/render.py:571-597 | a doc that was not there carries the day of the capture |
| `PlanLaws.NoIndexIff` | generator/render.py:420-453 | the name condition of `SettlesIff`, over the snapshot's own objects |
| `Settling.IndexTextsDiffer` | generator/render.py:420-453 | the schema index tells whether an object's human doc is there |
| `Settling.SharedDirectoryNeverSettles` | generator/render.py:733-736 | two systems with one directory fight over its index: no tree at all is left alone |
| `Settling.IndexObjectUnsettles` | generator/render.py:420-453 | an object that mangles to `index`: on any tree without its schema's index the second render writes that index again |
| `Settling.CarriageReturnNeverSettles` | generator/render.py:581-587 | a planned text with a carriage return is written again by the second render, whatever the tree |
| `Settling.VerbatimCarriageReturn` | generator/render.py:318-364 | a description or view definition with a carriage return is such a text |
| `Settling.SettlesIff` | generator/render.py:715-749 | for all trees the second render is idle, if and only if the directories differ, no SQL object mangles to `index` and no planned text holds a carriage return |
| `Settling.TableNamedIndex` | generator/render.py:420-453 | a snapshot with one table named `index` violates the condition |
| `Settling.ViewWithCarriageReturn` | generator/render.py:358-363 | so does one with a view whose definition has another platform's line ending |
| `Renderer.KbTree.WriteMachine` | generator/render.py:571-597 | the method on the tree does what the function says and records the written path |
| `Renderer.KbTree.PruneSystem` | generator/render.py:604-619 | deletes exactly the unplanned machine files of the system |
| `Renderer.KbTree.RenderSnapshots` | generator/render.py:715-749 | two snapshots of one system are refused before anything is written; colliding paths stop the render after the systems before; otherwise the whole render is the function, and the machine files left in each system's directory are exactly those its snapshot defines |
| `StatusWrites.TwiceIsOnce` | generator/statuses.py:80-96 | the edit applied twice equals once if and only if it inserts no line above indented lines that follow the status line |
| `StatusWrites.SecondEditIff` | generator/statuses.py:87-96 | a second edit leaves the lines alone if and only if it writes the same contamination line and nothing is swallowed |
| `StatusWrites.OthersKept` | generator/statuses.py:80-96 | the first status line and the first contamination block hold the requested text, and all other lines are kept in order |
| `StatusSpelling.StatusSpelled` | generator/statuses.py:36-36 | the status edit replaces the first line that starts with the key |
| `StatusSpelling.ContaminationSpelled` | generator/statuses.py:38-40 | the contamination edit replaces the first line that starts with the key and the lines under it that start with a blank or a tab; without one the new line follows the first status line |
| `ReplacementTemplates.PlainTemplate` | generator/statuses.py:85-90 | a replacement text without backslashes expands to itself |
| `ReplacementTemplates.DoubledBackslash` | generator/statuses.py:90-90 | a doubled backslash loses one |
| `ReplacementTemplates.EscapedNewline` | generator/statuses.py:85-90 | an escaped n becomes a line break |
| `ReplacementTemplates.BadEscape` | generator/statuses.py:85-90 | an escaped capital letter, or a last backslash, is an error |
| `StatusInstructions.ApplyExact` | generator/statuses.py:69-110 | an instruction is refused exactly when a text cannot be written, or the status, the status line or one of the two parses is missing; otherwise the result is the edited block with the same body |
| `StatusInstructions.EditKeepsTheRest` | generator/statuses.py:69-110 | an applied edit of any text changes the first status line and the first contamination block and keeps all other lines in order, and the body |
| `StatusInstructions.ApplyTwiceIff` | generator/statuses.py:69-110 | applying it again leaves the document alone if and only if nothing is swallowed and, where there was no block, the template expands to itself |
| `StatusInstructions.BackslashIsNotStable` | generator/statuses.py:87-96 | a value with a backslash on a document without a block does not meet that condition |
| `StatusTree.WrittenLast` | generator/statuses.py:113-134 | of several edits of one doc the last changing one is what the doc ends up as, computed from the original text |
| `StatusTree.DocTree.ApplyAll` | generator/statuses.py:113-134 | refused if and only if some doc is missing or some edit of its text as read is refused, and then nothing is written; otherwise only changed docs are written and the two sorted lists name them |
| `StatusTree.TailKeptIff` | generator/statuses.py:122-133 | the new file equals the old one from the closing fence on, byte for byte, if and only if the old one holds no carriage return there |
| `StatusTree.CrlfRewritten` | generator/statuses.py:122-133 | a document with another platform's line endings is edited like the same document without them, and its body is rewritten |
| `ModelDelivery.PushOutcome` | connectors/powerbi/publisher.py:607-627 | rows arrive batch by batch: all on success, a strict batch prefix on failure |
| `ModelDelivery.ReplaceOutcome` | connectors/powerbi/publisher.py:594-605 | success leaves the planned rows; failure leaves the table untouched or a strict batch prefix of the new rows; other tables are untouched |
| `ModelDelivery.RestoreAll` | connectors/powerbi/publisher.py:538-592 | every replaced table is restored or named as a problem, and the report covers exactly the replaced tables |
| `ModelDelivery.RestoreReports` | connectors/powerbi/publisher.py:550-580 | a table restored once is reported as it is left: new rows and a problem without a previous result, restored and no problem with the previous rows, otherwise failed and a problem, untouched or with a strict batch prefix of the previous rows |
| `ModelDelivery.RollbackOutcome` | connectors/powerbi/publisher.py:524-592 | after a failure at table k the rows of later tables are untouched, those of earlier ones restored or named, and no columns change; the inconsistent-state report is exact |
| `ModelDelivery.RollbackReports` | connectors/powerbi/publisher.py:550-589 | for a table with one plan the report says restored if and only if it is no problem and then it holds the previous rows, new rows if and only if there is no previous result and then it holds the planned rows, and otherwise that the restore failed |
| `ModelDelivery.ReshapedSameIff` | connectors/powerbi/publisher.py:506-526 | the schema updates leave all columns as listed if and only if no plan differs from the listing |
| `ModelDelivery.ReviseOutcome` | connectors/powerbi/publisher.py:474-592 | for every fault schedule: the rows and the columns that success, each kind of failure and the inconsistent state leave in each table, with an exact report; when the listing fails and when the table set is refused |
| `ModelDelivery.FaultFree` | connectors/powerbi/publisher.py:474-533 | without a failing call the revision is delivered |
| `ModelDelivery.SomeFaultBreaks` | connectors/powerbi/publisher.py:529-536 | for every divisible table there is one failing call after which the model is neither complete nor the previous one |
| `ModelDelivery.ChangedColumnsStay` | connectors/powerbi/publisher.py:506-536 | for every changed schema there is one failing call after which the new columns stay with the old rows |
| `ModelDelivery.ColumnTypeChangeStays` | connectors/powerbi/publisher.py:506-536 | the smallest such model |
| `ModelDelivery.CompleteOrPreviousIff` | connectors/powerbi/publisher.py:506-553 | complete-or-previous, rows and columns, holds for all fault schedules if and only if no planned columns differ from the listing and no replacement can stop halfway |
| `ModelDelivery.CreateGuarantee` | connectors/powerbi/publisher.py:413-472 | a created model is complete, removed, or reported as partial with every earlier table complete, the failing one a strict batch prefix and the later ones empty |
| `ModelDelivery.OneFaultCleansUp` | connectors/powerbi/publisher.py:413-472 | after one failing call a first delivery leaves no partial model, and without one it is complete |
| `ModelPublisher.Publisher.Revise` | connectors/powerbi/publisher.py:474-536 | the protocol on the remote store is the function, with its guarantee |
| `ModelPublisher.Publisher.Restore` | connectors/powerbi/publisher.py:538-592 | the restoring loop is the function, and each table restored once is reported exactly as it is left |
| `ModelPublisher.Publisher.Create` | connectors/powerbi/publisher.py:413-472 | the creating loop with its clean-up is the function |
| `CanonicalCsv.ParseInverts` | benchmark/canonical.py:66-85 | a parser of section 2 of RFC 4180 gives back all printed records, with embedded commas, quotes and newlines |
| `CanonicalCsv.EscapeMinimal` | benchmark/canonical.py:66-70 | a cell is quoted if and only if it holds a comma, a quote, a newline or a carriage return |
| `CanonicalCsv.CsvParses` | benchmark/canonical.py:73-85 | parsing the output gives the header and the sorted rows |
| `CanonicalCsv.CsvDeterminesTable` | benchmark/canonical.py:73-92 | for all tables, two outputs are equal if and only if header and rows are equal as multisets, an empty row counting as one empty cell |
| `CanonicalCsv.CsvDeterminesProperTable` | benchmark/canonical.py:73-92 | for non-empty rows: equal outputs if and only if equal headers and equal multisets of rows |
| `CanonicalCsv.EmptyRowAmbiguous` | benchmark/canonical.py:73-85 | an empty row prints like a row with one empty cell |
| `Quota.TokenBucket.Acquire` | connectors/sdk/quota.py:69-80 | the bucket after the call and the sleep asked for |
| `Quota.RunKeeps` | connectors/sdk/quota.py:69-80 | after every call tokens are at least zero and below the capacity |
| `Quota.TokensAccount` | connectors/sdk/quota.py:46-80 | tokens spent between two calls are paid by the time between their releases |
| `Quota.RateBoundInWindow` | connectors/sdk/quota.py:46-80 | any set of calls released in a window of length T has at most max(burst, 1) + rate * T members |
| `Quota.WaitLeast` | connectors/sdk/quota.py:72-77 | the wait is exactly the time until a whole token has accrued |
| `Quota.BurstAtOnce` | connectors/sdk/quota.py:61-80 | a full bucket releases a burst of calls at once, one token each |
| `Quota.EarlyWakeBreaksBound` | connectors/sdk/quota.py:73-80 | a sleep shorter than asked breaks the bound |
| `RowCaps.AppendCapped` | connectors/postgres/executor.py:426-439 | appends up to the cap and reports the row beyond it |
| `RowCaps.Stream` | connectors/postgres/executor.py:397-439 | the first min(n, cap) rows, at most cap + 1 fetched, truncated if and only if n exceeds the cap |
| `RowCaps.Page` | connectors/ga4/executor.py:99-121 | the same rows, truncated if and only if n exceeds the cap and the cap is not a multiple of the page maximum |
| `JobRunner.StepKeeps` | connectors/sdk/service.py:251-270 | every step of heartbeat, worker and main thread keeps the invariant; a read of the raised lost flag ends the job and a read of the raised cancelled flag leads to a fail call |
| `JobRunner.Safety` | connectors/sdk/service.py:420-589 | in every interleaving: no terminal call after a read of the raised lost flag, no heartbeat after lost or cancelled is set, no finished job unaccounted for, and one terminal call at most if clients raise only protocol errors |
| `JobRunner.LossSilences` | connectors/sdk/service.py:519-530 | at every position of every run: once `lost` is read while the log says it was raised, nothing terminal is logged or sent any more |
| `JobRunner.CancelFails` | connectors/sdk/service.py:523-534 | once `cancelled` is read while it is raised, the main thread looks at nothing more and sends fail at most |
| `JobRunner.ResultsAreTaken` | connectors/sdk/service.py:517-535 | a complete or defer call was taken up after the work had ended, while no cancellation was raised |
| `JobRunner.EveryCallLogged` | connectors/sdk/service.py:251-270 | the log misses no heartbeat, no terminal call and no raised flag |
| `JobRunner.BeatsOn` | connectors/sdk/service.py:251-263 | after a failed or plain heartbeat the thread wakes for the next one unless it is stopped |
| `JobRunner.LastBeat` | connectors/sdk/service.py:516-528 | after the main thread has finished at most one heartbeat is sent, the one that was due |
| `JobRunner.OneTerminalIffProtocolOnly` | connectors/sdk/service.py:543-589 | at most one terminal call in all runs if and only if clients raise only protocol errors |
| `JobRunner.TwoTerminals` | connectors/sdk/service.py:543-589 | a run with two terminal calls when another error is raised |
| `Freshness.ComputeFreshness` | core/src/freshness.ts:44-76 | one report per policy entry in entry order, with its age, threshold and mode; it warns if and only if there is no snapshot or the age exceeds the threshold |
| `Freshness.EntryOrderOfNames` | core/src/freshness.ts:50-50 | entries are in the order of their names unless one name starts with the other |
| `Freshness.LongerNameFirst` | core/src/freshness.ts:50-50 | a longer name comes first if it goes on with a character below the comma, because whole entries are compared as text |
| `Freshness.WarningTable.ApplyFreshness` | core/src/freshness.ts:78-124 | one tick on the table is the function |
| `Freshness.TickReconciles` | core/src/freshness.ts:78-124 | after a tick a reported system has a row if and only if its report warns; others keep theirs |
| `Freshness.RunAlternates` | core/src/freshness.ts:78-124 | over any sequence of ticks the events of each system alternate warning and cleared, starting with warning |

## Left out

- Reading documents from the tree (`lineage/scan.py:146-197`): a document is given by its path, status, class and dependency set; the text search of the last scan step is a parameter.
- SQL parsing and scope resolution (`lineage/parser.py`), which rest on the library's syntax trees.
- Templates, YAML, JSON and JSON Schema: parameters or ordered values, as stated under Assumptions; validation of snapshots before a render is not modelled.
- Typed CSV cells, `compare_results` and the float tolerance (`benchmark/canonical.py:38-63`, `:95-230`): cells are strings; the rest would add easy members.
- Relationship planning, limit proximity, attestation and token handling of the Power BI publisher, and retries of the transport.
- `backoff_delays` (`connectors/sdk/quota.py:83-94`), a generator of bounded random delays.
- Credential injection and removal, preflight checks and the polling loop of the runner; the queue that grants leases is not part of this model.
- The guidance text of a freshness report; JavaScript orders by UTF-16 units, which differ from code points only outside the basic plane.
- The GSC paging loop has the shape of the GA4 loop; `RowCaps.Page` stands for both, with the total row count as an optional fact that only GA4 reports.
- Python dictionaries iterate in insertion order and sets in an arbitrary one; sub-diffs are specified by which changes they record, not by their order.
- Renderer.KbTree.PruneSystem: a tree is a map of files, so the removal of emptied directories is not modelled.
- ContaminationScan.FlagObject: of several equally short routes of one object it does not say which one is recorded; the code takes the one whose end comes first by name.
- DocLayout.ObjectBodyOk: the text above the description and the tables of an object doc, and the bodies of group docs and system indexes, are parameters.
- NoUnsafeAdditive: assumes distinct column names and foreign-key column lists in the old object; `ForeignKeysGuardedIff` shows that the second assumption is necessary.
- StatusInstructions.ApplyExact: for inserted text without a newline, before and after the template is expanded; group references and octal escapes of templates are not modelled.
- SeverityFinal.Incoming: states the map by recursion over the edges; its meaning is `SameIncomingIff`.
