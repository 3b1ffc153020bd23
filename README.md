# Ganoderma knowledge-graph platform: GFF loading, graph snapshot and graph view

This project models three pieces of the Ganoderma genomics platform (a Spring/Neo4j
backend with a React front end) and proves properties about them:

- **The GFF3 gene-line reader** (`GffLoaderService`). It reads lines of tab-separated
  GFF3 text. It skips comment lines, blank lines and rows with fewer than nine
  columns. It keeps only `gene` features, compared ignoring case. It parses start and
  end with `Long.parseLong` and reads column 9 as `key=value` items separated by `;`.
  The description is chosen by the precedence `Note`, `description`, `product`.
  Lines are a `seq<string>`. The loop, `parseAttributes` and `parseGeneLine` are
  methods proved against specification functions (`GenesOf`, `AttributesOf`,
  `GeneOfColumns`). `System.currentTimeMillis()` becomes a parameter: `clock(i)` is
  the reading taken while line `i` is parsed.
- **The graph snapshot builder** (`GraphController.getGraph`). It turns the isolate,
  orthogroup and gene lists into a `{nodes, links}` document. The repository results
  are input sequences. The three loops are a method proved equal to `Snapshot`.
- **The graph view's filter and search** (`GraphViz.tsx`):
  - the visibility filter, which gives the subgraph induced by the active node types;
  - the checkbox handler, which appends a type to the active list or removes it;
  - the search for the first node whose lower-cased name contains the lower-cased query.

  The component's state (graph, active types, search text) is a class whose setters
  are methods.

The Java and JavaScript library behaviour the code relies on is written out in its
own modules:

- `JavaLang`: nullable strings, `trim`, `split` with a literal one-character
  separator and its dropping of trailing empty strings, `equalsIgnoreCase` (with
  ASCII case folding only, see "## Left out"), `Long.parseLong` and `Long.toString`.
- `JsArray`: `filter` and `find`.
- `JsString`: `toLowerCase` and `includes`.

Modules: `Wrappers`, `Ascii` (the ASCII letter case fold the model uses for both runtimes), `JavaLang`, `JsArray`, `JsString`, `Domain` (the isolate,
orthogroup and gene entities), `GffLoader`, `Dto` (the graph document), `GraphController`
and `GraphViz`.

Consequences of Java's `split` and of the view code worth knowing:

- Attribute items. `split` drops trailing empty strings, so `key=value=` splits
  into two strings and is kept (`GffLoader.TrailingSeparatorIsIgnored`); `a=b=c`
  splits into three and is dropped (`GffLoader.ItemWithTwoSeparatorsIsDropped`).
  `key= ` (a blank value) splits into two strings and is kept with an empty value;
  only `key=`, with nothing after the `=`, is dropped
  (`GffLoader.ItemWithEmptyValueIsDropped`).
- The graph view. Hiding a type gives the plain induced subgraph: the nodes of the
  active types and the links between two of them, nothing aggregated
  (`frontend/src/components/GraphViz.tsx:91-100`).

## Model

| member | source | states |
|---|---|---|
| JavaLang.Show | backend/src/main/java/com/ganoderma/platform/controller/GraphController.java:39-50 | concatenating a string reference prints its text, or `null` when it is unset: the isolate id, the `Isolate from` description and the link target of an isolate without a name or country carry `null` |
| JavaLang.StartsWith | backend/src/main/java/com/ganoderma/platform/service/GffLoaderService.java:45 | `line.startsWith("#")`: the line is at least as long as the prefix and begins with it |
| JavaLang.Trim | backend/src/main/java/com/ganoderma/platform/service/GffLoaderService.java:45 | `trim` leaves no blank (character at or below U+0020) at either end and never lengthens the string; `JavaLang.TrimIsSlice` states that the result is the string without its blank ends |
| JavaLang.TrimIsSlice | backend/src/main/java/com/ganoderma/platform/service/GffLoaderService.java:45 | what `trim` returns is one slice of the string, with only blanks before and after it: `trim` removes the blank ends and nothing else |
| JavaLang.TrimIsEmptyIffBlank | backend/src/main/java/com/ganoderma/platform/service/GffLoaderService.java:45 | `line.trim().isEmpty()` holds exactly for the lines made only of blanks |
| JavaLang.Pieces | backend/src/main/java/com/ganoderma/platform/service/GffLoaderService.java:48 | cutting at every separator yields at least one piece |
| JavaLang.PiecesFacts | backend/src/main/java/com/ganoderma/platform/service/GffLoaderService.java:48 | no piece holds the separator; a string without the separator is its only piece; a string with it gives at least two pieces |
| JavaLang.JoinPieces | backend/src/main/java/com/ganoderma/platform/service/GffLoaderService.java:48 | rejoining the pieces with the separator gives the string back |
| JavaLang.DropTrailingEmpty | backend/src/main/java/com/ganoderma/platform/service/GffLoaderService.java:48 | the result is a prefix of the input, only empty strings are removed, and its last string is not empty |
| JavaLang.Split | backend/src/main/java/com/ganoderma/platform/service/GffLoaderService.java:48 | `split` never returns more strings than there are pieces between separators |
| JavaLang.SplitFacts | backend/src/main/java/com/ganoderma/platform/service/GffLoaderService.java:93-95 | `split` returns the string itself as the only element when the separator does not occur; otherwise a prefix of the pieces, none holding the separator, with only empty pieces dropped and a non-empty last string kept |
| JavaLang.SplitRejoins | backend/src/main/java/com/ganoderma/platform/service/GffLoaderService.java:93-95 | putting back some empty strings and rejoining the result of `split` gives the input: `split` loses only empty trailing strings |
| JavaLang.ParseLong | backend/src/main/java/com/ganoderma/platform/service/GffLoaderService.java:72-73 | `Long.parseLong` succeeds exactly on an optional sign followed by at least one decimal digit whose signed value is in the 64-bit range, and then returns that signed value |
| JavaLang.NaturalDigits | backend/src/main/java/com/ganoderma/platform/service/GffLoaderService.java:79 | the decimal digits of a number are non-empty digits whose value is the number, with no leading zero |
| JavaLang.DecimalString | backend/src/main/java/com/ganoderma/platform/service/GffLoaderService.java:79 | `Long.toString(n)`, as concatenation prints it in the fallback id `UNKNOWN_` and the clock reading; `JavaLang.ParseLongInvertsDecimalString` states that `Long.parseLong` reads it back |
| JavaLang.ParseLongInvertsDecimalString | backend/src/main/java/com/ganoderma/platform/service/GffLoaderService.java:72-79 | `Long.parseLong(Long.toString(n)) == n` for every 64-bit `n` |
| JavaLang.EqualsIgnoreCase | backend/src/main/java/com/ganoderma/platform/service/GffLoaderService.java:53 | the model of `equalsIgnoreCase`: the same length, and the same character at each position once ASCII letters are folded; for the one call, against the literal `gene`, this decides what Java decides |
| JavaLang.EqualsIgnoreCaseIsEquivalence | backend/src/main/java/com/ganoderma/platform/service/GffLoaderService.java:53 | the model of `equalsIgnoreCase` is reflexive, symmetric and transitive, relates only strings of one length, and holds exactly when the strings differ at most by lower-case ASCII letters against their upper-case partners |
| JsArray.Filter | frontend/src/components/GraphViz.tsx:92 | `filter` never lengthens an array |
| JsArray.FilterIsSubsequence | frontend/src/components/GraphViz.tsx:92-98 | the filtered array is a subsequence of the input: elements are only deleted, never reordered or invented |
| JsArray.FilterCounts | frontend/src/components/GraphViz.tsx:92-98 | each element satisfying the predicate occurs in the result as often as in the input, and no other element occurs |
| JsArray.FilterSelects | frontend/src/components/GraphViz.tsx:92-98 | `filter` keeps exactly the elements satisfying the predicate, each as often as in the input, as a subsequence of it |
| JsArray.FilterAppend | frontend/src/components/GraphViz.tsx:92 | filtering a concatenation is concatenating the filtered parts |
| JsArray.FilterIdempotent | frontend/src/components/GraphViz.tsx:92 | filtering twice with one predicate equals filtering once |
| JsArray.FilterCongruent | frontend/src/components/GraphViz.tsx:92 | two predicates that agree on the elements give the same result |
| JsArray.FilterKeepsAll | frontend/src/components/GraphViz.tsx:92 | a predicate that holds of every element keeps the whole array |
| JsArray.Find | frontend/src/components/GraphViz.tsx:105 | `find` returns nothing exactly when no element matches, and otherwise a matching element with no matching element before it |
| JsString.ToLowerCase | frontend/src/components/GraphViz.tsx:105 | `toLowerCase` keeps the length and lowers each ASCII letter in place |
| JsString.ToLowerCaseIdempotent | frontend/src/components/GraphViz.tsx:105 | lower-casing twice equals lower-casing once |
| JsString.Includes | frontend/src/components/GraphViz.tsx:105 | `includes` never holds for a search longer than the string, and always holds for the empty search |
| JsString.IncludesIffOccurs | frontend/src/components/GraphViz.tsx:105 | `includes` holds exactly when the searched string occurs at some position |
| GffLoader.StoreLookup | backend/src/main/java/com/ganoderma/platform/service/GffLoaderService.java:94-98 | a key is in the map built by successive `put`s exactly when some entry has that key, and it then maps to the value of the last such entry |
| GffLoader.Store | backend/src/main/java/com/ganoderma/platform/service/GffLoaderService.java:92-98 | the successive `HashMap.put`s of the kept items, in order, a later put of a key replacing the earlier value; `GffLoader.StoreLookup` states its lookups |
| GffLoader.ItemEntry | backend/src/main/java/com/ganoderma/platform/service/GffLoaderService.java:94-97 | an item without `=` stores nothing; the item lemmas below state what the other items store |
| GffLoader.AttributesOf | backend/src/main/java/com/ganoderma/platform/service/GffLoaderService.java:91-101 | the map `parseAttributes` returns, built by storing the items of column 9 in order; `GffLoader.AttributeLookup` states its lookups |
| GffLoader.AttributeLookup | backend/src/main/java/com/ganoderma/platform/service/GffLoaderService.java:91-101 | a key is an attribute exactly when some item stores under it, and a later duplicate key overwrites an earlier one |
| GffLoader.ParseAttributes | backend/src/main/java/com/ganoderma/platform/service/GffLoaderService.java:91-101 | the loop's map is the one built from the `;`-items of the column, in order |
| GffLoader.ItemWithoutSeparatorIsDropped | backend/src/main/java/com/ganoderma/platform/service/GffLoaderService.java:95-96 | an item with no `=` stores nothing |
| GffLoader.KeyValueItemIsKept | backend/src/main/java/com/ganoderma/platform/service/GffLoaderService.java:95-97 | `key=value` with a non-empty value stores the trimmed value under the trimmed key |
| GffLoader.ItemWithEmptyValueIsDropped | backend/src/main/java/com/ganoderma/platform/service/GffLoaderService.java:95-96 | `key=` stores nothing |
| GffLoader.ItemWithTwoSeparatorsIsDropped | backend/src/main/java/com/ganoderma/platform/service/GffLoaderService.java:95-96 | `a=b=c` with a non-empty `c` stores nothing |
| GffLoader.TrailingSeparatorIsIgnored | backend/src/main/java/com/ganoderma/platform/service/GffLoaderService.java:95-97 | `key=value=` stores the trimmed value under the trimmed key |
| GffLoader.PiecesAfterSeparator | backend/src/main/java/com/ganoderma/platform/service/GffLoaderService.java:95 | a separator-free prefix followed by the separator is the first piece |
| GffLoader.PiecesOfJoin | backend/src/main/java/com/ganoderma/platform/service/GffLoaderService.java:48 | tab-free columns joined with tabs are cut back into the same columns |
| GffLoader.JoinedColumnsSplit | backend/src/main/java/com/ganoderma/platform/service/GffLoaderService.java:48 | nine tab-free columns with a non-empty last column, joined with tabs, are what `split("\t")` gives back |
| GffLoader.Description | backend/src/main/java/com/ganoderma/platform/service/GffLoaderService.java:103-111 | the description is the value of the first of `Note`, `description`, `product` present, and the empty string when none is |
| GffLoader.GeneOfColumns | backend/src/main/java/com/ganoderma/platform/service/GffLoaderService.java:67-89 | a gene comes out exactly when there are at least nine columns and columns 4 and 5 parse as 64-bit integers, the `null` of the `catch` otherwise; every gene has biotype `protein_coding` and no isolate or orthogroup |
| GffLoader.ParseGeneLine | backend/src/main/java/com/ganoderma/platform/service/GffLoaderService.java:67-89 | filling the gene field by field, with a failed parse or a missing column giving `null`, yields the gene the columns specify |
| GffLoader.Present | backend/src/main/java/com/ganoderma/platform/service/GffLoaderService.java:55-56 | collecting the non-null results never gives more values than results |
| GffLoader.PresentIndices | backend/src/main/java/com/ganoderma/platform/service/GffLoaderService.java:55-56 | the indices of the non-null results are exactly those indices, in increasing order |
| GffLoader.PresentFollowsIndices | backend/src/main/java/com/ganoderma/platform/service/GffLoaderService.java:55-56 | the k-th value collected is the value at the k-th non-null index |
| GffLoader.LineGene | backend/src/main/java/com/ganoderma/platform/service/GffLoaderService.java:45-58 | a line yields a gene exactly when it is neither a comment nor blank, splits on tabs into at least nine columns (extra columns allowed), has `gene` as its third column ignoring case, and has columns 4 and 5 that parse as 64-bit integers |
| GffLoader.GenesOf | backend/src/main/java/com/ganoderma/platform/service/GffLoaderService.java:40-60 | the loop never collects more genes than there are lines |
| GffLoader.GenesFollowLines | backend/src/main/java/com/ganoderma/platform/service/GffLoaderService.java:40-60 | the k-th gene collected is the gene of the k-th line that yields one, the genes keep the order of their lines, and a line yielding nothing does not stop later lines from contributing |
| GffLoader.LoadGff | backend/src/main/java/com/ganoderma/platform/service/GffLoaderService.java:40-60 | the `while` loop with its `continue`s collects exactly the genes the lines specify, in order |
| GffLoader.CommentOrBlankLineYieldsNoGene | backend/src/main/java/com/ganoderma/platform/service/GffLoaderService.java:45-46 | a line starting with `#` or made only of blanks yields no gene |
| GffLoader.ShortRowYieldsNoGene | backend/src/main/java/com/ganoderma/platform/service/GffLoaderService.java:48-50 | a row with fewer than nine columns after `split` yields no gene |
| GffLoader.EmptyAttributeColumnYieldsNoGene | backend/src/main/java/com/ganoderma/platform/service/GffLoaderService.java:48-50 | nine columns with an empty last column split into fewer than nine, so the row yields no gene |
| GffLoader.OtherFeatureYieldsNoGene | backend/src/main/java/com/ganoderma/platform/service/GffLoaderService.java:52-53 | a row whose third column is not `gene` ignoring case yields no gene |
| GffLoader.FeatureTypeExamples | backend/src/main/java/com/ganoderma/platform/service/GffLoaderService.java:53 | `gene`, `Gene` and `GENE` are accepted; `mRNA`, `CDS` and `genes` are not |
| GffLoader.BadCoordinateYieldsNoGene | backend/src/main/java/com/ganoderma/platform/service/GffLoaderService.java:70-88 | a gene row whose start or end is not a 64-bit integer yields no gene |
| GffLoader.GeneRowYieldsGene | backend/src/main/java/com/ganoderma/platform/service/GffLoaderService.java:72-82 | a well-formed gene row yields a gene: start, end and strand come from columns 4, 5 and 7; the id is `ID` or `UNKNOWN_` and the clock reading; the symbol is `Name` or null; the description follows the precedence; the biotype is `protein_coding`; no isolate and no orthogroup are set |
| GraphController.ShowInteger | backend/src/main/java/com/ganoderma/platform/controller/GraphController.java:60-67 | what `String.valueOf` and concatenation print for a boxed `Integer`: its decimal digits, or `null` when the gene count is unset |
| GraphController.IsolateNode | backend/src/main/java/com/ganoderma/platform/controller/GraphController.java:38-53 | an isolate's node: id `ISOLATE_` and the printed name, its name, type `Isolate`, size 25, description `Isolate from ` and the printed country, details Host, Country and Date; `GraphController.NodeKinds` states the kinds |
| GraphController.OrthogroupNode | backend/src/main/java/com/ganoderma/platform/controller/GraphController.java:57-70 | an orthogroup's node: id `OG_` and the group id, named by the group id, type `Pathway`, size 20, description and `Gene Count` detail with the printed gene count (`null` when unset) |
| GraphController.GeneNode | backend/src/main/java/com/ganoderma/platform/controller/GraphController.java:74-87 | a gene's node: id `GENE_` and the gene id, named by the symbol or else the gene id, type `Gene`, size 15, the gene's description, detail `Symbol`; `GraphController.GeneNodesAreNamed` states the naming |
| GraphController.GeneLinks | backend/src/main/java/com/ganoderma/platform/controller/GraphController.java:89-105 | the links one gene adds, to its isolate then to its orthogroup, each only when set; `GraphController.GeneLinkShape` states their shape |
| GraphController.GeneLinkShape | backend/src/main/java/com/ganoderma/platform/controller/GraphController.java:89-105 | a gene adds a `FOUND_IN` link exactly when it has an isolate and a `BELONGS_TO` link exactly when it has an orthogroup, in that order; both start at the gene's node id and end at the related entity's node id |
| GraphController.LinksOf | backend/src/main/java/com/ganoderma/platform/controller/GraphController.java:74-105 | there are at most two links per gene |
| GraphController.LinksOfStep | backend/src/main/java/com/ganoderma/platform/controller/GraphController.java:74-105 | the links of the first `i + 1` genes are those of the first `i` genes followed by those of gene `i` |
| GraphController.IsolateNodesStep | backend/src/main/java/com/ganoderma/platform/controller/GraphController.java:38-53 | the nodes of the first `i + 1` isolates are those of the first `i` followed by isolate `i`'s node |
| GraphController.OrthogroupNodesStep | backend/src/main/java/com/ganoderma/platform/controller/GraphController.java:57-70 | the nodes of the first `i + 1` orthogroups are those of the first `i` followed by orthogroup `i`'s node |
| GraphController.GeneNodesStep | backend/src/main/java/com/ganoderma/platform/controller/GraphController.java:74-87 | the nodes of the first `i + 1` genes are those of the first `i` followed by gene `i`'s node |
| GraphController.AddIsolates | backend/src/main/java/com/ganoderma/platform/controller/GraphController.java:37-53 | the isolate loop appends to the node list exactly one node per isolate, in input order, each with the isolate's prefixed id, name, description and details |
| GraphController.AddOrthogroups | backend/src/main/java/com/ganoderma/platform/controller/GraphController.java:56-70 | the orthogroup loop appends exactly one node per orthogroup, in input order |
| GraphController.AddGeneStep | backend/src/main/java/com/ganoderma/platform/controller/GraphController.java:74-105 | one iteration of the gene loop, appending the gene's node and its links, keeps both lists equal to their specification on the genes seen so far |
| GraphController.AddGenes | backend/src/main/java/com/ganoderma/platform/controller/GraphController.java:73-106 | the gene loop appends one node per gene and, per gene, its `FOUND_IN` and `BELONGS_TO` links, all in input order |
| GraphController.GetGraph | backend/src/main/java/com/ganoderma/platform/controller/GraphController.java:32-109 | the three loops build exactly the snapshot of the three lists |
| GraphController.Snapshot | backend/src/main/java/com/ganoderma/platform/controller/GraphController.java:32-109 | the document `getGraph` returns: the isolates' nodes, the orthogroups' nodes and the genes' nodes in input order, then the genes' links; `GraphController.SnapshotLayout` states its layout |
| GraphController.SnapshotLayout | backend/src/main/java/com/ganoderma/platform/controller/GraphController.java:37-87 | there are as many nodes as isolates, orthogroups and genes together: the isolates' nodes first, then the orthogroups', then the genes', each run in input order |
| GraphController.NodeKinds | backend/src/main/java/com/ganoderma/platform/controller/GraphController.java:39-84 | every node is an `Isolate` of size 25 with an `ISOLATE_` id, a `Pathway` of size 20 with an `OG_` id, or a `Gene` of size 15 with a `GENE_` id |
| GraphController.GeneNodesAreNamed | backend/src/main/java/com/ganoderma/platform/controller/GraphController.java:82 | a gene node's name is never null: it is the symbol when there is one and the gene id otherwise |
| GraphController.PrefixedIdsDiffer | backend/src/main/java/com/ganoderma/platform/controller/GraphController.java:39-75 | ids with different prefix letters differ, and so do ids with one prefix and different keys |
| GraphController.IsolateIdAt | backend/src/main/java/com/ganoderma/platform/controller/GraphController.java:39 | the node at position `k` of the snapshot, for `k` below the number of isolates, has isolate `k`'s id |
| GraphController.OrthogroupIdAt | backend/src/main/java/com/ganoderma/platform/controller/GraphController.java:58 | the node after the isolates' nodes by `k` positions has orthogroup `k`'s id |
| GraphController.GeneIdAt | backend/src/main/java/com/ganoderma/platform/controller/GraphController.java:75 | the node after the isolates' and orthogroups' nodes by `k` positions has gene `k`'s id |
| GraphController.DistinctKeysGiveDistinctIds | backend/src/main/java/com/ganoderma/platform/controller/GraphController.java:39-75 | unique printed isolate names, group ids and gene ids give unique node ids |
| GraphController.DistinctIdsNeedDistinctKeys | backend/src/main/java/com/ganoderma/platform/controller/GraphController.java:39-75 | unique node ids need unique printed isolate names, group ids and gene ids |
| GraphController.SnapshotIdsDistinct | backend/src/main/java/com/ganoderma/platform/controller/GraphController.java:39-75 | the node ids are unique exactly when the isolates' printed names, the group ids and the gene ids are each unique |
| GraphController.LinkCount | backend/src/main/java/com/ganoderma/platform/controller/GraphController.java:89-105 | the number of links is the number of genes with an isolate plus the number with an orthogroup |
| GraphController.LinksComeFromGenes | backend/src/main/java/com/ganoderma/platform/controller/GraphController.java:89-105 | every link is one that some input gene adds |
| GraphController.GenesLinksAreEmitted | backend/src/main/java/com/ganoderma/platform/controller/GraphController.java:89-105 | every link an input gene adds is emitted |
| GraphController.LinkSourcesResolve | backend/src/main/java/com/ganoderma/platform/controller/GraphController.java:92 | every link starts at the id of a gene node of the snapshot |
| GraphController.IsolateNodeInSnapshot | backend/src/main/java/com/ganoderma/platform/controller/GraphController.java:38-53 | every listed isolate's node is in the snapshot |
| GraphController.OrthogroupNodeInSnapshot | backend/src/main/java/com/ganoderma/platform/controller/GraphController.java:57-70 | every listed orthogroup's node is in the snapshot |
| GraphController.GeneNodeInSnapshot | backend/src/main/java/com/ganoderma/platform/controller/GraphController.java:74-87 | every listed gene's node is in the snapshot |
| GraphController.GeneLinkTargetResolves | backend/src/main/java/com/ganoderma/platform/controller/GraphController.java:93-102 | a link of a gene whose isolate and orthogroup are listed ends at the id of a node of the snapshot |
| GraphController.LinkTargetsResolve | backend/src/main/java/com/ganoderma/platform/controller/GraphController.java:93-102 | when every related isolate and orthogroup is in the input lists, every link ends at the id of a node of the snapshot |
| GraphController.DanglingTargetExample | backend/src/main/java/com/ganoderma/platform/controller/GraphController.java:93 | targets are not checked: a gene whose isolate is not in the isolate list gets a link to an id no node has |
| GraphViz.VisibleDataSelects | frontend/src/components/GraphViz.tsx:91-100 | the visible nodes are exactly the nodes of an active type, and the visible links exactly the links whose two endpoint ids belong to such nodes; both keep the input order, each element kept occurs as often as in the data, and nothing is added |
| GraphViz.VisibleData | frontend/src/components/GraphViz.tsx:91-100 | the filter never adds a node or a link; `GraphViz.VisibleDataSelects` states exactly which it keeps |
| GraphViz.VisibleIds | frontend/src/components/GraphViz.tsx:92-98 | the ids of the visible nodes are exactly the ids some node of an active type has |
| GraphViz.VisibleDataDependsOnActiveSet | frontend/src/components/GraphViz.tsx:92 | the order and repetitions of the active list do not matter, only its set of types |
| GraphViz.VisibleDataIdempotent | frontend/src/components/GraphViz.tsx:91-100 | filtering the visible graph again with the same active types changes nothing |
| GraphViz.AllTypesActiveShowsEverything | frontend/src/components/GraphViz.tsx:92-98 | when every node's type is active, all nodes are shown, the links shown are those whose two ends are node ids, and all links are shown when every end is a node id |
| GraphViz.NoTypeActiveShowsNothing | frontend/src/components/GraphViz.tsx:92-98 | with no active type, no node and no link is shown |
| GraphViz.InitialFiltersCoverSnapshot | frontend/src/components/GraphViz.tsx:56 | every node the backend snapshot sends has a type among the initially ticked ones |
| GraphViz.Toggled | frontend/src/components/GraphViz.tsx:193-196 | after ticking the type is active, after unticking it is not, and every other type is active exactly as before |
| GraphViz.UncheckRemovesType | frontend/src/components/GraphViz.tsx:195 | unticking removes every occurrence of the type and keeps each other type as often as before, in order |
| GraphViz.UncheckHidesType | frontend/src/components/GraphViz.tsx:195 | after unticking, the visible nodes are the previously visible ones not of that type |
| GraphViz.CheckShowsType | frontend/src/components/GraphViz.tsx:194 | after ticking, the visible nodes are the previously visible ones plus every node of that type |
| GraphViz.UncheckThenCheckRestores | frontend/src/components/GraphViz.tsx:194-195 | unticking then ticking a ticked type shows the same graph as before |
| GraphViz.CheckThenUncheckRestores | frontend/src/components/GraphViz.tsx:194-195 | ticking then unticking an unticked type shows the same graph as before |
| GraphViz.SearchFindsFirstMatch | frontend/src/components/GraphViz.tsx:104-105 | an empty query finds nothing; otherwise the search finds a node exactly when some node's lower-cased name contains the lower-cased query, and it is the first such node of the whole data, shown or hidden |
| GraphViz.SearchIgnoresCase | frontend/src/components/GraphViz.tsx:105 | two queries that differ only in the case of ASCII letters find the same node |
| GraphViz.SearchHit | frontend/src/components/GraphViz.tsx:104-105 | the search picks nothing for an empty query, and otherwise only a node of the data, shown or hidden |
| GraphViz.GraphView.constructor | frontend/src/components/GraphViz.tsx:49-56 | the view starts with an empty graph, every type ticked and an empty search box |
| GraphViz.GraphView.SetData | frontend/src/components/GraphViz.tsx:65 | the fetched graph replaces the data and nothing else changes |
| GraphViz.GraphView.ToggleFilter | frontend/src/components/GraphViz.tsx:193-196 | ticking appends the type to the active list and unticking filters it out; after unticking the visible nodes are the previously visible ones not of that type, after ticking they are the previous ones plus every node of that type; the data, the search text and the search result do not change |
| GraphViz.GraphView.SetSearchQuery | frontend/src/components/GraphViz.tsx:178 | typing replaces the search text; the data, the active types and the visible graph do not change |

## Left out

- Reading the stream, `@Transactional`, `saveAll` and logging in `loadGff`. The
  model returns the genes the loop would save.
- The isolate find-or-create (`GffLoaderService.java:32-37`). It is a repository
  call. The `isolateName` argument has no other effect: no gene is linked to the
  isolate, as `GffLoader.GeneRowYieldsGene` states.
- `System.currentTimeMillis()` is a parameter (`clock`). Two ID-less rows parsed in
  the same millisecond therefore get the same fallback id; the model allows that
  but nothing here depends on it.
- JavaLang.ParseLong: `Long.parseLong` also accepts non-ASCII Unicode decimal
  digits; the model accepts ASCII digits only.
- JavaLang.Split: modelled only for a one-character separator that is not a
  regular-expression metacharacter, which covers the three uses (`\t`, `;`, `=`).
- JavaLang.EqualsIgnoreCase: folds ASCII letters only. Java also matches other
  case partners (`é` and `É`, the Kelvin sign and `k`). The one call compares
  against the literal `gene` (`GffLoaderService.java:53`), and no other character
  folds onto `g`, `e` or `n`, so the model decides that call exactly.
- JsString.ToLowerCase: lower-cases ASCII letters only; JavaScript also folds other
  Unicode letters.
- The repositories' queries (`findAll`), Spring wiring and JSON serialisation. The
  repository results are the inputs of `GraphController.GetGraph`, and the view
  receives a `GraphData` value directly.
- The view models the node `name` as a string. An isolate without a name gives a
  node whose `name` is null in the JSON, on which `toLowerCase` would throw; the
  model does not capture that.
- `group`, `color`, `x` and `y` of a view node. They belong to the force layout.
  So do the `fgRef.current` guard on running the search at all (`GraphViz.tsx:104`),
  the `node.x && node.y` guard on the search result, and the
  `centerAt`/`zoom`/`setSelectedNode` calls that follow it (`GraphViz.tsx:106-110`).
  The model gives the node `find` returns.
- Canvas drawing, hit areas for the mouse, zoom, the resize listener and the fetch with its
  loading flags (`GraphViz.tsx:59-88`, `115` onwards): rendering and I/O.
- `Gene.embedding` and the entity fields neither the loader nor the graph endpoint
  touches.
- Gene start and end are `int` in the model. The boxed `Long` fields could be null
  in the database, but the loader always sets them and the graph endpoint does not
  read them.
- GraphRagService, DataSeeder, the chat and dashboard controllers, and the seed
  generation script are not part of this model.
