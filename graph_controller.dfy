/** `GraphController.getGraph`: the whole graph as one snapshot. Every isolate, then
    every orthogroup, then every gene becomes a node, in the order the repositories
    return them; each gene then links to its isolate and to its orthogroup when it
    has them. The repository queries are not part of this model: their results are
    the inputs. */
module GraphController {
  import opened Wrappers
  import opened JavaLang
  import opened Domain
  import opened Dto

  const ISOLATE_PREFIX: string := "ISOLATE_"
  const ORTHOGROUP_PREFIX: string := "OG_"
  const GENE_PREFIX: string := "GENE_"

  const ISOLATE_TYPE: string := "Isolate"
  const ORTHOGROUP_TYPE: string := "Pathway"    // orthogroups are drawn with the pathway style
  const GENE_TYPE: string := "Gene"

  const ISOLATE_SIZE: int := 25
  const ORTHOGROUP_SIZE: int := 20
  const GENE_SIZE: int := 15

  const FOUND_IN: string := "FOUND_IN"
  const BELONGS_TO: string := "BELONGS_TO"

  function IsolateNodeId(iso: Isolate): string
  {
    ISOLATE_PREFIX + Show(iso.name)
  }

  function OrthogroupNodeId(og: Orthogroup): string
  {
    ORTHOGROUP_PREFIX + og.groupId
  }

  function GeneNodeId(gene: Gene): string
  {
    GENE_PREFIX + gene.geneId
  }

  /** What `String.valueOf` and concatenation print for a boxed `Integer`. */
  function ShowInteger(n: Option<int>): string
  {
    match n
    case Some(v) => DecimalString(v)
    case None => "null"
  }

  function IsolateNode(iso: Isolate): NodeDto
  {
    NodeDto(
      id := IsolateNodeId(iso),
      name := iso.name,
      nodeType := ISOLATE_TYPE,
      val := ISOLATE_SIZE,
      description := Some("Isolate from " + Show(iso.originCountry)),
      details := map["Host" := iso.host, "Country" := iso.originCountry, "Date" := iso.collectionDate])
  }

  function OrthogroupNode(og: Orthogroup): NodeDto
  {
    NodeDto(
      id := OrthogroupNodeId(og),
      name := Some(og.groupId),
      nodeType := ORTHOGROUP_TYPE,
      val := ORTHOGROUP_SIZE,
      description := Some("Orthologous Group with " + ShowInteger(og.geneCount) + " genes"),
      details := map["Gene Count" := Some(ShowInteger(og.geneCount))])
  }

  function GeneNode(gene: Gene): NodeDto
  {
    NodeDto(
      id := GeneNodeId(gene),
      name := if gene.symbol.Some? then gene.symbol else Some(gene.geneId),
      nodeType := GENE_TYPE,
      val := GENE_SIZE,
      description := gene.description,
      details := map["Symbol" := gene.symbol])
  }

  /** The links one gene adds: to its isolate, then to its orthogroup, each only when
      the relation is set. The target is built from the related entity alone. */
  function GeneLinks(gene: Gene): seq<LinkDto>
  {
    (if gene.isolate.Some? then [LinkDto(GeneNodeId(gene), IsolateNodeId(gene.isolate.value), FOUND_IN)] else [])
    + (if gene.orthogroup.Some? then [LinkDto(GeneNodeId(gene), OrthogroupNodeId(gene.orthogroup.value), BELONGS_TO)] else [])
  }

  /** A gene adds a `FOUND_IN` link exactly when it has an isolate and a `BELONGS_TO`
      link exactly when it has an orthogroup, in that order; both start at the gene's
      node and end at the id of the related entity's node. */
  lemma GeneLinkShape(gene: Gene)
    ensures var links := GeneLinks(gene);
            && |links| <= 2
            && (forall l :: l in links ==> l.source == GeneNodeId(gene))
            && (forall l :: l in links ==> l.relation == FOUND_IN || l.relation == BELONGS_TO)
            && ((exists l :: l in links && l.relation == FOUND_IN) <==> gene.isolate.Some?)
            && ((exists l :: l in links && l.relation == BELONGS_TO) <==> gene.orthogroup.Some?)
            && (forall l :: l in links && l.relation == FOUND_IN ==>
                  gene.isolate.Some? && l.target == IsolateNodeId(gene.isolate.value))
            && (forall l :: l in links && l.relation == BELONGS_TO ==>
                  gene.orthogroup.Some? && l.target == OrthogroupNodeId(gene.orthogroup.value))
            && (|links| == 2 ==> links[0].relation == FOUND_IN && links[1].relation == BELONGS_TO)
  {
  }

  /** The links of `genes`, gene by gene. */
  function LinksOf(genes: seq<Gene>): (links: seq<LinkDto>)
    ensures |links| <= 2 * |genes|
  {
    if genes == [] then []
    else LinksOf(genes[..|genes| - 1]) + GeneLinks(genes[|genes| - 1])
  }

  /** The links of the first `i + 1` genes: those of the first `i`, then those of gene `i`. */
  lemma LinksOfStep(genes: seq<Gene>, i: nat)
    requires i < |genes|
    ensures LinksOf(genes[..i + 1]) == LinksOf(genes[..i]) + GeneLinks(genes[i])
  {
    assert genes[..i + 1][..i] == genes[..i];
  }

  function IsolateNodes(isolates: seq<Isolate>): seq<NodeDto>
  {
    seq(|isolates|, i requires 0 <= i < |isolates| => IsolateNode(isolates[i]))
  }

  function OrthogroupNodes(orthogroups: seq<Orthogroup>): seq<NodeDto>
  {
    seq(|orthogroups|, i requires 0 <= i < |orthogroups| => OrthogroupNode(orthogroups[i]))
  }

  function GeneNodes(genes: seq<Gene>): seq<NodeDto>
  {
    seq(|genes|, i requires 0 <= i < |genes| => GeneNode(genes[i]))
  }

  // One loop iteration appends one node.

  lemma IsolateNodesStep(isolates: seq<Isolate>, i: nat)
    requires i < |isolates|
    ensures IsolateNodes(isolates[..i + 1]) == IsolateNodes(isolates[..i]) + [IsolateNode(isolates[i])]
  {
  }

  lemma OrthogroupNodesStep(orthogroups: seq<Orthogroup>, i: nat)
    requires i < |orthogroups|
    ensures OrthogroupNodes(orthogroups[..i + 1]) == OrthogroupNodes(orthogroups[..i]) + [OrthogroupNode(orthogroups[i])]
  {
  }

  lemma GeneNodesStep(genes: seq<Gene>, i: nat)
    requires i < |genes|
    ensures GeneNodes(genes[..i + 1]) == GeneNodes(genes[..i]) + [GeneNode(genes[i])]
  {
  }

  /** The snapshot `getGraph` returns for the repositories' current contents. */
  function Snapshot(isolates: seq<Isolate>, orthogroups: seq<Orthogroup>, genes: seq<Gene>): GraphDto
  {
    GraphDto(IsolateNodes(isolates) + OrthogroupNodes(orthogroups) + GeneNodes(genes), LinksOf(genes))
  }

  /** `getGraph`: the three loops, run one after the other on the same node list. */
  method GetGraph(isolates: seq<Isolate>, orthogroups: seq<Orthogroup>, genes: seq<Gene>) returns (graph: GraphDto)
    ensures graph == Snapshot(isolates, orthogroups, genes)
  {
    var nodes: seq<NodeDto> := [];
    var links: seq<LinkDto> := [];
    nodes := AddIsolates(nodes, isolates);
    assert nodes == IsolateNodes(isolates);
    nodes := AddOrthogroups(nodes, orthogroups);
    nodes, links := AddGenes(nodes, links, genes);
    assert links == LinksOf(genes);
    graph := GraphDto(nodes, links);
  }

  /** The isolate loop of `getGraph`: one node per isolate, appended in order. */
  method AddIsolates(nodes: seq<NodeDto>, isolates: seq<Isolate>) returns (nodes': seq<NodeDto>)
    ensures nodes' == nodes + IsolateNodes(isolates)
  {
    nodes' := nodes;
    for i := 0 to |isolates|
      invariant nodes' == nodes + IsolateNodes(isolates[..i])
    {
      var iso := isolates[i];
      var details: map<string, JString> := map[];
      details := details["Host" := iso.host];
      details := details["Country" := iso.originCountry];
      details := details["Date" := iso.collectionDate];
      var node := NodeDto(IsolateNodeId(iso), iso.name, ISOLATE_TYPE, ISOLATE_SIZE,
                          Some("Isolate from " + Show(iso.originCountry)), details);
      assert node == IsolateNode(iso);
      IsolateNodesStep(isolates, i);
      nodes' := nodes' + [node];
    }
    assert isolates[..|isolates|] == isolates;
  }

  /** The orthogroup loop of `getGraph`: one node per orthogroup, appended in order. */
  method AddOrthogroups(nodes: seq<NodeDto>, orthogroups: seq<Orthogroup>) returns (nodes': seq<NodeDto>)
    ensures nodes' == nodes + OrthogroupNodes(orthogroups)
  {
    nodes' := nodes;
    for i := 0 to |orthogroups|
      invariant nodes' == nodes + OrthogroupNodes(orthogroups[..i])
    {
      var og := orthogroups[i];
      var details: map<string, JString> := map[];
      details := details["Gene Count" := Some(ShowInteger(og.geneCount))];
      var node := NodeDto(OrthogroupNodeId(og), Some(og.groupId), ORTHOGROUP_TYPE, ORTHOGROUP_SIZE,
                          Some("Orthologous Group with " + ShowInteger(og.geneCount) + " genes"), details);
      assert node == OrthogroupNode(og);
      OrthogroupNodesStep(orthogroups, i);
      nodes' := nodes' + [node];
    }
    assert orthogroups[..|orthogroups|] == orthogroups;
  }

  /** One iteration of the gene loop keeps both lists equal to their specification. */
  lemma AddGeneStep(nodes: seq<NodeDto>, links: seq<LinkDto>, genes: seq<Gene>, i: nat,
                    nodes': seq<NodeDto>, links': seq<LinkDto>)
    requires i < |genes|
    requires nodes' == nodes + GeneNodes(genes[..i])
    requires links' == links + LinksOf(genes[..i])
    ensures nodes' + [GeneNode(genes[i])] == nodes + GeneNodes(genes[..i + 1])
    ensures links' + GeneLinks(genes[i]) == links + LinksOf(genes[..i + 1])
  {
    GeneNodesStep(genes, i);
    LinksOfStep(genes, i);
  }

  /** The gene loop of `getGraph`: one node per gene, and the gene's links, appended in order. */
  method AddGenes(nodes: seq<NodeDto>, links: seq<LinkDto>, genes: seq<Gene>) returns (nodes': seq<NodeDto>, links': seq<LinkDto>)
    ensures nodes' == nodes + GeneNodes(genes)
    ensures links' == links + LinksOf(genes)
  {
    nodes', links' := nodes, links;
    for i := 0 to |genes|
      invariant nodes' == nodes + GeneNodes(genes[..i])
      invariant links' == links + LinksOf(genes[..i])
    {
      var gene := genes[i];
      var geneId := GeneNodeId(gene);
      var details: map<string, JString> := map[];
      details := details["Symbol" := gene.symbol];
      var node := NodeDto(geneId, if gene.symbol.Some? then gene.symbol else Some(gene.geneId),
                          GENE_TYPE, GENE_SIZE, gene.description, details);
      assert node == GeneNode(gene);
      var added: seq<LinkDto> := [];
      if gene.isolate.Some? {
        added := added + [LinkDto(geneId, IsolateNodeId(gene.isolate.value), FOUND_IN)];
      }
      if gene.orthogroup.Some? {
        added := added + [LinkDto(geneId, OrthogroupNodeId(gene.orthogroup.value), BELONGS_TO)];
      }
      assert added == GeneLinks(gene);
      AddGeneStep(nodes, links, genes, i, nodes', links');
      nodes' := nodes' + [node];
      links' := links' + added;
    }
    assert genes[..|genes|] == genes;
  }

  // ---------------------------------------------------------------------------
  // Nodes

  /** The nodes come in three runs, isolates, then orthogroups, then genes, each in
      the order of its input list, one node per entity. */
  lemma SnapshotLayout(isolates: seq<Isolate>, orthogroups: seq<Orthogroup>, genes: seq<Gene>)
    ensures var nodes := Snapshot(isolates, orthogroups, genes).nodes;
            && |nodes| == |isolates| + |orthogroups| + |genes|
            && (forall i :: 0 <= i < |isolates| ==> nodes[i] == IsolateNode(isolates[i]))
            && (forall i :: 0 <= i < |orthogroups| ==> nodes[|isolates| + i] == OrthogroupNode(orthogroups[i]))
            && (forall i :: 0 <= i < |genes| ==> nodes[|isolates| + |orthogroups| + i] == GeneNode(genes[i]))
  {
  }

  /** Each node carries one of the three backend types, with the size and the id
      prefix that go with it. */
  lemma NodeKinds(isolates: seq<Isolate>, orthogroups: seq<Orthogroup>, genes: seq<Gene>)
    ensures forall n :: n in Snapshot(isolates, orthogroups, genes).nodes ==>
              || (n.nodeType == ISOLATE_TYPE && n.val == ISOLATE_SIZE && StartsWith(n.id, ISOLATE_PREFIX))
              || (n.nodeType == ORTHOGROUP_TYPE && n.val == ORTHOGROUP_SIZE && StartsWith(n.id, ORTHOGROUP_PREFIX))
              || (n.nodeType == GENE_TYPE && n.val == GENE_SIZE && StartsWith(n.id, GENE_PREFIX))
  {
  }

  /** A gene node is always named: by its symbol when it has one, by its gene id otherwise. */
  lemma GeneNodesAreNamed(gene: Gene)
    ensures GeneNode(gene).name.Some?
    ensures GeneNode(gene).name.value == if gene.symbol.Some? then gene.symbol.value else gene.geneId
  {
  }

  predicate DistinctIds(nodes: seq<NodeDto>)
  {
    forall i, j :: 0 <= i < j < |nodes| ==> nodes[i].id != nodes[j].id
  }

  /** The isolates are told apart by their printed names (a null name prints as "null"). */
  predicate DistinctIsolateNames(isolates: seq<Isolate>)
  {
    forall i, j :: 0 <= i < j < |isolates| ==> Show(isolates[i].name) != Show(isolates[j].name)
  }

  predicate DistinctGroupIds(orthogroups: seq<Orthogroup>)
  {
    forall i, j :: 0 <= i < j < |orthogroups| ==> orthogroups[i].groupId != orthogroups[j].groupId
  }

  predicate DistinctGeneIds(genes: seq<Gene>)
  {
    forall i, j :: 0 <= i < j < |genes| ==> genes[i].geneId != genes[j].geneId
  }

  /** Two prefixed ids differ when their prefixes start differently, or when they share
      the prefix and differ in what follows. */
  lemma PrefixedIdsDiffer(p: string, q: string, x: string, y: string)
    requires p != [] && q != []
    requires p[0] != q[0] || (p == q && x != y)
    ensures p + x != q + y
  {
    if p == q && x != y {
      assert (p + x)[|p|..] == x && (q + y)[|q|..] == y;
    } else {
      assert (p + x)[0] == p[0] && (q + y)[0] == q[0];
    }
  }

  /** The node at position `k < |isolates|` is the node of isolate `k`. */
  lemma IsolateIdAt(isolates: seq<Isolate>, orthogroups: seq<Orthogroup>, genes: seq<Gene>, k: nat)
    requires k < |isolates|
    ensures Snapshot(isolates, orthogroups, genes).nodes[k].id == IsolateNodeId(isolates[k])
  {
    var front := IsolateNodes(isolates) + OrthogroupNodes(orthogroups);
    assert Snapshot(isolates, orthogroups, genes).nodes == front + GeneNodes(genes);
    assert front[k] == IsolateNodes(isolates)[k];
  }

  /** The orthogroups' nodes follow the isolates'. */
  lemma OrthogroupIdAt(isolates: seq<Isolate>, orthogroups: seq<Orthogroup>, genes: seq<Gene>, k: nat)
    requires k < |orthogroups|
    ensures Snapshot(isolates, orthogroups, genes).nodes[|isolates| + k].id == OrthogroupNodeId(orthogroups[k])
  {
    var front := IsolateNodes(isolates) + OrthogroupNodes(orthogroups);
    assert Snapshot(isolates, orthogroups, genes).nodes == front + GeneNodes(genes);
    assert front[|isolates| + k] == OrthogroupNodes(orthogroups)[k];
  }

  /** The genes' nodes come last. */
  lemma GeneIdAt(isolates: seq<Isolate>, orthogroups: seq<Orthogroup>, genes: seq<Gene>, k: nat)
    requires k < |genes|
    ensures Snapshot(isolates, orthogroups, genes).nodes[|isolates| + |orthogroups| + k].id == GeneNodeId(genes[k])
  {
    var front := IsolateNodes(isolates) + OrthogroupNodes(orthogroups);
    assert Snapshot(isolates, orthogroups, genes).nodes == front + GeneNodes(genes);
    assert |front| == |isolates| + |orthogroups|;
  }

  /** Unique keys give unique node ids. */
  lemma DistinctKeysGiveDistinctIds(isolates: seq<Isolate>, orthogroups: seq<Orthogroup>, genes: seq<Gene>)
    requires DistinctIsolateNames(isolates) && DistinctGroupIds(orthogroups) && DistinctGeneIds(genes)
    ensures DistinctIds(Snapshot(isolates, orthogroups, genes).nodes)
  {
    var nodes := Snapshot(isolates, orthogroups, genes).nodes;
    var a, b := |isolates|, |isolates| + |orthogroups|;
    forall i, j | 0 <= i < j < |nodes|
      ensures nodes[i].id != nodes[j].id
    {
      if i < a { IsolateIdAt(isolates, orthogroups, genes, i); }
      else if i < b { OrthogroupIdAt(isolates, orthogroups, genes, i - a); }
      else { GeneIdAt(isolates, orthogroups, genes, i - b); }
      if j < a { IsolateIdAt(isolates, orthogroups, genes, j); }
      else if j < b { OrthogroupIdAt(isolates, orthogroups, genes, j - a); }
      else { GeneIdAt(isolates, orthogroups, genes, j - b); }
      if j < a {
        PrefixedIdsDiffer(ISOLATE_PREFIX, ISOLATE_PREFIX, Show(isolates[i].name), Show(isolates[j].name));
      } else if j < b && i < a {
        PrefixedIdsDiffer(ISOLATE_PREFIX, ORTHOGROUP_PREFIX, Show(isolates[i].name), orthogroups[j - a].groupId);
      } else if j < b {
        PrefixedIdsDiffer(ORTHOGROUP_PREFIX, ORTHOGROUP_PREFIX, orthogroups[i - a].groupId, orthogroups[j - a].groupId);
      } else if i < a {
        PrefixedIdsDiffer(ISOLATE_PREFIX, GENE_PREFIX, Show(isolates[i].name), genes[j - b].geneId);
      } else if i < b {
        PrefixedIdsDiffer(ORTHOGROUP_PREFIX, GENE_PREFIX, orthogroups[i - a].groupId, genes[j - b].geneId);
      } else {
        PrefixedIdsDiffer(GENE_PREFIX, GENE_PREFIX, genes[i - b].geneId, genes[j - b].geneId);
      }
    }
  }

  /** Unique node ids need unique keys: two entities with one key share a node id. */
  lemma DistinctIdsNeedDistinctKeys(isolates: seq<Isolate>, orthogroups: seq<Orthogroup>, genes: seq<Gene>)
    requires DistinctIds(Snapshot(isolates, orthogroups, genes).nodes)
    ensures DistinctIsolateNames(isolates) && DistinctGroupIds(orthogroups) && DistinctGeneIds(genes)
  {
    var nodes := Snapshot(isolates, orthogroups, genes).nodes;
    var a, b := |isolates|, |isolates| + |orthogroups|;
    forall i, j | 0 <= i < j < |isolates|
      ensures Show(isolates[i].name) != Show(isolates[j].name)
    {
      IsolateIdAt(isolates, orthogroups, genes, i);
      IsolateIdAt(isolates, orthogroups, genes, j);
      assert nodes[i].id != nodes[j].id;
    }
    forall i, j | 0 <= i < j < |orthogroups|
      ensures orthogroups[i].groupId != orthogroups[j].groupId
    {
      OrthogroupIdAt(isolates, orthogroups, genes, i);
      OrthogroupIdAt(isolates, orthogroups, genes, j);
      assert nodes[a + i].id != nodes[a + j].id;
    }
    forall i, j | 0 <= i < j < |genes|
      ensures genes[i].geneId != genes[j].geneId
    {
      GeneIdAt(isolates, orthogroups, genes, i);
      GeneIdAt(isolates, orthogroups, genes, j);
      assert nodes[b + i].id != nodes[b + j].id;
    }
  }

  /** The node ids are unique exactly when the isolates' printed names, the group ids
      and the gene ids are each unique: the three prefixes never collide. */
  lemma SnapshotIdsDistinct(isolates: seq<Isolate>, orthogroups: seq<Orthogroup>, genes: seq<Gene>)
    ensures DistinctIds(Snapshot(isolates, orthogroups, genes).nodes) <==>
              DistinctIsolateNames(isolates) && DistinctGroupIds(orthogroups) && DistinctGeneIds(genes)
  {
    if DistinctIsolateNames(isolates) && DistinctGroupIds(orthogroups) && DistinctGeneIds(genes) {
      DistinctKeysGiveDistinctIds(isolates, orthogroups, genes);
    }
    if DistinctIds(Snapshot(isolates, orthogroups, genes).nodes) {
      DistinctIdsNeedDistinctKeys(isolates, orthogroups, genes);
    }
  }

  // ---------------------------------------------------------------------------
  // Links

  predicate HasIsolate(gene: Gene)
  {
    gene.isolate.Some?
  }

  predicate HasOrthogroup(gene: Gene)
  {
    gene.orthogroup.Some?
  }

  /** How many of `genes` satisfy `p`. */
  function Count(genes: seq<Gene>, p: Gene -> bool): (n: nat)
    ensures n <= |genes|
  {
    if genes == [] then 0
    else Count(genes[..|genes| - 1], p) + (if p(genes[|genes| - 1]) then 1 else 0)
  }

  /** One `FOUND_IN` link per gene with an isolate and one `BELONGS_TO` link per gene
      with an orthogroup, and no other link. */
  lemma {:induction false} LinkCount(genes: seq<Gene>)
    ensures |LinksOf(genes)| == Count(genes, HasIsolate) + Count(genes, HasOrthogroup)
    decreases |genes|
  {
    if genes != [] {
      LinkCount(genes[..|genes| - 1]);
    }
  }

  /** Every link is one of the links some gene of `genes` adds. */
  lemma {:induction false} LinksComeFromGenes(genes: seq<Gene>)
    ensures forall l :: l in LinksOf(genes) ==> exists gene :: gene in genes && l in GeneLinks(gene)
    decreases |genes|
  {
    if genes != [] {
      var init, last := genes[..|genes| - 1], genes[|genes| - 1];
      LinksComeFromGenes(init);
      forall l | l in LinksOf(genes)
        ensures exists gene :: gene in genes && l in GeneLinks(gene)
      {
        if l in LinksOf(init) {
          var gene :| gene in init && l in GeneLinks(gene);
          assert gene in genes;
        } else {
          assert l in GeneLinks(last);
        }
      }
    }
  }

  /** Every link a gene of `genes` adds is emitted. */
  lemma {:induction false} GenesLinksAreEmitted(genes: seq<Gene>)
    ensures forall gene, l :: gene in genes && l in GeneLinks(gene) ==> l in LinksOf(genes)
    decreases |genes|
  {
    if genes != [] {
      var init, last := genes[..|genes| - 1], genes[|genes| - 1];
      GenesLinksAreEmitted(init);
      forall gene, l | gene in genes && l in GeneLinks(gene)
        ensures l in LinksOf(genes)
      {
        if gene != last {
          assert gene in init;
        }
      }
    }
  }

  // Where each entity's node sits in the snapshot.

  lemma IsolateNodeInSnapshot(isolates: seq<Isolate>, orthogroups: seq<Orthogroup>, genes: seq<Gene>, k: nat)
    requires k < |isolates|
    ensures IsolateNode(isolates[k]) in Snapshot(isolates, orthogroups, genes).nodes
  {
    assert Snapshot(isolates, orthogroups, genes).nodes[k] == IsolateNode(isolates[k]);
  }

  lemma OrthogroupNodeInSnapshot(isolates: seq<Isolate>, orthogroups: seq<Orthogroup>, genes: seq<Gene>, k: nat)
    requires k < |orthogroups|
    ensures OrthogroupNode(orthogroups[k]) in Snapshot(isolates, orthogroups, genes).nodes
  {
    assert Snapshot(isolates, orthogroups, genes).nodes[|isolates| + k] == OrthogroupNode(orthogroups[k]);
  }

  lemma GeneNodeInSnapshot(isolates: seq<Isolate>, orthogroups: seq<Orthogroup>, genes: seq<Gene>, k: nat)
    requires k < |genes|
    ensures GeneNode(genes[k]) in Snapshot(isolates, orthogroups, genes).nodes
  {
    assert Snapshot(isolates, orthogroups, genes).nodes[|isolates| + |orthogroups| + k] == GeneNode(genes[k]);
  }

  /** Every link starts at a node of the snapshot: the node of the gene that adds it. */
  lemma LinkSourcesResolve(isolates: seq<Isolate>, orthogroups: seq<Orthogroup>, genes: seq<Gene>)
    ensures var graph := Snapshot(isolates, orthogroups, genes);
            forall l :: l in graph.links ==> exists n :: n in graph.nodes && n.nodeType == GENE_TYPE && n.id == l.source
  {
    var graph := Snapshot(isolates, orthogroups, genes);
    LinksComeFromGenes(genes);
    forall l | l in graph.links
      ensures exists n :: n in graph.nodes && n.nodeType == GENE_TYPE && n.id == l.source
    {
      var gene :| gene in genes && l in GeneLinks(gene);
      GeneLinkShape(gene);
      var k :| 0 <= k < |genes| && genes[k] == gene;
      GeneNodeInSnapshot(isolates, orthogroups, genes, k);
      assert GeneNode(gene).id == l.source;
    }
  }

  /** The target of one link of `gene` is a node id, when the related entities are listed. */
  lemma GeneLinkTargetResolves(isolates: seq<Isolate>, orthogroups: seq<Orthogroup>, genes: seq<Gene>, gene: Gene, l: LinkDto)
    requires l in GeneLinks(gene)
    requires gene.isolate.Some? ==> gene.isolate.value in isolates
    requires gene.orthogroup.Some? ==> gene.orthogroup.value in orthogroups
    ensures exists n :: n in Snapshot(isolates, orthogroups, genes).nodes && n.id == l.target
  {
    GeneLinkShape(gene);
    if l.relation == FOUND_IN {
      var k :| 0 <= k < |isolates| && isolates[k] == gene.isolate.value;
      IsolateNodeInSnapshot(isolates, orthogroups, genes, k);
      assert IsolateNode(isolates[k]).id == l.target;
    } else {
      var k :| 0 <= k < |orthogroups| && orthogroups[k] == gene.orthogroup.value;
      OrthogroupNodeInSnapshot(isolates, orthogroups, genes, k);
      assert OrthogroupNode(orthogroups[k]).id == l.target;
    }
  }

  /** When every related isolate and orthogroup is itself in the snapshot's input lists
      (as the database's relations guarantee), every link ends at a node of the snapshot. */
  lemma LinkTargetsResolve(isolates: seq<Isolate>, orthogroups: seq<Orthogroup>, genes: seq<Gene>)
    requires forall gene :: gene in genes && gene.isolate.Some? ==> gene.isolate.value in isolates
    requires forall gene :: gene in genes && gene.orthogroup.Some? ==> gene.orthogroup.value in orthogroups
    ensures var graph := Snapshot(isolates, orthogroups, genes);
            forall l :: l in graph.links ==> exists n :: n in graph.nodes && n.id == l.target
  {
    LinksComeFromGenes(genes);
    forall l | l in LinksOf(genes)
      ensures exists n :: n in Snapshot(isolates, orthogroups, genes).nodes && n.id == l.target
    {
      var gene :| gene in genes && l in GeneLinks(gene);
      GeneLinkTargetResolves(isolates, orthogroups, genes, gene, l);
    }
  }

  /** The targets are not checked against the emitted nodes: a gene whose isolate is
      missing from the isolate list still gets a `FOUND_IN` link, to an id no node has. */
  lemma DanglingTargetExample()
    ensures var iso := Isolate(Some("CBS-A"), None, None, None);
            var gene := Gene("g1", None, None, None, 1, 2, None, None, Some(iso));
            var graph := Snapshot([], [], [gene]);
            && graph.links == [LinkDto("GENE_g1", "ISOLATE_CBS-A", FOUND_IN)]
            && forall n :: n in graph.nodes ==> n.id != "ISOLATE_CBS-A"
  {
    var iso := Isolate(Some("CBS-A"), None, None, None);
    var gene := Gene("g1", None, None, None, 1, 2, None, None, Some(iso));
    var graph := Snapshot([], [], [gene]);
    assert [gene][..0] == [];
    assert GeneNodeId(gene) == "GENE_g1";
    assert IsolateNodeId(iso) == "ISOLATE_CBS-A";
    assert GeneLinks(gene) == [LinkDto("GENE_g1", "ISOLATE_CBS-A", FOUND_IN)];
    assert graph.links == LinksOf([]) + GeneLinks(gene);
    assert graph.nodes == [GeneNode(gene)];
    assert GeneNode(gene).id[0] == 'G';
  }
}
