/** The graph view's state and the pure transforms it applies to it: the visibility
    filter (the subgraph induced by the active node types), the filter checkboxes,
    and the search for the first node whose name contains the query. Drawing, layout
    and fetching are not part of this model. */
module GraphViz {
  import opened Wrappers
  import opened JsArray
  import opened JsString
  import GraphController

  /** A node as the view holds it. `type` is one of "Gene", "Isolate", "Sample" and
      "Pathway" in the view's declarations; at run time it is whatever string the
      backend sent, so it is a string here. */
  datatype GraphNode = GraphNode(
    id: string,
    name: string,
    nodeType: string,
    val: int,
    description: Option<string>,
    details: Option<map<string, string>>)

  /** A link end: an id as fetched, or the node object the force layout puts in its place. */
  datatype Endpoint = Id(id: string) | Node(node: GraphNode)

  datatype GraphLink = GraphLink(source: Endpoint, target: Endpoint, relation: Option<string>)

  datatype GraphData = GraphData(nodes: seq<GraphNode>, links: seq<GraphLink>)

  /** The node types whose checkboxes start ticked. */
  const INITIAL_FILTERS: seq<string> := ["Gene", "Isolate", "Sample", "Pathway"]

  /** The id an endpoint stands for: the node's `id` when it is an object, the string itself otherwise. */
  function EndpointId(e: Endpoint): string
  {
    match e
    case Id(id) => id
    case Node(n) => n.id
  }

  function NodeIds(nodes: seq<GraphNode>): set<string>
  {
    set n | n in nodes :: n.id
  }

  function OfActiveType(active: seq<string>): GraphNode -> bool
  {
    (n: GraphNode) => n.nodeType in active
  }

  function Connects(ids: set<string>): GraphLink -> bool
  {
    (l: GraphLink) => EndpointId(l.source) in ids && EndpointId(l.target) in ids
  }

  /** `visibleData`: the nodes of an active type, and the links between two of them. */
  function VisibleData(data: GraphData, active: seq<string>): (r: GraphData)
    ensures |r.nodes| <= |data.nodes| && |r.links| <= |data.links|
  {
    var nodes := Filter(data.nodes, OfActiveType(active));
    GraphData(nodes, Filter(data.links, Connects(NodeIds(nodes))))
  }

  /** Some node of an active type has id `id`. */
  predicate Shown(data: GraphData, active: seq<string>, id: string)
  {
    exists n :: n in data.nodes && n.nodeType in active && n.id == id
  }

  /** The ids of the visible nodes are the ids some node of an active type has. */
  lemma VisibleIds(data: GraphData, active: seq<string>)
    ensures forall id :: id in NodeIds(VisibleData(data, active).nodes) <==> Shown(data, active, id)
  {
    var r := VisibleData(data, active);
    FilterSelects(data.nodes, OfActiveType(active));
    forall id
      ensures id in NodeIds(r.nodes) <==> Shown(data, active, id)
    {
      if Shown(data, active, id) {
        var n :| n in data.nodes && n.nodeType in active && n.id == id;
        assert n in r.nodes;
      }
    }
  }

  /** The visible nodes are the nodes of an active type, in their original order; the
      visible links are the links whose two ends are the ids of such nodes, in their
      original order. Each one kept occurs as often as in the data, and nothing is added. */
  lemma VisibleDataSelects(data: GraphData, active: seq<string>)
    ensures var r := VisibleData(data, active);
            && IsSubsequence(r.nodes, data.nodes)
            && IsSubsequence(r.links, data.links)
            && (forall n :: n in r.nodes <==> n in data.nodes && n.nodeType in active)
            && (forall l :: l in r.links <==>
                  l in data.links && Shown(data, active, EndpointId(l.source)) && Shown(data, active, EndpointId(l.target)))
            && (forall n :: multiset(r.nodes)[n] == if n.nodeType in active then multiset(data.nodes)[n] else 0)
            && (forall l :: multiset(r.links)[l] ==
                  if Shown(data, active, EndpointId(l.source)) && Shown(data, active, EndpointId(l.target))
                  then multiset(data.links)[l] else 0)
  {
    var r := VisibleData(data, active);
    var connects := Connects(NodeIds(r.nodes));
    FilterSelects(data.nodes, OfActiveType(active));
    FilterSelects(data.links, connects);
    VisibleIds(data, active);
    assert forall l :: connects(l) == (Shown(data, active, EndpointId(l.source)) && Shown(data, active, EndpointId(l.target)));
  }

  /** Only the set of active types matters, not their order or repetitions. */
  lemma VisibleDataDependsOnActiveSet(data: GraphData, active: seq<string>, active': seq<string>)
    requires forall t :: t in active <==> t in active'
    ensures VisibleData(data, active) == VisibleData(data, active')
  {
    FilterCongruent(data.nodes, OfActiveType(active), OfActiveType(active'));
  }

  /** Filtering what the filter showed, with the same active types, changes nothing. */
  lemma VisibleDataIdempotent(data: GraphData, active: seq<string>)
    ensures VisibleData(VisibleData(data, active), active) == VisibleData(data, active)
  {
    var r := VisibleData(data, active);
    FilterIdempotent(data.nodes, OfActiveType(active));
    FilterIdempotent(data.links, Connects(NodeIds(r.nodes)));
  }

  /** When every node has an active type, as with the initial filters and the backend's
      types, every node is shown, and so is every link whose two ends are node ids. */
  lemma AllTypesActiveShowsEverything(data: GraphData, active: seq<string>)
    requires forall n :: n in data.nodes ==> n.nodeType in active
    ensures VisibleData(data, active).nodes == data.nodes
    ensures forall l :: l in VisibleData(data, active).links <==>
              l in data.links && EndpointId(l.source) in NodeIds(data.nodes) && EndpointId(l.target) in NodeIds(data.nodes)
    ensures (forall l :: l in data.links ==> Connects(NodeIds(data.nodes))(l)) ==> VisibleData(data, active).links == data.links
  {
    FilterKeepsAll(data.nodes, OfActiveType(active));
    FilterSelects(data.links, Connects(NodeIds(data.nodes)));
    if forall l :: l in data.links ==> Connects(NodeIds(data.nodes))(l) {
      FilterKeepsAll(data.links, Connects(NodeIds(data.nodes)));
    }
  }

  /** With no active type, nothing is shown. */
  lemma NoTypeActiveShowsNothing(data: GraphData)
    ensures VisibleData(data, []) == GraphData([], [])
  {
    var r := VisibleData(data, []);
    FilterSelects(data.nodes, OfActiveType([]));
    FilterSelects(data.links, Connects(NodeIds(r.nodes)));
  }

  /** Every node the backend's snapshot sends has a type among the initial filters. */
  lemma InitialFiltersCoverSnapshot(isolates: seq<GraphController.Domain.Isolate>,
                                    orthogroups: seq<GraphController.Domain.Orthogroup>,
                                    genes: seq<GraphController.Domain.Gene>)
    ensures forall n :: n in GraphController.Snapshot(isolates, orthogroups, genes).nodes ==> n.nodeType in INITIAL_FILTERS
  {
  }

  // ---------------------------------------------------------------------------
  // The filter checkboxes

  function NotType(t: string): string -> bool
  {
    (u: string) => u != t
  }

  /** The active list after ticking (`checked`) or unticking the box of type `t`. */
  function Toggled(active: seq<string>, t: string, checked: bool): (r: seq<string>)
    ensures t in r <==> checked
    ensures forall u :: u != t ==> (u in r <==> u in active)
  {
    if checked then active + [t]
    else
      FilterSelects(active, NotType(t));
      Filter(active, NotType(t))
  }

  /** Unticking removes every occurrence of the type and keeps the other types, each as
      often as before, in their order. */
  lemma UncheckRemovesType(active: seq<string>, t: string)
    ensures var r := Toggled(active, t, false);
            && t !in r
            && IsSubsequence(r, active)
            && forall u :: u != t ==> multiset(r)[u] == multiset(active)[u]
  {
    FilterSelects(active, NotType(t));
  }

  /** Unticking hides exactly the visible nodes of that type. */
  lemma UncheckHidesType(data: GraphData, active: seq<string>, t: string)
    ensures forall n :: n in VisibleData(data, Toggled(active, t, false)).nodes <==>
              n in VisibleData(data, active).nodes && n.nodeType != t
  {
    FilterSelects(active, NotType(t));
    VisibleDataSelects(data, active);
    VisibleDataSelects(data, Toggled(active, t, false));
  }

  /** Ticking shows, besides what was visible, exactly the nodes of that type. */
  lemma CheckShowsType(data: GraphData, active: seq<string>, t: string)
    ensures forall n :: n in VisibleData(data, Toggled(active, t, true)).nodes <==>
              n in VisibleData(data, active).nodes || (n in data.nodes && n.nodeType == t)
  {
    VisibleDataSelects(data, active);
    VisibleDataSelects(data, Toggled(active, t, true));
  }

  /** Unticking a ticked type and ticking it again shows the same graph as before. */
  lemma UncheckThenCheckRestores(data: GraphData, active: seq<string>, t: string)
    requires t in active
    ensures VisibleData(data, Toggled(Toggled(active, t, false), t, true)) == VisibleData(data, active)
  {
    FilterSelects(active, NotType(t));
    VisibleDataDependsOnActiveSet(data, Toggled(Toggled(active, t, false), t, true), active);
  }

  /** Ticking an unticked type and unticking it again shows the same graph as before. */
  lemma CheckThenUncheckRestores(data: GraphData, active: seq<string>, t: string)
    requires t !in active
    ensures VisibleData(data, Toggled(Toggled(active, t, true), t, false)) == VisibleData(data, active)
  {
    FilterSelects(active + [t], NotType(t));
    VisibleDataDependsOnActiveSet(data, Toggled(Toggled(active, t, true), t, false), active);
  }

  // ---------------------------------------------------------------------------
  // Search

  /** The lower-cased query occurs in the node's lower-cased name. */
  ghost predicate NameMatches(n: GraphNode, query: string)
  {
    exists k: nat :: OccursAt(ToLowerCase(n.name), ToLowerCase(query), k)
  }

  function NameContains(loweredQuery: string): GraphNode -> bool
  {
    (n: GraphNode) => Includes(ToLowerCase(n.name), loweredQuery)
  }

  /** The node the search picks: none for an empty query, otherwise the first node of
      the whole data, shown or hidden, whose name contains the query ignoring case. */
  function SearchHit(data: GraphData, query: string): (r: Option<GraphNode>)
    ensures r.Some? ==> query != [] && r.value in data.nodes
  {
    if query == [] then None else Find(data.nodes, NameContains(ToLowerCase(query)))
  }

  /** The search finds something exactly when the query is non-empty and some node's
      name matches it, and then it is the first such node. */
  lemma SearchFindsFirstMatch(data: GraphData, query: string)
    ensures var hit := SearchHit(data, query);
            && (hit.Some? <==> query != [] && exists i :: 0 <= i < |data.nodes| && NameMatches(data.nodes[i], query))
            && (hit.Some? ==> exists i :: && 0 <= i < |data.nodes| && data.nodes[i] == hit.value
                                         && NameMatches(data.nodes[i], query)
                                         && forall j :: 0 <= j < i ==> !NameMatches(data.nodes[j], query))
  {
    forall n: GraphNode
      ensures NameContains(ToLowerCase(query))(n) <==> NameMatches(n, query)
    {
      IncludesIffOccurs(ToLowerCase(n.name), ToLowerCase(query));
    }
  }

  /** The search ignores the case of the query's ASCII letters. */
  lemma SearchIgnoresCase(data: GraphData, query: string, query': string)
    requires ToLowerCase(query) == ToLowerCase(query')
    ensures SearchHit(data, query) == SearchHit(data, query')
  {
  }

  // ---------------------------------------------------------------------------
  // The component's state

  /** The view's state: the fetched graph, the ticked types and the search box. */
  class GraphView {
    var data: GraphData
    var activeFilters: seq<string>
    var searchQuery: string

    /** The initial state: no graph yet, every type ticked, an empty search box. */
    constructor ()
      ensures data == GraphData([], []) && activeFilters == INITIAL_FILTERS && searchQuery == []
    {
      data := GraphData([], []);
      activeFilters := INITIAL_FILTERS;
      searchQuery := [];
    }

    /** What the view draws. */
    function Visible(): GraphData
      reads this
    {
      VisibleData(data, activeFilters)
    }

    /** The node the search box currently designates. */
    function Hit(): Option<GraphNode>
      reads this
    {
      SearchHit(data, searchQuery)
    }

    /** `setData` with the fetched graph. */
    method SetData(graph: GraphData)
      modifies this
      ensures data == graph
      ensures activeFilters == old(activeFilters) && searchQuery == old(searchQuery)
    {
      data := graph;
    }

    /** The checkbox handler of type `t`. Unticking hides the visible nodes of that
        type, ticking shows every node of it, and the search result does not depend on
        the filters. */
    method ToggleFilter(t: string, checked: bool)
      modifies this
      ensures activeFilters == Toggled(old(activeFilters), t, checked)
      ensures data == old(data) && searchQuery == old(searchQuery)
      ensures !checked ==> forall n :: n in Visible().nodes <==> n in old(Visible()).nodes && n.nodeType != t
      ensures checked ==> forall n :: n in Visible().nodes <==> n in old(Visible()).nodes || (n in data.nodes && n.nodeType == t)
      ensures Hit() == old(Hit())
    {
      if checked {
        CheckShowsType(data, activeFilters, t);
        activeFilters := activeFilters + [t];
      } else {
        UncheckHidesType(data, activeFilters, t);
        activeFilters := Filter(activeFilters, NotType(t));
      }
    }

    /** Typing in the search box. */
    method SetSearchQuery(query: string)
      modifies this
      ensures searchQuery == query
      ensures data == old(data) && activeFilters == old(activeFilters)
      ensures Visible() == old(Visible())
    {
      searchQuery := query;
    }
  }
}
