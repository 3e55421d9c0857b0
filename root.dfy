/**
 The root view: the filter-state transitions it hands to its panels, and the
 one-time pass that loads the bundled dataset into the graph store.
 */
module RootView {
  import opened Common
  import opened Types
  import opened GraphStore

  /** The size every loaded edge is given. */
  const EDGE_SIZE: real := 0.05

  // ---------------------------------------------------------------------------
  // Filter state
  // ---------------------------------------------------------------------------

  /** The filter record the view starts with, before anything is loaded. */
  const INITIAL_FILTERS := FiltersState(map[], map[], {})

  /** The keys a sparse enabled-map reads as truthy. */
  ghost function Enabled(m: map<string, bool>): set<string>
  {
    set k | k in m && m[k]
  }

  /** No key is stored as `false`: absence is the only way to be off. */
  ghost predicate Sparse(m: map<string, bool>)
  {
    forall k :: k in m ==> m[k]
  }

  /**
   The map update inside `toggleCluster`: a truthy entry is omitted, anything
   else (absent or `false`) is set to `true`.
   */
  function Toggled(m: map<string, bool>, c: string): (r: map<string, bool>)
    ensures Enabled(r) == if c in Enabled(m) then Enabled(m) - {c} else Enabled(m) + {c}
    ensures c in r ==> r[c]
    ensures forall k :: k != c ==> (k in r <==> k in m) && (k in r ==> r[k] == m[k])
  {
    if c in m && m[c] then m - {c} else m[c := true]
  }

  /** Toggling keeps a map sparse. */
  lemma ToggledKeepsSparse(m: map<string, bool>, c: string)
    requires Sparse(m)
    ensures Sparse(Toggled(m, c))
  {
  }

  /**
   Toggling twice always restores which keys are on; it restores the map itself
   when `c` was absent or `true`, and turns a stored `false` into an absent key.
   */
  lemma ToggleTwice(m: map<string, bool>, c: string)
    ensures Enabled(Toggled(Toggled(m, c), c)) == Enabled(m)
    ensures (c !in m || m[c]) ==> Toggled(Toggled(m, c), c) == m
    ensures (c in m && !m[c]) ==> Toggled(Toggled(m, c), c) == m - {c}
  {
    var r := Toggled(Toggled(m, c), c);
    if c !in m {
      assert r.Keys == m.Keys;
    } else if m[c] {
      assert r.Keys == m.Keys;
    } else {
      assert r.Keys == m.Keys - {c};
    }
  }

  /** `toggleCluster`: only the cluster map changes, by Toggled. */
  function ToggleCluster(f: FiltersState, c: string): (r: FiltersState)
    ensures r.clusters == Toggled(f.clusters, c)
    ensures r.tags == f.tags && r.selectedSubmissions == f.selectedSubmissions
  {
    f.(clusters := Toggled(f.clusters, c))
  }

  /** `setClusters`: replaces the cluster map and nothing else. */
  function WithClusters(f: FiltersState, clusters: map<string, bool>): (r: FiltersState)
    ensures r.clusters == clusters
    ensures r.tags == f.tags && r.selectedSubmissions == f.selectedSubmissions
  {
    f.(clusters := clusters)
  }

  /** `setSubmissions`: replaces the selected source keys and nothing else. */
  function WithSubmissions(f: FiltersState, selected: set<nat>): (r: FiltersState)
    ensures r.selectedSubmissions == selected
    ensures r.clusters == f.clusters && r.tags == f.tags
  {
    f.(selectedSubmissions := selected)
  }

  /**
   The filter record set after loading: every cluster key and every tag key of
   the dataset maps to `true`, nothing else is present, nothing is selected.
   */
  function LoadedFilters(d: Dataset): (f: FiltersState)
    ensures forall k :: k in f.clusters <==> exists i :: 0 <= i < |d.clusters| && d.clusters[i].key == k
    ensures forall k :: k in f.tags <==> exists i :: 0 <= i < |d.tags| && d.tags[i].key == k
    ensures Sparse(f.clusters) && Sparse(f.tags)
    ensures f.selectedSubmissions == {}
  {
    var clusters := KeyBy(d.clusters, ClusterKey);
    var tags := KeyBy(d.tags, TagKey);
    FiltersState(map k | k in clusters :: true, map k | k in tags :: true, {})
  }

  // ---------------------------------------------------------------------------
  // Loading the dataset
  // ---------------------------------------------------------------------------

  /** Node keys are unique, as the graph rejects a repeated node key. */
  ghost predicate UniqueNodeKeys(d: Dataset)
  {
    forall i, j :: 0 <= i < j < |d.nodes| ==> d.nodes[i].key != d.nodes[j].key
  }

  /** Node `i`'s cluster and tag are listed, as the attribute lookups dereference them. */
  ghost predicate NodeResolves(d: Dataset, i: int)
  {
    0 <= i < |d.nodes| && d.nodes[i].cluster in KeyBy(d.clusters, ClusterKey)
    && d.nodes[i].tag in KeyBy(d.tags, TagKey)
  }

  /** Both ends of edge `i` are dataset nodes, as the graph rejects an edge to a missing node. */
  ghost predicate EdgeEndsKnown(d: Dataset, i: int)
  {
    0 <= i < |d.edges| && d.edges[i].0 in KeyBy(d.nodes, NodeKey) && d.edges[i].1 in KeyBy(d.nodes, NodeKey)
  }

  /** Edges are unique, as the graph rejects a repeated directed edge. */
  ghost predicate UniqueEdges(d: Dataset)
  {
    forall i, j :: 0 <= i < j < |d.edges| ==> d.edges[i] != d.edges[j]
  }

  /** Everything the load pass needs of the dataset in order not to throw. */
  ghost predicate WellFormed(d: Dataset)
  {
    && UniqueNodeKeys(d) && UniqueEdges(d)
    && (forall i :: 0 <= i < |d.nodes| ==> NodeResolves(d, i))
    && (forall i :: 0 <= i < |d.edges| ==> EdgeEndsKnown(d, i))
  }

  /** The attributes dataset node `i` is stored with; NodeAttrsAtFacts says what they hold. */
  function NodeAttrsAt(d: Dataset, i: int): (a: NodeAttrs)
    requires NodeResolves(d, i)
    ensures a.key == d.nodes[i].key && a.colorBackup == a.color && !a.highlighted
  {
    var n := d.nodes[i];
    var c := KeyBy(d.clusters, ClusterKey)[n.cluster];
    NodeAttrs(n.key, n.nodeLabel, n.tag, n.url, n.cluster, (set x | x in n.submissions), n.scales,
              n.items, c.color, c.clusterLabel, c.color, KeyBy(d.tags, TagKey)[n.tag].image, false)
  }

  /**
   A stored node keeps its own fields and its sources as a set, takes the colour
   and label of the last cluster listed under its cluster key, keeps that colour
   as its backup too, and starts without highlight.
   */
  lemma NodeAttrsAtFacts(d: Dataset, i: int)
    requires NodeResolves(d, i)
    ensures var n, a := d.nodes[i], NodeAttrsAt(d, i);
      && a.key == n.key && a.nodeLabel == n.nodeLabel && a.tag == n.tag && a.url == n.url
      && a.cluster == n.cluster && a.items == n.items
      && a.scales == n.scales && (forall x :: x in a.submissions <==> x in n.submissions)
      && a.colorBackup == a.color && !a.highlighted
      && (exists c :: 0 <= c < |d.clusters| && d.clusters[c].key == n.cluster
                     && (forall j :: c < j < |d.clusters| ==> d.clusters[j].key != n.cluster)
                     && a.color == d.clusters[c].color && a.clusterLabel == d.clusters[c].clusterLabel)
      && (exists t :: 0 <= t < |d.tags| && d.tags[t].key == n.tag
                     && (forall j :: t < j < |d.tags| ==> d.tags[j].key != n.tag)
                     && a.image == d.tags[t].image)
  {
    KeyByLastIndex(d.clusters, ClusterKey, d.nodes[i].cluster);
    KeyByLastIndex(d.tags, TagKey, d.nodes[i].tag);
  }

  /** The first `i` dataset nodes are stored, in order, with their attributes. */
  ghost predicate PrefixLoaded(d: Dataset, order: seq<string>, attrs: map<string, NodeAttrs>, i: nat)
  {
    && i <= |d.nodes| && |order| == i
    && (forall j :: 0 <= j < i ==>
          NodeResolves(d, j) && order[j] == d.nodes[j].key && order[j] in attrs
          && attrs[order[j]] == NodeAttrsAt(d, j))
  }

  /** All dataset nodes are stored, and nothing else. */
  ghost predicate NodesLoaded(d: Dataset, order: seq<string>, attrs: map<string, NodeAttrs>)
  {
    PrefixLoaded(d, order, attrs, |d.nodes|) && (forall n :: n in attrs <==> n in order)
  }

  /** The lookups EdgeAt makes succeed for edge `i`. */
  ghost predicate ResolvesEdge(d: Dataset, i: int)
  {
    0 <= i < |d.edges| && d.edges[i].0 in KeyBy(d.nodes, NodeKey)
    && KeyBy(d.nodes, NodeKey)[d.edges[i].0].cluster in KeyBy(d.clusters, ClusterKey)
  }

  /** The edge stored for dataset edge `i`: fixed size, coloured by its source node's cluster. */
  function EdgeAt(d: Dataset, i: int): (e: Edge)
    requires ResolvesEdge(d, i)
    ensures e.source == d.edges[i].0 && e.target == d.edges[i].1 && e.size == EDGE_SIZE
  {
    var e := d.edges[i];
    Edge(e.0, e.1, EDGE_SIZE, KeyBy(d.clusters, ClusterKey)[KeyBy(d.nodes, NodeKey)[e.0].cluster].color)
  }

  /** The first `i` dataset edges are stored, in order. */
  ghost predicate EdgePrefixLoaded(d: Dataset, edges: seq<Edge>, i: nat)
  {
    i <= |d.edges| && |edges| == i && forall j :: 0 <= j < i ==> ResolvesEdge(d, j) && edges[j] == EdgeAt(d, j)
  }

  /** The graph contents the load pass produces from `d`. */
  ghost predicate Loaded(d: Dataset, order: seq<string>, attrs: map<string, NodeAttrs>, edges: seq<Edge>)
  {
    NodesLoaded(d, order, attrs) && EdgePrefixLoaded(d, edges, |d.edges|)
  }

  /** Adding node `i` after the first `i`: its key is new, and the prefix grows by one. */
  lemma NodeStep(d: Dataset, order: seq<string>, attrs: map<string, NodeAttrs>, i: nat)
    requires WellFormed(d) && i < |d.nodes| && PrefixLoaded(d, order, attrs, i)
    requires forall n :: n in attrs <==> n in order
    ensures d.nodes[i].key !in attrs
    ensures PrefixLoaded(d, order + [d.nodes[i].key], attrs[d.nodes[i].key := NodeAttrsAt(d, i)], i + 1)
  {
    assert NodeResolves(d, i);
    assert forall j :: 0 <= j < i ==> order[j] != d.nodes[i].key;
  }

  /** Once the nodes are loaded, edge `i` resolves and both its ends are stored. */
  lemma EdgeEndsStored(d: Dataset, order: seq<string>, attrs: map<string, NodeAttrs>, i: nat)
    requires WellFormed(d) && NodesLoaded(d, order, attrs) && i < |d.edges|
    ensures ResolvesEdge(d, i) && d.edges[i].0 in attrs && d.edges[i].1 in attrs
  {
    var e := d.edges[i];
    assert EdgeEndsKnown(d, i);
    KeyByValue(d.nodes, NodeKey, e.0);
    KeyByValue(d.nodes, NodeKey, e.1);
    var a :| 0 <= a < |d.nodes| && d.nodes[a] == KeyBy(d.nodes, NodeKey)[e.0];
    var b :| 0 <= b < |d.nodes| && d.nodes[b] == KeyBy(d.nodes, NodeKey)[e.1];
    assert NodeResolves(d, a);
    assert order[a] == e.0 && order[b] == e.1;
  }

  /** Adding edge `i` after the first `i`: the graph has no such edge yet, and the prefix grows by one. */
  lemma EdgeStep(d: Dataset, edges: seq<Edge>, i: nat)
    requires UniqueEdges(d) && i < |d.edges| && EdgePrefixLoaded(d, edges, i) && ResolvesEdge(d, i)
    ensures forall j :: 0 <= j < |edges| ==> (edges[j].source, edges[j].target) != d.edges[i]
    ensures EdgePrefixLoaded(d, edges + [EdgeAt(d, i)], i + 1)
  {
  }

  /**
   After loading, every edge has size 0.05 and joins stored nodes, and its
   colour is the saved cluster colour of its source node.
   */
  lemma LoadedEdgeColor(d: Dataset, order: seq<string>, attrs: map<string, NodeAttrs>, edges: seq<Edge>, i: nat)
    requires WellFormed(d) && Loaded(d, order, attrs, edges) && i < |edges|
    ensures edges[i].source in attrs && edges[i].target in attrs
    ensures edges[i].size == EDGE_SIZE && edges[i].color == attrs[edges[i].source].colorBackup
  {
    var e := d.edges[i];
    EdgeEndsStored(d, order, attrs, i);
    KeyByValue(d.nodes, NodeKey, e.0);
    var j :| 0 <= j < |d.nodes| && d.nodes[j] == KeyBy(d.nodes, NodeKey)[e.0];
    assert order[j] == e.0;
  }

  class Root {
    /** The graph store, created empty with the view. */
    const graph: Graph
    /** The bundled dataset file. */
    const bundled: Dataset
    var datasetState: Option<Dataset>
    var filters: FiltersState

    /** Until a dataset is recorded the graph is empty. */
    ghost predicate Valid()
      reads this, graph
    {
      graph.Valid() && (datasetState.None? ==> graph.order == [] && graph.edges == [])
    }

    constructor (d: Dataset)
      ensures Valid() && fresh(graph)
      ensures bundled == d && datasetState == None && filters == INITIAL_FILTERS
    {
      graph := new Graph();
      bundled := d;
      datasetState := None;
      filters := INITIAL_FILTERS;
    }

    /**
     The effect run on mount: if a dataset is already recorded it does nothing;
     otherwise it adds every node, then every edge, sets the loaded filters and
     records the dataset.
     */
    method LoadOnMount()
      requires Valid() && (datasetState.None? ==> WellFormed(bundled))
      modifies this, graph
      ensures Valid()
      ensures old(datasetState).Some? ==>
                datasetState == old(datasetState) && filters == old(filters)
                && graph.order == old(graph.order) && graph.attrs == old(graph.attrs)
                && graph.edges == old(graph.edges)
      ensures old(datasetState).None? ==>
                datasetState == Some(bundled) && filters == LoadedFilters(bundled)
                && Loaded(bundled, graph.order, graph.attrs, graph.edges)
    {
      if datasetState.Some? {
        return;
      }
      LoadGraph(bundled);
      filters, datasetState := LoadedFilters(bundled), Some(bundled);
    }

    /** Both passes over the dataset, on the empty graph. */
    method LoadGraph(d: Dataset)
      requires graph.Valid() && graph.order == [] && graph.edges == [] && WellFormed(d)
      modifies graph
      ensures graph.Valid() && Loaded(d, graph.order, graph.attrs, graph.edges)
    {
      LoadNodes(d);
      LoadEdges(d);
    }

    /** `dataset.nodes.forEach(addNode)` on the empty graph. */
    method LoadNodes(d: Dataset)
      requires graph.Valid() && graph.order == [] && graph.edges == [] && WellFormed(d)
      modifies graph
      ensures graph.Valid() && graph.edges == [] && NodesLoaded(d, graph.order, graph.attrs)
    {
      var i := 0;
      while i < |d.nodes|
        invariant i <= |d.nodes| && graph.Valid() && graph.edges == []
        invariant PrefixLoaded(d, graph.order, graph.attrs, i)
      {
        NodeStep(d, graph.order, graph.attrs, i);
        graph.AddNode(d.nodes[i].key, NodeAttrsAt(d, i));
        i := i + 1;
      }
    }

    /** `dataset.edges.forEach(addEdge)`, each edge coloured by its source node's cluster. */
    method LoadEdges(d: Dataset)
      requires graph.Valid() && graph.edges == [] && WellFormed(d)
      requires NodesLoaded(d, graph.order, graph.attrs)
      modifies graph
      ensures graph.Valid() && graph.order == old(graph.order) && graph.attrs == old(graph.attrs)
      ensures Loaded(d, graph.order, graph.attrs, graph.edges)
    {
      var i := 0;
      while i < |d.edges|
        invariant i <= |d.edges| && graph.Valid()
        invariant graph.order == old(graph.order) && graph.attrs == old(graph.attrs)
        invariant EdgePrefixLoaded(d, graph.edges, i)
      {
        EdgeEndsStored(d, graph.order, graph.attrs, i);
        EdgeStep(d, graph.edges, i);
        var e := EdgeAt(d, i);
        graph.AddEdge(e.source, e.target, e.size, e.color);
        i := i + 1;
      }
    }

    /** The `setSubmissions` callback. */
    method SetSubmissions(selected: set<nat>)
      modifies this
      ensures filters == WithSubmissions(old(filters), selected) && datasetState == old(datasetState)
    {
      filters := WithSubmissions(filters, selected);
    }

    /** The `setClusters` callback. */
    method SetClusters(clusters: map<string, bool>)
      modifies this
      ensures filters == WithClusters(old(filters), clusters) && datasetState == old(datasetState)
    {
      filters := WithClusters(filters, clusters);
    }

    /** The `toggleCluster` callback. */
    method ToggleClusterOf(c: string)
      modifies this
      ensures filters == ToggleCluster(old(filters), c) && datasetState == old(datasetState)
    {
      filters := ToggleCluster(filters, c);
    }
  }
}
