/**
 The directed graph store the views share, reduced to what they use: the
 nodes in insertion order with their attribute records, and the edge list.
 */
module GraphStore {
  import opened Common
  import opened Types

  class Graph {
    var order: seq<string>
    var attrs: map<string, NodeAttrs>
    var edges: seq<Edge>

    /** Node keys are unique, `order` lists exactly the stored nodes, edges join stored nodes once. */
    ghost predicate Valid()
      reads this
    {
      && (forall i, j :: 0 <= i < j < |order| ==> order[i] != order[j])
      && (forall n :: n in attrs <==> n in order)
      && (forall e :: e in edges ==> e.source in attrs && e.target in attrs)
      && (forall i, j :: 0 <= i < j < |edges| ==>
            (edges[i].source, edges[i].target) != (edges[j].source, edges[j].target))
    }

    constructor ()
      ensures Valid() && order == [] && attrs == map[] && edges == []
    {
      order, attrs, edges := [], map[], [];
    }

    predicate HasEdge(source: string, target: string)
      reads this
    {
      exists i :: 0 <= i < |edges| && edges[i].source == source && edges[i].target == target
    }

    /** `addNode`: the key must be new. */
    method AddNode(key: string, a: NodeAttrs)
      requires Valid() && key !in attrs
      modifies this
      ensures Valid()
      ensures order == old(order) + [key] && attrs == old(attrs)[key := a] && edges == old(edges)
    {
      order, attrs := order + [key], attrs[key := a];
    }

    /** `addEdge`: both ends must be stored and the directed pair must be new. */
    method AddEdge(source: string, target: string, size: real, color: string)
      requires Valid() && source in attrs && target in attrs && !HasEdge(source, target)
      modifies this
      ensures Valid()
      ensures edges == old(edges) + [Edge(source, target, size, color)]
      ensures order == old(order) && attrs == old(attrs)
    {
      edges := edges + [Edge(source, target, size, color)];
    }

    /** `setNodeAttribute(node, "color", c)`. */
    method SetColor(node: string, c: string)
      requires Valid() && node in attrs
      modifies this
      ensures Valid()
      ensures attrs == old(attrs)[node := old(attrs)[node].(color := c)]
      ensures order == old(order) && edges == old(edges)
    {
      attrs := attrs[node := attrs[node].(color := c)];
    }

    /** `setNodeAttribute(node, "highlighted", b)`. */
    method SetHighlighted(node: string, b: bool)
      requires Valid() && node in attrs
      modifies this
      ensures Valid()
      ensures attrs == old(attrs)[node := old(attrs)[node].(highlighted := b)]
      ensures order == old(order) && edges == old(edges)
    {
      attrs := attrs[node := attrs[node].(highlighted := b)];
    }

    /** A panel's `bucket.forEach(n => setNodeAttribute(n, "color", c))`. */
    method PaintAll(ns: set<string>, c: string)
      requires Valid() && ns <= attrs.Keys
      modifies this
      ensures Valid()
      ensures attrs == Painted(old(attrs), ns, c) && order == old(order) && edges == old(edges)
    {
      ghost var a0 := attrs;
      var todo := ns;
      ghost var done: set<string> := {};
      while todo != {}
        invariant done + todo == ns && done !! todo
        invariant Valid() && order == old(order) && edges == old(edges)
        invariant attrs == Painted(a0, done, c)
        decreases todo
      {
        var n :| n in todo;
        PaintStep(a0, done, n, c);
        SetColor(n, c);
        done, todo := done + {n}, todo - {n};
      }
    }

    /** A panel's `bucket.forEach(n => setNodeAttribute(n, "color", getNodeAttribute(n, "color_backup")))`. */
    method RestoreAll(ns: set<string>)
      requires Valid() && ns <= attrs.Keys
      modifies this
      ensures Valid()
      ensures attrs == Restored(old(attrs), ns) && order == old(order) && edges == old(edges)
    {
      ghost var a0 := attrs;
      var todo := ns;
      ghost var done: set<string> := {};
      while todo != {}
        invariant done + todo == ns && done !! todo
        invariant Valid() && order == old(order) && edges == old(edges)
        invariant attrs == Restored(a0, done)
        decreases todo
      {
        var n :| n in todo;
        RestoreStep(a0, done, n);
        SetColor(n, attrs[n].colorBackup);
        done, todo := done + {n}, todo - {n};
      }
    }

    /** A panel's `bucket.forEach(n => setNodeAttribute(n, "highlighted", b))`. */
    method MarkAll(ns: set<string>, b: bool)
      requires Valid() && ns <= attrs.Keys
      modifies this
      ensures Valid()
      ensures attrs == Marked(old(attrs), ns, b) && order == old(order) && edges == old(edges)
    {
      ghost var a0 := attrs;
      var todo := ns;
      ghost var done: set<string> := {};
      while todo != {}
        invariant done + todo == ns && done !! todo
        invariant Valid() && order == old(order) && edges == old(edges)
        invariant attrs == Marked(a0, done, b)
        decreases todo
      {
        var n :| n in todo;
        MarkStep(a0, done, n, b);
        SetHighlighted(n, b);
        done, todo := done + {n}, todo - {n};
      }
    }
  }

  // ---------------------------------------------------------------------------
  // Whole-bucket attribute rewrites, as values
  // ---------------------------------------------------------------------------

  /** Every node of `ns` gets colour `c`; the others keep their attributes. */
  ghost function Painted(attrs: map<string, NodeAttrs>, ns: set<string>, c: string): map<string, NodeAttrs>
  {
    map n | n in attrs :: if n in ns then attrs[n].(color := c) else attrs[n]
  }

  /** Every node of `ns` gets back its saved colour; the others keep their attributes. */
  ghost function Restored(attrs: map<string, NodeAttrs>, ns: set<string>): map<string, NodeAttrs>
  {
    map n | n in attrs :: if n in ns then attrs[n].(color := attrs[n].colorBackup) else attrs[n]
  }

  /** Every node of `ns` gets highlight flag `b`; the others keep their attributes. */
  ghost function Marked(attrs: map<string, NodeAttrs>, ns: set<string>, b: bool): map<string, NodeAttrs>
  {
    map n | n in attrs :: if n in ns then attrs[n].(highlighted := b) else attrs[n]
  }

  /** What Painted does, node by node. */
  lemma PaintedFacts(attrs: map<string, NodeAttrs>, ns: set<string>, c: string)
    ensures var r := Painted(attrs, ns, c);
      && (forall n :: n in r <==> n in attrs)
      && (forall n :: n in attrs && n in ns ==> r[n] == attrs[n].(color := c))
      && (forall n :: n in attrs && n !in ns ==> r[n] == attrs[n])
  {
  }

  /** Painting one more node extends the painted set by that node. */
  lemma PaintStep(attrs: map<string, NodeAttrs>, done: set<string>, n: string, c: string)
    requires n in attrs
    ensures var p := Painted(attrs, done, c);
      p[n := p[n].(color := c)] == Painted(attrs, done + {n}, c)
  {
  }

  /** Restoring one more node extends the restored set by that node. */
  lemma RestoreStep(attrs: map<string, NodeAttrs>, done: set<string>, n: string)
    requires n in attrs
    ensures var p := Restored(attrs, done);
      p[n := p[n].(color := p[n].colorBackup)] == Restored(attrs, done + {n})
  {
  }

  /** Flagging one more node extends the flagged set by that node. */
  lemma MarkStep(attrs: map<string, NodeAttrs>, done: set<string>, n: string, b: bool)
    requires n in attrs
    ensures var p := Marked(attrs, done, b);
      p[n := p[n].(highlighted := b)] == Marked(attrs, done + {n}, b)
  {
  }

  /** Removing right after selecting gives back the start, when no node in the bucket was recoloured before. */
  lemma PaintThenRestore(attrs: map<string, NodeAttrs>, ns: set<string>, c: string)
    requires forall n :: n in attrs && n in ns ==> attrs[n].color == attrs[n].colorBackup
    ensures Restored(Painted(attrs, ns, c), ns) == attrs
  {
    var r := Restored(Painted(attrs, ns, c), ns);
    assert forall n :: n in attrs ==> r[n] == attrs[n];
  }

  /** Clearing the flags right after setting them gives back the start, when no node in the bucket was flagged before. */
  lemma MarkThenClear(attrs: map<string, NodeAttrs>, ns: set<string>)
    requires forall n :: n in attrs && n in ns ==> !attrs[n].highlighted
    ensures Marked(Marked(attrs, ns, true), ns, false) == attrs
  {
    var r := Marked(Marked(attrs, ns, true), ns, false);
    assert forall n :: n in attrs ==> r[n] == attrs[n];
  }
}
