/**
 The scale search panel: the same search, index and select/remove cycle as
 the source panel, keyed by scale abbreviation, with results in the order the
 scales are listed, and with a node's `highlighted` flag set or cleared
 instead of its colour.
 */
module Scales {
  import opened Common
  import opened Types
  import opened GraphStore

  /**
   `matchesStart`: case-insensitively, the query begins the key or the DOI, or
   occurs anywhere in the name or the citation.
   */
  function MatchesStart(search: string, s: Scale): (r: bool)
    ensures r <==> var q := Lower(search);
      || IsPrefix(q, Lower(s.key)) || IsSubstring(q, Lower(s.name))
      || IsSubstring(q, Lower(s.citation)) || IsPrefix(q, Lower(s.doi))
  {
    var q := Lower(search);
    StartsWith(Lower(s.key), q) || Includes(Lower(s.name), q)
    || Includes(Lower(s.citation), q) || StartsWith(Lower(s.doi), q)
  }

  /** The query "per" begins the key "PERMA". */
  lemma KeyPrefixExample()
    ensures MatchesStart("per", Scale("PERMA", "", "", ""))
  {
    assert Lower("PERMA")[..3] == "per";
  }

  /** A query found inside the key but not at its start does not match on the key alone. */
  lemma KeyInfixMissExample()
    ensures !MatchesStart("rm", Scale("PERMA", "", "", ""))
  {
    assert Lower("PERMA")[..2][0] == 'p' && "rm"[0] == 'r';
    assert Lower("") == "";
  }

  /**
   `filteredScales`: nothing for an empty query; otherwise the listed scales
   that match and are not selected, in listing order.
   */
  function FilteredScales(search: string, scales: seq<Scale>, selected: set<string>): (r: seq<Scale>)
    ensures search == "" ==> r == []
    ensures search != "" ==> forall x :: x in r <==> x in scales && MatchesStart(search, x) && x.key !in selected
    ensures search != "" ==> r == Filter(scales, x => MatchesStart(search, x) && x.key !in selected)
  {
    if search == "" then [] else Filter(scales, x => MatchesStart(search, x) && x.key !in selected)
  }

  /** The scale Enter picks: the first listed scale that matches and is not selected. */
  lemma EnterPicksFirstListed(search: string, scales: seq<Scale>, selected: set<string>)
    requires FilteredScales(search, scales, selected) != []
    ensures var r := FilteredScales(search, scales, selected);
      exists i :: 0 <= i < |scales| && scales[i] == r[0]
        && MatchesStart(search, scales[i]) && scales[i].key !in selected
        && forall j :: 0 <= j < i ==> !(MatchesStart(search, scales[j]) && scales[j].key !in selected)
  {
    FilterFirst(scales, x => MatchesStart(search, x) && x.key !in selected);
  }

  /**
   `scaleToNodeIds`: node `n` is in the bucket of scale `s` exactly when `s` is
   among `n`'s scales; only scales some node carries have a bucket.
   */
  method BuildScaleIndex(order: seq<string>, attrs: map<string, NodeAttrs>) returns (index: map<string, set<string>>)
    requires forall n :: n in order <==> n in attrs
    ensures forall s, n :: s in index && n in index[s] <==> n in attrs && s in attrs[n].scales
    ensures forall s :: s in index ==> index[s] != {}
  {
    index := map[];
    var i := 0;
    while i < |order|
      invariant i <= |order|
      invariant forall s, n :: s in index && n in index[s] <==> n in order[..i] && s in attrs[n].scales
      invariant forall s :: s in index ==> index[s] != {}
    {
      var node := order[i];
      var todo := attrs[node].scales;
      while todo != {}
        invariant todo <= attrs[node].scales
        invariant forall s, n :: s in index && n in index[s] <==>
                    (n in order[..i] && s in attrs[n].scales) || (n == node && s in attrs[node].scales - todo)
        invariant forall s :: s in index ==> index[s] != {}
        decreases todo
      {
        var s :| s in todo;
        if s !in index {
          index := index[s := {}];
        }
        index := index[s := index[s] + {node}];
        todo := todo - {s};
      }
      assert order[..i + 1] == order[..i] + [node];
      i := i + 1;
    }
    assert order[..i] == order;
  }

  /** Flag soundness: every flagged node lies in the bucket of a selected scale. */
  ghost predicate FlagsSound(attrs: map<string, NodeAttrs>, selected: set<string>, index: map<string, set<string>>)
  {
    forall n :: n in attrs && attrs[n].highlighted ==> exists s :: s in selected && n in Bucket(index, s)
  }

  /** Selecting a scale keeps flags sound. */
  lemma SelectKeepsFlagsSound(attrs: map<string, NodeAttrs>, selected: set<string>, index: map<string, set<string>>, k: string)
    requires FlagsSound(attrs, selected, index)
    ensures FlagsSound(Marked(attrs, Bucket(index, k), true), selected + {k}, index)
  {
    var after := Marked(attrs, Bucket(index, k), true);
    forall n | n in after && after[n].highlighted
      ensures exists s :: s in selected + {k} && n in Bucket(index, s)
    {
      if n in Bucket(index, k) {
        assert k in selected + {k};
      } else {
        var s :| s in selected && n in Bucket(index, s);
        assert s in selected + {k};
      }
    }
  }

  /** Removing a scale keeps flags sound: its nodes lose the flag. */
  lemma RemoveKeepsFlagsSound(attrs: map<string, NodeAttrs>, selected: set<string>, index: map<string, set<string>>, k: string)
    requires FlagsSound(attrs, selected, index)
    ensures FlagsSound(Marked(attrs, Bucket(index, k), false), selected - {k}, index)
  {
    var after := Marked(attrs, Bucket(index, k), false);
    forall n | n in after && after[n].highlighted
      ensures exists s :: s in selected - {k} && n in Bucket(index, s)
    {
      var s :| s in selected && n in Bucket(index, s);
      assert s != k;
      assert s in selected - {k};
    }
  }

  /**
   The converse does not hold: a node in the buckets of two selected scales
   loses its flag when either one is removed, although the other is still
   selected.
   */
  lemma RemoveClearsSharedNode(attrs: map<string, NodeAttrs>, index: map<string, set<string>>, selected: set<string>,
                               k1: string, k2: string, n: string)
    requires k1 in selected && k2 in selected && k1 != k2
    requires n in attrs && n in Bucket(index, k1) && n in Bucket(index, k2)
    ensures var flagged := Marked(Marked(attrs, Bucket(index, k1), true), Bucket(index, k2), true);
      && flagged[n].highlighted
      && k1 in selected - {k2} && n in Bucket(index, k1)
      && !Marked(flagged, Bucket(index, k2), false)[n].highlighted
  {
  }

  /**
   The panel's state: the listed scales, the index from scale to nodes, the
   query text and the selected scales. `reported` is the last set handed to
   the `setScales` callback, whose owner is not part of this model.
   */
  class ScalesPanel {
    const graph: Graph
    const networkScales: seq<Scale>
    const index: map<string, set<string>>
    var search: string
    var selected: set<string>
    var reported: set<string>

    ghost predicate Valid()
      reads this, graph
    {
      && graph.Valid()
      && (forall s, n :: s in index && n in index[s] ==> n in graph.attrs)
    }

    /** The panel's first render: the index is built, the query is empty, nothing is selected. */
    constructor (graph: Graph, networkScales: seq<Scale>)
      requires graph.Valid()
      ensures Valid() && this.graph == graph && this.networkScales == networkScales
      ensures forall s, n :: s in index && n in index[s] <==> n in graph.attrs && s in graph.attrs[n].scales
      ensures search == "" && selected == {} && reported == {}
    {
      var idx := BuildScaleIndex(graph.order, graph.attrs);
      this.graph, this.networkScales, index := graph, networkScales, idx;
      search, selected, reported := "", {}, {};
    }

    /**
     `filteredScales` on the current state: for a non-empty query, exactly the
     listed scales that match and are not selected.
     */
    function Filtered(): (r: seq<Scale>)
      reads this
      ensures search == "" ==> r == []
      ensures forall x :: x in r ==> x in networkScales && MatchesStart(search, x) && x.key !in selected
      ensures search != "" ==> forall x :: x in networkScales && MatchesStart(search, x) && x.key !in selected ==> x in r
      ensures r != [] ==>
        exists i :: 0 <= i < |networkScales| && networkScales[i] == r[0]
          && forall j :: 0 <= j < i ==> !(MatchesStart(search, networkScales[j]) && networkScales[j].key !in selected)
    {
      var r := FilteredScales(search, networkScales, selected);
      if r != [] then EnterPicksFirstListed(search, networkScales, selected); r else r
    }

    /** `onInputChange`. */
    method SetSearch(value: string)
      modifies this
      ensures search == value && selected == old(selected) && reported == old(reported)
    {
      search := value;
    }

    /**
     `handleSelect`: the scale joins the selection, which is reported to the
     callback, the query is cleared, and every node in its bucket is flagged.
     */
    method HandleSelect(k: string)
      requires Valid()
      modifies this, graph
      ensures Valid()
      ensures selected == old(selected) + {k} && reported == selected && search == ""
      ensures graph.order == old(graph.order) && graph.edges == old(graph.edges)
      ensures graph.attrs == Marked(old(graph.attrs), Bucket(index, k), true)
      ensures old(FlagsSound(graph.attrs, selected, index)) ==> FlagsSound(graph.attrs, selected, index)
    {
      var updated := selected + {k};
      selected := updated;
      reported := updated;
      search := "";
      if k in index {
        graph.MarkAll(index[k], true);
      } else {
        assert graph.attrs == Marked(old(graph.attrs), {}, true);
      }
      if old(FlagsSound(graph.attrs, selected, index)) {
        SelectKeepsFlagsSound(old(graph.attrs), old(selected), index, k);
      }
    }

    /**
     `handleRemove`: the scale leaves the selection, which is reported to the
     callback, and every node in its bucket loses the flag, even when another
     selected scale covers it.
     */
    method HandleRemove(k: string)
      requires Valid()
      modifies this, graph
      ensures Valid()
      ensures selected == old(selected) - {k} && reported == selected && search == old(search)
      ensures graph.order == old(graph.order) && graph.edges == old(graph.edges)
      ensures graph.attrs == Marked(old(graph.attrs), Bucket(index, k), false)
      ensures old(FlagsSound(graph.attrs, selected, index)) ==> FlagsSound(graph.attrs, selected, index)
    {
      var updated := selected - {k};
      selected := updated;
      reported := updated;
      if k in index {
        graph.MarkAll(index[k], false);
      } else {
        assert graph.attrs == Marked(old(graph.attrs), {}, false);
      }
      if old(FlagsSound(graph.attrs, selected, index)) {
        RemoveKeepsFlagsSound(old(graph.attrs), old(selected), index, k);
      }
    }

    /** `onKeyDown`: Enter with a non-empty result list selects the first result; anything else does nothing. */
    method OnKeyDown(key: string)
      requires Valid()
      modifies this, graph
      ensures Valid()
      ensures var f := old(Filtered());
        if key == "Enter" && f != [] then
          && selected == old(selected) + {f[0].key} && reported == selected && search == ""
          && graph.attrs == Marked(old(graph.attrs), Bucket(index, f[0].key), true)
        else
          && selected == old(selected) && reported == old(reported) && search == old(search)
          && graph.attrs == old(graph.attrs)
      ensures graph.order == old(graph.order) && graph.edges == old(graph.edges)
      ensures old(FlagsSound(graph.attrs, selected, index)) ==> FlagsSound(graph.attrs, selected, index)
    {
      var f := Filtered();
      if key == "Enter" && |f| > 0 {
        HandleSelect(f[0].key);
      }
    }
  }
}
