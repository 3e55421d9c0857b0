/**
 The source search panel: matching a query against source records, the index
 from source key to the nodes carrying it, the result list, and selecting or
 removing a source, which recolours that source's nodes in the graph store.
 */
module Submissions {
  import opened Common
  import opened Types
  import opened GraphStore
  import opened RootView

  /** The colour a selected source's nodes are painted. */
  const HIGHLIGHT_COLOR := "#ebc934"

  /**
   `matchesStart`: case-insensitively, the query begins the abbreviation or the
   DOI, or occurs anywhere in the scale name or the citation.
   */
  function MatchesStart(search: string, s: Submission): (r: bool)
    ensures r <==> var q := Lower(search);
      || IsPrefix(q, Lower(s.scaleAbbr)) || IsSubstring(q, Lower(s.scaleName))
      || IsSubstring(q, Lower(s.citation)) || IsPrefix(q, Lower(s.doi))
  {
    var q := Lower(search);
    StartsWith(Lower(s.scaleAbbr), q) || Includes(Lower(s.scaleName), q)
    || Includes(Lower(s.citation), q) || StartsWith(Lower(s.doi), q)
  }

  /** The query "apa" begins the abbreviation "APA-7". */
  lemma PrefixExample()
    ensures MatchesStart("apa", Submission(1, "APA-7", "", "", ""))
  {
    assert Lower("APA-7")[..3] == "apa";
  }

  /** The query "apa" occurs inside a citation. */
  lemma SubstringExample()
    ensures MatchesStart("apa", Submission(2, "x", "", "(apa)", ""))
  {
    assert Lower("(apa)")[1..4] == "apa";
    assert OccursAt("apa", Lower("(apa)"), 1);
  }

  /** The query "apa" matches neither the abbreviation "mla" nor a citation without it. */
  lemma MissExample()
    ensures !MatchesStart("apa", Submission(3, "mla", "", "mla", ""))
  {
    assert Lower("mla") == "mla";
    assert "mla"[0..3][0] == 'm' && "apa"[0] == 'a';
    assert !IsSubstring("apa", "mla");
  }

  /** The keys of `s` ascend. */
  ghost predicate KeysAscending(s: seq<Submission>)
  {
    forall i, j :: 0 <= i < j < |s| ==> s[i].key < s[j].key
  }

  /**
   `filteredSubmissions`: nothing for an empty query; otherwise the listed
   records that match and are not selected, in listing order.
   */
  function FilteredSubmissions(search: string, values: seq<Submission>, selected: set<nat>): (r: seq<Submission>)
    ensures search == "" ==> r == []
    ensures search != "" ==> forall x :: x in r <==> x in values && MatchesStart(search, x) && x.key !in selected
    ensures search != "" ==> r == Filter(values, x => MatchesStart(search, x) && x.key !in selected)
  {
    if search == "" then [] else Filter(values, x => MatchesStart(search, x) && x.key !in selected)
  }

  /** A record below every key of an ascending list extends it at the front. */
  lemma ConsAscending(x: Submission, rest: seq<Submission>)
    requires KeysAscending(rest) && forall y :: y in rest ==> x.key < y.key
    ensures KeysAscending([x] + rest)
  {
    var r := [x] + rest;
    forall i, j | 0 <= i < j < |r| ensures r[i].key < r[j].key {
      if i == 0 {
        assert r[j] == rest[j - 1];
      } else {
        assert r[i] == rest[i - 1] && r[j] == rest[j - 1];
      }
    }
  }

  /** Filtering records listed by ascending key leaves them ascending. */
  lemma {:induction false} FilterKeepsAscending(s: seq<Submission>, p: Submission -> bool)
    requires KeysAscending(s)
    ensures KeysAscending(Filter(s, p))
  {
    if s != [] {
      var tail := s[1..];
      assert KeysAscending(tail);
      FilterKeepsAscending(tail, p);
      var rest := Filter(tail, p);
      if p(s[0]) {
        forall y | y in rest ensures s[0].key < y.key {
          var j :| 0 <= j < |tail| && tail[j] == y;
          assert s[j + 1] == y;
        }
        ConsAscending(s[0], rest);
        assert Filter(s, p) == [s[0]] + rest;
      } else {
        assert Filter(s, p) == rest;
      }
    }
  }

  /**
   The record Enter picks when the records are listed by ascending key (the
   order the source dictionary enumerates them in): the matching unselected
   record with the smallest key.
   */
  lemma EnterPicksSmallestKey(search: string, values: seq<Submission>, selected: set<nat>)
    requires KeysAscending(values)
    requires FilteredSubmissions(search, values, selected) != []
    ensures var r := FilteredSubmissions(search, values, selected);
      && r[0] in values && MatchesStart(search, r[0]) && r[0].key !in selected
      && forall x :: x in values && MatchesStart(search, x) && x.key !in selected ==> r[0].key <= x.key
  {
    var r := FilteredSubmissions(search, values, selected);
    FilterKeepsAscending(values, x => MatchesStart(search, x) && x.key !in selected);
    assert r[0] in r;
    forall x | x in values && MatchesStart(search, x) && x.key !in selected
      ensures r[0].key <= x.key
    {
      assert x in r;
      var j :| 0 <= j < |r| && r[j] == x;
    }
  }

  /** The ECMAScript `\s` class: WhiteSpace and LineTerminator characters. */
  predicate IsJsSpace(c: char)
  {
    || c == '\t' || c == '\n' || c == '\U{000B}' || c == '\U{000C}' || c == '\r' || c == ' '
    || c == '\U{00A0}' || c == '\U{1680}' || ('\U{2000}' <= c <= '\U{200A}')
    || c == '\U{2028}' || c == '\U{2029}' || c == '\U{202F}' || c == '\U{205F}'
    || c == '\U{3000}' || c == '\U{FEFF}'
  }

  /** The longest prefix of `s` free of commas and whitespace: what `/^[^,\s]+/` matches. */
  function LeadingToken(s: string): (r: string)
    ensures IsPrefix(r, s)
    ensures forall i :: 0 <= i < |r| ==> r[i] != ',' && !IsJsSpace(r[i])
    ensures |r| < |s| ==> s[|r|] == ',' || IsJsSpace(s[|r|])
  {
    if s == [] || s[0] == ',' || IsJsSpace(s[0]) then []
    else [s[0]] + LeadingToken(s[1..])
  }

  /**
   The badge text for a selected source: its abbreviation, unless that is
   `"none"`; then the first comma- and space-free run of its citation and
   `"..."`. When the citation has no such run the regular expression fails and
   the text reads `"undefined..."`.
   */
  function BadgeLabel(s: Submission): (r: string)
    ensures s.scaleAbbr != "none" ==> r == s.scaleAbbr
    ensures s.scaleAbbr == "none" && LeadingToken(s.citation) != [] ==>
              r == LeadingToken(s.citation) + "..." && IsPrefix(LeadingToken(s.citation), s.citation)
    ensures s.scaleAbbr == "none" && (s.citation == [] || s.citation[0] == ',' || IsJsSpace(s.citation[0])) ==>
              r == "undefined..."
  {
    if s.scaleAbbr != "none" then s.scaleAbbr
    else
      var t := LeadingToken(s.citation);
      (if t == [] then "undefined" else t) + "..."
  }

  /**
   The bold part of a dropdown entry as written. JavaScript's `+` binds
   tighter than `==`, so after the first test the expression compares the
   name and the abbreviation joined together with `"none"`, and the name
   itself is never part of the text.
   */
  function DropdownPrefix(s: Submission): (r: string)
    ensures s.scaleAbbr == "none" ==> r == ""
    ensures r == "" || r == " (" + s.scaleAbbr + "): "
  {
    if s.scaleAbbr == "none" then ""
    else if s.scaleName + s.scaleAbbr == "none" then ""
    else " (" + s.scaleAbbr + "): "
  }

  /** The bold part as the surrounding markup intends it: the name, then the abbreviation in brackets. */
  function DropdownPrefixIntended(s: Submission): (r: string)
    ensures s.scaleAbbr == "none" ==> r == ""
    ensures s.scaleAbbr != "none" ==> IsPrefix(s.scaleName, r) && r[|s.scaleName|..] == " (" + s.scaleAbbr + "): "
  {
    if s.scaleAbbr == "none" then "" else s.scaleName + " (" + s.scaleAbbr + "): "
  }

  /** A named scale with an abbreviation shows only the abbreviation, where the name was meant to lead. */
  lemma DropdownDropsName()
    ensures DropdownPrefix(Submission(0, "PWB", "Well-Being", "", "")) == " (PWB): "
    ensures DropdownPrefixIntended(Submission(0, "PWB", "Well-Being", "", "")) == "Well-Being (PWB): "
  {
    assert "Well-Being" + "PWB" != "none" by {
      assert |"Well-Being" + "PWB"| == 13;
    }
  }

  /**
   `submissionMap`: one entry per key, the last record listed with a key
   winning; `keys` is the dictionary's own key order, ascending because
   the keys are integers.
   */
  method BuildSubmissionMap(subs: seq<Submission>) returns (m: map<nat, Submission>, keys: seq<nat>)
    ensures m == KeyBy(subs, SubmissionKey)
    ensures Ascending(keys) && forall k :: k in keys <==> k in m
  {
    m, keys := map[], [];
    var i := 0;
    while i < |subs|
      invariant i <= |subs|
      invariant m == KeyBy(subs[..i], SubmissionKey)
      invariant Ascending(keys) && forall k :: k in keys <==> k in m
    {
      assert subs[..i + 1][..i] == subs[..i];
      m := m[subs[i].key := subs[i]];
      keys := InsertAscending(keys, subs[i].key);
      i := i + 1;
    }
    assert subs[..i] == subs;
  }

  /**
   `submissionToNodeIds`: node `n` is in the bucket of key `k` exactly when `k`
   is among `n`'s sources; only keys some node carries have a bucket.
   */
  method BuildSubmissionIndex(order: seq<string>, attrs: map<string, NodeAttrs>) returns (index: map<nat, set<string>>)
    requires forall n :: n in order <==> n in attrs
    ensures forall k, n :: k in index && n in index[k] <==> n in attrs && k in attrs[n].submissions
    ensures forall k :: k in index ==> index[k] != {}
  {
    index := map[];
    var i := 0;
    while i < |order|
      invariant i <= |order|
      invariant forall k, n :: k in index && n in index[k] <==> n in order[..i] && k in attrs[n].submissions
      invariant forall k :: k in index ==> index[k] != {}
    {
      var node := order[i];
      var todo := attrs[node].submissions;
      while todo != {}
        invariant todo <= attrs[node].submissions
        invariant forall k, n :: k in index && n in index[k] <==>
                    (n in order[..i] && k in attrs[n].submissions) || (n == node && k in attrs[node].submissions - todo)
        invariant forall k :: k in index ==> index[k] != {}
        decreases todo
      {
        var k :| k in todo;
        if k !in index {
          index := index[k := {}];
        }
        index := index[k := index[k] + {node}];
        todo := todo - {k};
      }
      assert order[..i + 1] == order[..i] + [node];
      i := i + 1;
    }
    assert order[..i] == order;
  }

  /**
   Highlight soundness: every node whose colour differs from its backup is
   painted with the highlight colour and lies in the bucket of a selected key.
   */
  ghost predicate HighlightSound(attrs: map<string, NodeAttrs>, selected: set<nat>, index: map<nat, set<string>>)
  {
    forall n :: n in attrs && attrs[n].color != attrs[n].colorBackup ==>
      attrs[n].color == HIGHLIGHT_COLOR && exists k :: k in selected && n in Bucket(index, k)
  }

  /** Selecting a key keeps highlights sound. */
  lemma SelectKeepsSound(attrs: map<string, NodeAttrs>, selected: set<nat>, index: map<nat, set<string>>, k: nat)
    requires HighlightSound(attrs, selected, index)
    ensures HighlightSound(Painted(attrs, Bucket(index, k), HIGHLIGHT_COLOR), selected + {k}, index)
  {
    var after := Painted(attrs, Bucket(index, k), HIGHLIGHT_COLOR);
    forall n | n in after && after[n].color != after[n].colorBackup
      ensures after[n].color == HIGHLIGHT_COLOR && exists j :: j in selected + {k} && n in Bucket(index, j)
    {
      if n in Bucket(index, k) {
        assert k in selected + {k};
      } else {
        var j :| j in selected && n in Bucket(index, j);
        assert j in selected + {k};
      }
    }
  }

  /** Removing a key keeps highlights sound: its nodes get their backup colour back. */
  lemma RemoveKeepsSound(attrs: map<string, NodeAttrs>, selected: set<nat>, index: map<nat, set<string>>, k: nat)
    requires HighlightSound(attrs, selected, index)
    ensures HighlightSound(Restored(attrs, Bucket(index, k)), selected - {k}, index)
  {
    var after := Restored(attrs, Bucket(index, k));
    forall n | n in after && after[n].color != after[n].colorBackup
      ensures after[n].color == HIGHLIGHT_COLOR && exists j :: j in selected - {k} && n in Bucket(index, j)
    {
      var j :| j in selected && n in Bucket(index, j);
      assert n !in Bucket(index, k);
      assert j != k;
      assert j in selected - {k};
    }
  }

  /**
   The converse does not hold: with a node carrying two selected keys, removing
   one of them gives the node its backup colour although the other is still
   selected.
   */
  lemma RemoveUncoversSharedNode(attrs: map<string, NodeAttrs>, index: map<nat, set<string>>, selected: set<nat>,
                                 k1: nat, k2: nat, n: string)
    requires k1 in selected && k2 in selected && k1 != k2
    requires n in attrs && n in Bucket(index, k1) && n in Bucket(index, k2)
    requires attrs[n].colorBackup != HIGHLIGHT_COLOR
    ensures var painted := Painted(Painted(attrs, Bucket(index, k1), HIGHLIGHT_COLOR), Bucket(index, k2), HIGHLIGHT_COLOR);
      && painted[n].color == HIGHLIGHT_COLOR
      && k1 in selected - {k2} && n in Bucket(index, k1)
      && Restored(painted, Bucket(index, k2))[n].color != HIGHLIGHT_COLOR
  {
  }

  /**
   The panel's state: the dictionary of records and its key order, the index
   from key to nodes, the query text and the selected keys. `root` receives
   the selection through `setSubmissions`.
   */
  class SubmissionsPanel {
    const graph: Graph
    const root: Root
    const submissionMap: map<nat, Submission>
    const keyOrder: seq<nat>
    const index: map<nat, set<string>>
    var search: string
    var selected: set<nat>

    ghost predicate Valid()
      reads this, graph
    {
      && graph.Valid()
      && Ascending(keyOrder) && (forall k :: k in keyOrder <==> k in submissionMap)
      && (forall k :: k in submissionMap ==> submissionMap[k].key == k)
      && (forall k, n :: k in index && n in index[k] ==> n in graph.attrs)
      && graph == root.graph
    }

    /** The panel's first render: both dictionaries are built, the query is empty, nothing is selected. */
    constructor (root: Root, networkSubmissions: seq<Submission>)
      requires root.graph.Valid()
      ensures Valid() && this.root == root && graph == root.graph
      ensures submissionMap == KeyBy(networkSubmissions, SubmissionKey)
      ensures forall k, n :: k in index && n in index[k] <==> n in graph.attrs && k in graph.attrs[n].submissions
      ensures search == "" && selected == {}
    {
      var g := root.graph;
      var m, keys := BuildSubmissionMap(networkSubmissions);
      var idx := BuildSubmissionIndex(g.order, g.attrs);
      forall k | k in m ensures m[k].key == k {
        KeyByValue(networkSubmissions, SubmissionKey, k);
      }
      graph, this.root := g, root;
      submissionMap, keyOrder, index := m, keys, idx;
      search, selected := "", {};
    }

    /** `Object.values(submissionMap)`: the records in the dictionary's key order. */
    function Values(): (r: seq<Submission>)
      reads this, graph
      requires Valid()
      ensures |r| == |keyOrder| && KeysAscending(r)
      ensures forall x :: x in r <==> x in submissionMap.Values
    {
      var r := seq(|keyOrder|, i requires 0 <= i < |keyOrder| => submissionMap[keyOrder[i]]);
      assert forall x :: x in submissionMap.Values ==> x in r by {
        forall x | x in submissionMap.Values ensures x in r {
          var k :| k in submissionMap && submissionMap[k] == x;
          var i :| 0 <= i < |keyOrder| && keyOrder[i] == k;
          assert r[i] == x;
        }
      }
      r
    }

    /**
     `filteredSubmissions` on the current state: for a non-empty query, exactly
     the dictionary's matching unselected records, by ascending key.
     */
    function Filtered(): (r: seq<Submission>)
      reads this, graph
      requires Valid()
      ensures search == "" ==> r == []
      ensures forall x :: x in r ==> x.key in submissionMap && submissionMap[x.key] == x
                                      && MatchesStart(search, x) && x.key !in selected
      ensures search != "" ==> forall x :: x in submissionMap.Values && MatchesStart(search, x) && x.key !in selected ==> x in r
      ensures KeysAscending(r)
    {
      var vs := Values();
      var q, sel := search, selected;
      FilterKeepsAscending(vs, x => MatchesStart(q, x) && x.key !in sel);
      FilteredSubmissions(search, vs, selected)
    }

    /** `onInputChange`. */
    method SetSearch(value: string)
      modifies this
      ensures search == value && selected == old(selected)
    {
      search := value;
    }

    /**
     `handleSelect`: the key joins the selection (here and in the root's filter
     record), the query is cleared, and every node in the key's bucket is
     painted the highlight colour.
     */
    method HandleSelect(k: nat)
      requires Valid()
      modifies this, root, graph
      ensures Valid()
      ensures selected == old(selected) + {k} && search == ""
      ensures root.filters == WithSubmissions(old(root.filters), selected)
      ensures root.datasetState == old(root.datasetState) && (old(root.Valid()) ==> root.Valid())
      ensures graph.order == old(graph.order) && graph.edges == old(graph.edges)
      ensures graph.attrs == Painted(old(graph.attrs), Bucket(index, k), HIGHLIGHT_COLOR)
      ensures old(HighlightSound(graph.attrs, selected, index)) ==> HighlightSound(graph.attrs, selected, index)
      ensures forall n :: n in graph.attrs <==> n in old(graph.attrs)
      ensures forall n :: n in Bucket(index, k) ==> graph.attrs[n] == old(graph.attrs)[n].(color := HIGHLIGHT_COLOR)
      ensures forall n :: n in graph.attrs && n !in Bucket(index, k) ==> graph.attrs[n] == old(graph.attrs)[n]
    {
      var updated := selected + {k};
      selected := updated;
      root.SetSubmissions(updated);
      search := "";
      if k in index {
        graph.PaintAll(index[k], HIGHLIGHT_COLOR);
      } else {
        assert graph.attrs == Painted(old(graph.attrs), {}, HIGHLIGHT_COLOR);
      }
      PaintedFacts(old(graph.attrs), Bucket(index, k), HIGHLIGHT_COLOR);
      if old(HighlightSound(graph.attrs, selected, index)) {
        SelectKeepsSound(old(graph.attrs), old(selected), index, k);
      }
    }

    /**
     `handleRemove`: the key leaves the selection, and every node in its bucket
     takes its backup colour again, even when another selected key covers it.
     */
    method HandleRemove(k: nat)
      requires Valid()
      modifies this, root, graph
      ensures Valid()
      ensures selected == old(selected) - {k} && search == old(search)
      ensures root.filters == WithSubmissions(old(root.filters), selected)
      ensures root.datasetState == old(root.datasetState) && (old(root.Valid()) ==> root.Valid())
      ensures graph.order == old(graph.order) && graph.edges == old(graph.edges)
      ensures graph.attrs == Restored(old(graph.attrs), Bucket(index, k))
      ensures old(HighlightSound(graph.attrs, selected, index)) ==> HighlightSound(graph.attrs, selected, index)
      ensures forall n :: n in graph.attrs <==> n in old(graph.attrs)
      ensures forall n :: n in Bucket(index, k) ==> graph.attrs[n].color == graph.attrs[n].colorBackup
      ensures forall n :: n in graph.attrs && n !in Bucket(index, k) ==> graph.attrs[n] == old(graph.attrs)[n]
    {
      var updated := selected - {k};
      selected := updated;
      root.SetSubmissions(updated);
      if k in index {
        graph.RestoreAll(index[k]);
      } else {
        assert graph.attrs == Restored(old(graph.attrs), {});
      }
      if old(HighlightSound(graph.attrs, selected, index)) {
        RemoveKeepsSound(old(graph.attrs), old(selected), index, k);
      }
    }

    /** `onKeyDown`: Enter with a non-empty result list selects the first result; anything else does nothing. */
    method OnKeyDown(key: string)
      requires Valid()
      modifies this, root, graph
      ensures Valid()
      ensures var f := old(Filtered());
        if key == "Enter" && f != [] then
          && selected == old(selected) + {f[0].key} && search == ""
          && root.filters == WithSubmissions(old(root.filters), selected)
          && graph.attrs == Painted(old(graph.attrs), Bucket(index, f[0].key), HIGHLIGHT_COLOR)
        else
          && selected == old(selected) && search == old(search)
          && root.filters == old(root.filters) && graph.attrs == old(graph.attrs)
      ensures root.datasetState == old(root.datasetState) && (old(root.Valid()) ==> root.Valid())
      ensures graph.order == old(graph.order) && graph.edges == old(graph.edges)
      ensures old(HighlightSound(graph.attrs, selected, index)) ==> HighlightSound(graph.attrs, selected, index)
    {
      var f := Filtered();
      if key == "Enter" && |f| > 0 {
        HandleSelect(f[0].key);
      }
    }
  }
}
