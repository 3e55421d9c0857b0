/**
 The item panel: for the selected node, its own items and the items of its
 first five neighbours, and what the panel shows of them (at most ten own
 items, at most three per neighbour, and a count of the rest).

 The neighbour sequence is the graph library's `neighbors` result, taken as
 a parameter here because its order is the library's own.
 */
module Items {
  import opened Common
  import opened Types

  /** How many own items are listed, and how many per neighbour. */
  const OWN_CAP := 10
  const NEIGHBOR_CAP := 3
  /** How many neighbours are consulted. */
  const NEIGHBOR_SLOTS := 5

  /** A neighbour as the panel lists it: its display name and its items. */
  datatype NeighborEntry = NeighborEntry(name: string, items: seq<Item>)

  /** The listed prefix of a list of items and, when some are left unlisted, how many. */
  datatype Section = Section(shown: seq<Item>, more: Option<nat>)

  /** A rendered neighbour block. */
  datatype Block = Block(name: string, section: Section)

  /**
   The panel: a prompt without a selection; otherwise the node's label, its
   item count, its own section (None for the "no items" note), whether the
   neighbour heading appears, and the neighbour blocks.
   */
  datatype View =
    | Prompt
    | NodeView(title: string, count: nat, own: Option<Section>, related: bool, blocks: seq<Block>)

  /** JavaScript truthiness of `selectedNode`: neither null nor the empty string. */
  predicate Truthy(sel: Option<string>)
  {
    sel.Some? && sel.value != ""
  }

  /** The `items` attribute, `[]` when it is absent. */
  function ItemsOf(a: NodeAttrs): (r: seq<Item>)
    ensures a.items.None? ==> r == []
    ensures a.items.Some? ==> r == a.items.value
  {
    if a.items.Some? then a.items.value else []
  }

  /** `selectedNodeItems`. */
  function SelectedNodeItems(attrs: map<string, NodeAttrs>, sel: Option<string>): (r: seq<Item>)
    requires Truthy(sel) ==> sel.value in attrs
    ensures !Truthy(sel) ==> r == []
    ensures Truthy(sel) && attrs[sel.value].items.None? ==> r == []
    ensures Truthy(sel) && attrs[sel.value].items.Some? ==> r == attrs[sel.value].items.value
  {
    if Truthy(sel) then ItemsOf(attrs[sel.value]) else []
  }

  /** A neighbour's entry: its label, or its key when the label is empty, and its items. */
  function EntryOf(attrs: map<string, NodeAttrs>, n: string): (e: NeighborEntry)
    requires n in attrs
    ensures attrs[n].nodeLabel != "" ==> e.name == attrs[n].nodeLabel
    ensures attrs[n].nodeLabel == "" ==> e.name == n
    ensures e.items == ItemsOf(attrs[n])
  {
    NeighborEntry(if attrs[n].nodeLabel != "" then attrs[n].nodeLabel else n, ItemsOf(attrs[n]))
  }

  /** `neighbors.map(...)`: one entry per neighbour, position by position. */
  function Entries(attrs: map<string, NodeAttrs>, nbrs: seq<string>): (r: seq<NeighborEntry>)
    requires forall x :: x in nbrs ==> x in attrs
    ensures |r| == |nbrs|
    ensures forall i :: 0 <= i < |nbrs| ==> r[i] == EntryOf(attrs, nbrs[i])
  {
    if nbrs == [] then [] else [EntryOf(attrs, nbrs[0])] + Entries(attrs, nbrs[1..])
  }

  /** The first `k` elements, or all of them when there are fewer. */
  function Take<T>(s: seq<T>, k: nat): (r: seq<T>)
    ensures |r| == if |s| < k then |s| else k
    ensures r == s[..|r|]
  {
    if |s| < k then s else s[..k]
  }

  /**
   `getNeighborItems`: nothing without a selection; otherwise the entries of
   the first five neighbours, in the neighbour order.
   */
  function NeighborItems(attrs: map<string, NodeAttrs>, sel: Option<string>, nbrs: seq<string>): (r: seq<NeighborEntry>)
    requires forall x :: x in nbrs ==> x in attrs
    ensures !Truthy(sel) ==> r == []
    ensures Truthy(sel) ==> |r| == if |nbrs| < NEIGHBOR_SLOTS then |nbrs| else NEIGHBOR_SLOTS
    ensures forall i :: 0 <= i < |r| ==>
      && r[i].name == (if attrs[nbrs[i]].nodeLabel != "" then attrs[nbrs[i]].nodeLabel else nbrs[i])
      && r[i].items == (if attrs[nbrs[i]].items.Some? then attrs[nbrs[i]].items.value else [])
  {
    if Truthy(sel) then Take(Entries(attrs, nbrs), NEIGHBOR_SLOTS) else []
  }

  /** `items.slice(0, cap)` with the "... and n more items" count shown only past the cap. */
  function Capped(items: seq<Item>, cap: nat): (r: Section)
    ensures IsPrefix(r.shown, items) && |r.shown| == if |items| < cap then |items| else cap
    ensures r.more.Some? <==> |items| > cap
    ensures r.more.Some? ==> r.more.value == |items| - cap
  {
    var shown := Take(items, cap);
    Section(shown, if |items| > cap then Some(|items| - cap) else None)
  }

  /** Nothing is lost: the listed items and the counted rest make up the whole list. */
  lemma CappedAccountsForAll(items: seq<Item>, cap: nat)
    ensures var r := Capped(items, cap);
      |r.shown| + (if r.more.Some? then r.more.value else 0) == |items|
      && r.shown + items[|r.shown|..] == items
  {
    var r := Capped(items, cap);
    assert r.shown == items[..|r.shown|];
  }

  /** The block of a neighbour entry: its name and at most three of its items. */
  function BlockOf(e: NeighborEntry): (b: Block)
    ensures b.name == e.name && IsPrefix(b.section.shown, e.items) && |b.section.shown| <= NEIGHBOR_CAP
    ensures b.section.more.Some? <==> |e.items| > NEIGHBOR_CAP
    ensures |b.section.shown| == if |e.items| < NEIGHBOR_CAP then |e.items| else NEIGHBOR_CAP
    ensures b.section.more.Some? ==> b.section.more.value == |e.items| - NEIGHBOR_CAP
  {
    Block(e.name, Capped(e.items, NEIGHBOR_CAP))
  }

  /** The neighbour blocks: entries without items are skipped, the others show three items. */
  function NeighborBlocks(es: seq<NeighborEntry>): (r: seq<Block>)
    ensures |r| <= |es|
  {
    if es == [] then []
    else (if es[0].items != [] then [BlockOf(es[0])] else []) + NeighborBlocks(es[1..])
  }

  /** Every block is the block of an entry with items. */
  lemma {:induction false} NeighborBlocksSound(es: seq<NeighborEntry>, b: Block)
    requires b in NeighborBlocks(es)
    ensures exists i :: 0 <= i < |es| && es[i].items != [] && b == BlockOf(es[i])
  {
    if !(es[0].items != [] && b == BlockOf(es[0])) {
      NeighborBlocksSound(es[1..], b);
      var j :| 0 <= j < |es[1..]| && es[1..][j].items != [] && b == BlockOf(es[1..][j]);
      assert es[j + 1] == es[1..][j];
    }
  }

  /** Blocks of a concatenation are the concatenated blocks, so blocks keep the neighbour order. */
  lemma {:induction false} NeighborBlocksAppend(a: seq<NeighborEntry>, b: seq<NeighborEntry>)
    ensures NeighborBlocks(a + b) == NeighborBlocks(a) + NeighborBlocks(b)
  {
    if a == [] {
      assert a + b == b;
    } else {
      assert (a + b)[1..] == a[1..] + b;
      NeighborBlocksAppend(a[1..], b);
    }
  }

  /** Every entry with items gets a block. */
  lemma {:induction false} NeighborBlocksComplete(es: seq<NeighborEntry>, e: NeighborEntry)
    requires e in es && e.items != []
    ensures BlockOf(e) in NeighborBlocks(es)
  {
    if es[0] != e {
      NeighborBlocksComplete(es[1..], e);
    }
  }

  /** The whole panel. */
  function Render(attrs: map<string, NodeAttrs>, sel: Option<string>, nbrs: seq<string>): (v: View)
    requires Truthy(sel) ==> sel.value in attrs
    requires forall x :: x in nbrs ==> x in attrs
    ensures !Truthy(sel) <==> v == Prompt
    ensures Truthy(sel) ==>
      && v.title == attrs[sel.value].nodeLabel
      && v.count == |SelectedNodeItems(attrs, sel)|
      && (v.own.None? <==> SelectedNodeItems(attrs, sel) == [])
      && (v.own.Some? ==> v.own.value == Capped(SelectedNodeItems(attrs, sel), OWN_CAP))
      && (v.related <==> nbrs != [])
      && v.blocks == NeighborBlocks(NeighborItems(attrs, sel, nbrs))
  {
    if !Truthy(sel) then Prompt
    else
      var own := SelectedNodeItems(attrs, sel);
      var es := NeighborItems(attrs, sel, nbrs);
      NodeView(attrs[sel.value].nodeLabel, |own|,
               if own != [] then Some(Capped(own, OWN_CAP)) else None,
               es != [], NeighborBlocks(es))
  }

  /** Slot `i` of the neighbour list is the entry of the `i`-th neighbour, one of the first five. */
  lemma NeighborSlot(attrs: map<string, NodeAttrs>, sel: Option<string>, nbrs: seq<string>, i: nat)
    requires forall x :: x in nbrs ==> x in attrs
    requires i < |NeighborItems(attrs, sel, nbrs)|
    ensures i < |nbrs| && i < NEIGHBOR_SLOTS && NeighborItems(attrs, sel, nbrs)[i] == EntryOf(attrs, nbrs[i])
  {
  }

  /**
   Every block names one of the first five neighbours: neighbours past the
   fifth are never consulted.
   */
  lemma BlocksFromFirstSlots(attrs: map<string, NodeAttrs>, sel: Option<string>, nbrs: seq<string>, b: Block)
    requires forall x :: x in nbrs ==> x in attrs
    requires b in NeighborBlocks(NeighborItems(attrs, sel, nbrs))
    ensures exists i :: 0 <= i < |nbrs| && i < NEIGHBOR_SLOTS && ItemsOf(attrs[nbrs[i]]) != []
              && b == BlockOf(EntryOf(attrs, nbrs[i]))
  {
    var es := NeighborItems(attrs, sel, nbrs);
    NeighborBlocksSound(es, b);
    var i :| 0 <= i < |es| && es[i].items != [] && b == BlockOf(es[i]);
    NeighborSlot(attrs, sel, nbrs, i);
  }

  /**
   A neighbour without items is not shown but still takes one of the five
   slots: when the first five neighbours have none, nothing is shown for the
   neighbours, though the heading is, whatever items the sixth one has.
   */
  lemma EmptyNeighborsUseSlots(attrs: map<string, NodeAttrs>, sel: string, nbrs: seq<string>)
    requires sel != "" && sel in attrs
    requires forall x :: x in nbrs ==> x in attrs
    requires |nbrs| > NEIGHBOR_SLOTS
    requires forall i :: 0 <= i < NEIGHBOR_SLOTS ==> ItemsOf(attrs[nbrs[i]]) == []
    ensures var v := Render(attrs, Some(sel), nbrs); v.related && v.blocks == []
  {
    var v := Render(attrs, Some(sel), nbrs);
    if v.blocks != [] {
      BlocksFromFirstSlots(attrs, Some(sel), nbrs, v.blocks[0]);
    }
  }
}
