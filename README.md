# openflourishing_map views, modelled in Dafny

The map renders a network of well-being constructs. Each node has a cluster
(which gives its colour), a tag (which gives its image), the sources
("submissions") and scale references it comes from, and a list of text
items. This project models the four views that hold the map's logic:

- **Root view** (`root.dfy`, module `RootView`). It runs a one-time load on mount:
  - the bundled dataset is added to the graph store, node by node and then edge by edge;
  - each node takes its cluster's colour and label and keeps that colour as its backup;
  - each edge gets size 0.05 and its source node's cluster colour;
  - the filter record is set to "every cluster and tag on, no source selected".

  The view also hands callbacks to its panels: `setSubmissions`, `setClusters`
  and `toggleCluster`. The last one drops a truthy entry from the sparse
  cluster map, or sets it to `true`.
- **Graph store** (`graph.dfy`, module `GraphStore`). A class with
  - the node keys in insertion order,
  - a map from node key to its attribute record,
  - the edge list.

  It has the few mutators the views call, plus the bucket-wide updates the
  panels make: paint, restore the backup colour, set or clear the highlight flag.
  Each update is specified by a function on the attribute map.
- **Source search panel** (`submissions.dfy`, module `Submissions`). It has
  - case-insensitive matching: a prefix of the abbreviation or DOI, or a substring of the name or citation;
  - the dictionary of sources;
  - the index from source key to the nodes that carry it;
  - the result list, which excludes selected sources;
  - Enter, select and remove. Select paints the source's nodes `#ebc934`; remove restores their backup colour;
  - the badge text.
- **Scale search panel** (`scales.dfy`, module `Scales`). It has the same
  structure as the source panel, keyed by scale abbreviation. Its results
  follow the listing order, and select/remove sets or clears each node's
  `highlighted` flag.
- **Item panel** (`items.dfy`, module `Items`). It has
  - the selected node's own items;
  - the entries of its first five neighbours, where each name is the label or, when the label is empty, the key;
  - what is shown: ten own items, three per neighbour, and a count of the rest.

`common.dfy` holds the JavaScript and lodash behaviour the views rely on:
- ASCII `toLowerCase`, specified character by character;
- `startsWith` and `includes`, each proved against an independent prefix or substring definition;
- `Array.prototype.filter`;
- `keyBy`, where the last element with a key wins;
- the ascending order in which an object lists integer keys.

`types.dfy` holds the records.

The model follows the code as written. In particular:
- The source result list is `Object.values` of an object keyed by integer
  source keys. It is therefore in ascending key order, not dataset order, and
  Enter picks the matching unselected source with the smallest key
  (`Submissions.EnterPicksSmallestKey`).
- The neighbour list is a plain prefix of the graph's neighbour order. There
  is no weight ranking, and there are no level, tense or context filters on items.
- Removing a source or a scale resets every node in its bucket, including
  nodes that another selected source or scale still covers
  (`Submissions.RemoveUncoversSharedNode`, `Scales.RemoveClearsSharedNode`).
- A badge for an unabbreviated source whose citation is empty, or starts with
  a comma or whitespace, reads `"undefined..."`.

## Model

| member | source | states |
|---|---|---|
| Common.Lower | src/views/SubmissionsPanel.tsx:8 | same length; every letter A-Z mapped to lower case, all else kept; no upper-case ASCII letter remains |
| Common.StartsWith | src/views/SubmissionsPanel.tsx:10 | true exactly when the query is a prefix of the string |
| Common.Includes | src/views/SubmissionsPanel.tsx:11-12 | true exactly when the query occurs somewhere in the string as a contiguous block |
| Common.Filter | src/views/SubmissionsPanel.tsx:50-52 | no longer than the input; contains exactly the input elements satisfying the predicate |
| Common.FilterAppend | src/views/ScalesPanel.tsx:42-44 | filtering distributes over concatenation, so the listing order is kept |
| Common.FilterAll | src/views/ScalesPanel.tsx:42-44 | a predicate every element passes leaves the list unchanged |
| Common.FilterFirst | src/views/ScalesPanel.tsx:79-81 | the first result is an input element that passes, and no earlier element passes |
| Common.KeyBy | src/views/Root.tsx:67-69 | a key is present exactly when some listed element has it |
| Common.KeyByValue | src/views/Root.tsx:67-69 | every entry is a listed element filed under its own key |
| Common.KeyByLast | src/views/SubmissionsPanel.tsx:30-32 | an element after which no later element shares its key is the entry for that key |
| Common.KeyByLastIndex | src/views/Root.tsx:75-76 | every entry is the last listed element with its key |
| Common.Bucket | src/views/SubmissionsPanel.tsx:62-63 | the bucket filed under the key, or no nodes when the index has no entry for it, as the guard before the loop |
| Common.InsertAscending | src/views/SubmissionsPanel.tsx:29-31 | adding an integer key keeps the key list ascending, adds exactly that key, and leaves a present key in place |
| GraphStore.Graph.constructor | src/views/Root.tsx:29 | a new store is valid and empty |
| GraphStore.Graph.AddNode | src/views/Root.tsx:72-78 | a new key is appended to the node order with its attributes; edges unchanged |
| GraphStore.Graph.AddEdge | src/views/Root.tsx:81-84 | an edge between stored nodes that is new as a directed pair is appended; nodes unchanged |
| GraphStore.Graph.SetColor | src/views/SubmissionsPanel.tsx:64 | only that node's colour changes |
| GraphStore.Graph.SetHighlighted | src/views/ScalesPanel.tsx:56 | only that node's highlight flag changes |
| GraphStore.Graph.PaintAll | src/views/SubmissionsPanel.tsx:62-66 | the attribute map becomes Painted: the given nodes get the colour, all others keep their attributes |
| GraphStore.Graph.RestoreAll | src/views/SubmissionsPanel.tsx:75-80 | the attribute map becomes Restored: the given nodes take their backup colour, all others keep their attributes |
| GraphStore.Graph.MarkAll | src/views/ScalesPanel.tsx:54-58 | the attribute map becomes Marked: the given nodes get the flag, all others keep their attributes |
| GraphStore.PaintedFacts | src/views/SubmissionsPanel.tsx:62-66 | Painted keeps the node set, recolours exactly the bucket nodes and changes nothing else about them |
| GraphStore.PaintStep | src/views/SubmissionsPanel.tsx:63-65 | painting one more node extends the painted set by that node |
| GraphStore.RestoreStep | src/views/SubmissionsPanel.tsx:76-79 | restoring one more node extends the restored set by that node |
| GraphStore.MarkStep | src/views/ScalesPanel.tsx:55-57 | flagging one more node extends the flagged set by that node |
| GraphStore.PaintThenRestore | src/views/SubmissionsPanel.tsx:55-81 | remove right after select gives back the attribute map when the bucket nodes showed their backup colour |
| GraphStore.MarkThenClear | src/views/ScalesPanel.tsx:47-72 | remove right after select gives back the attribute map when the bucket nodes were unflagged |
| RootView.Toggled | src/views/Root.tsx:182-184 | the set of keys read as on flips for the toggled cluster only; a stored entry is `true`; other keys untouched |
| RootView.ToggledKeepsSparse | src/views/Root.tsx:182-184 | a map storing only `true` keeps storing only `true` |
| RootView.ToggleTwice | src/views/Root.tsx:179-186 | toggling twice restores which clusters are on; it restores the map itself unless a `false` was stored, which becomes absent |
| RootView.ToggleCluster | src/views/Root.tsx:179-186 | only the cluster map changes, by Toggled |
| RootView.WithClusters | src/views/Root.tsx:173-178 | only the cluster map changes, to the given one |
| RootView.WithSubmissions | src/views/Root.tsx:161-166 | only the selected source keys change, to the given set |
| RootView.LoadedFilters | src/views/Root.tsx:93-97 | cluster and tag maps hold exactly the dataset's keys, each `true`; no source selected |
| RootView.NodeAttrsAt | src/views/Root.tsx:72-78 | node i is stored under its own key with backup colour equal to colour and no highlight |
| RootView.NodeAttrsAtFacts | src/views/Root.tsx:71-79 | a stored node keeps its key, label, tag, URL, cluster, items and scales and its sources as a set; takes the colour and label of the last cluster listed under its cluster key and the image of the last tag listed under its tag key; has backup colour equal to colour; starts unflagged |
| RootView.EdgeAt | src/views/Root.tsx:81-84 | the stored edge joins the dataset edge's source to its target with size 0.05 |
| RootView.NodeStep | src/views/Root.tsx:71-79 | with unique node keys each next node key is new, and the loaded prefix grows by that node |
| RootView.EdgeEndsStored | src/views/Root.tsx:80-83 | after the nodes are loaded, every dataset edge resolves its source's cluster and both its ends are stored |
| RootView.EdgeStep | src/views/Root.tsx:80-85 | with unique edges each next edge is new to the store, and the loaded prefix grows by that edge |
| RootView.LoadedEdgeColor | src/views/Root.tsx:80-85 | after loading, every edge joins stored nodes, has size 0.05, and has its source node's backup colour |
| RootView.Root.constructor | src/views/Root.tsx:29-37 | empty fresh graph, no dataset recorded, empty filter record |
| RootView.Root.LoadOnMount | src/views/Root.tsx:64-110 | when a dataset is recorded nothing changes; otherwise all nodes then all edges are loaded, the loaded filters are set and the dataset is recorded |
| RootView.Root.LoadNodes | src/views/Root.tsx:71-79 | the graph holds exactly the dataset nodes, in dataset order, with their attributes |
| RootView.Root.LoadEdges | src/views/Root.tsx:80-85 | the graph holds exactly the dataset edges in order; nodes unchanged |
| RootView.Root.SetSubmissions | src/views/Root.tsx:161-166 | filter record updated by WithSubmissions |
| RootView.Root.SetClusters | src/views/Root.tsx:173-178 | filter record updated by WithClusters |
| RootView.Root.ToggleClusterOf | src/views/Root.tsx:179-186 | filter record updated by ToggleCluster |
| Submissions.MatchesStart | src/views/SubmissionsPanel.tsx:7-15 | true exactly when the lowered query is a prefix of the lowered abbreviation or DOI, or a substring of the lowered name or citation |
| Submissions.PrefixExample | src/views/SubmissionsPanel.tsx:10 | "apa" matches the abbreviation "APA-7" |
| Submissions.SubstringExample | src/views/SubmissionsPanel.tsx:12 | "apa" matches inside a citation |
| Submissions.MissExample | src/views/SubmissionsPanel.tsx:7-15 | "apa" does not match a record without it |
| Submissions.FilteredSubmissions | src/views/SubmissionsPanel.tsx:48-53 | empty for an empty query; otherwise exactly the listed records that match and are unselected, as an order-preserving filter |
| Submissions.FilterKeepsAscending | src/views/SubmissionsPanel.tsx:50-52 | filtering records in ascending key order leaves them ascending |
| Submissions.EnterPicksSmallestKey | src/views/SubmissionsPanel.tsx:87-91 | the first result is a matching unselected record whose key is no larger than any other such record's |
| Submissions.LeadingToken | src/views/SubmissionsPanel.tsx:101 | a prefix of the citation with no comma or whitespace, ending at a comma, a whitespace character or the end |
| Submissions.BadgeLabel | src/views/SubmissionsPanel.tsx:98-102 | the abbreviation unless it is "none"; then the leading token plus "...", or "undefined..." when no token exists |
| Submissions.DropdownPrefix | src/views/SubmissionsPanel.tsx:129-135 | empty for "none", and otherwise either empty or " (abbr): ", never holding the name |
| Submissions.DropdownPrefixIntended | src/views/SubmissionsPanel.tsx:129-135 | empty for "none"; otherwise the name followed by " (abbr): " |
| Submissions.DropdownDropsName | src/views/SubmissionsPanel.tsx:129-135 | for abbreviation "PWB" and name "Well-Being" the code shows " (PWB): " where "Well-Being (PWB): " was meant |
| Submissions.BuildSubmissionMap | src/views/SubmissionsPanel.tsx:28-34 | the dictionary is keyBy of the listed records (last wins), and its key list is ascending and holds exactly its keys |
| Submissions.BuildSubmissionIndex | src/views/SubmissionsPanel.tsx:36-46 | node n is in bucket k exactly when k is among n's sources; no bucket is empty |
| Submissions.SelectKeepsSound | src/views/SubmissionsPanel.tsx:55-67 | selecting keeps every recoloured node highlighted and covered by a selected key |
| Submissions.RemoveKeepsSound | src/views/SubmissionsPanel.tsx:69-81 | removing keeps every recoloured node covered by a still-selected key |
| Submissions.RemoveUncoversSharedNode | src/views/SubmissionsPanel.tsx:75-80 | a node in the buckets of two selected keys is painted after both selections and loses the highlight colour when one key is removed, though the other stays selected and still covers it |
| Submissions.SubmissionsPanel.constructor | src/views/SubmissionsPanel.tsx:25-46 | dictionary is keyBy of the records, index buckets match node sources, empty query, nothing selected |
| Submissions.SubmissionsPanel.Values | src/views/SubmissionsPanel.tsx:50 | one per key, in ascending key order, exactly the dictionary's values |
| Submissions.SubmissionsPanel.Filtered | src/views/SubmissionsPanel.tsx:48-53 | empty for an empty query; every result is the dictionary's record for its key, matches and is unselected; for a non-empty query every matching unselected record of the dictionary is listed; keys ascend |
| Submissions.SubmissionsPanel.SetSearch | src/views/SubmissionsPanel.tsx:83-85 | the query becomes the input value; the selection is unchanged |
| Submissions.SubmissionsPanel.HandleSelect | src/views/SubmissionsPanel.tsx:55-67 | key added to the selection and to the root's filter record, whose other fields and the recorded dataset stay; query cleared; exactly the bucket nodes painted `#ebc934`; highlight soundness kept |
| Submissions.SubmissionsPanel.HandleRemove | src/views/SubmissionsPanel.tsx:69-81 | key removed from the selection and the root's filter record, whose other fields and the recorded dataset stay; exactly the bucket nodes back to their backup colour; highlight soundness kept |
| Submissions.SubmissionsPanel.OnKeyDown | src/views/SubmissionsPanel.tsx:87-91 | Enter with results selects the first result; any other key, or no results, changes nothing; the root's dataset and highlight soundness are kept |
| Scales.MatchesStart | src/views/ScalesPanel.tsx:7-15 | true exactly when the lowered query is a prefix of the lowered key or DOI, or a substring of the lowered name or citation |
| Scales.KeyPrefixExample | src/views/ScalesPanel.tsx:10 | "per" matches the key "PERMA" |
| Scales.KeyInfixMissExample | src/views/ScalesPanel.tsx:10 | "rm" inside the key "PERMA" but not at its start does not match |
| Scales.FilteredScales | src/views/ScalesPanel.tsx:40-45 | empty for an empty query; otherwise exactly the listed scales that match and are unselected, as an order-preserving filter |
| Scales.EnterPicksFirstListed | src/views/ScalesPanel.tsx:78-82 | the first result is the first listed scale that matches and is unselected |
| Scales.BuildScaleIndex | src/views/ScalesPanel.tsx:28-38 | node n is in bucket s exactly when s is among n's scales; no bucket is empty |
| Scales.SelectKeepsFlagsSound | src/views/ScalesPanel.tsx:47-59 | selecting keeps every flagged node covered by a selected scale |
| Scales.RemoveKeepsFlagsSound | src/views/ScalesPanel.tsx:61-72 | removing keeps every flagged node covered by a still-selected scale |
| Scales.RemoveClearsSharedNode | src/views/ScalesPanel.tsx:67-71 | a node in the buckets of two selected scales is flagged after both selections and loses its flag when one is removed, though the other stays selected and still covers it |
| Scales.ScalesPanel.constructor | src/views/ScalesPanel.tsx:25-38 | index buckets match node scales, empty query, nothing selected |
| Scales.ScalesPanel.Filtered | src/views/ScalesPanel.tsx:40-45 | empty for an empty query; every result is a listed scale that matches and is unselected; for a non-empty query every such listed scale is a result; the first result is the first listed scale that matches and is unselected |
| Scales.ScalesPanel.SetSearch | src/views/ScalesPanel.tsx:74-76 | the query becomes the input value; the selection is unchanged |
| Scales.ScalesPanel.HandleSelect | src/views/ScalesPanel.tsx:47-59 | scale added to the selection and reported, query cleared, exactly the bucket nodes flagged; flag soundness kept |
| Scales.ScalesPanel.HandleRemove | src/views/ScalesPanel.tsx:61-72 | scale removed from the selection and reported, exactly the bucket nodes unflagged; flag soundness kept |
| Scales.ScalesPanel.OnKeyDown | src/views/ScalesPanel.tsx:78-82 | Enter with results selects the first result; any other key, or no results, changes nothing |
| Items.ItemsOf | src/views/ItemsPanel.tsx:29 | the `items` attribute, or no items when it is absent |
| Items.SelectedNodeItems | src/views/ItemsPanel.tsx:18 | empty without a truthy selection or without an items attribute; otherwise the node's items |
| Items.EntryOf | src/views/ItemsPanel.tsx:27-29 | named by the label when it is non-empty, else by the key; holding the node's items or none |
| Items.Entries | src/views/ItemsPanel.tsx:27-30 | one entry per neighbour, position by position |
| Items.Take | src/views/ItemsPanel.tsx:30 | the prefix of length min(k, length) |
| Items.NeighborItems | src/views/ItemsPanel.tsx:21-33 | empty without a truthy selection; otherwise min(5, neighbours) entries, entry i named by neighbour i's label or its key, holding its items or none |
| Items.NeighborSlot | src/views/ItemsPanel.tsx:27-30 | entry i is the entry of neighbour i, one of the first five |
| Items.Capped | src/views/ItemsPanel.tsx:53-66 | the shown items are a prefix of length min(cap, length); the rest count appears exactly past the cap and equals length minus cap |
| Items.CappedAccountsForAll | src/views/ItemsPanel.tsx:53-66 | shown items plus the counted rest make up the whole list |
| Items.BlockOf | src/views/ItemsPanel.tsx:77-93 | the entry's name, the first min(3, n) of its n items, and a rest count of n - 3 exactly when n is more than three |
| Items.NeighborBlocks | src/views/ItemsPanel.tsx:75-96 | no more blocks than entries |
| Items.NeighborBlocksSound | src/views/ItemsPanel.tsx:75-96 | every block is the block of an entry with items |
| Items.NeighborBlocksAppend | src/views/ItemsPanel.tsx:75 | blocks of concatenated entries are the concatenated blocks, so the blocks keep the neighbour order |
| Items.NeighborBlocksComplete | src/views/ItemsPanel.tsx:76-92 | every entry with items gets its block |
| Items.Render | src/views/ItemsPanel.tsx:37-103 | with a truthy selection: the label, the item count, the own section or the no-items note, the neighbour heading whenever there are neighbours, and the blocks; otherwise the prompt |
| Items.BlocksFromFirstSlots | src/views/ItemsPanel.tsx:24-30 | every block belongs to one of the first five neighbours, and that neighbour has items |
| Items.EmptyNeighborsUseSlots | src/views/ItemsPanel.tsx:30 | when the first five neighbours have no items, no block appears (the heading does), whatever later neighbours hold |

## Findings

| source | as written | input that shows it | evidently intended | confidence | as-written member | corrected member |
|---|---|---|---|---|---|---|
| src/views/SubmissionsPanel.tsx:130-135 | `scale_abbr == "none" ? "" : scale_name + scale_abbr == "none" ? "" : " (" + scale_abbr + "): "`, in which `+` binds before `==`, so the scale name is never printed | abbreviation "PWB", name "Well-Being": the entry starts " (PWB): " | "Well-Being (PWB): ", the name and then the abbreviation | high, from operator precedence; not executed | Submissions.DropdownPrefix | Submissions.DropdownPrefixIntended |

## Left out

- The node `size` to radius rewrite (`Root.tsx:87-91`) is not modelled. It is floating-point arithmetic on an attribute the views do not read.
- Positions, `size` and other dataset fields that the node spread copies but no view reads are left out of the attribute record.
- `image` holds the tag's image key. The lookup through `imageMap` is not part of this model.
- The conversion of the dataset into `safeDataset` is not modelled. The recorded dataset is the bundled one, so node sources stay a list.
- `dataReady`, `requestAnimationFrame`, `showContents`, `hoveredNode`, the sigma settings and all markup are rendering only and are left out. The exceptions are the parts modelled as functions: the badge, the dropdown prefix and the item panel view.
- RootView.Root.LoadOnMount requires a well-formed dataset: unique node keys, unique directed edges, known edge ends, and a known cluster and tag for every node. On other data the graph library or the lookups throw part-way through, and that failure is not modelled.
- Items.SelectedNodeItems, Items.NeighborItems, Items.Render: a selected node or neighbour missing from the graph makes the library's `getNodeAttribute` throw; that failure is not modelled, and these members require every node they read to be stored.
- `neighbors` comes from the graph library, and its order is the library's own. Items.NeighborItems takes that sequence as a parameter.
- Common.Lower lowers only the ASCII letters. Unicode case mapping is not modelled.
- Submissions.SubmissionsPanel.Values assumes source keys are array-index integers. Integer keys of 2^32 - 1 and above would be listed in insertion order.
- The owner of the scale panel's `setScales` callback is not part of this model. Scales.ScalesPanel keeps the last reported set in `reported`.
- React defers state updates to the next render. The model applies each update when its handler runs, and the memoised dictionary and index are built once, in the constructor.
- Dafny maps have no inherited keys. In the source, a cluster or scale key named after an `Object.prototype` member such as `constructor` or `toString` reads as present in the plain objects used as maps (`Root.tsx:182`, `ScalesPanel.tsx:33-34`), which would block re-enabling that cluster or throw while building the scale index. Dataset keys of that form are not modelled.
- The unused `filters` props of the two search panels, and the display condition of the dropdown, are rendering only.
