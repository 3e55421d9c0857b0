/**
 The records of the dataset, of the filter state, and of the attributes the
 graph store keeps per node and per edge.
 */
module Types {
  import opened Common

  datatype Cluster = Cluster(key: string, color: string, clusterLabel: string)

  datatype Tag = Tag(key: string, image: string)

  /** A source record. Its key is a JSON number; the dataset uses array-index integers. */
  datatype Submission = Submission(key: nat, scaleAbbr: string, scaleName: string,
                                   citation: string, doi: string)

  datatype Scale = Scale(key: string, name: string, citation: string, doi: string)

  /** A text item attached to a node, with the facets the item panel displays. */
  datatype Item = Item(text: string, level: string, tense: string, context: string)

  /** A node as listed in the dataset file; `submissions` is a JSON array. */
  datatype NodeData = NodeData(key: string, nodeLabel: string, tag: string, url: string,
                               cluster: string, submissions: seq<nat>, scales: set<string>,
                               items: Option<seq<Item>>)

  datatype Dataset = Dataset(nodes: seq<NodeData>, edges: seq<(string, string)>,
                             clusters: seq<Cluster>, tags: seq<Tag>, scales: seq<Scale>,
                             submissions: seq<Submission>)

  /**
   The filter record: sparse maps of enabled clusters and tags (a missing key
   reads as falsy) and the set of selected source keys.
   */
  datatype FiltersState = FiltersState(clusters: map<string, bool>, tags: map<string, bool>,
                                       selectedSubmissions: set<nat>)

  /**
   The attributes a node carries in the graph store: the dataset fields, the
   cluster's colour and label, the colour kept for restoring after a highlight,
   the tag's image, and the scale-highlight flag (absent reads as false).
   */
  datatype NodeAttrs = NodeAttrs(key: string, nodeLabel: string, tag: string, url: string,
                                 cluster: string, submissions: set<nat>, scales: set<string>,
                                 items: Option<seq<Item>>, color: string, clusterLabel: string,
                                 colorBackup: string, image: string, highlighted: bool)

  /** A directed edge with its rendering attributes. */
  datatype Edge = Edge(source: string, target: string, size: real, color: string)

  function ClusterKey(c: Cluster): string { c.key }
  function TagKey(t: Tag): string { t.key }
  function NodeKey(n: NodeData): string { n.key }
  function SubmissionKey(s: Submission): nat { s.key }
}
