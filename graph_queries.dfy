/** The Cypher reads of mcp_code_indexer/environment/graph_database/ast_search/ast_manage.py,
    as functions of the graph: each returns the rows the query matches, in
    the order of relationship positions (or node ids). */
module GraphQueries {
  import opened Wrappers
  import opened GraphStore

  /** The kind labels `get_full_name_from_graph` looks for, in its order. */
  const Kinds: seq<string> := ["MODULE", "CLASS", "FUNCTION", "METHOD", "GLOBAL_VARIABLE", "FIELD"]

  function KindFrom(labels: set<string>, k: nat): (r: Option<string>)
    requires k <= |Kinds|
    ensures r.Some? ==> r.value in labels && r.value in Kinds
    ensures r.None? ==> forall j :: k <= j < |Kinds| ==> Kinds[j] !in labels
    decreases |Kinds| - k
  {
    if k == |Kinds| then None
    else if Kinds[k] in labels then Some(Kinds[k])
    else KindFrom(labels, k + 1)
  }

  /** `next(lbl for lbl in labels if lbl in [...])`; None stands for the
      StopIteration it raises when the node has no kind label. */
  function KindLabel(labels: set<string>): (r: Option<string>)
    ensures r.Some? ==> r.value in labels && r.value in Kinds
    ensures r.None? ==> forall j :: 0 <= j < |Kinds| ==> Kinds[j] !in labels
  {
    KindFrom(labels, 0)
  }

  /** `{name: '...'}` on a node. */
  predicate Named(n: Node, name: string) {
    "name" in n.props && n.props["name"] == name
  }

  /** How a Python value that may be None is written into the query text. */
  function PyText(s: Option<string>): (r: string)
    ensures s.Some? ==> r == s.value
    ensures s.None? ==> r == "None"
  {
    if s.None? then "None" else s.value
  }

  /** Relationship `k` is `(m:MODULE:task {full_name: mdl})-[:CONTAINS]->(c:task)`. */
  predicate ContainsAt(g: Graph, task: string, mdl: string, k: int) {
    0 <= k < |g.edges| && g.edges[k].rel == "CONTAINS" &&
    g.edges[k].src in g.nodes && g.edges[k].dst in g.nodes &&
    "MODULE" in g.nodes[g.edges[k].src].labels && task in g.nodes[g.edges[k].src].labels &&
    g.nodes[g.edges[k].src].fullName == mdl && task in g.nodes[g.edges[k].dst].labels
  }

  /** The first containment row of `mdl` whose node is named `target`. */
  function FirstContainedFrom(g: Graph, task: string, mdl: string, target: string, from: nat): (r: Option<nat>)
    ensures r.Some? ==> from <= r.value && ContainsAt(g, task, mdl, r.value) && Named(g.nodes[g.edges[r.value].dst], target)
    ensures r.Some? ==> forall j :: from <= j < r.value && ContainsAt(g, task, mdl, j) ==> !Named(g.nodes[g.edges[j].dst], target)
    ensures r.None? ==> forall j :: from <= j && ContainsAt(g, task, mdl, j) ==> !Named(g.nodes[g.edges[j].dst], target)
    decreases |g.edges| - from
  {
    if from >= |g.edges| then None
    else if ContainsAt(g, task, mdl, from) && Named(g.nodes[g.edges[from].dst], target) then Some(from)
    else FirstContainedFrom(g, task, mdl, target, from + 1)
  }

  /** The outcome of `get_full_name_from_graph`. */
  datatype Lookup = Found(fullName: string, kind: string) | NotFound | NoKind

  /** `get_full_name_from_graph(module, target)`: the first node the module
      CONTAINS with that name, its full name and kind; NotFound without one;
      NoKind when that node has no kind label (the StopIteration). */
  function FullNameFromGraph(g: Graph, task: string, mdl: string, target: string): (r: Lookup)
    ensures r.NotFound? <==> forall j :: ContainsAt(g, task, mdl, j) ==> !Named(g.nodes[g.edges[j].dst], target)
    ensures !r.NotFound? ==>
      var k := FirstContainedFrom(g, task, mdl, target, 0).value;
      var n := g.nodes[g.edges[k].dst];
      ContainsAt(g, task, mdl, k) && Named(n, target) &&
      (r.Found? <==> KindLabel(n.labels).Some?) &&
      (r.Found? ==> r.fullName == n.fullName && r.kind == KindLabel(n.labels).value)
  {
    match FirstContainedFrom(g, task, mdl, target, 0)
    case None => NotFound
    case Some(k) =>
      var n := g.nodes[g.edges[k].dst];
      match KindLabel(n.labels)
      case None => NoKind
      case Some(kind) => Found(n.fullName, kind)
  }

  /** All nodes the module CONTAINS, one per containment relationship, in order. */
  function ContainedFrom(g: Graph, task: string, mdl: string, from: nat): (r: seq<nat>)
    ensures forall i :: 0 <= i < |r| ==> r[i] in g.nodes
    ensures r == [] <==> forall j :: from <= j ==> !ContainsAt(g, task, mdl, j)
    decreases |g.edges| - from
  {
    if from >= |g.edges| then []
    else if ContainsAt(g, task, mdl, from) then [g.edges[from].dst] + ContainedFrom(g, task, mdl, from + 1)
    else ContainedFrom(g, task, mdl, from + 1)
  }

  /** A row `[full_name, kind]` of `get_all_name_from_graph`. */
  datatype NameRow = NameRow(fullName: string, kind: string)

  /** The outcome of `get_all_name_from_graph`. */
  datatype Names = NoRows | RowsNoKind | Rows(rows: seq<NameRow>)

  /** `get_all_name_from_graph(module)`: every node the module CONTAINS with
      its kind; None for no rows; NoKind when some row has no kind label. */
  function AllNamesFromGraph(g: Graph, task: string, mdl: string): (r: Names)
    ensures r.NoRows? <==> forall j :: !ContainsAt(g, task, mdl, j)
    ensures r.Rows? ==>
      var ids := ContainedFrom(g, task, mdl, 0);
      |r.rows| == |ids| > 0 &&
      forall i :: 0 <= i < |ids| ==>
        KindLabel(g.nodes[ids[i]].labels).Some? &&
        r.rows[i] == NameRow(g.nodes[ids[i]].fullName, KindLabel(g.nodes[ids[i]].labels).value)
    ensures r.RowsNoKind? ==>
      exists i :: 0 <= i < |ContainedFrom(g, task, mdl, 0)| && KindLabel(g.nodes[ContainedFrom(g, task, mdl, 0)[i]].labels).None?
  {
    var ids := ContainedFrom(g, task, mdl, 0);
    if ids == [] then NoRows
    else if exists i | 0 <= i < |ids| :: KindLabel(g.nodes[ids[i]].labels).None? then RowsNoKind
    else Rows(seq(|ids|, i requires 0 <= i < |ids| => NameRow(g.nodes[ids[i]].fullName, KindLabel(g.nodes[ids[i]].labels).value)))
  }

  /** Relationship `k` is `(c:CLASS:task {full_name: cls})-[:HAS_METHOD|HAS_FIELD]->(m:task)`. */
  predicate MemberAt(g: Graph, task: string, cls: string, k: int) {
    0 <= k < |g.edges| && (g.edges[k].rel == "HAS_METHOD" || g.edges[k].rel == "HAS_FIELD") &&
    g.edges[k].src in g.nodes && g.edges[k].dst in g.nodes &&
    "CLASS" in g.nodes[g.edges[k].src].labels && task in g.nodes[g.edges[k].src].labels &&
    g.nodes[g.edges[k].src].fullName == cls && task in g.nodes[g.edges[k].dst].labels
  }

  /** A row of `get_all_edge_of_class`: the member's full name, its `name`
      property (None when absent) and the relationship type. */
  datatype MemberRow = MemberRow(fullName: string, name: Option<string>, rel: string)

  function MemberRowOf(g: Graph, k: nat): MemberRow
    requires k < |g.edges| && g.edges[k].dst in g.nodes
  {
    var n := g.nodes[g.edges[k].dst];
    MemberRow(n.fullName, if "name" in n.props then Some(n.props["name"]) else None, g.edges[k].rel)
  }

  function MemberRowsFrom(g: Graph, task: string, cls: string, from: nat): (r: seq<MemberRow>)
    ensures r == [] <==> forall j :: from <= j ==> !MemberAt(g, task, cls, j)
    ensures forall i :: 0 <= i < |r| ==> r[i].rel == "HAS_METHOD" || r[i].rel == "HAS_FIELD"
    decreases |g.edges| - from
  {
    if from >= |g.edges| then []
    else if MemberAt(g, task, cls, from) then [MemberRowOf(g, from)] + MemberRowsFrom(g, task, cls, from + 1)
    else MemberRowsFrom(g, task, cls, from + 1)
  }

  /** `get_all_edge_of_class(cls)`: None when the class has no member rows. */
  function AllEdgeOfClass(g: Graph, task: string, cls: string): (r: Option<seq<MemberRow>>)
    ensures r.None? <==> forall j :: !MemberAt(g, task, cls, j)
    ensures r.Some? ==> r.value == MemberRowsFrom(g, task, cls, 0) && r.value != []
  {
    var rows := MemberRowsFrom(g, task, cls, 0);
    if rows == [] then None else Some(rows)
  }

  /** `check_exist_edge_of_class(cls, name)` is truthy: the class has a
      HAS_METHOD or HAS_FIELD relationship to a node of the task with that name. */
  predicate HasMemberNamed(g: Graph, task: string, cls: string, name: string) {
    exists k | 0 <= k < |g.edges| :: MemberAt(g, task, cls, k) && Named(g.nodes[g.edges[k].dst], name)
  }
}
