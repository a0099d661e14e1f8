/** mcp_code_indexer/environment/graph_database/internal_graph_database.py:
    the labelled property graph that `GraphDatabaseHandler` keeps in Neo4j,
    as a value, with each of the handler's graph updates as a function.
    Node ids are creation order; "the first match" of a query is the match
    with the lowest id (nodes) or the lowest position (relationships). */
module GraphStore {
  import opened Wrappers
  import opened OsPath

  const NoneLabel: string := "none"

  /** A node: its `full_name` property, its labels and its other properties. */
  datatype Node = Node(fullName: string, labels: set<string>, props: map<string, string>)

  /** A relationship `(src)-[rel]->(dst)` with its properties. */
  datatype Edge = Edge(src: nat, rel: string, dst: nat, props: map<string, string>)

  datatype Graph = Graph(nodes: map<nat, Node>, edges: seq<Edge>, nextId: nat)

  const EmptyGraph: Graph := Graph(map[], [], 0)

  /** Ids are below `nextId` and every relationship joins two existing nodes. */
  ghost predicate Valid(g: Graph) {
    (forall i :: i in g.nodes ==> i < g.nextId) &&
    (forall k :: 0 <= k < |g.edges| ==> g.edges[k].src in g.nodes && g.edges[k].dst in g.nodes)
  }

  /** Node `i` carries the task label and the full name. */
  predicate IsTaskNode(g: Graph, task: string, i: nat, name: string) {
    i in g.nodes && task in g.nodes[i].labels && g.nodes[i].fullName == name
  }

  /** No two nodes of the task share a full name. */
  ghost predicate UniqueNames(g: Graph, task: string) {
    forall i, j ::
      i in g.nodes && j in g.nodes && task in g.nodes[i].labels && task in g.nodes[j].labels &&
      g.nodes[i].fullName == g.nodes[j].fullName
      ==> i == j
  }

  function MatchFrom(g: Graph, task: string, name: string, from: nat): (r: Option<nat>)
    ensures r.Some? ==> from <= r.value < g.nextId && IsTaskNode(g, task, r.value, name) &&
                        forall j :: from <= j < r.value ==> !IsTaskNode(g, task, j, name)
    ensures r.None? ==> forall j :: from <= j < g.nextId ==> !IsTaskNode(g, task, j, name)
    decreases g.nextId - from
  {
    if from >= g.nextId then None
    else if IsTaskNode(g, task, from, name) then Some(from)
    else MatchFrom(g, task, name, from + 1)
  }

  /** `_match_node` (with a task id): the first node of the task with that
      full name, or none. */
  function MatchNode(g: Graph, task: string, name: string): (r: Option<nat>)
    ensures r.Some? ==> IsTaskNode(g, task, r.value, name) && forall j :: 0 <= j < r.value ==> !IsTaskNode(g, task, j, name)
    ensures r.None? ==> forall j :: 0 <= j < g.nextId ==> !IsTaskNode(g, task, j, name)
  {
    MatchFrom(g, task, name, 0)
  }

  lemma MatchNoneValid(g: Graph, task: string, name: string)
    requires Valid(g) && MatchNode(g, task, name).None?
    ensures forall j :: !IsTaskNode(g, task, j, name)
  {
  }

  /** Under unique names the match is the one node of the task with the name. */
  lemma MatchUnique(g: Graph, task: string, name: string, i: nat)
    requires Valid(g) && UniqueNames(g, task) && IsTaskNode(g, task, i, name)
    ensures MatchNode(g, task, name) == Some(i)
  {
  }

  /** The label `_create_node` uses: `'none'` for None or "". */
  function LabelOrNone(kind: Option<string>): (r: string)
    ensures r != ""
    ensures kind.Some? && kind.value != "" ==> r == kind.value
    ensures kind.None? || kind.value == "" ==> r == NoneLabel
  {
    if kind.None? || kind.value == "" then NoneLabel else kind.value
  }

  /** `_create_node`: a fresh node with the task label and the given (or
      placeholder) label; nothing else changes. Returns the new id. */
  function CreateNode(g: Graph, task: string, kind: Option<string>, name: string, props: map<string, string>): (r: (Graph, nat))
    ensures r.1 == g.nextId && r.0.nextId == g.nextId + 1
    ensures r.0.nodes == g.nodes[r.1 := Node(name, {task, LabelOrNone(kind)}, props)]
    ensures r.0.edges == g.edges
    ensures Valid(g) ==> Valid(r.0) && r.1 !in g.nodes
  {
    (Graph(g.nodes[g.nextId := Node(name, {task, LabelOrNone(kind)}, props)], g.edges, g.nextId + 1), g.nextId)
  }

  /** The nodes of the task with the full name and, for `withNone`, the placeholder label. */
  predicate Targeted(n: Node, task: string, name: string, withNone: bool) {
    task in n.labels && n.fullName == name && (withNone ==> NoneLabel in n.labels)
  }

  /** `_update_node_label`: when a node of the task has the name, every such
      node that still has the placeholder label loses it and gains `kind`. */
  function UpdateNodeLabel(g: Graph, task: string, name: string, kind: string): (r: (Graph, bool))
    ensures r.1 <==> MatchNode(g, task, name).Some?
    ensures !r.1 ==> r.0 == g
    ensures r.0.nodes.Keys == g.nodes.Keys && r.0.edges == g.edges && r.0.nextId == g.nextId
    ensures forall i :: i in g.nodes ==>
      r.0.nodes[i] == if r.1 && Targeted(g.nodes[i], task, name, true)
                      then g.nodes[i].(labels := g.nodes[i].labels - {NoneLabel} + {kind})
                      else g.nodes[i]
  {
    if MatchNode(g, task, name).None? then (g, false)
    else
      var nodes := map i | i in g.nodes ::
        if Targeted(g.nodes[i], task, name, true) then g.nodes[i].(labels := g.nodes[i].labels - {NoneLabel} + {kind})
        else g.nodes[i];
      (g.(nodes := nodes), true)
  }

  /** `_add_node_label`: when a node of the task has the name, every such node gains `kind`. */
  function AddNodeLabel(g: Graph, task: string, name: string, kind: string): (r: (Graph, bool))
    ensures r.1 <==> MatchNode(g, task, name).Some?
    ensures !r.1 ==> r.0 == g
    ensures r.0.nodes.Keys == g.nodes.Keys && r.0.edges == g.edges && r.0.nextId == g.nextId
    ensures forall i :: i in g.nodes ==>
      r.0.nodes[i] == if r.1 && Targeted(g.nodes[i], task, name, false)
                      then g.nodes[i].(labels := g.nodes[i].labels + {kind})
                      else g.nodes[i]
  {
    if MatchNode(g, task, name).None? then (g, false)
    else
      var nodes := map i | i in g.nodes ::
        if Targeted(g.nodes[i], task, name, false) then g.nodes[i].(labels := g.nodes[i].labels + {kind})
        else g.nodes[i];
      (g.(nodes := nodes), true)
  }

  /** `dict.update`: `extra`'s entries win. */
  function Merge(props: map<string, string>, extra: map<string, string>): (r: map<string, string>)
    ensures r.Keys == props.Keys + extra.Keys
    ensures forall k :: k in extra ==> r[k] == extra[k]
    ensures forall k :: k in props && k !in extra ==> r[k] == props[k]
  {
    props + extra
  }

  /** Node `i` with `extra` merged into its properties. */
  function SetProps(g: Graph, i: nat, extra: map<string, string>): (r: Graph)
    requires i in g.nodes
    ensures r.nodes == g.nodes[i := g.nodes[i].(props := Merge(g.nodes[i].props, extra))]
    ensures r.edges == g.edges && r.nextId == g.nextId
  {
    g.(nodes := g.nodes[i := g.nodes[i].(props := Merge(g.nodes[i].props, extra))])
  }

  /** `update_node`: the matched node gets the properties merged in. */
  function UpdateNode(g: Graph, task: string, name: string, props: map<string, string>): (r: Graph)
    ensures MatchNode(g, task, name).None? ==> r == g
    ensures MatchNode(g, task, name).Some? ==> r == SetProps(g, MatchNode(g, task, name).value, props)
  {
    match MatchNode(g, task, name)
    case None => g
    case Some(i) => SetProps(g, i, props)
  }

  /** `add_node`: a matched placeholder is upgraded to `kind`, or a matched
      node lacking `kind` gains it, and the matched node's properties are
      merged; with no match a node is created, with the placeholder label
      when `kind` is empty. Returns the node's id. The writes of `push` are its
      properties. With a match and an empty `kind` the label query reads
      `SET n:`, which the database refuses: None, and nothing changes. */
  function AddNode(g: Graph, task: string, kind: string, name: string, props: map<string, string>): (r: (Graph, Option<nat>))
    ensures MatchNode(g, task, name).Some? && kind != "" ==> r.1 == Some(MatchNode(g, task, name).value)
    ensures MatchNode(g, task, name).Some? && kind == "" ==> r == (g, None)
    ensures MatchNode(g, task, name).None? ==>
      r.0 == CreateNode(g, task, Some(kind), name, props).0 && r.1 == Some(CreateNode(g, task, Some(kind), name, props).1)
  {
    match MatchNode(g, task, name)
    case None => var c := CreateNode(g, task, Some(kind), name, props); (c.0, Some(c.1))
    case Some(i) =>
      if kind == "" then (g, None)
      else
        var labelled :=
          if NoneLabel in g.nodes[i].labels then UpdateNodeLabel(g, task, name, kind).0
          else if kind !in g.nodes[i].labels then AddNodeLabel(g, task, name, kind).0
          else g;
        (SetProps(labelled, i, props), Some(i))
  }

  predicate SameKey(e: Edge, src: nat, rel: string, dst: nat) {
    e.src == src && e.rel == rel && e.dst == dst
  }

  function FindEdgeFrom(edges: seq<Edge>, src: nat, rel: string, dst: nat, from: nat): (r: Option<nat>)
    ensures r.Some? ==> from <= r.value < |edges| && SameKey(edges[r.value], src, rel, dst) &&
                        forall k :: from <= k < r.value ==> !SameKey(edges[k], src, rel, dst)
    ensures r.None? ==> forall k :: from <= k < |edges| ==> !SameKey(edges[k], src, rel, dst)
    decreases |edges| - from
  {
    if from >= |edges| then None
    else if SameKey(edges[from], src, rel, dst) then Some(from)
    else FindEdgeFrom(edges, src, rel, dst, from + 1)
  }

  /** `rel_matcher.match((start, end), type).first()`. */
  function FindEdge(edges: seq<Edge>, src: nat, rel: string, dst: nat): (r: Option<nat>)
    ensures r.Some? ==> r.value < |edges| && SameKey(edges[r.value], src, rel, dst) &&
                        forall k :: 0 <= k < r.value ==> !SameKey(edges[k], src, rel, dst)
    ensures r.None? ==> forall k :: 0 <= k < |edges| ==> !SameKey(edges[k], src, rel, dst)
  {
    FindEdgeFrom(edges, src, rel, dst, 0)
  }

  /** The relationship part of `add_edge`/`update_edge`: the first
      relationship of that type between the two nodes gets `params` merged
      into its properties; without one, a relationship is created. Returns
      the relationship's position. */
  function UpsertEdge(g: Graph, src: nat, rel: string, dst: nat, params: map<string, string>): (r: (Graph, nat))
    ensures r.0.nodes == g.nodes && r.0.nextId == g.nextId
    ensures r.1 < |r.0.edges| && SameKey(r.0.edges[r.1], src, rel, dst)
    ensures forall k :: k in params ==> k in r.0.edges[r.1].props && r.0.edges[r.1].props[k] == params[k]
    ensures FindEdge(g.edges, src, rel, dst).Some? ==>
      r.1 == FindEdge(g.edges, src, rel, dst).value && |r.0.edges| == |g.edges| &&
      r.0.edges[r.1].props == Merge(g.edges[r.1].props, params)
    ensures FindEdge(g.edges, src, rel, dst).None? ==>
      r.1 == |g.edges| && |r.0.edges| == |g.edges| + 1 && r.0.edges[r.1].props == params
    ensures forall k :: 0 <= k < |g.edges| && k != r.1 ==> r.0.edges[k] == g.edges[k]
  {
    match FindEdge(g.edges, src, rel, dst)
    case Some(k) => (g.(edges := g.edges[k := g.edges[k].(props := Merge(g.edges[k].props, params))]), k)
    case None => (g.(edges := g.edges + [Edge(src, rel, dst, params)]), |g.edges|)
  }

  lemma UpsertValid(g: Graph, src: nat, rel: string, dst: nat, params: map<string, string>)
    requires Valid(g) && src in g.nodes && dst in g.nodes
    ensures Valid(UpsertEdge(g, src, rel, dst, params).0)
  {
    var r := UpsertEdge(g, src, rel, dst, params).0;
    forall k | 0 <= k < |r.edges| ensures r.edges[k].src in r.nodes && r.edges[k].dst in r.nodes {
      if k < |g.edges| && k != UpsertEdge(g, src, rel, dst, params).1 {
        assert r.edges[k] == g.edges[k];
      }
    }
  }

  /** The first node of the task with the name, or a node created for it. */
  function MatchOrCreate(g: Graph, task: string, kind: Option<string>, name: string, params: map<string, string>): (r: (Graph, nat))
    ensures IsTaskNode(r.0, task, r.1, name)
    ensures MatchNode(g, task, name).Some? ==> r == (g, MatchNode(g, task, name).value)
    ensures MatchNode(g, task, name).None? ==> r == CreateNode(g, task, kind, name, params)
  {
    match MatchNode(g, task, name)
    case Some(i) => (g, i)
    case None => CreateNode(g, task, kind, name, params)
  }

  /** `add_edge` as written: both endpoints are looked up before either is
      created, so a missing node that is both start and end is created twice. */
  function AddEdgeAsWritten(g: Graph, task: string, startKind: Option<string>, startName: string, rel: string,
                            endKind: Option<string>, endName: string, params: map<string, string>): (r: (Graph, nat))
    ensures r.1 < |r.0.edges| && r.0.edges[r.1].rel == rel
    ensures IsTaskNode(r.0, task, r.0.edges[r.1].src, startName) && IsTaskNode(r.0, task, r.0.edges[r.1].dst, endName)
  {
    var start := MatchNode(g, task, startName);
    var end := MatchNode(g, task, endName);
    var (g1, s) := if start.Some? then (g, start.value) else CreateNode(g, task, startKind, startName, params);
    var (g2, e) := if end.Some? then (g1, end.value) else CreateNode(g1, task, endKind, endName, params);
    UpsertEdge(g2, s, rel, e, params)
  }

  /** `add_edge` as intended: the end node is looked up once the start node
      exists. The relationship returned joins a task node named `startName` to
      one named `endName`, carries `params`, and no existing node changes. */
  function AddEdge(g: Graph, task: string, startKind: Option<string>, startName: string, rel: string,
                   endKind: Option<string>, endName: string, params: map<string, string>): (r: (Graph, nat))
    ensures r.1 < |r.0.edges| && r.0.edges[r.1].rel == rel
    ensures IsTaskNode(r.0, task, r.0.edges[r.1].src, startName) && IsTaskNode(r.0, task, r.0.edges[r.1].dst, endName)
    ensures forall k :: k in params ==> k in r.0.edges[r.1].props && r.0.edges[r.1].props[k] == params[k]
    ensures Valid(g) ==> forall i :: i in g.nodes ==> i in r.0.nodes && r.0.nodes[i] == g.nodes[i]
  {
    var (g1, s) := MatchOrCreate(g, task, startKind, startName, params);
    var (g2, e) := MatchOrCreate(g1, task, endKind, endName, params);
    UpsertEdge(g2, s, rel, e, params)
  }

  /** `update_edge`: with both endpoints matched, the relationship is
      upserted; otherwise nothing changes and None is returned. */
  function UpdateEdge(g: Graph, task: string, startName: string, rel: string, endName: string, params: map<string, string>): (r: (Graph, Option<nat>))
    ensures MatchNode(g, task, startName).None? || MatchNode(g, task, endName).None? ==> r == (g, None)
    ensures r.1.Some? ==>
      (r.0.nodes == g.nodes && r.1.value < |r.0.edges| && r.0.edges[r.1.value].rel == rel &&
       r.0.edges[r.1.value].src == MatchNode(g, task, startName).value &&
       r.0.edges[r.1.value].dst == MatchNode(g, task, endName).value)
  {
    match (MatchNode(g, task, startName), MatchNode(g, task, endName))
    case (Some(s), Some(e)) => var u := UpsertEdge(g, s, rel, e, params); (u.0, Some(u.1))
    case _ => (g, None)
  }

  /** With the task's full names unique, every (source, target) pair of
      nodes the MERGE of `_build_edges_from_list` matches is the one pair
      `UpdateEdge` links: the relationship between them is then present. */
  lemma UpdateEdgeEveryMatch(g: Graph, task: string, startName: string, rel: string, endName: string,
                             params: map<string, string>, i: nat, j: nat)
    requires Valid(g) && UniqueNames(g, task) && IsTaskNode(g, task, i, startName) && IsTaskNode(g, task, j, endName)
    ensures var r := UpdateEdge(g, task, startName, rel, endName, params);
      r.1.Some? && SameKey(r.0.edges[r.1.value], i, rel, j)
  {
    MatchUnique(g, task, startName, i);
    MatchUnique(g, task, endName, j);
  }

  // ---- clear_task_data ----

  /** A node of the task that keeps other labels: it loses the task label. */
  predicate Strippable(n: Node, task: string) { task in n.labels && |n.labels| > 1 }

  /** A node whose only label is the task: it is deleted with its relationships. */
  predicate Deletable(n: Node, task: string) { n.labels == {task} }

  function CandidatesFrom(g: Graph, task: string, delete: bool, from: nat): (r: seq<nat>)
    ensures forall x :: x in r <==>
      from <= x < g.nextId && x in g.nodes && (if delete then Deletable(g.nodes[x], task) else Strippable(g.nodes[x], task))
    decreases g.nextId - from
  {
    if from >= g.nextId then []
    else if from in g.nodes && (if delete then Deletable(g.nodes[from], task) else Strippable(g.nodes[from], task))
    then [from] + CandidatesFrom(g, task, delete, from + 1)
    else CandidatesFrom(g, task, delete, from + 1)
  }

  /** The nodes a `WITH n LIMIT batch` picks. */
  function Picked(g: Graph, task: string, delete: bool, batch: nat): (r: seq<nat>)
    ensures |r| <= batch
    ensures forall x :: x in r ==> x in g.nodes && (if delete then Deletable(g.nodes[x], task) else Strippable(g.nodes[x], task))
    ensures Valid(g) && batch > 0 && r == [] ==>
      forall x :: x in g.nodes ==> !(if delete then Deletable(g.nodes[x], task) else Strippable(g.nodes[x], task))
  {
    var all := CandidatesFrom(g, task, delete, 0);
    if |all| <= batch then all else all[..batch]
  }

  /** The relationships touching none of `gone`, in order. */
  function KeepEdges(edges: seq<Edge>, gone: set<nat>): seq<Edge> {
    if edges == [] then []
    else (if edges[0].src !in gone && edges[0].dst !in gone then [edges[0]] else []) + KeepEdges(edges[1..], gone)
  }

  /** The kept relationships are exactly those touching none of `gone`. */
  lemma {:induction false} KeepEdgesMembers(edges: seq<Edge>, gone: set<nat>)
    ensures forall e :: e in KeepEdges(edges, gone) <==> e in edges && e.src !in gone && e.dst !in gone
  {
    if edges != [] {
      KeepEdgesMembers(edges[1..], gone);
      assert edges == [edges[0]] + edges[1..];
    }
  }

  lemma {:induction false} KeepEdgesTwice(edges: seq<Edge>, a: set<nat>, b: set<nat>)
    ensures KeepEdges(KeepEdges(edges, a), b) == KeepEdges(edges, a + b)
  {
    if edges != [] {
      KeepEdgesTwice(edges[1..], a, b);
      var head := if edges[0].src !in a && edges[0].dst !in a then [edges[0]] else [];
      assert KeepEdges(edges, a) == head + KeepEdges(edges[1..], a);
      KeepEdgesConcat(head, KeepEdges(edges[1..], a), b);
    }
  }

  lemma {:induction false} KeepEdgesConcat(x: seq<Edge>, y: seq<Edge>, gone: set<nat>)
    ensures KeepEdges(x + y, gone) == KeepEdges(x, gone) + KeepEdges(y, gone)
  {
    if x != [] {
      assert (x + y)[1..] == x[1..] + y;
      KeepEdgesConcat(x[1..], y, gone);
    } else {
      assert x + y == y;
    }
  }

  lemma {:induction false} KeepEdgesNone(edges: seq<Edge>)
    ensures KeepEdges(edges, {}) == edges
  {
    if edges != [] {
      KeepEdgesNone(edges[1..]);
      assert edges == [edges[0]] + edges[1..];
    }
  }

  /** One `REMOVE_LABEL_QUERY_TEMPLATE` run: up to `batch` nodes with more
      than one label lose the task label; returns how many did. */
  function StripBatch(g: Graph, task: string, batch: nat): (r: (Graph, nat))
    ensures r.0.nodes.Keys == g.nodes.Keys && r.0.edges == g.edges && r.0.nextId == g.nextId
    ensures r.1 == |Picked(g, task, false, batch)|
  {
    var picked := Picked(g, task, false, batch);
    var nodes := map i | i in g.nodes :: if i in picked then g.nodes[i].(labels := g.nodes[i].labels - {task}) else g.nodes[i];
    (g.(nodes := nodes), |picked|)
  }

  /** One `DELETE_NODE_QUERY_TEMPLATE` run: up to `batch` nodes whose only
      label is the task are deleted with their relationships; returns how many. */
  function DeleteBatch(g: Graph, task: string, batch: nat): (r: (Graph, nat))
    ensures r.0.nodes.Keys <= g.nodes.Keys && r.0.nextId == g.nextId
    ensures r.1 == |Picked(g, task, true, batch)|
  {
    var picked := Picked(g, task, true, batch);
    var gone := IdSet(picked);
    var nodes := map i | i in g.nodes && i !in gone :: g.nodes[i];
    (Graph(nodes, KeepEdges(g.edges, gone), g.nextId), |picked|)
  }

  function IdSet(ids: seq<nat>): (r: set<nat>)
    ensures forall x :: x in r <==> x in ids
  {
    set x | x in ids
  }

  function DeletableIds(g: Graph, task: string): set<nat> {
    set i | i in g.nodes && Deletable(g.nodes[i], task)
  }

  function TaskIds(g: Graph, task: string): set<nat> {
    set i | i in g.nodes && task in g.nodes[i].labels
  }

  /** The state `clear_task_data` drives the graph to: nodes whose only label
      is the task are gone with their relationships, the others have lost the
      task label, and nodes outside the task are untouched. */
  function Cleared(g: Graph, task: string): (r: Graph)
    ensures r.nextId == g.nextId
  {
    var gone := DeletableIds(g, task);
    Graph(map i | i in g.nodes && i !in gone :: g.nodes[i].(labels := g.nodes[i].labels - {task}),
          KeepEdges(g.edges, gone), g.nextId)
  }

  /** No node of the cleared graph has the task label; the nodes with other
      labels remain, without the task label; nodes outside the task are
      untouched; exactly the relationships of deleted nodes are gone. */
  lemma ClearedFacts(g: Graph, task: string)
    ensures var r := Cleared(g, task);
      TaskIds(r, task) == {} &&
      r.nodes.Keys == g.nodes.Keys - DeletableIds(g, task) &&
      (forall i :: i in g.nodes && task !in g.nodes[i].labels ==> i in r.nodes && r.nodes[i] == g.nodes[i]) &&
      (forall i :: i in r.nodes ==> r.nodes[i].labels == g.nodes[i].labels - {task}) &&
      (forall e :: e in r.edges <==> e in g.edges && e.src !in DeletableIds(g, task) && e.dst !in DeletableIds(g, task)) &&
      (Valid(g) ==> Valid(r))
  {
    var r := Cleared(g, task);
    KeepEdgesMembers(g.edges, DeletableIds(g, task));
    assert Valid(g) ==> forall k :: 0 <= k < |r.edges| ==> r.edges[k] in g.edges;
  }

  // ---- update_file_path ----

  /** The task nodes with a `file_path` property, in id order. */
  function FileNodesFrom(g: Graph, task: string, from: nat): (r: seq<nat>)
    ensures forall k :: 0 <= k < |r| ==> from <= r[k] < g.nextId && HasFilePath(g, task, r[k])
    ensures forall x :: from <= x < g.nextId && HasFilePath(g, task, x) ==> x in r
    ensures forall j, k :: 0 <= j < k < |r| ==> r[j] < r[k]
    decreases g.nextId - from
  {
    if from >= g.nextId then []
    else if HasFilePath(g, task, from) then [from] + FileNodesFrom(g, task, from + 1)
    else FileNodesFrom(g, task, from + 1)
  }

  predicate HasFilePath(g: Graph, task: string, i: nat) {
    i in g.nodes && task in g.nodes[i].labels && "file_path" in g.nodes[i].props
  }

  /** A result row of the query in `update_file_path`. */
  datatype PathRow = PathRow(filePath: string, fullName: string)

  function PathRows(g: Graph, task: string): (r: seq<PathRow>)
    ensures |r| == |FileNodesFrom(g, task, 0)|
    ensures forall k :: 0 <= k < |r| ==>
      var i := FileNodesFrom(g, task, 0)[k]; r[k] == PathRow(g.nodes[i].props["file_path"], g.nodes[i].fullName)
  {
    var ids := FileNodesFrom(g, task, 0);
    seq(|ids|, k requires 0 <= k < |ids| => PathRow(g.nodes[ids[k]].props["file_path"], g.nodes[ids[k]].fullName))
  }

  /** One iteration of the loop in `update_file_path`. */
  function PathStep(g: Graph, task: string, root: string, row: PathRow): (r: Graph)
    ensures !StartsWith(row.filePath, root) ==> r == g
    ensures StartsWith(row.filePath, root) ==>
      r == UpdateNode(g, task, row.fullName, map["file_path" := row.filePath[|root|..]])
  {
    if StartsWith(row.filePath, root) then UpdateNode(g, task, row.fullName, map["file_path" := row.filePath[|root|..]])
    else g
  }

  /** The loop in `update_file_path` over a prefix of the rows. */
  function PathSteps(g: Graph, task: string, root: string, rows: seq<PathRow>): (r: Graph)
    ensures r.edges == g.edges && r.nextId == g.nextId && r.nodes.Keys == g.nodes.Keys
  {
    if rows == [] then g
    else PathStep(PathSteps(g, task, root, rows[..|rows| - 1]), task, root, rows[|rows| - 1])
  }

  /** Node `i` after `update_file_path`: a task node whose `file_path` starts
      with the root has the root cut off. */
  function StrippedNode(n: Node, task: string, root: string): (r: Node)
    ensures r.fullName == n.fullName && r.labels == n.labels && r.props.Keys == n.props.Keys
  {
    if task in n.labels && "file_path" in n.props && StartsWith(n.props["file_path"], root)
    then n.(props := n.props["file_path" := n.props["file_path"][|root|..]])
    else n
  }

  /** The graph `update_file_path` is meant to produce. */
  function PathsStripped(g: Graph, task: string, root: string, ids: set<nat>): Graph {
    g.(nodes := map i | i in g.nodes :: if i in ids then StrippedNode(g.nodes[i], task, root) else g.nodes[i])
  }

  // ---- properties ----

  /** A unique minimal match is what `MatchNode` returns. */
  lemma MatchIs(g: Graph, task: string, name: string, i: nat)
    requires i < g.nextId && IsTaskNode(g, task, i, name)
    requires forall j :: 0 <= j < i ==> !IsTaskNode(g, task, j, name)
    ensures MatchNode(g, task, name) == Some(i)
  {
  }

  /** The match depends on the nodes only. */
  lemma {:induction false} MatchSameNodes(g: Graph, h: Graph, task: string, name: string, from: nat)
    requires g.nodes == h.nodes && g.nextId == h.nextId
    ensures MatchFrom(g, task, name, from) == MatchFrom(h, task, name, from)
    decreases g.nextId - from
  {
    if from < g.nextId {
      MatchSameNodes(g, h, task, name, from + 1);
    }
  }

  /** Adding nodes with fresh ids does not change an earlier first match. */
  lemma MatchStable(g: Graph, h: Graph, task: string, name: string)
    requires Valid(g) && MatchNode(g, task, name).Some? && h.nextId >= g.nextId
    requires forall j :: j in h.nodes ==> (j in g.nodes && h.nodes[j] == g.nodes[j]) || j >= g.nextId
    requires forall j :: j in g.nodes ==> j in h.nodes
    ensures MatchNode(h, task, name) == MatchNode(g, task, name)
  {
    var i := MatchNode(g, task, name).value;
    assert i < g.nextId;
    forall j | 0 <= j < i ensures !IsTaskNode(h, task, j, name) {
      if j in h.nodes {
        assert j in g.nodes && h.nodes[j] == g.nodes[j];
        assert !IsTaskNode(g, task, j, name);
      }
    }
    MatchIs(h, task, name, i);
  }

  /** `MatchOrCreate` keeps the graph valid and its names unique, adds at
      most the fresh node, and the node it returns is then the first match. */
  lemma MatchOrCreateFacts(g: Graph, task: string, kind: Option<string>, name: string, params: map<string, string>)
    requires Valid(g)
    ensures var (h, i) := MatchOrCreate(g, task, kind, name, params);
      Valid(h) && h.edges == g.edges && h.nextId >= g.nextId &&
      (forall j :: j in g.nodes ==> j in h.nodes && h.nodes[j] == g.nodes[j]) &&
      (forall j :: j in h.nodes ==> j in g.nodes || j == g.nextId) &&
      MatchNode(h, task, name) == Some(i) &&
      (UniqueNames(g, task) ==> UniqueNames(h, task))
  {
    var (h, i) := MatchOrCreate(g, task, kind, name, params);
    if MatchNode(g, task, name).None? {
      forall j | 0 <= j < i ensures !IsTaskNode(h, task, j, name) {
        assert !IsTaskNode(g, task, j, name);
      }
      MatchIs(h, task, name, i);
      if UniqueNames(g, task) {
        forall a, b | a in h.nodes && b in h.nodes && task in h.nodes[a].labels && task in h.nodes[b].labels &&
          h.nodes[a].fullName == h.nodes[b].fullName
          ensures a == b
        {
          if a == i || b == i {
            assert !IsTaskNode(g, task, a, name) && !IsTaskNode(g, task, b, name);
          }
        }
      }
    }
  }

  /** `add_edge` keeps the graph valid and, as intended, the full names of
      the task's nodes unique. */
  lemma AddEdgeKeepsUnique(g: Graph, task: string, startKind: Option<string>, startName: string, rel: string,
                           endKind: Option<string>, endName: string, params: map<string, string>)
    requires Valid(g) && UniqueNames(g, task)
    ensures var r := AddEdge(g, task, startKind, startName, rel, endKind, endName, params);
      Valid(r.0) && UniqueNames(r.0, task)
  {
    var (g1, s) := MatchOrCreate(g, task, startKind, startName, params);
    MatchOrCreateFacts(g, task, startKind, startName, params);
    var (g2, e) := MatchOrCreate(g1, task, endKind, endName, params);
    MatchOrCreateFacts(g1, task, endKind, endName, params);
    UpsertValid(g2, s, rel, e, params);
  }

  /** The first relationship with a key is what `FindEdge` returns. */
  lemma FindEdgeIs(edges: seq<Edge>, src: nat, rel: string, dst: nat, k: nat)
    requires k < |edges| && SameKey(edges[k], src, rel, dst)
    requires forall j :: 0 <= j < k ==> !SameKey(edges[j], src, rel, dst)
    ensures FindEdge(edges, src, rel, dst) == Some(k)
  {
  }

  /** Upserting the same relationship twice is upserting it once. */
  lemma UpsertIdempotent(g: Graph, src: nat, rel: string, dst: nat, params: map<string, string>)
    ensures var r := UpsertEdge(g, src, rel, dst, params);
      UpsertEdge(r.0, src, rel, dst, params) == r
  {
    var r := UpsertEdge(g, src, rel, dst, params);
    FindEdgeIs(r.0.edges, src, rel, dst, r.1);
    var e := r.0.edges[r.1];
    assert Merge(e.props, params) == e.props;
    assert r.0.edges[r.1 := e.(props := Merge(e.props, params))] == r.0.edges;
  }

  /** Calling `add_edge` again with the same arguments changes nothing and
      returns the same relationship: no duplicate nodes or relationships. */
  lemma AddEdgeIdempotent(g: Graph, task: string, startKind: Option<string>, startName: string, rel: string,
                          endKind: Option<string>, endName: string, params: map<string, string>)
    requires Valid(g)
    ensures var r := AddEdge(g, task, startKind, startName, rel, endKind, endName, params);
      AddEdge(r.0, task, startKind, startName, rel, endKind, endName, params) == r
  {
    var (g1, s) := MatchOrCreate(g, task, startKind, startName, params);
    MatchOrCreateFacts(g, task, startKind, startName, params);
    var (g2, e) := MatchOrCreate(g1, task, endKind, endName, params);
    MatchOrCreateFacts(g1, task, endKind, endName, params);
    MatchStable(g1, g2, task, startName);
    var r := UpsertEdge(g2, s, rel, e, params);
    MatchSameNodes(g2, r.0, task, startName, 0);
    MatchSameNodes(g2, r.0, task, endName, 0);
    UpsertIdempotent(g2, s, rel, e, params);
  }

  /** The node `add_node` matched: a placeholder label is replaced by `kind`,
      otherwise `kind` is added; the properties are merged; the node set and
      the relationships do not change. */
  lemma AddNodeMatched(g: Graph, task: string, kind: string, name: string, props: map<string, string>)
    requires kind != "" && MatchNode(g, task, name).Some?
    ensures var i := MatchNode(g, task, name).value; var r := AddNode(g, task, kind, name, props);
      var old_ := g.nodes[i];
      r.1 == Some(i) && r.0.nodes.Keys == g.nodes.Keys && r.0.edges == g.edges && r.0.nextId == g.nextId &&
      r.0.nodes[i].fullName == name && r.0.nodes[i].props == Merge(old_.props, props) &&
      r.0.nodes[i].labels == (if NoneLabel in old_.labels then old_.labels - {NoneLabel} + {kind} else old_.labels + {kind})
  {
  }

  /** `add_node` keeps the graph valid and the task's full names unique. */
  lemma AddNodeKeepsUnique(g: Graph, task: string, kind: string, name: string, props: map<string, string>)
    requires Valid(g)
    ensures var r := AddNode(g, task, kind, name, props).0;
      Valid(r) && (UniqueNames(g, task) ==> UniqueNames(r, task))
  {
    if MatchNode(g, task, name).None? {
      MatchOrCreateFacts(g, task, Some(kind), name, props);
    }
  }

  /** With no match and an empty label the created node carries the
      placeholder label beside the task label. */
  lemma AddNodeEmptyLabel(g: Graph, task: string, name: string, props: map<string, string>)
    requires Valid(g) && MatchNode(g, task, name).None?
    ensures var r := AddNode(g, task, "", name, props);
      r.1 == Some(g.nextId) && g.nextId !in g.nodes && r.0.nodes[g.nextId] == Node(name, {task, NoneLabel}, props) &&
      forall i :: i in g.nodes ==> i in r.0.nodes && r.0.nodes[i] == g.nodes[i]
  {
  }

  /** Finding: `add_edge` as written, given a missing node as both ends,
      creates two nodes with the same full name. */
  lemma AddEdgeAsWrittenDuplicates()
    ensures var r := AddEdgeAsWritten(EmptyGraph, "task", None, "pkg.f", "CALLS", None, "pkg.f", map[]);
      0 in r.0.nodes && 1 in r.0.nodes && IsTaskNode(r.0, "task", 0, "pkg.f") && IsTaskNode(r.0, "task", 1, "pkg.f") &&
      !UniqueNames(r.0, "task")
  {
    var r := AddEdgeAsWritten(EmptyGraph, "task", None, "pkg.f", "CALLS", None, "pkg.f", map[]);
    assert r.0.nodes[0].fullName == r.0.nodes[1].fullName;
  }

  /** The intended `add_edge` on the same input creates one node with a self-loop. */
  lemma AddEdgeSelfLoop()
    ensures var r := AddEdge(EmptyGraph, "task", None, "pkg.f", "CALLS", None, "pkg.f", map[]);
      r.0.nodes.Keys == {0} && r.0.edges == [Edge(0, "CALLS", 0, map[])] && UniqueNames(r.0, "task")
  {
    AddEdgeKeepsUnique(EmptyGraph, "task", None, "pkg.f", "CALLS", None, "pkg.f", map[]);
    MatchOrCreateFacts(EmptyGraph, "task", None, "pkg.f", map[]);
  }

  /** A batch that strips the task label keeps the cleared state. */
  lemma StripBatchKeepsCleared(g: Graph, task: string, batch: nat)
    requires Valid(g)
    ensures var h := StripBatch(g, task, batch).0;
      Valid(h) && Cleared(h, task) == Cleared(g, task) && TaskIds(h, task) <= TaskIds(g, task) &&
      (StripBatch(g, task, batch).1 > 0 ==> TaskIds(h, task) < TaskIds(g, task)) &&
      (StripBatch(g, task, batch).1 == 0 ==> h == g)
  {
    var h := StripBatch(g, task, batch).0;
    var picked := Picked(g, task, false, batch);
    forall i | i in g.nodes ensures Deletable(h.nodes[i], task) <==> Deletable(g.nodes[i], task) {
      if i in picked {
        assert task !in h.nodes[i].labels;
        assert !Deletable(g.nodes[i], task);
      }
    }
    assert DeletableIds(h, task) == DeletableIds(g, task);
    forall i | i in Cleared(g, task).nodes ensures i in Cleared(h, task).nodes && Cleared(h, task).nodes[i] == Cleared(g, task).nodes[i] {
      var l := g.nodes[i].labels;
      assert l - {task} - {task} == l - {task};
    }
    assert Cleared(h, task).nodes == Cleared(g, task).nodes;
    if picked != [] {
      assert picked[0] in TaskIds(g, task) && picked[0] !in TaskIds(h, task);
    } else {
      assert h.nodes == g.nodes;
    }
  }

  /** A batch that deletes single-label nodes keeps the graph valid and the cleared state. */
  lemma DeleteBatchKeepsCleared(g: Graph, task: string, batch: nat)
    requires Valid(g)
    ensures var h := DeleteBatch(g, task, batch).0;
      Valid(h) && Cleared(h, task) == Cleared(g, task)
  {
    var h := DeleteBatch(g, task, batch).0;
    var gone := IdSet(Picked(g, task, true, batch));
    var del := DeletableIds(g, task);
    assert gone <= del;
    assert DeletableIds(h, task) == del - gone;
    assert Cleared(h, task).nodes == Cleared(g, task).nodes;
    KeepEdgesTwice(g.edges, gone, del - gone);
    assert gone + (del - gone) == del;
    KeepEdgesMembers(g.edges, gone);
    forall k | 0 <= k < |h.edges| ensures h.edges[k].src in h.nodes && h.edges[k].dst in h.nodes {
      assert h.edges[k] in h.edges;
    }
  }

  /** A batch that deletes nodes removes task nodes, or changes nothing. */
  lemma DeleteBatchProgress(g: Graph, task: string, batch: nat)
    ensures var h := DeleteBatch(g, task, batch).0;
      TaskIds(h, task) <= TaskIds(g, task) &&
      (DeleteBatch(g, task, batch).1 > 0 ==> TaskIds(h, task) < TaskIds(g, task)) &&
      (DeleteBatch(g, task, batch).1 == 0 ==> h == g)
  {
    var h := DeleteBatch(g, task, batch).0;
    var picked := Picked(g, task, true, batch);
    if picked != [] {
      assert picked[0] in TaskIds(g, task) && picked[0] !in TaskIds(h, task);
    } else {
      assert IdSet(picked) == {};
      KeepEdgesNone(g.edges);
      assert h.nodes == g.nodes;
      assert h.edges == g.edges;
    }
  }

  /** A node with the task label either has other labels or has only it. */
  lemma TaskNodeKinds(n: Node, task: string)
    requires task in n.labels
    ensures Strippable(n, task) || Deletable(n, task)
  {
    if |n.labels| <= 1 {
      assert |n.labels - {task}| == |n.labels| - 1;
      assert n.labels - {task} == {};
      assert n.labels == {task};
    }
  }

  /** With nothing left to strip or delete, the graph is already cleared. */
  lemma ClearedWhenDone(g: Graph, task: string, batch: nat)
    requires Valid(g) && batch > 0 && Picked(g, task, false, batch) == [] && Picked(g, task, true, batch) == []
    ensures Cleared(g, task) == g
  {
    forall i | i in g.nodes ensures task !in g.nodes[i].labels {
      if task in g.nodes[i].labels {
        TaskNodeKinds(g.nodes[i], task);
      }
    }
    assert DeletableIds(g, task) == {};
    KeepEdgesNone(g.edges);
    forall i | i in g.nodes ensures i in Cleared(g, task).nodes && Cleared(g, task).nodes[i] == g.nodes[i] {
      assert g.nodes[i].labels - {task} == g.nodes[i].labels;
    }
    assert Cleared(g, task).nodes == g.nodes;
  }

  /** The rows for a sequence of node ids. */
  function RowsOf(g: Graph, task: string, ids: seq<nat>): (r: seq<PathRow>)
    requires forall k :: 0 <= k < |ids| ==> HasFilePath(g, task, ids[k])
    ensures |r| == |ids|
    ensures forall k :: 0 <= k < |ids| ==> r[k] == RowOf(g, task, ids[k])
  {
    seq(|ids|, k requires 0 <= k < |ids| => RowOf(g, task, ids[k]))
  }

  function RowOf(g: Graph, task: string, i: nat): PathRow
    requires HasFilePath(g, task, i)
  {
    PathRow(g.nodes[i].props["file_path"], g.nodes[i].fullName)
  }

  /** Stripping paths changes no label or name, so validity and unique names survive. */
  lemma PathsStrippedFacts(g: Graph, task: string, root: string, ids: set<nat>, x: nat)
    requires Valid(g) && UniqueNames(g, task) && HasFilePath(g, task, x)
    ensures var h := PathsStripped(g, task, root, ids);
      Valid(h) && UniqueNames(h, task) && IsTaskNode(h, task, x, g.nodes[x].fullName) && h.nodes[x] == (if x in ids then StrippedNode(g.nodes[x], task, root) else g.nodes[x])
  {
  }

  /** One more row: its node is the one `update_node` finds, and only it changes. */
  lemma PathStepAt(g: Graph, task: string, root: string, ids: set<nat>, x: nat)
    requires Valid(g) && UniqueNames(g, task) && HasFilePath(g, task, x) && x !in ids
    ensures PathStep(PathsStripped(g, task, root, ids), task, root, RowOf(g, task, x)) == PathsStripped(g, task, root, ids + {x})
  {
    var h := PathsStripped(g, task, root, ids);
    PathsStrippedFacts(g, task, root, ids, x);
    MatchUnique(h, task, g.nodes[x].fullName, x);
    var n := g.nodes[x];
    if StartsWith(n.props["file_path"], root) {
      assert Merge(n.props, map["file_path" := n.props["file_path"][|root|..]]) == StrippedNode(n, task, root).props;
    }
    assert PathStep(h, task, root, RowOf(g, task, x)).nodes == PathsStripped(g, task, root, ids + {x}).nodes;
  }

  /** Stripping file paths one row at a time, for the rows of `ids`, under
      unique names updates exactly the nodes of those rows. */
  lemma {:induction false} PathStepsStrip(g: Graph, task: string, root: string, ids: seq<nat>)
    requires Valid(g) && UniqueNames(g, task)
    requires forall k :: 0 <= k < |ids| ==> HasFilePath(g, task, ids[k])
    requires forall j, k :: 0 <= j < k < |ids| ==> ids[j] < ids[k]
    ensures PathSteps(g, task, root, RowsOf(g, task, ids)) == PathsStripped(g, task, root, IdSet(ids))
  {
    if ids == [] {
      assert PathsStripped(g, task, root, {}).nodes == g.nodes;
    } else {
      var front := ids[..|ids| - 1];
      var x := ids[|ids| - 1];
      assert RowsOf(g, task, ids)[..|ids| - 1] == RowsOf(g, task, front);
      PathStepsStrip(g, task, root, front);
      assert x !in front;
      PathStepAt(g, task, root, IdSet(front), x);
      assert IdSet(front) + {x} == IdSet(ids);
    }
  }

  /** `update_file_path`, when the task's full names are unique, cuts the
      root off every task node's `file_path` that starts with it and changes
      nothing else. */
  lemma UpdateFilePathStrips(g: Graph, task: string, root: string)
    requires Valid(g) && UniqueNames(g, task)
    ensures var r := PathSteps(g, task, root, PathRows(g, task));
      r.edges == g.edges && r.nodes.Keys == g.nodes.Keys &&
      forall i :: i in g.nodes ==> r.nodes[i] == StrippedNode(g.nodes[i], task, root)
  {
    var ids := FileNodesFrom(g, task, 0);
    assert PathRows(g, task) == RowsOf(g, task, ids);
    PathStepsStrip(g, task, root, ids);
    forall i | i in g.nodes ensures i !in ids ==> StrippedNode(g.nodes[i], task, root) == g.nodes[i] {
      if i !in ids { assert !HasFilePath(g, task, i); }
    }
  }
}
