/** mcp_code_indexer/environment/graph_database/internal_graph_database.py:
    `GraphDatabaseHandler`, whose state is the database graph. Every update
    is the corresponding `GraphStore` function applied to the old graph. */
module GraphDatabase {
  import opened Wrappers
  import opened OsPath
  import opened GraphStore

  class GraphDatabaseHandler {
    /** The task label every node this handler creates or matches carries. */
    const taskId: string
    /** The database contents. */
    var g: Graph

    ghost predicate Valid()
      reads this
    {
      GraphStore.Valid(g)
    }

    /** A handler connected to a database holding `initial`. */
    constructor (taskId: string, initial: Graph)
      requires taskId != "" && GraphStore.Valid(initial)
      ensures this.taskId == taskId && g == initial && Valid()
    {
      this.taskId := taskId;
      g := initial;
    }

    /** `_create_node`. */
    method CreateNode(kind: Option<string>, fullName: string, props: map<string, string>) returns (id: nat)
      requires Valid()
      modifies this
      ensures Valid() && (g, id) == GraphStore.CreateNode(old(g), taskId, kind, fullName, props)
      ensures id !in old(g).nodes && g.nodes[id] == Node(fullName, {taskId, LabelOrNone(kind)}, props)
    {
      var r := GraphStore.CreateNode(g, taskId, kind, fullName, props);
      g, id := r.0, r.1;
    }

    /** `_update_node_label`. */
    method UpdateNodeLabel(fullName: string, kind: string) returns (updated: bool)
      requires Valid()
      modifies this
      ensures Valid() && (g, updated) == GraphStore.UpdateNodeLabel(old(g), taskId, fullName, kind)
      ensures updated <==> MatchNode(old(g), taskId, fullName).Some?
    {
      var r := GraphStore.UpdateNodeLabel(g, taskId, fullName, kind);
      g, updated := r.0, r.1;
    }

    /** `_add_node_label`. */
    method AddNodeLabel(fullName: string, kind: string) returns (added: bool)
      requires Valid()
      modifies this
      ensures Valid() && (g, added) == GraphStore.AddNodeLabel(old(g), taskId, fullName, kind)
      ensures added <==> MatchNode(old(g), taskId, fullName).Some?
    {
      var r := GraphStore.AddNodeLabel(g, taskId, fullName, kind);
      g, added := r.0, r.1;
    }

    /** `update_node`. */
    method UpdateNode(fullName: string, props: map<string, string>)
      requires Valid()
      modifies this
      ensures Valid() && g == GraphStore.UpdateNode(old(g), taskId, fullName, props)
    {
      g := GraphStore.UpdateNode(g, taskId, fullName, props);
    }

    /** `add_node`; the returned id stands for the returned node, and None
        for the error the label query raises on a match with an empty label. */
    method AddNode(kind: string, fullName: string, props: map<string, string>) returns (id: Option<nat>)
      requires Valid()
      modifies this
      ensures Valid() && (g, id) == GraphStore.AddNode(old(g), taskId, kind, fullName, props)
      ensures UniqueNames(old(g), taskId) ==> UniqueNames(g, taskId)
    {
      AddNodeKeepsUnique(g, taskId, kind, fullName, props);
      var r := GraphStore.AddNode(g, taskId, kind, fullName, props);
      g, id := r.0, r.1;
    }

    /** `add_edge` with the end node matched after the start node is created;
        the returned position stands for the returned relationship. */
    method AddEdge(startKind: Option<string>, startName: string, rel: string,
                   endKind: Option<string>, endName: string, params: map<string, string>) returns (edge: nat)
      requires Valid()
      modifies this
      ensures Valid() && (g, edge) == GraphStore.AddEdge(old(g), taskId, startKind, startName, rel, endKind, endName, params)
      ensures UniqueNames(old(g), taskId) ==> UniqueNames(g, taskId)
    {
      var g0 := g;
      var (g1, s) := MatchOrCreate(g0, taskId, startKind, startName, params);
      MatchOrCreateFacts(g0, taskId, startKind, startName, params);
      var (g2, e) := MatchOrCreate(g1, taskId, endKind, endName, params);
      MatchOrCreateFacts(g1, taskId, endKind, endName, params);
      UpsertValid(g2, s, rel, e, params);
      if UniqueNames(g0, taskId) {
        AddEdgeKeepsUnique(g0, taskId, startKind, startName, rel, endKind, endName, params);
      }
      var r := GraphStore.AddEdge(g0, taskId, startKind, startName, rel, endKind, endName, params);
      g, edge := r.0, r.1;
    }

    /** `update_edge`: None when an endpoint is missing. */
    method UpdateEdge(startName: string, rel: string, endName: string, params: map<string, string>) returns (edge: Option<nat>)
      requires Valid()
      modifies this
      ensures Valid() && (g, edge) == GraphStore.UpdateEdge(old(g), taskId, startName, rel, endName, params)
      ensures g.nodes == old(g).nodes
    {
      var r := GraphStore.UpdateEdge(g, taskId, startName, rel, endName, params);
      if r.1.Some? {
        UpsertValid(g, MatchNode(g, taskId, startName).value, rel, MatchNode(g, taskId, endName).value, params);
      }
      g, edge := r.0, r.1;
    }

    /** The MERGE query `_build_edges_from_list` runs through
        `execute_query`, for one row: the relationship is merged without
        properties between the first node of `task` with each full name; a
        missing endpoint skips it. The query merges between every node pair
        with the two names; with the task's names unique that is the same
        single pair (`UpdateEdgeEveryMatch`). */
    method MergeRelationship(task: string, startName: string, rel: string, endName: string) returns (edge: Option<nat>)
      requires Valid()
      modifies this
      ensures Valid() && (g, edge) == GraphStore.UpdateEdge(old(g), task, startName, rel, endName, map[])
      ensures g.nodes == old(g).nodes
    {
      var r := GraphStore.UpdateEdge(g, task, startName, rel, endName, map[]);
      if r.1.Some? {
        UpsertValid(g, MatchNode(g, task, startName).value, rel, MatchNode(g, task, endName).value, map[]);
      }
      g, edge := r.0, r.1;
    }

    /** `clear_task_data`: alternate batches of label removal and node
        deletion until a round changes nothing. With a positive batch size
        the graph ends up `Cleared`; a batch size of 0 changes nothing. */
    method ClearTaskData(task: string, batch: nat)
      requires Valid()
      modifies this
      ensures Valid()
      ensures batch == 0 ==> g == old(g)
      ensures batch > 0 ==> g == Cleared(old(g), task)
    {
      ghost var g0 := g;
      while true
        invariant GraphStore.Valid(g) && Cleared(g, task) == Cleared(g0, task)
        invariant batch == 0 ==> g == g0
        decreases TaskIds(g, task)
      {
        var gPrev := g;
        StripBatchKeepsCleared(g, task, batch);
        var (g1, removed) := StripBatch(g, task, batch);
        DeleteBatchKeepsCleared(g1, task, batch);
        DeleteBatchProgress(g1, task, batch);
        var (g2, deleted) := DeleteBatch(g1, task, batch);
        g := g2;
        if removed == 0 && deleted == 0 {
          if batch > 0 {
            ClearedWhenDone(gPrev, task, batch);
          }
          break;
        }
      }
    }

    /** `update_file_path`: for each task node with a `file_path` (a snapshot
        taken first), a path under `root` is cut to the part after it through
        `update_node`. With unique full names that strips every such path. */
    method UpdateFilePath(root: string)
      requires Valid()
      modifies this
      ensures Valid() && g == PathSteps(old(g), taskId, root, PathRows(old(g), taskId))
      ensures UniqueNames(old(g), taskId) ==>
        g.edges == old(g).edges && g.nodes.Keys == old(g).nodes.Keys &&
        forall i :: i in g.nodes ==> g.nodes[i] == StrippedNode(old(g).nodes[i], taskId, root)
    {
      ghost var g0 := g;
      var rows := PathRows(g, taskId);
      UpdatePaths(root, rows);
      if UniqueNames(g0, taskId) {
        UpdateFilePathStrips(g0, taskId, root);
      }
    }

    /** The loop of `update_file_path` over the snapshot rows. */
    method UpdatePaths(root: string, rows: seq<PathRow>)
      requires Valid()
      modifies this
      ensures Valid() && g == PathSteps(old(g), taskId, root, rows)
    {
      ghost var g0 := g;
      for k := 0 to |rows|
        invariant Valid() && g == PathSteps(g0, taskId, root, rows[..k])
      {
        ghost var before := g;
        var row := rows[k];
        if StartsWith(row.filePath, root) {
          UpdateNode(row.fullName, map["file_path" := row.filePath[|root|..]]);
        }
        assert rows[..k + 1][..k] == rows[..k] && rows[..k + 1][k] == row;
      }
      assert rows[..|rows|] == rows;
    }
  }
}
