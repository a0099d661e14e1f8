/** mcp_code_indexer/environment/graph_database/ast_search/ast_manage.py:
    `AstUpdateEdge`, the incremental rebuild. Relationships into the changed
    files' nodes are carried from the old task to the new one, migrated
    inheritance joins the `AstManager`'s table, and the three passes run
    again on the changed files. The old and the new handler address one
    database and are modelled as one handler. */
module AstUpdate {
  import opened Wrappers
  import opened GraphStore
  import opened GraphDatabase
  import opened AstManage

  /** A result row `{'source', 'relationship_type', 'target'}`. */
  datatype Rel = Rel(source: string, relType: string, target: string)

  function Min(a: int, b: int): int { if a <= b then a else b }

  // ---- paged reads ----

  /** `SKIP offset LIMIT batch` over a query's rows. */
  function Page<T>(rows: seq<T>, offset: nat, batch: nat): (r: seq<T>)
    requires offset <= |rows|
    ensures |r| <= batch && offset + |r| <= |rows| && r == rows[offset..offset + |r|]
    ensures |r| < batch ==> offset + |r| == |rows|
  {
    if offset + batch <= |rows| then rows[offset..offset + batch] else rows[offset..]
  }

  /** The `while True` paging loop: pages are fetched until one comes back
      short or empty, and together they are the query's rows (none at all
      for `LIMIT 0`). */
  method PageAll<T>(rows: seq<T>, batch: nat) returns (all: seq<T>)
    ensures all == if batch == 0 then [] else rows
  {
    all := [];
    var offset: nat := 0;
    while true
      invariant offset <= |rows| && all == rows[..offset]
      invariant batch == 0 ==> offset == 0
      decreases |rows| - offset
    {
      var page := Page(rows, offset, batch);
      if page == [] {
        break;
      }
      assert rows[..offset + |page|] == all + page;
      all := all + page;
      if |page| < batch {
        offset := offset + |page|;
        break;
      }
      offset := offset + batch;
    }
    assert batch > 0 ==> offset == |rows|;
    assert rows[..|rows|] == rows;
  }

  /** Node `i` belongs to the task and lies in the file `relPath`. */
  predicate InFile(g: Graph, task: string, relPath: string, i: nat) {
    i in g.nodes && task in g.nodes[i].labels && "file_path" in g.nodes[i].props && g.nodes[i].props["file_path"] == relPath
  }

  /** The nodes of a file, in id order. */
  function InFileFrom(g: Graph, task: string, relPath: string, from: nat): (r: seq<nat>)
    ensures forall k :: 0 <= k < |r| ==> from <= r[k] < g.nextId && InFile(g, task, relPath, r[k])
    ensures forall x :: from <= x < g.nextId && InFile(g, task, relPath, x) ==> x in r
    decreases g.nextId - from
  {
    if from >= g.nextId then []
    else if InFile(g, task, relPath, from) then [from] + InFileFrom(g, task, relPath, from + 1)
    else InFileFrom(g, task, relPath, from + 1)
  }

  /** The query of `_get_all_node_in_file`: the full names of the file's nodes. */
  function NamesInFile(g: Graph, task: string, relPath: string): (r: seq<string>)
    ensures forall s :: s in r <==> exists i :: 0 <= i < g.nextId && InFile(g, task, relPath, i) && g.nodes[i].fullName == s
  {
    var ids := InFileFrom(g, task, relPath, 0);
    var r := seq(|ids|, k requires 0 <= k < |ids| => g.nodes[ids[k]].fullName);
    assert forall s :: (exists i :: 0 <= i < g.nextId && InFile(g, task, relPath, i) && g.nodes[i].fullName == s) ==> s in r by {
      forall s | exists i :: 0 <= i < g.nextId && InFile(g, task, relPath, i) && g.nodes[i].fullName == s ensures s in r {
        var i :| 0 <= i < g.nextId && InFile(g, task, relPath, i) && g.nodes[i].fullName == s;
        var k :| 0 <= k < |ids| && ids[k] == i;
        assert r[k] == s;
      }
    }
    r
  }

  /** Relationship `k` is one `_get_old_edge_list` carries for `name`: it
      points into an old-task node with a file and that full name, from a
      node in both tasks that lies in a different file. */
  predicate OldEdgeAt(g: Graph, told: string, tnew: string, name: string, k: int) {
    0 <= k < |g.edges| && g.edges[k].src in g.nodes && g.edges[k].dst in g.nodes &&
    var s := g.nodes[g.edges[k].src];
    var d := g.nodes[g.edges[k].dst];
    told in d.labels && "file_path" in d.props && d.fullName == name &&
    told in s.labels && tnew in s.labels && "file_path" in s.props && s.props["file_path"] != d.props["file_path"]
  }

  function OldEdgesFrom(g: Graph, told: string, tnew: string, name: string, from: nat): (r: seq<Rel>)
    ensures forall x :: x in r ==>
      exists k :: from <= k && OldEdgeAt(g, told, tnew, name, k) && x == Rel(g.nodes[g.edges[k].src].fullName, g.edges[k].rel, name)
    decreases |g.edges| - from
  {
    if from >= |g.edges| then []
    else if OldEdgeAt(g, told, tnew, name, from) then
      [Rel(g.nodes[g.edges[from].src].fullName, g.edges[from].rel, name)] + OldEdgesFrom(g, told, tnew, name, from + 1)
    else OldEdgesFrom(g, told, tnew, name, from + 1)
  }

  /** The rows of the old-edge query for a list of target names, name by name. */
  function OldEdges(g: Graph, told: string, tnew: string, names: seq<string>): seq<Rel> {
    if names == [] then []
    else OldEdges(g, told, tnew, names[..|names| - 1]) + OldEdgesFrom(g, told, tnew, names[|names| - 1], 0)
  }

  /** Splitting the names into chunks does not change the rows. */
  lemma {:induction false} OldEdgesConcat(g: Graph, told: string, tnew: string, a: seq<string>, b: seq<string>)
    ensures OldEdges(g, told, tnew, a + b) == OldEdges(g, told, tnew, a) + OldEdges(g, told, tnew, b)
  {
    if b == [] {
      assert a + b == a;
    } else {
      assert (a + b)[..|a + b| - 1] == a + b[..|b| - 1];
      OldEdgesConcat(g, told, tnew, a, b[..|b| - 1]);
    }
  }

  /** Every carried row is an old relationship from a node of both tasks into
      one of the named nodes. */
  lemma {:induction false} OldEdgesSound(g: Graph, told: string, tnew: string, names: seq<string>)
    ensures forall x :: x in OldEdges(g, told, tnew, names) ==>
      x.target in names && exists k :: OldEdgeAt(g, told, tnew, x.target, k) && x == Rel(g.nodes[g.edges[k].src].fullName, g.edges[k].rel, x.target)
  {
    if names != [] {
      var front := names[..|names| - 1];
      OldEdgesSound(g, told, tnew, front);
      forall x | x in OldEdges(g, told, tnew, names)
        ensures x.target in names && exists k :: OldEdgeAt(g, told, tnew, x.target, k) && x == Rel(g.nodes[g.edges[k].src].fullName, g.edges[k].rel, x.target)
      {
        if x in OldEdges(g, told, tnew, front) {
          assert x.target in front;
        } else {
          var k :| 0 <= k && OldEdgeAt(g, told, tnew, names[|names| - 1], k) &&
            x == Rel(g.nodes[g.edges[k].src].fullName, g.edges[k].rel, names[|names| - 1]);
        }
      }
    }
  }

  /** Conversely, every old relationship into a node of the name from `from`
      on is a row. */
  lemma {:induction false} OldEdgesFromComplete(g: Graph, told: string, tnew: string, name: string, from: nat, k: nat)
    requires from <= k && OldEdgeAt(g, told, tnew, name, k)
    ensures Rel(g.nodes[g.edges[k].src].fullName, g.edges[k].rel, name) in OldEdgesFrom(g, told, tnew, name, from)
    decreases |g.edges| - from
  {
    if from < k {
      OldEdgesFromComplete(g, told, tnew, name, from + 1, k);
    }
  }

  /** Every old relationship into a node of one of the names is a row. */
  lemma {:induction false} OldEdgesComplete(g: Graph, told: string, tnew: string, names: seq<string>, name: string, k: nat)
    requires name in names && OldEdgeAt(g, told, tnew, name, k)
    ensures Rel(g.nodes[g.edges[k].src].fullName, g.edges[k].rel, name) in OldEdges(g, told, tnew, names)
  {
    var front := names[..|names| - 1];
    if name == names[|names| - 1] {
      OldEdgesFromComplete(g, told, tnew, name, 0, k);
    } else {
      assert name in front;
      OldEdgesComplete(g, told, tnew, front, name, k);
    }
  }

  // ---- grouping and merging ----

  /** The (source, target) pairs of the rows of one relationship type, in order. */
  function Pairs(rels: seq<Rel>, t: string): (r: seq<(string, string)>)
    ensures |r| <= |rels|
  {
    if rels == [] then []
    else
      var last := rels[|rels| - 1];
      Pairs(rels[..|rels| - 1], t) + (if last.relType == t then [(last.source, last.target)] else [])
  }

  /** The relationship types in order of first appearance. */
  function TypesOf(rels: seq<Rel>): seq<string> {
    if rels == [] then []
    else
      var front := TypesOf(rels[..|rels| - 1]);
      var t := rels[|rels| - 1].relType;
      if t in front then front else front + [t]
  }

  /** Each type is listed once, and exactly the types that occur are listed. */
  lemma {:induction false} TypesOfFacts(rels: seq<Rel>)
    ensures NoDups(TypesOf(rels))
    ensures forall t :: t in TypesOf(rels) <==> exists i :: 0 <= i < |rels| && rels[i].relType == t
  {
    if rels != [] {
      var front := rels[..|rels| - 1];
      TypesOfFacts(front);
      var ts := TypesOf(front);
      var t := rels[|rels| - 1].relType;
      if t !in ts {
        forall i, j | 0 <= i < j < |ts + [t]| ensures (ts + [t])[i] != (ts + [t])[j] {
          if j == |ts| {
            assert (ts + [t])[i] == ts[i];
          }
        }
      }
      forall u ensures u in TypesOf(rels) <==> exists i :: 0 <= i < |rels| && rels[i].relType == u {
        if exists i :: 0 <= i < |rels| && rels[i].relType == u {
          var i :| 0 <= i < |rels| && rels[i].relType == u;
          if i < |front| {
            assert front[i].relType == u;
          }
        }
        if u in ts {
          var i :| 0 <= i < |front| && front[i].relType == u;
          assert rels[i].relType == u;
        }
      }
    }
  }

  /** Every row lands in the group of its own type: the groups together hold
      each row exactly once. */
  lemma {:induction false} PairsPartition(rels: seq<Rel>)
    ensures SumPairs(rels, TypesOf(rels)) == |rels|
  {
    if rels != [] {
      var front := rels[..|rels| - 1];
      var t := rels[|rels| - 1].relType;
      PairsPartition(front);
      TypesOfFacts(front);
      var ts := TypesOf(front);
      SumPairsStep(rels, ts);
      if t !in ts {
        SumPairsAppend(rels, ts, t);
        SumPairsAbsent(front, t);
      }
    }
  }

  /** The sizes of the groups of the listed types. */
  function SumPairs(rels: seq<Rel>, types: seq<string>): nat {
    if types == [] then 0 else SumPairs(rels, types[..|types| - 1]) + |Pairs(rels, types[|types| - 1])|
  }

  lemma SumPairsAppend(rels: seq<Rel>, types: seq<string>, t: string)
    ensures SumPairs(rels, types + [t]) == SumPairs(rels, types) + |Pairs(rels, t)|
  {
    assert (types + [t])[..|types|] == types;
  }

  /** A type that does not occur has no pairs. */
  lemma {:induction false} SumPairsAbsent(rels: seq<Rel>, t: string)
    requires forall i :: 0 <= i < |rels| ==> rels[i].relType != t
    ensures Pairs(rels, t) == []
  {
    if rels != [] {
      SumPairsAbsent(rels[..|rels| - 1], t);
    }
  }

  /** The last row grows the group of its type by one when that type is listed. */
  lemma {:induction false} SumPairsStep(rels: seq<Rel>, types: seq<string>)
    requires rels != [] && NoDups(types)
    ensures SumPairs(rels, types) == SumPairs(rels[..|rels| - 1], types) + (if rels[|rels| - 1].relType in types then 1 else 0)
  {
    if types != [] {
      var ts := types[..|types| - 1];
      var t := types[|types| - 1];
      assert NoDups(ts);
      SumPairsStep(rels, ts);
      if rels[|rels| - 1].relType == t {
        assert rels[|rels| - 1].relType !in ts;
      }
      assert rels[|rels| - 1].relType in types <==> rels[|rels| - 1].relType in ts || rels[|rels| - 1].relType == t;
    }
  }

  /** The order `relationships_by_type.items()` yields: the types that occur,
      then 'INHERITS' when it did not occur, since reading it inserts it. */
  function TypeOrder(rels: seq<Rel>): seq<string> {
    var ts := TypesOf(rels);
    if "INHERITS" in ts then ts else ts + ["INHERITS"]
  }

  /** The first nodes of the task with both names exist. */
  predicate Linkable(g: Graph, task: string, p: (string, string)) {
    MatchNode(g, task, p.0).Some? && MatchNode(g, task, p.1).Some?
  }

  /** The `defaultdict(list)` of `_build_edges_from_list`: each row's pair
      appended to its type's list, then the read of 'INHERITS', which adds
      that key last when no row has the type. */
  method GroupByType(rels: seq<Rel>) returns (r: (map<string, seq<(string, string)>>, seq<string>))
    ensures r.1 == TypeOrder(rels) && "INHERITS" in r.0
    ensures forall t :: t in r.0 <==> t in r.1
    ensures forall t :: t in r.0 ==> r.0[t] == Pairs(rels, t)
  {
    var byType: map<string, seq<(string, string)>> := map[];
    var types: seq<string> := [];
    for i := 0 to |rels|
      invariant types == TypesOf(rels[..i])
      invariant forall t :: t in byType <==> t in types
      invariant forall t :: t in byType ==> byType[t] == Pairs(rels[..i], t)
    {
      var rel := rels[i];
      assert rels[..i + 1][..i] == rels[..i] && rels[..i + 1][i] == rel;
      assert forall t :: Pairs(rels[..i + 1], t) == Pairs(rels[..i], t) + (if rel.relType == t then [(rel.source, rel.target)] else []);
      if rel.relType !in byType {
        TypesOfFacts(rels[..i]);
        SumPairsAbsent(rels[..i], rel.relType);
        byType := byType[rel.relType := []];
        types := types + [rel.relType];
      }
      byType := byType[rel.relType := byType[rel.relType] + [(rel.source, rel.target)]];
    }
    assert rels[..|rels|] == rels;
    if "INHERITS" !in byType {
      TypesOfFacts(rels);
      SumPairsAbsent(rels, "INHERITS");
      byType := byType["INHERITS" := []];
      types := types + ["INHERITS"];
    }
    r := (byType, types);
  }

  /** One type's pairs merged in order, with the rows the query returns;
      each pair is merged between the first node of each name. */
  function MergeAll(g: Graph, task: string, t: string, pairs: seq<(string, string)>): (Graph, seq<Rel>) {
    if pairs == [] then (g, [])
    else
      var r := MergeAll(g, task, t, pairs[..|pairs| - 1]);
      var p := pairs[|pairs| - 1];
      var u := UpdateEdge(r.0, task, p.0, t, p.1, map[]);
      (u.0, r.1 + (if u.1.Some? then [Rel(p.0, t, p.1)] else []))
  }

  /** The rows for the pairs whose endpoints both exist. */
  function LinkableRows(g: Graph, task: string, t: string, pairs: seq<(string, string)>): seq<Rel> {
    if pairs == [] then []
    else
      var p := pairs[|pairs| - 1];
      LinkableRows(g, task, t, pairs[..|pairs| - 1]) + (if Linkable(g, task, p) then [Rel(p.0, t, p.1)] else [])
  }

  /** Merging never creates or changes nodes and keeps every relationship;
      a pair is written, and returned, exactly when both endpoints exist. */
  lemma {:induction false} MergeAllFacts(g: Graph, task: string, t: string, pairs: seq<(string, string)>)
    requires Valid(g)
    ensures var r := MergeAll(g, task, t, pairs);
      Valid(r.0) && r.0.nodes == g.nodes && r.0.nextId == g.nextId && Grows(g.edges, r.0.edges) &&
      r.1 == LinkableRows(g, task, t, pairs)
  {
    if pairs != [] {
      var front := pairs[..|pairs| - 1];
      var p := pairs[|pairs| - 1];
      MergeAllFacts(g, task, t, front);
      var h := MergeAll(g, task, t, front).0;
      UpdateEdgeKeeps(h, task, p.0, t, p.1);
      GrowsTrans(g.edges, h.edges, UpdateEdge(h, task, p.0, t, p.1, map[]).0.edges);
      MatchSameNodes(g, h, task, p.0, 0);
      MatchSameNodes(g, h, task, p.1, 0);
    }
  }

  /** Merging a list in consecutive batches is merging the whole list. */
  lemma {:induction false} MergeAllConcat(g: Graph, task: string, t: string, xs: seq<(string, string)>, ys: seq<(string, string)>)
    ensures var a := MergeAll(g, task, t, xs);
      var b := MergeAll(a.0, task, t, ys);
      MergeAll(g, task, t, xs + ys) == (b.0, a.1 + b.1)
  {
    if ys == [] {
      assert xs + ys == xs;
      assert MergeAll(g, task, t, xs).1 + [] == MergeAll(g, task, t, xs).1;
    } else {
      assert (xs + ys)[..|xs + ys| - 1] == xs + ys[..|ys| - 1];
      assert (xs + ys)[|xs + ys| - 1] == ys[|ys| - 1];
      MergeAllConcat(g, task, t, xs, ys[..|ys| - 1]);
      var a := MergeAll(g, task, t, xs);
      var b0 := MergeAll(a.0, task, t, ys[..|ys| - 1]);
      var p := ys[|ys| - 1];
      var u := UpdateEdge(b0.0, task, p.0, t, p.1, map[]);
      var extra := if u.1.Some? then [Rel(p.0, t, p.1)] else [];
      assert MergeAll(g, task, t, xs + ys) == (u.0, (a.1 + b0.1) + extra);
      assert MergeAll(a.0, task, t, ys) == (u.0, b0.1 + extra);
      assert (a.1 + b0.1) + extra == a.1 + (b0.1 + extra);
    }
  }

  /** All types' groups merged in the given order. */
  function MergeTypes(g: Graph, task: string, types: seq<string>, rels: seq<Rel>): (Graph, seq<Rel>) {
    if types == [] then (g, [])
    else
      var r := MergeTypes(g, task, types[..|types| - 1], rels);
      var u := MergeAll(r.0, task, types[|types| - 1], Pairs(rels, types[|types| - 1]));
      (u.0, r.1 + u.1)
  }

  /** Migrating relationships only adds relationships between existing nodes. */
  lemma {:induction false} MergeTypesKeeps(g: Graph, task: string, types: seq<string>, rels: seq<Rel>)
    requires Valid(g)
    ensures var r := MergeTypes(g, task, types, rels);
      Valid(r.0) && r.0.nodes == g.nodes && r.0.nextId == g.nextId && Grows(g.edges, r.0.edges)
  {
    if types != [] {
      var front := types[..|types| - 1];
      MergeTypesKeeps(g, task, front, rels);
      var h := MergeTypes(g, task, front, rels).0;
      MergeAllFacts(h, task, types[|types| - 1], Pairs(rels, types[|types| - 1]));
      GrowsTrans(g.edges, h.edges, MergeTypes(g, task, types, rels).0.edges);
    }
  }

  /** The INHERITS targets recorded for class `c`, in order. */
  function TargetsFor(pairs: seq<(string, string)>, c: string): seq<Option<string>> {
    if pairs == [] then []
    else TargetsFor(pairs[..|pairs| - 1], c) + (if pairs[|pairs| - 1].0 == c then [Some(pairs[|pairs| - 1].1)] else [])
  }

  /** `class_inherited[source].append(target)` for every INHERITS pair. */
  function RecordAll(m: map<string, seq<Option<string>>>, order: seq<string>, pairs: seq<(string, string)>): (map<string, seq<Option<string>>>, seq<string>) {
    if pairs == [] then (m, order)
    else
      var r := RecordAll(m, order, pairs[..|pairs| - 1]);
      var p := pairs[|pairs| - 1];
      RecordBase(r.0, r.1, p.0, Some(p.1))
  }

  /** The key order stays in step with the recorded classes. */
  lemma {:induction false} RecordAllOrder(m: map<string, seq<Option<string>>>, order: seq<string>, pairs: seq<(string, string)>)
    requires KeysInOrder(m, order)
    ensures var r := RecordAll(m, order, pairs); KeysInOrder(r.0, r.1) && Grows(order, r.1)
  {
    if pairs == [] {
      assert order[..|order|] == order;
    } else {
      var front := pairs[..|pairs| - 1];
      var p := pairs[|pairs| - 1];
      RecordAllOrder(m, order, front);
      var r0 := RecordAll(m, order, front);
      RecordBaseOrder(r0.0, r0.1, p.0, Some(p.1));
      GrowsTrans(order, r0.1, RecordAll(m, order, pairs).1);
    }
  }

  /** Every class's list is its old list followed by its INHERITS targets in
      order, and a class is a key exactly when it was one or some pair names it. */
  lemma {:induction false} RecordAllLists(m: map<string, seq<Option<string>>>, order: seq<string>, pairs: seq<(string, string)>, c: string)
    ensures var r := RecordAll(m, order, pairs);
      (c in r.0 <==> c in m || TargetsFor(pairs, c) != []) && Recorded(r.0, c) == Recorded(m, c) + TargetsFor(pairs, c)
  {
    if pairs == [] {
      assert Recorded(m, c) + [] == Recorded(m, c);
    } else {
      var front := pairs[..|pairs| - 1];
      RecordAllLists(m, order, front, c);
      var p := pairs[|pairs| - 1];
      if p.0 == c {
        assert Recorded(m, c) + TargetsFor(pairs, c) == Recorded(m, c) + TargetsFor(front, c) + [Some(p.1)];
      }
    }
  }

  /** The keys of `o` that are not keys of `m`, in order. */
  function NewKeys(o: seq<string>, m: map<string, seq<Option<string>>>): seq<string> {
    if o == [] then []
    else NewKeys(o[..|o| - 1], m) + (if o[|o| - 1] in m then [] else [o[|o| - 1]])
  }

  /** `dict.update`: a key of both gets the second dict's value and keeps its
      place; the second dict's new keys follow in its order. */
  function DictUpdate(m1: map<string, seq<Option<string>>>, o1: seq<string>, m2: map<string, seq<Option<string>>>, o2: seq<string>): (map<string, seq<Option<string>>>, seq<string>) {
    (m1 + m2, o1 + NewKeys(o2, m1))
  }

  lemma {:induction false} NewKeysFacts(o: seq<string>, m: map<string, seq<Option<string>>>)
    requires NoDups(o)
    ensures NoDups(NewKeys(o, m))
    ensures forall c :: c in NewKeys(o, m) <==> c in o && c !in m
  {
    if o != [] {
      var front := o[..|o| - 1];
      assert NoDups(front);
      NewKeysFacts(front, m);
      var x := o[|o| - 1];
      assert x !in front;
      var n := NewKeys(front, m);
      if x !in m {
        forall i, j | 0 <= i < j < |n + [x]| ensures (n + [x])[i] != (n + [x])[j] {
          if j == |n| {
            assert (n + [x])[i] == n[i];
          }
        }
      }
      forall c ensures c in o <==> c in front || c == x {
        assert o == front + [x];
      }
    }
  }

  /** The updated dict keeps its key order in step. */
  lemma DictUpdateOrder(m1: map<string, seq<Option<string>>>, o1: seq<string>, m2: map<string, seq<Option<string>>>, o2: seq<string>)
    requires KeysInOrder(m1, o1) && KeysInOrder(m2, o2)
    ensures var r := DictUpdate(m1, o1, m2, o2); KeysInOrder(r.0, r.1) && Grows(o1, r.1)
  {
    NewKeysFacts(o2, m1);
    var n := NewKeys(o2, m1);
    var o := o1 + n;
    forall i, j | 0 <= i < j < |o| ensures o[i] != o[j] {
      if j < |o1| {
        assert o[i] == o1[i] && o[j] == o1[j];
      } else if i < |o1| {
        assert o[i] == o1[i] && o1[i] in o1;
        assert o[j] == n[j - |o1|];
      } else {
        assert o[i] == n[i - |o1|] && o[j] == n[j - |o1|];
      }
    }
    assert o[..|o1|] == o1;
  }

  // ---- what a migration writes ----

  /** The graph holds a relationship of the row's type from the first node of
      the task named by its source to the first one named by its target. */
  ghost predicate Linked(g: Graph, task: string, x: Rel) {
    Linkable(g, task, (x.source, x.target)) &&
    exists k :: 0 <= k < |g.edges| &&
      SameKey(g.edges[k], MatchNode(g, task, x.source).value, x.relType, MatchNode(g, task, x.target).value)
  }

  /** A relationship stays once written: later steps keep the nodes and only append. */
  lemma LinkedKept(g: Graph, h: Graph, task: string, x: Rel)
    requires g.nodes == h.nodes && g.nextId == h.nextId && Grows(g.edges, h.edges) && Linked(g, task, x)
    ensures Linked(h, task, x)
  {
    MatchSameNodes(g, h, task, x.source, 0);
    MatchSameNodes(g, h, task, x.target, 0);
    var k :| 0 <= k < |g.edges| &&
      SameKey(g.edges[k], MatchNode(g, task, x.source).value, x.relType, MatchNode(g, task, x.target).value);
    assert h.edges[k] == g.edges[k];
  }

  /** Every pair of a group whose endpoints both exist is linked by the merge. */
  lemma {:induction false} MergeAllLinks(g: Graph, task: string, t: string, pairs: seq<(string, string)>)
    requires Valid(g)
    ensures forall p :: p in pairs && Linkable(g, task, p) ==> Linked(MergeAll(g, task, t, pairs).0, task, Rel(p.0, t, p.1))
  {
    if pairs != [] {
      var front := pairs[..|pairs| - 1];
      var p := pairs[|pairs| - 1];
      MergeAllLinks(g, task, t, front);
      MergeAllFacts(g, task, t, front);
      var h := MergeAll(g, task, t, front).0;
      var u := UpdateEdge(h, task, p.0, t, p.1, map[]);
      UpdateEdgeKeeps(h, task, p.0, t, p.1);
      assert MergeAll(g, task, t, pairs).0 == u.0;
      forall q | q in pairs && Linkable(g, task, q) ensures Linked(u.0, task, Rel(q.0, t, q.1)) {
        MatchSameNodes(g, h, task, q.0, 0);
        MatchSameNodes(g, h, task, q.1, 0);
        MatchSameNodes(h, u.0, task, q.0, 0);
        MatchSameNodes(h, u.0, task, q.1, 0);
        if q == p {
          assert u.1.Some?;
          assert SameKey(u.0.edges[u.1.value], MatchNode(u.0, task, q.0).value, t, MatchNode(u.0, task, q.1).value);
        } else {
          assert q in front by {
            var i :| 0 <= i < |pairs| && pairs[i] == q;
            assert front[i] == q;
          }
          LinkedKept(h, u.0, task, Rel(q.0, t, q.1));
        }
      }
    }
  }

  /** A row's pair is in the group of its type. */
  lemma {:induction false} PairsHas(rels: seq<Rel>, x: Rel)
    requires x in rels
    ensures (x.source, x.target) in Pairs(rels, x.relType)
  {
    var front := rels[..|rels| - 1];
    if x != rels[|rels| - 1] {
      var i :| 0 <= i < |rels| && rels[i] == x;
      assert front[i] == x;
      PairsHas(front, x);
    }
  }

  /** Every row of a listed type whose endpoints both exist is linked once
      all groups are merged. */
  lemma MergeTypesLinks(g: Graph, task: string, types: seq<string>, rels: seq<Rel>)
    requires Valid(g)
    ensures forall x :: x in rels && x.relType in types && Linkable(g, task, (x.source, x.target)) ==>
      Linked(MergeTypes(g, task, types, rels).0, task, x)
  {
    forall x | x in rels && x.relType in types && Linkable(g, task, (x.source, x.target))
      ensures Linked(MergeTypes(g, task, types, rels).0, task, x)
    {
      MergeTypesLinked(g, task, types, rels, x);
    }
  }

  /** One row: linked by its own group's merge, and kept by the groups after it. */
  lemma {:induction false} MergeTypesLinked(g: Graph, task: string, types: seq<string>, rels: seq<Rel>, x: Rel)
    requires Valid(g) && x in rels && x.relType in types && Linkable(g, task, (x.source, x.target))
    ensures Linked(MergeTypes(g, task, types, rels).0, task, x)
  {
    var front := types[..|types| - 1];
    var t := types[|types| - 1];
    MergeTypesKeeps(g, task, front, rels);
    var h := MergeTypes(g, task, front, rels).0;
    var r := MergeTypes(g, task, types, rels).0;
    assert r == MergeAll(h, task, t, Pairs(rels, t)).0;
    MatchSameNodes(g, h, task, x.source, 0);
    MatchSameNodes(g, h, task, x.target, 0);
    if x.relType == t {
      PairsHas(rels, x);
      MergeAllLinks(h, task, t, Pairs(rels, t));
      assert Rel(x.source, t, x.target) == x;
    } else {
      assert x.relType in front by {
        var i :| 0 <= i < |types| && types[i] == x.relType;
        assert front[i] == x.relType;
      }
      MergeTypesLinked(g, task, front, rels, x);
      MergeAllFacts(h, task, t, Pairs(rels, t));
      LinkedKept(h, r, task, x);
    }
  }

  /** `_build_edges_from_list`'s MERGE query as written: an endpoint the
      OPTIONAL MATCH misses leaves a null node for MERGE, which fails the
      whole query; `execute_query` turns the failure into an empty result, so
      no pair of the batch is written. */
  function MergeBatchAsWritten(g: Graph, task: string, t: string, chunk: seq<(string, string)>): (Graph, seq<Rel>) {
    if exists i :: 0 <= i < |chunk| && !Linkable(g, task, chunk[i]) then (g, [])
    else MergeAll(g, task, t, chunk)
  }

  /** Finding: a batch with one missing endpoint loses the pairs whose
      endpoints exist, which `MergeAll` writes. */
  lemma MergeBatchLosesPairs()
    ensures var g := Graph(map[0 := Node("m.A", {"new"}, map[]), 1 := Node("m.B", {"new"}, map[])], [], 2);
      var chunk := [("m.A", "m.B"), ("m.A", "m.Gone")];
      MergeBatchAsWritten(g, "new", "CALLS", chunk) == (g, []) &&
      MergeAll(g, "new", "CALLS", chunk).1 == [Rel("m.A", "CALLS", "m.B")] &&
      Linked(MergeAll(g, "new", "CALLS", chunk).0, "new", Rel("m.A", "CALLS", "m.B"))
  {
    var g := Graph(map[0 := Node("m.A", {"new"}, map[]), 1 := Node("m.B", {"new"}, map[])], [], 2);
    var chunk := [("m.A", "m.B"), ("m.A", "m.Gone")];
    assert MatchNode(g, "new", "m.A") == Some(0) by {
      MatchIs(g, "new", "m.A", 0);
    }
    assert MatchNode(g, "new", "m.B") == Some(1) by {
      assert !IsTaskNode(g, "new", 0, "m.B");
      MatchIs(g, "new", "m.B", 1);
    }
    assert MatchNode(g, "new", "m.Gone").None? by {
      assert !IsTaskNode(g, "new", 0, "m.Gone") && !IsTaskNode(g, "new", 1, "m.Gone");
    }
    assert !Linkable(g, "new", chunk[1]);
    assert chunk[..1] == [chunk[0]] && chunk[..1][..0] == [];
    MergeAllLinks(g, "new", "CALLS", chunk);
  }

  // ---- build_old_node_to_new ----

  /** The state `build_old_node_to_new` changes: the graph and the migrated
      inheritance table with its key order. */
  datatype UState = UState(g: Graph, inherited: map<string, seq<Option<string>>>, order: seq<string>)

  /** One changed file, at `rel` relative to the project: the full names of the
      new task's nodes there, the old relationships into them, and, when there
      are any, their migration with the INHERITS pairs recorded. */
  function MigrateFileFn(s: UState, told: string, tnew: string, rel: string): UState {
    var names := NamesInFile(s.g, tnew, rel);
    if names == [] then s
    else
      var rels := OldEdges(s.g, told, tnew, names);
      if rels == [] then s
      else
        var recorded := RecordAll(s.inherited, s.order, Pairs(rels, "INHERITS"));
        UState(MergeTypes(s.g, tnew, TypeOrder(rels), rels).0, recorded.0, recorded.1)
  }

  /** Migrating one file adds relationships only; every carried row whose
      endpoints exist in the new task is then linked in it; every class's
      recorded bases are followed by the file's INHERITS targets, and the key
      order stays in step. */
  lemma MigrateFileFacts(s: UState, told: string, tnew: string, rel: string)
    requires Valid(s.g)
    ensures var r := MigrateFileFn(s, told, tnew, rel);
      Valid(r.g) && r.g.nodes == s.g.nodes && r.g.nextId == s.g.nextId && Grows(s.g.edges, r.g.edges)
    ensures var r := MigrateFileFn(s, told, tnew, rel);
      forall x :: x in OldEdges(s.g, told, tnew, NamesInFile(s.g, tnew, rel)) && Linkable(s.g, tnew, (x.source, x.target)) ==>
        Linked(r.g, tnew, x)
    ensures var r := MigrateFileFn(s, told, tnew, rel);
      var pairs := Pairs(OldEdges(s.g, told, tnew, NamesInFile(s.g, tnew, rel)), "INHERITS");
      forall c :: (c in r.inherited <==> c in s.inherited || TargetsFor(pairs, c) != []) &&
        Recorded(r.inherited, c) == Recorded(s.inherited, c) + TargetsFor(pairs, c)
    ensures KeysInOrder(s.inherited, s.order) ==>
      var r := MigrateFileFn(s, told, tnew, rel); KeysInOrder(r.inherited, r.order)
  {
    var names := NamesInFile(s.g, tnew, rel);
    var rels := OldEdges(s.g, told, tnew, names);
    var pairs := Pairs(rels, "INHERITS");
    if names == [] || rels == [] {
      assert rels == [] && pairs == [];
      assert s.g.edges[..|s.g.edges|] == s.g.edges;
      forall c ensures Recorded(s.inherited, c) + TargetsFor(pairs, c) == Recorded(s.inherited, c) {
        assert Recorded(s.inherited, c) + [] == Recorded(s.inherited, c);
      }
    } else {
      MergeTypesKeeps(s.g, tnew, TypeOrder(rels), rels);
      MergeTypesLinks(s.g, tnew, TypeOrder(rels), rels);
      TypesOfFacts(rels);
      forall x | x in rels ensures x.relType in TypeOrder(rels) {
        var i :| 0 <= i < |rels| && rels[i] == x;
        assert rels[i].relType == x.relType;
      }
      forall c {
        RecordAllLists(s.inherited, s.order, pairs, c);
      }
      if KeysInOrder(s.inherited, s.order) {
        RecordAllOrder(s.inherited, s.order, pairs);
      }
    }
  }

  /** `build_old_node_to_new`: the changed files migrated in order. */
  function OldToNewFn(s: UState, told: string, tnew: string, root: string, relPath: (string, string) -> string,
                      files: seq<string>): UState {
    if files == [] then s
    else MigrateFileFn(OldToNewFn(s, told, tnew, root, relPath, files[..|files| - 1]), told, tnew, relPath(files[|files| - 1], root))
  }

  /** The whole migration adds relationships only, keeps what was linked,
      grows every recorded class's bases and keeps the key order in step. */
  lemma {:induction false} OldToNewFacts(s: UState, told: string, tnew: string, root: string, relPath: (string, string) -> string,
                                         files: seq<string>)
    requires Valid(s.g)
    ensures var r := OldToNewFn(s, told, tnew, root, relPath, files);
      Valid(r.g) && r.g.nodes == s.g.nodes && r.g.nextId == s.g.nextId && Grows(s.g.edges, r.g.edges)
    ensures var r := OldToNewFn(s, told, tnew, root, relPath, files);
      forall x :: Linked(s.g, tnew, x) ==> Linked(r.g, tnew, x)
    ensures var r := OldToNewFn(s, told, tnew, root, relPath, files);
      forall c :: c in s.inherited ==> c in r.inherited && Grows(s.inherited[c], r.inherited[c])
    ensures KeysInOrder(s.inherited, s.order) ==>
      var r := OldToNewFn(s, told, tnew, root, relPath, files); KeysInOrder(r.inherited, r.order)
  {
    var r := OldToNewFn(s, told, tnew, root, relPath, files);
    if files == [] {
      assert s.g.edges[..|s.g.edges|] == s.g.edges;
      forall c | c in s.inherited ensures Grows(s.inherited[c], s.inherited[c]) {
        assert s.inherited[c][..|s.inherited[c]|] == s.inherited[c];
      }
    } else {
      var front := files[..|files| - 1];
      OldToNewFacts(s, told, tnew, root, relPath, front);
      var m := OldToNewFn(s, told, tnew, root, relPath, front);
      MigrateFileFacts(m, told, tnew, relPath(files[|files| - 1], root));
      GrowsTrans(s.g.edges, m.g.edges, r.g.edges);
      forall x | Linked(s.g, tnew, x) ensures Linked(r.g, tnew, x) {
        LinkedKept(m.g, r.g, tnew, x);
      }
      forall c | c in s.inherited ensures c in r.inherited && Grows(s.inherited[c], r.inherited[c]) {
        assert Recorded(m.inherited, c) == m.inherited[c];
        assert Recorded(r.inherited, c) == r.inherited[c];
        GrowsTrans(s.inherited[c], m.inherited[c], r.inherited[c]);
      }
    }
  }

  /** The migration up to and including file `i` is file `i` migrated after the earlier ones. */
  lemma OldToNewStep(s: UState, told: string, tnew: string, root: string, relPath: (string, string) -> string,
                     files: seq<string>, i: nat)
    requires i < |files|
    ensures OldToNewFn(s, told, tnew, root, relPath, files[..i + 1]) ==
      MigrateFileFn(OldToNewFn(s, told, tnew, root, relPath, files[..i]), told, tnew, relPath(files[i], root))
  {
    var head := files[..i + 1];
    assert head[..|head| - 1] == files[..i] && head[|head| - 1] == files[i];
  }

  /** A row carried for a changed file, whose endpoints exist in the new task
      when that file's turn comes, is linked once all files are done. */
  lemma OldToNewLinks(s: UState, told: string, tnew: string, root: string, relPath: (string, string) -> string,
                      files: seq<string>, i: nat, x: Rel)
    requires Valid(s.g) && i < |files|
    requires var before := OldToNewFn(s, told, tnew, root, relPath, files[..i]);
      x in OldEdges(before.g, told, tnew, NamesInFile(before.g, tnew, relPath(files[i], root))) &&
      Linkable(before.g, tnew, (x.source, x.target))
    ensures Linked(OldToNewFn(s, told, tnew, root, relPath, files).g, tnew, x)
  {
    var before := OldToNewFn(s, told, tnew, root, relPath, files[..i]);
    var rel := relPath(files[i], root);
    OldToNewFacts(s, told, tnew, root, relPath, files[..i]);
    OldToNewStep(s, told, tnew, root, relPath, files, i);
    var after := MigrateFileFn(before, told, tnew, rel);
    MigrateFileFacts(before, told, tnew, rel);
    assert Linked(after.g, tnew, x);
    LinkedToEnd(s, told, tnew, root, relPath, files, i + 1, x);
  }

  /** `build_old_node_to_new` pulls every old relationship forward: a
      relationship of the starting graph from a node of both tasks into an
      old-task node of the same full name as a node in a listed file (in
      another file) is linked in the new task at the end, whenever both full
      names have a node of the new task. */
  lemma OldToNewCarries(s: UState, told: string, tnew: string, root: string, relPath: (string, string) -> string,
                        files: seq<string>, i: nat, name: string, k: nat)
    requires Valid(s.g) && i < |files|
    requires name in NamesInFile(s.g, tnew, relPath(files[i], root)) && OldEdgeAt(s.g, told, tnew, name, k)
    requires Linkable(s.g, tnew, (s.g.nodes[s.g.edges[k].src].fullName, name))
    ensures Linked(OldToNewFn(s, told, tnew, root, relPath, files).g, tnew,
                   Rel(s.g.nodes[s.g.edges[k].src].fullName, s.g.edges[k].rel, name))
  {
    var before := OldToNewFn(s, told, tnew, root, relPath, files[..i]);
    var x := Rel(s.g.nodes[s.g.edges[k].src].fullName, s.g.edges[k].rel, name);
    var names := NamesInFile(before.g, tnew, relPath(files[i], root));
    OldToNewFacts(s, told, tnew, root, relPath, files[..i]);
    assert before.g.edges[k] == s.g.edges[k];
    assert OldEdgeAt(before.g, told, tnew, name, k);
    assert name in names;
    OldEdgesComplete(before.g, told, tnew, names, name, k);
    MatchSameNodes(s.g, before.g, tnew, x.source, 0);
    MatchSameNodes(s.g, before.g, tnew, x.target, 0);
    OldToNewLinks(s, told, tnew, root, relPath, files, i, x);
  }

  /** What is linked after the first `j` files stays linked to the end. */
  lemma {:induction false} LinkedToEnd(s: UState, told: string, tnew: string, root: string, relPath: (string, string) -> string,
                                       files: seq<string>, j: nat, x: Rel)
    requires Valid(s.g) && j <= |files|
    requires Linked(OldToNewFn(s, told, tnew, root, relPath, files[..j]).g, tnew, x)
    ensures Linked(OldToNewFn(s, told, tnew, root, relPath, files).g, tnew, x)
    decreases |files| - j
  {
    if j == |files| {
      assert files[..j] == files;
    } else {
      var m := OldToNewFn(s, told, tnew, root, relPath, files[..j]);
      OldToNewFacts(s, told, tnew, root, relPath, files[..j]);
      OldToNewStep(s, told, tnew, root, relPath, files, j);
      MigrateFileFacts(m, told, tnew, relPath(files[j], root));
      LinkedKept(m.g, MigrateFileFn(m, told, tnew, relPath(files[j], root)).g, tnew, x);
      LinkedToEnd(s, told, tnew, root, relPath, files, j + 1, x);
    }
  }

  class AstUpdateEdge {
    const projectPath: string
    const taskIdOld: string
    const taskIdNew: string
    /** The database, addressed by both `graphOld` and `graphNew`. */
    const db: GraphDatabaseHandler
    const astManage: AstManager
    /** `os.path.relpath`. */
    const relPath: (string, string) -> string
    var classInherited: map<string, seq<Option<string>>>
    /** The insertion order of `classInherited`'s keys. */
    var inheritedOrder: seq<string>

    ghost predicate Valid()
      reads this, astManage, db
    {
      astManage.graphDB == db && astManage.taskId == taskIdNew && astManage.projectPath == projectPath &&
      astManage.Valid() && KeysInOrder(classInherited, inheritedOrder)
    }

    constructor (projectPath: string, taskIdOld: string, taskIdNew: string, db: GraphDatabaseHandler,
                 files: map<string, Source>, utils: AstUtils, relPath: (string, string) -> string)
      requires db.Valid()
      ensures Valid() && fresh(astManage)
      ensures this.projectPath == projectPath && this.taskIdOld == taskIdOld && this.taskIdNew == taskIdNew && this.db == db
      ensures astManage.files == files && astManage.utils == utils && this.relPath == relPath
      ensures astManage.classInherited == map[] && astManage.visited == [] && astManage.processed == {}
      ensures classInherited == map[] && inheritedOrder == []
    {
      this.projectPath := projectPath;
      this.taskIdOld := taskIdOld;
      this.taskIdNew := taskIdNew;
      this.db := db;
      this.relPath := relPath;
      astManage := new AstManager(projectPath, taskIdNew, db, files, utils);
      classInherited := map[];
      inheritedOrder := [];
    }

    /** `_get_all_node_in_file`: the full names of the new task's nodes in the
        file, fetched page by page; None when there are none. */
    method GetAllNodeInFile(file: string, batch: nat) returns (r: Option<seq<string>>)
      ensures var names := NamesInFile(db.g, taskIdNew, relPath(file, projectPath));
        r == if batch == 0 || names == [] then None else Some(names)
    {
      var names := NamesInFile(db.g, taskIdNew, relPath(file, projectPath));
      var all := PageAll(names, batch);
      r := if all == [] then None else Some(all);
    }

    /** `_get_old_edge_list`: the old relationships into the named nodes,
        `nodeBatch` names at a time and page by page; None when there are
        none; `range` raises ValueError for a zero step. */
    method GetOldEdgeList(nodes: seq<string>, batch: nat, nodeBatch: int) returns (r: Call<Option<seq<Rel>>>)
      ensures nodeBatch == 0 ==> r == Raised("range() arg 3 must not be zero")
      ensures nodeBatch != 0 ==>
        var rows := OldEdges(db.g, taskIdOld, taskIdNew, nodes);
        r == Returned(if nodeBatch < 0 || batch == 0 || rows == [] then None else Some(rows))
    {
      if nodeBatch == 0 {
        return Raised("range() arg 3 must not be zero");
      }
      var all: seq<Rel> := [];
      if nodeBatch > 0 {
        var i := 0;
        while i < |nodes|
          invariant 0 <= i
          invariant all == if batch == 0 then [] else OldEdges(db.g, taskIdOld, taskIdNew, nodes[..Min(i, |nodes|)])
          decreases |nodes| - i
        {
          var chunk := nodes[i..Min(i + nodeBatch, |nodes|)];
          var rows := PageAll(OldEdges(db.g, taskIdOld, taskIdNew, chunk), batch);
          assert nodes[..Min(i + nodeBatch, |nodes|)] == nodes[..i] + chunk;
          OldEdgesConcat(db.g, taskIdOld, taskIdNew, nodes[..i], chunk);
          all := all + rows;
          i := i + nodeBatch;
        }
        assert nodes[..Min(i, |nodes|)] == nodes;
      } else {
        assert nodes == [] ==> OldEdges(db.g, taskIdOld, taskIdNew, nodes) == [];
      }
      r := Returned(if all == [] then None else Some(all));
    }

    /** `_build_edges_from_list`: rows are grouped by relationship type and
        the INHERITS pairs are recorded; each group is merged in batches
        between nodes of the new task, skipping pairs with a missing
        endpoint; None when nothing was merged. */
    method BuildEdgesFromList(rels: seq<Rel>, batch: nat) returns (r: Option<seq<Rel>>)
      requires Valid() && (rels == [] || batch > 0)
      modifies this, db
      ensures Valid()
      ensures var merged := MergeTypes(old(db.g), taskIdNew, TypeOrder(rels), rels);
        db.g == merged.0 && r == (if merged.1 == [] then None else Some(merged.1))
      ensures (classInherited, inheritedOrder) == RecordAll(old(classInherited), old(inheritedOrder), Pairs(rels, "INHERITS"))
    {
      var grouped := GroupByType(rels);
      var byType, types := grouped.0, grouped.1;
      RecordInherits(byType["INHERITS"]);
      r := MergeGroups(rels, types, byType, batch);
    }

    /** The loop over the INHERITS pairs. */
    method RecordInherits(pairs: seq<(string, string)>)
      requires Valid()
      modifies this
      ensures Valid() && (classInherited, inheritedOrder) == RecordAll(old(classInherited), old(inheritedOrder), pairs)
    {
      for k := 0 to |pairs|
        invariant Valid() && (classInherited, inheritedOrder) == RecordAll(old(classInherited), old(inheritedOrder), pairs[..k])
      {
        assert pairs[..k + 1][..k] == pairs[..k];
        RecordBaseOrder(classInherited, inheritedOrder, pairs[k].0, Some(pairs[k].1));
        var recorded := RecordBase(classInherited, inheritedOrder, pairs[k].0, Some(pairs[k].1));
        classInherited, inheritedOrder := recorded.0, recorded.1;
      }
      assert pairs[..|pairs|] == pairs;
    }

    /** The loop over `relationships_by_type.items()`. */
    method MergeGroups(rels: seq<Rel>, types: seq<string>, byType: map<string, seq<(string, string)>>, batch: nat) returns (r: Option<seq<Rel>>)
      requires Valid() && (rels == [] || batch > 0)
      requires forall t :: t in types ==> t in byType && byType[t] == Pairs(rels, t)
      modifies db
      ensures Valid()
      ensures var merged := MergeTypes(old(db.g), taskIdNew, types, rels);
        db.g == merged.0 && r == (if merged.1 == [] then None else Some(merged.1))
    {
      var results: seq<Rel> := [];
      ghost var g0 := db.g;
      for ti := 0 to |types|
        invariant Valid() && (db.g, results) == MergeTypes(g0, taskIdNew, types[..ti], rels)
      {
        assert types[..ti + 1][..ti] == types[..ti];
        var t := types[ti];
        var rows := MergeGroup(t, byType[t], if rels == [] then 1 else batch);
        results := results + rows;
      }
      assert types[..|types|] == types;
      r := if results == [] then None else Some(results);
    }

    /** One type's pairs, `batch` at a time. */
    method MergeGroup(t: string, pairs: seq<(string, string)>, batch: nat) returns (rows: seq<Rel>)
      requires Valid() && (pairs == [] || batch > 0)
      modifies db
      ensures Valid() && (db.g, rows) == MergeAll(old(db.g), taskIdNew, t, pairs)
    {
      rows := [];
      var offset := 0;
      ghost var g0 := db.g;
      while offset < |pairs|
        invariant 0 <= offset && Valid()
        invariant (db.g, rows) == MergeAll(g0, taskIdNew, t, pairs[..Min(offset, |pairs|)])
        decreases |pairs| - offset
      {
        var end := Min(offset + batch, |pairs|);
        assert Min(offset, |pairs|) == offset;
        var chunk := pairs[offset..end];
        var more := MergeBatch(t, chunk);
        assert pairs[..end] == pairs[..offset] + chunk;
        MergeAllConcat(g0, taskIdNew, t, pairs[..offset], chunk);
        rows := rows + more;
        offset := offset + batch;
        assert Min(offset, |pairs|) == end;
      }
      assert pairs[..Min(offset, |pairs|)] == pairs;
    }

    /** One query: the batch's pairs, one MERGE each. */
    method MergeBatch(t: string, chunk: seq<(string, string)>) returns (rows: seq<Rel>)
      requires Valid()
      modifies db
      ensures Valid() && (db.g, rows) == MergeAll(old(db.g), taskIdNew, t, chunk)
    {
      rows := [];
      ghost var g0 := db.g;
      for k := 0 to |chunk|
        invariant Valid()
        invariant (db.g, rows) == MergeAll(g0, taskIdNew, t, chunk[..k])
      {
        assert chunk[..k + 1][..k] == chunk[..k] && chunk[..k + 1][k] == chunk[k];
        ghost var h := db.g;
        var edge := db.MergeRelationship(taskIdNew, chunk[k].0, t, chunk[k].1);
        ghost var u := UpdateEdge(h, taskIdNew, chunk[k].0, t, chunk[k].1, map[]);
        assert db.g == u.0 && edge == u.1;
        assert MergeAll(g0, taskIdNew, t, chunk[..k + 1]) == (u.0, rows + (if u.1.Some? then [Rel(chunk[k].0, t, chunk[k].1)] else []));
        if edge.Some? {
          rows := rows + [Rel(chunk[k].0, t, chunk[k].1)];
        } else {
          assert rows + [] == rows;
        }
      }
      assert chunk[..|chunk|] == chunk;
    }

    /** `_build_edge_old_to_new`: the relationship through `update_edge`; an
        INHERITS relationship that was written is recorded. */
    method BuildEdgeOldToNew(oldName: string, newName: string, relation: string)
      requires Valid()
      modifies this, db
      ensures Valid()
      ensures var u := UpdateEdge(old(db.g), db.taskId, oldName, relation, newName, map[]);
        db.g == u.0 &&
        (classInherited, inheritedOrder) ==
          if u.1.Some? && relation == "INHERITS" then RecordBase(old(classInherited), old(inheritedOrder), oldName, Some(newName))
          else (old(classInherited), old(inheritedOrder))
    {
      var edge := db.UpdateEdge(oldName, relation, newName, map[]);
      if edge.Some? && relation == "INHERITS" {
        RecordBaseOrder(classInherited, inheritedOrder, oldName, Some(newName));
        var recorded := RecordBase(classInherited, inheritedOrder, oldName, Some(newName));
        classInherited, inheritedOrder := recorded.0, recorded.1;
      }
    }

    /** `build_old_node_to_new`: for every changed file, its nodes, the old
        relationships into them, and their migration. Migration adds
        relationships only: nodes stay, old relationships stay, and recorded
        bases stay. */
    method BuildOldNodeToNew(changeFiles: seq<string>)
      requires Valid()
      modifies this, db
      ensures Valid()
      ensures UState(db.g, classInherited, inheritedOrder) ==
        OldToNewFn(UState(old(db.g), old(classInherited), old(inheritedOrder)), taskIdOld, taskIdNew, projectPath, relPath, changeFiles)
      ensures db.g.nodes == old(db.g.nodes) && Grows(old(db.g.edges), db.g.edges)
      ensures forall c :: c in old(classInherited) ==> c in classInherited && Grows(old(classInherited)[c], classInherited[c])
    {
      ghost var s0 := UState(db.g, classInherited, inheritedOrder);
      for i := 0 to |changeFiles|
        invariant Valid()
        invariant UState(db.g, classInherited, inheritedOrder) ==
          OldToNewFn(s0, taskIdOld, taskIdNew, projectPath, relPath, changeFiles[..i])
      {
        OldToNewStep(s0, taskIdOld, taskIdNew, projectPath, relPath, changeFiles, i);
        MigrateFile(changeFiles[i]);
      }
      assert changeFiles[..|changeFiles|] == changeFiles;
      OldToNewFacts(s0, taskIdOld, taskIdNew, projectPath, relPath, changeFiles);
    }

    /** One changed file of `build_old_node_to_new`. */
    method MigrateFile(file: string)
      requires Valid()
      modifies this, db
      ensures Valid()
      ensures UState(db.g, classInherited, inheritedOrder) ==
        MigrateFileFn(UState(old(db.g), old(classInherited), old(inheritedOrder)), taskIdOld, taskIdNew, relPath(file, projectPath))
      ensures db.g.nodes == old(db.g.nodes) && Grows(old(db.g.edges), db.g.edges)
      ensures forall c :: c in old(classInherited) ==> c in classInherited && Grows(old(classInherited)[c], classInherited[c])
    {
      var nodes := GetAllNodeInFile(file, 500);
      if nodes.Some? {
        var edges := GetOldEdgeList(nodes.value, 500, 80);
        if edges.value.Some? && edges.value.value != [] {
          var rels := edges.value.value;
          var _ := BuildEdgesFromList(rels, 500);
          MergeTypesKeeps(old(db.g), taskIdNew, TypeOrder(rels), rels);
          forall c | c in old(classInherited) ensures c in classInherited && Grows(old(classInherited)[c], classInherited[c]) {
            RecordAllLists(old(classInherited), old(inheritedOrder), Pairs(rels, "INHERITS"), c);
            assert Recorded(old(classInherited), c) == old(classInherited)[c];
            assert Recorded(classInherited, c) == classInherited[c];
          }
          return;
        }
      }
      assert db.g.edges[..|db.g.edges|] == db.g.edges;
      forall c | c in classInherited ensures Grows(classInherited[c], classInherited[c]) {
        assert classInherited[c][..|classInherited[c]|] == classInherited[c];
      }
    }

    /** `self.ast_manage.class_inherited.update(self.class_inherited)`. */
    method MergeInherited()
      requires Valid()
      modifies astManage
      ensures Valid()
      ensures (astManage.classInherited, astManage.inheritedOrder) ==
        DictUpdate(old(astManage.classInherited), old(astManage.inheritedOrder), classInherited, inheritedOrder)
      ensures astManage.visited == old(astManage.visited) && astManage.processed == old(astManage.processed)
    {
      DictUpdateOrder(astManage.classInherited, astManage.inheritedOrder, classInherited, inheritedOrder);
      var updated := DictUpdate(astManage.classInherited, astManage.inheritedOrder, classInherited, inheritedOrder);
      astManage.classInherited, astManage.inheritedOrder := updated.0, updated.1;
    }

    /** `build_new_node_to_old`: the three passes over the changed files. */
    method BuildNewNodeToOld(changeFiles: seq<string>) returns (raised: bool)
      requires Valid()
      modifies astManage, db
      ensures Valid()
      ensures (ManagerState(astManage.classInherited, astManage.inheritedOrder, astManage.processed, astManage.visited, db.g), raised) ==
        RunFn(astManage.EnvOf(), ManagerState(old(astManage.classInherited), old(astManage.inheritedOrder), old(astManage.processed),
                                              old(astManage.visited), old(db.g)), changeFiles)
      ensures !raised ==> forall f :: f in changeFiles ==> f in astManage.visited
      ensures !raised ==> forall c, i :: c in astManage.classInherited && 0 <= i < |astManage.classInherited[c]| ==>
        (c, astManage.classInherited[c][i]) in astManage.processed
      ensures forall c :: c in old(astManage.classInherited) ==>
        c in astManage.classInherited && Grows(old(astManage.classInherited)[c], astManage.classInherited[c])
    {
      raised := astManage.Run(Some(changeFiles));
      RunFnKeep(astManage.EnvOf(), ManagerState(old(astManage.classInherited), old(astManage.inheritedOrder), old(astManage.processed),
                                                old(astManage.visited), old(db.g)), changeFiles);
    }

    /** `build_edge`: old relationships are carried forward first, the
        migrated inheritance joins the manager's table, then the passes run
        on the changed files; on completion every changed file was visited
        and every migrated (class, base) pair was processed. */
    method BuildEdge(changeFiles: seq<string>) returns (raised: bool)
      requires Valid()
      modifies this, astManage, db
      ensures Valid()
      ensures var u := OldToNewFn(UState(old(db.g), old(classInherited), old(inheritedOrder)), taskIdOld, taskIdNew, projectPath, relPath, changeFiles);
        var d := DictUpdate(old(astManage.classInherited), old(astManage.inheritedOrder), u.inherited, u.order);
        classInherited.Keys == u.inherited.Keys && inheritedOrder == u.order &&
        (ManagerState(astManage.classInherited, astManage.inheritedOrder, astManage.processed, astManage.visited, db.g), raised) ==
          RunFn(astManage.EnvOf(), ManagerState(d.0, d.1, old(astManage.processed), old(astManage.visited), u.g), changeFiles)
      ensures var u := OldToNewFn(UState(old(db.g), old(classInherited), old(inheritedOrder)), taskIdOld, taskIdNew, projectPath, relPath, changeFiles);
        forall c :: c in u.inherited ==>
          c in astManage.classInherited && classInherited[c] == astManage.classInherited[c] && Grows(u.inherited[c], classInherited[c])
      ensures !raised ==> forall f :: f in changeFiles ==> f in astManage.visited
      ensures !raised ==> forall c, i :: c in classInherited && 0 <= i < |classInherited[c]| ==>
        (c, classInherited[c][i]) in astManage.processed
    {
      ghost var mid0 := ManagerState(astManage.classInherited, astManage.inheritedOrder, astManage.processed, astManage.visited, db.g);
      BuildOldNodeToNew(changeFiles);
      var migrated := classInherited;
      ghost var d := DictUpdate(astManage.classInherited, astManage.inheritedOrder, classInherited, inheritedOrder);
      ghost var s := ManagerState(d.0, d.1, mid0.processed, mid0.visited, db.g);
      MergeInherited();
      ghost var merged := astManage.classInherited;
      assert s == ManagerState(astManage.classInherited, astManage.inheritedOrder, astManage.processed, astManage.visited, db.g);
      assert forall c :: c in migrated ==> c in merged && merged[c] == migrated[c];
      raised := BuildNewNodeToOld(changeFiles);
      // `update` hands the manager this object's lists, and the run appends
      // to them in place: both tables see the same lists afterwards.
      classInherited := map c | c in migrated :: astManage.classInherited[c];
      assert classInherited.Keys == migrated.Keys;
      KeysInOrderSameKeys(migrated, classInherited, inheritedOrder);
    }
  }
}
