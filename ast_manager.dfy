/** mcp_code_indexer/environment/graph_database/ast_search/ast_manage.py
    (and its copy internal_ast_manager.py): `AstManager`, which writes
    module containment, inheritance and inherited-member relationships into
    the graph in three passes. Parsed files are given as summaries; the
    `ast_utils` helpers are parameters. */
module AstManage {
  import opened Wrappers
  import opened OsPath
  import opened GraphStore
  import opened GraphQueries
  import opened GraphDatabase

  /** An `ast.ImportFrom` node: its module part, its level and the imported names. */
  datatype ImportFrom = ImportFrom(modulePart: Option<string>, level: nat, names: seq<string>)

  /** A base class expression: a plain `ast.Name` or anything else. */
  datatype Base = NameBase(id: string) | OtherBase

  /** An `ast.ClassDef`: its name and bases. */
  datatype ClassDef = ClassDef(name: string, bases: seq<Base>)

  /** A file as `ast.walk` sees it: its ImportFrom and ClassDef nodes in walk
      order, or a file that cannot be read or parsed. */
  datatype Source = Parsed(imports: seq<ImportFrom>, classes: seq<ClassDef>) | Unreadable

  /** The `ast_utils` helpers: `get_dotted_name(root, path)`,
      `get_module_name(file, node, root)` (None also for an empty name),
      `module_name_to_path(name, root)` and `get_py_files(project)`. */
  datatype AstUtils = AstUtils(
    dottedName: (string, string) -> string,
    moduleName: (string, ImportFrom, string) -> Option<string>,
    moduleToPath: (string, string) -> string,
    pyFiles: string -> seq<string>)

  const InitFile: string := "__init__.py"

  /** The module a file defines: a path containing `__init__.py` names its
      directory's module, any other path its own. */
  function ModuleNameOf(utils: AstUtils, root: string, path: string): (r: string)
    ensures Contains(path, InitFile) ==> r == utils.dottedName(root, DirName(path))
    ensures !Contains(path, InitFile) ==> r == utils.dottedName(root, path)
  {
    if Contains(path, InitFile) then utils.dottedName(root, DirName(path)) else utils.dottedName(root, path)
  }

  /** The package file tried after a failed lookup. */
  function InitPathOf(utils: AstUtils, root: string, target: string): string {
    Join(root, utils.moduleToPath(target, root), InitFile)
  }

  /** `old` is a prefix of `now`. */
  ghost predicate Grows<T>(old_: seq<T>, now: seq<T>) {
    |old_| <= |now| && now[..|old_|] == old_
  }

  /** The containment relationship the passes write for a found symbol. */
  function AddContains(g: Graph, htask: string, cur: string, row: NameRow): Graph {
    AddEdge(g, htask, Some("MODULE"), cur, "CONTAINS", None, row.fullName, map["association_type" := row.kind]).0
  }

  /** `_build_modules_contain_edge_all`'s loop over the rows. */
  function AddContainsAll(g: Graph, htask: string, cur: string, rows: seq<NameRow>): Graph {
    if rows == [] then g else AddContains(AddContainsAll(g, htask, cur, rows[..|rows| - 1]), htask, cur, rows[|rows| - 1])
  }

  /** One more row is one more containment relationship. */
  lemma AddContainsAllSnoc(g: Graph, htask: string, cur: string, rows: seq<NameRow>, k: nat)
    requires k < |rows|
    ensures AddContainsAll(g, htask, cur, rows[..k + 1]) == AddContains(AddContainsAll(g, htask, cur, rows[..k]), htask, cur, rows[k])
  {
    assert rows[..k + 1][..k] == rows[..k];
  }

  /** Some CONTAINS relationship joins a task node named `cur` to one named `name`. */
  ghost predicate ContainsLink(g: Graph, htask: string, cur: string, name: string) {
    exists k :: 0 <= k < |g.edges| && g.edges[k].rel == "CONTAINS" &&
      IsTaskNode(g, htask, g.edges[k].src, cur) && IsTaskNode(g, htask, g.edges[k].dst, name)
  }

  /** `add_edge` keeps every node and relationship endpoint that was there. */
  lemma AddEdgeKeeps(g: Graph, task: string, startKind: Option<string>, startName: string, rel: string,
                     endKind: Option<string>, endName: string, params: map<string, string>)
    requires Valid(g)
    ensures var r := AddEdge(g, task, startKind, startName, rel, endKind, endName, params).0;
      Valid(r) && |r.edges| >= |g.edges| &&
      (forall i :: i in g.nodes ==> i in r.nodes && r.nodes[i] == g.nodes[i]) &&
      (forall k :: 0 <= k < |g.edges| ==> SameKey(r.edges[k], g.edges[k].src, g.edges[k].rel, g.edges[k].dst))
  {
    var (g1, s) := MatchOrCreate(g, task, startKind, startName, params);
    MatchOrCreateFacts(g, task, startKind, startName, params);
    var (g2, e) := MatchOrCreate(g1, task, endKind, endName, params);
    MatchOrCreateFacts(g1, task, endKind, endName, params);
    UpsertValid(g2, s, rel, e, params);
  }

  /** A wildcard import links the current module to every symbol the target
      module contains. */
  lemma {:induction false} AddContainsAllLinks(g: Graph, htask: string, cur: string, rows: seq<NameRow>)
    requires Valid(g)
    ensures Valid(AddContainsAll(g, htask, cur, rows))
    ensures forall i :: 0 <= i < |rows| ==> ContainsLink(AddContainsAll(g, htask, cur, rows), htask, cur, rows[i].fullName)
  {
    if rows != [] {
      AddContainsAllLinks(g, htask, cur, rows[..|rows| - 1]);
      AddContainsStep(AddContainsAll(g, htask, cur, rows[..|rows| - 1]), htask, cur, rows);
    }
  }

  /** One more row keeps the links of the rows before it and adds its own. */
  lemma AddContainsStep(h: Graph, htask: string, cur: string, rows: seq<NameRow>)
    requires Valid(h) && rows != []
    requires forall i :: 0 <= i < |rows| - 1 ==> ContainsLink(h, htask, cur, rows[i].fullName)
    ensures Valid(AddContains(h, htask, cur, rows[|rows| - 1]))
    ensures forall i :: 0 <= i < |rows| ==> ContainsLink(AddContains(h, htask, cur, rows[|rows| - 1]), htask, cur, rows[i].fullName)
  {
    var last := rows[|rows| - 1];
    var params := map["association_type" := last.kind];
    AddEdgeKeeps(h, htask, Some("MODULE"), cur, "CONTAINS", None, last.fullName, params);
    var r := AddEdge(h, htask, Some("MODULE"), cur, "CONTAINS", None, last.fullName, params).0;
    forall i | 0 <= i < |rows| ensures ContainsLink(r, htask, cur, rows[i].fullName) {
      if i < |rows| - 1 {
        ContainsLinkKept(h, r, htask, cur, rows[i].fullName);
      } else {
        ContainsLinkNew(h, htask, cur, last.fullName, params);
      }
    }
  }

  /** The relationship `add_edge` writes is itself a CONTAINS link. */
  lemma ContainsLinkNew(h: Graph, htask: string, cur: string, name: string, params: map<string, string>)
    ensures ContainsLink(AddEdge(h, htask, Some("MODULE"), cur, "CONTAINS", None, name, params).0, htask, cur, name)
  {
    var r := AddEdge(h, htask, Some("MODULE"), cur, "CONTAINS", None, name, params);
    assert r.0.edges[r.1].rel == "CONTAINS";
  }

  /** A CONTAINS link survives a change that keeps nodes and relationship keys. */
  lemma ContainsLinkKept(h: Graph, r: Graph, htask: string, cur: string, name: string)
    requires ContainsLink(h, htask, cur, name) && |r.edges| >= |h.edges|
    requires forall i :: i in h.nodes ==> i in r.nodes && r.nodes[i] == h.nodes[i]
    requires forall k :: 0 <= k < |h.edges| ==> SameKey(r.edges[k], h.edges[k].src, h.edges[k].rel, h.edges[k].dst)
    ensures ContainsLink(r, htask, cur, name)
  {
    var k :| 0 <= k < |h.edges| && h.edges[k].rel == "CONTAINS" &&
      IsTaskNode(h, htask, h.edges[k].src, cur) && IsTaskNode(h, htask, h.edges[k].dst, name);
    assert SameKey(r.edges[k], h.edges[k].src, h.edges[k].rel, h.edges[k].dst);
    assert r.edges[k].rel == "CONTAINS" && IsTaskNode(r, htask, r.edges[k].src, cur) && IsTaskNode(r, htask, r.edges[k].dst, name);
  }

  /** One lookup of a single imported name, as `_build_modules_contain_edge`
      writes it. */
  function Attempt(g: Graph, task: string, htask: string, target: string, name: string, cur: string): Graph {
    var l := FullNameFromGraph(g, task, target, name);
    if l.Found? && l.fullName != "" then AddContains(g, htask, cur, NameRow(l.fullName, l.kind)) else g
  }

  /** The first containment row for a name stays first when relationships
      are only appended and nodes only added. */
  lemma FirstStable(g: Graph, h: Graph, task: string, mdl: string, target: string)
    requires Valid(g) && |h.edges| >= |g.edges|
    requires forall i :: i in g.nodes ==> i in h.nodes && h.nodes[i] == g.nodes[i]
    requires forall k :: 0 <= k < |g.edges| ==> SameKey(h.edges[k], g.edges[k].src, g.edges[k].rel, g.edges[k].dst)
    requires FirstContainedFrom(g, task, mdl, target, 0).Some?
    ensures FirstContainedFrom(h, task, mdl, target, 0) == FirstContainedFrom(g, task, mdl, target, 0)
  {
    var k := FirstContainedFrom(g, task, mdl, target, 0).value;
    assert ContainsAt(h, task, mdl, k) && Named(h.nodes[h.edges[k].dst], target);
    forall j | 0 <= j < k && ContainsAt(h, task, mdl, j) ensures !Named(h.nodes[h.edges[j].dst], target) {
      assert ContainsAt(g, task, mdl, j);
    }
  }

  /** The second attempt after a successful first one changes nothing. */
  lemma AttemptTwice(g: Graph, task: string, htask: string, target: string, name: string, cur: string)
    requires Valid(g)
    ensures var h := Attempt(g, task, htask, target, name, cur);
      Valid(h) && Attempt(h, task, htask, target, name, cur) == h &&
      FullNameFromGraph(h, task, target, name) == FullNameFromGraph(g, task, target, name)
  {
    var l := FullNameFromGraph(g, task, target, name);
    if l.Found? && l.fullName != "" {
      var params := map["association_type" := l.kind];
      AddEdgeKeeps(g, htask, Some("MODULE"), cur, "CONTAINS", None, l.fullName, params);
      var h := AddEdge(g, htask, Some("MODULE"), cur, "CONTAINS", None, l.fullName, params).0;
      FirstStable(g, h, task, target, name);
      assert FullNameFromGraph(h, task, target, name) == l;
      AddEdgeIdempotent(g, htask, Some("MODULE"), cur, "CONTAINS", None, l.fullName, params);
    }
  }

  // ---- build_modules_contain as a function of the state ----

  /** `h` keeps every node of `g`, and every relationship of `g` keeps its
      place, endpoints and type. */
  ghost predicate Extends(g: Graph, h: Graph) {
    Valid(h) && |h.edges| >= |g.edges| &&
    (forall i :: i in g.nodes ==> i in h.nodes && h.nodes[i] == g.nodes[i]) &&
    (forall k :: 0 <= k < |g.edges| ==> SameKey(h.edges[k], g.edges[k].src, g.edges[k].rel, g.edges[k].dst))
  }

  lemma ExtendsTrans(a: Graph, b: Graph, c: Graph)
    requires Extends(a, b) && Extends(b, c)
    ensures Extends(a, c)
  {
  }

  lemma AttemptExtends(g: Graph, task: string, htask: string, target: string, name: string, cur: string)
    requires Valid(g)
    ensures Extends(g, Attempt(g, task, htask, target, name, cur))
  {
    var l := FullNameFromGraph(g, task, target, name);
    if l.Found? && l.fullName != "" {
      AddEdgeKeeps(g, htask, Some("MODULE"), cur, "CONTAINS", None, l.fullName, map["association_type" := l.kind]);
    }
  }

  lemma {:induction false} AddContainsAllExtends(g: Graph, htask: string, cur: string, rows: seq<NameRow>)
    requires Valid(g)
    ensures Extends(g, AddContainsAll(g, htask, cur, rows))
  {
    if rows != [] {
      var front := rows[..|rows| - 1];
      var last := rows[|rows| - 1];
      AddContainsAllExtends(g, htask, cur, front);
      var h := AddContainsAll(g, htask, cur, front);
      AddEdgeKeeps(h, htask, Some("MODULE"), cur, "CONTAINS", None, last.fullName, map["association_type" := last.kind]);
      ExtendsTrans(g, h, AddContains(h, htask, cur, last));
    }
  }

  /** An extension keeps the first containment row the lookup found, so the
      lookup answers the same. */
  lemma LookupStable(g: Graph, h: Graph, task: string, mdl: string, target: string)
    requires Valid(g) && Extends(g, h) && !FullNameFromGraph(g, task, mdl, target).NotFound?
    ensures FullNameFromGraph(h, task, mdl, target) == FullNameFromGraph(g, task, mdl, target)
  {
    FirstStable(g, h, task, mdl, target);
  }

  /** What the containment pass reads and never changes: the file system, the
      helpers, the project root, the task the lookups match and the task the
      handler writes. */
  datatype Env = Env(files: map<string, Source>, utils: AstUtils, root: string, task: string, htask: string)

  /** What the containment pass changes: the visited files and the graph. */
  datatype CState = CState(visited: seq<string>, g: Graph)

  /** A state reached, and whether a StopIteration escaped on the way. */
  datatype Step = Step(st: CState, raised: bool)

  /** The existing files not yet visited. */
  ghost function Pending(files: map<string, Source>, visited: seq<string>): set<string> {
    files.Keys - set f | f in visited
  }

  lemma PendingShrinks(files: map<string, Source>, a: seq<string>, b: seq<string>)
    requires Grows(a, b)
    ensures Pending(files, b) <= Pending(files, a)
  {
    GrowsSubset(a, b);
  }

  /** The visited list only grows, and a valid graph is only extended. */
  ghost predicate Advances(s: CState, t: CState) {
    Grows(s.visited, t.visited) && (Valid(s.g) ==> Extends(s.g, t.g))
  }

  lemma AdvancesRefl(s: CState)
    ensures Advances(s, s)
  {
    assert s.visited[..|s.visited|] == s.visited;
  }

  lemma AdvancesTrans(a: CState, b: CState, c: CState)
    requires Advances(a, b) && Advances(b, c)
    ensures Advances(a, c)
  {
    GrowsTrans(a.visited, b.visited, c.visited);
    if Valid(a.g) {
      ExtendsTrans(a.g, b.g, c.g);
    }
  }

  /** When the lookup finds a symbol, the current module CONTAINS it. */
  ghost predicate Resolved(e: Env, g: Graph, target: string, name: string, cur: string) {
    var l := FullNameFromGraph(g, e.task, target, name);
    l.Found? && l.fullName != "" ==> ContainsLink(g, e.htask, cur, l.fullName)
  }

  /** One `_build_modules_contain_edge` call. */
  ghost function LinkName(e: Env, s: CState, target: string, name: string, cur: string): (r: Step)
    ensures r.st.visited == s.visited && Advances(s, r.st)
    ensures r.raised <==> FullNameFromGraph(s.g, e.task, target, name).NoKind?
    ensures Valid(s.g) ==> Resolved(e, r.st.g, target, name, cur)
  {
    LinkNameFacts(e, s, target, name, cur);
    Step(CState(s.visited, Attempt(s.g, e.task, e.htask, target, name, cur)), FullNameFromGraph(s.g, e.task, target, name).NoKind?)
  }

  /** The lookup after `Attempt` answers as before, a symbol it finds is
      linked, and the graph is only extended. */
  lemma LinkNameFacts(e: Env, s: CState, target: string, name: string, cur: string)
    ensures Advances(s, CState(s.visited, Attempt(s.g, e.task, e.htask, target, name, cur)))
    ensures Valid(s.g) ==> Resolved(e, Attempt(s.g, e.task, e.htask, target, name, cur), target, name, cur)
  {
    assert s.visited[..|s.visited|] == s.visited;
    if Valid(s.g) {
      AttemptExtends(s.g, e.task, e.htask, target, name, cur);
      AttemptTwice(s.g, e.task, e.htask, target, name, cur);
      var l := FullNameFromGraph(s.g, e.task, target, name);
      if l.Found? && l.fullName != "" {
        ContainsLinkNew(s.g, e.htask, cur, l.fullName, map["association_type" := l.kind]);
      }
    }
  }

  /** One `_build_modules_contain_edge_all` call. */
  ghost function LinkAll(e: Env, s: CState, target: string, cur: string): (r: Step)
    ensures r.st.visited == s.visited && Advances(s, r.st)
    ensures r.raised <==> AllNamesFromGraph(s.g, e.task, target).RowsNoKind?
    ensures var n := AllNamesFromGraph(s.g, e.task, target);
      Valid(s.g) && n.Rows? ==> forall i :: 0 <= i < |n.rows| ==> ContainsLink(r.st.g, e.htask, cur, n.rows[i].fullName)
  {
    var n := AllNamesFromGraph(s.g, e.task, target);
    var h := if n.Rows? then AddContainsAll(s.g, e.htask, cur, n.rows) else s.g;
    LinkAllFacts(e, s, target, cur);
    Step(CState(s.visited, h), n.RowsNoKind?)
  }

  lemma LinkAllFacts(e: Env, s: CState, target: string, cur: string)
    ensures var n := AllNamesFromGraph(s.g, e.task, target);
      var h := if n.Rows? then AddContainsAll(s.g, e.htask, cur, n.rows) else s.g;
      Advances(s, CState(s.visited, h)) &&
      (Valid(s.g) && n.Rows? ==> forall i :: 0 <= i < |n.rows| ==> ContainsLink(h, e.htask, cur, n.rows[i].fullName))
  {
    assert s.visited[..|s.visited|] == s.visited;
    var n := AllNamesFromGraph(s.g, e.task, target);
    if Valid(s.g) && n.Rows? {
      AddContainsAllExtends(s.g, e.htask, cur, n.rows);
      AddContainsAllLinks(s.g, e.htask, cur, n.rows);
    }
  }

  /** `build_modules_contain(path)`: a visited path changes nothing; otherwise
      the path is marked visited, and a readable file's imports are handled
      in walk order until one raises. */
  ghost function Contain(e: Env, s: CState, path: string): (r: Step)
    ensures Advances(s, r.st) && path in r.st.visited
    ensures path in s.visited ==> r == Step(s, false)
    ensures path !in s.visited && (path !in e.files || e.files[path].Unreadable?) ==>
      r == Step(CState(s.visited + [path], s.g), false)
    decreases Pending(e.files, s.visited), 4, 0
  {
    if path in s.visited then
      AdvancesRefl(s);
      Step(s, false)
    else
      var s1 := CState(s.visited + [path], s.g);
      assert s1.visited[..|s.visited|] == s.visited;
      assert path in s1.visited;
      if path !in e.files || e.files[path].Unreadable? then
        Step(s1, false)
      else
        assert path in Pending(e.files, s.visited) && path !in Pending(e.files, s1.visited);
        var r := ContainImports(e, s1, path, ModuleNameOf(e.utils, e.root, path), e.files[path].imports, Pending(e.files, s.visited));
        AdvancesTrans(s, s1, r.st);
        GrowsSubset(s1.visited, r.st.visited);
        r
  }

  /** The loop over a prefix of a file's imports. */
  ghost function ContainImports(e: Env, s: CState, path: string, cur: string, imps: seq<ImportFrom>, bound: set<string>): (r: Step)
    requires Pending(e.files, s.visited) < bound
    ensures Advances(s, r.st)
    decreases bound, 3, |imps|
  {
    if imps == [] then
      AdvancesRefl(s);
      Step(s, false)
    else
      var r0 := ContainImports(e, s, path, cur, imps[..|imps| - 1], bound);
      var imp := imps[|imps| - 1];
      var target := e.utils.moduleName(path, imp, e.root);
      if r0.raised || !(target.Some? && target.value != "") then r0
      else
        PendingShrinks(e.files, s.visited, r0.st.visited);
        var r1 := ContainNames(e, r0.st, target.value, cur, imp.names, bound);
        AdvancesTrans(s, r0.st, r1.st);
        r1
  }

  /** The loop over a prefix of one import's names. */
  ghost function ContainNames(e: Env, s: CState, target: string, cur: string, names: seq<string>, bound: set<string>): (r: Step)
    requires Pending(e.files, s.visited) < bound
    ensures Advances(s, r.st)
    decreases bound, 2, |names|
  {
    if names == [] then
      AdvancesRefl(s);
      Step(s, false)
    else
      var r0 := ContainNames(e, s, target, cur, names[..|names| - 1], bound);
      if r0.raised then r0
      else
        PendingShrinks(e.files, s.visited, r0.st.visited);
        var r1 := ImportNameFn(e, r0.st, target, names[|names| - 1], cur, bound);
        AdvancesTrans(s, r0.st, r1.st);
        r1
  }

  /** One imported name: `*` takes every symbol of the target module. */
  ghost function ImportNameFn(e: Env, s: CState, target: string, name: string, cur: string, bound: set<string>): (r: Step)
    requires Pending(e.files, s.visited) < bound
    ensures Advances(s, r.st)
    decreases bound, 1, 1
  {
    if name == "*" then ImportAllFn(e, s, target, cur, bound) else ImportOneFn(e, s, target, name, cur, bound)
  }

  /** A single name: the lookup; on a miss the package file is built when it
      exists; then the lookup once more. Once the second lookup finds the
      symbol, the current module CONTAINS it. */
  ghost function ImportOneFn(e: Env, s: CState, target: string, name: string, cur: string, bound: set<string>): (r: Step)
    requires Pending(e.files, s.visited) < bound
    ensures Advances(s, r.st)
    ensures FullNameFromGraph(s.g, e.task, target, name).NoKind? ==> r == Step(s, true)
    ensures Valid(s.g) && !r.raised ==> Resolved(e, r.st.g, target, name, cur)
    decreases bound, 1, 0
  {
    var l := FullNameFromGraph(s.g, e.task, target, name);
    var first := LinkName(e, s, target, name, cur);
    if first.raised then
      assert first.st == s;
      first
    else
      var m := if l.Found? && l.fullName != "" then first else TryPackage(e, first.st, target, bound);
      if m.raised then m
      else
        var r := LinkName(e, m.st, target, name, cur);
        AdvancesTrans(s, m.st, r.st);
        assert Valid(s.g) ==> Valid(m.st.g);
        r
  }

  /** A wildcard: every symbol of the target module; on a miss the package
      file is built when it exists; then the lookup once more. */
  ghost function ImportAllFn(e: Env, s: CState, target: string, cur: string, bound: set<string>): (r: Step)
    requires Pending(e.files, s.visited) < bound
    ensures Advances(s, r.st)
    ensures AllNamesFromGraph(s.g, e.task, target).RowsNoKind? ==> r == Step(s, true)
    decreases bound, 1, 0
  {
    var first := LinkAll(e, s, target, cur);
    if first.raised then
      assert first.st == s;
      first
    else
      var m := if AllNamesFromGraph(s.g, e.task, target).Rows? then first else TryPackage(e, first.st, target, bound);
      if m.raised then m
      else
        var r := LinkAll(e, m.st, target, cur);
        AdvancesTrans(s, m.st, r.st);
        r
  }

  /** After a miss: the target package's `__init__.py`, when it exists. */
  ghost function TryPackage(e: Env, s: CState, target: string, bound: set<string>): (r: Step)
    requires Pending(e.files, s.visited) < bound
    ensures Advances(s, r.st)
    ensures InitPathOf(e.utils, e.root, target) in e.files ==> InitPathOf(e.utils, e.root, target) in r.st.visited
    ensures InitPathOf(e.utils, e.root, target) !in e.files ==> r == Step(s, false)
    decreases bound, 0, 0
  {
    var init := InitPathOf(e.utils, e.root, target);
    if init in e.files then Contain(e, s, init)
    else
      AdvancesRefl(s);
      Step(s, false)
  }

  /** A readable file not yet visited: its imports, on the state that has it visited. */
  lemma ContainUnfold(e: Env, s: CState, path: string)
    requires path !in s.visited && path in e.files && e.files[path].Parsed?
    ensures Pending(e.files, s.visited + [path]) < Pending(e.files, s.visited)
    ensures Contain(e, s, path) ==
      ContainImports(e, CState(s.visited + [path], s.g), path, ModuleNameOf(e.utils, e.root, path), e.files[path].imports, Pending(e.files, s.visited))
  {
    assert path in Pending(e.files, s.visited) && path !in Pending(e.files, s.visited + [path]);
  }

  /** One more import: the names of the import, after the imports before it. */
  lemma ImportsStep(e: Env, s: CState, path: string, cur: string, imps: seq<ImportFrom>, i: nat, bound: set<string>)
    requires i < |imps| && Pending(e.files, s.visited) < bound
    ensures var r0 := ContainImports(e, s, path, cur, imps[..i], bound);
      var target := e.utils.moduleName(path, imps[i], e.root);
      ContainImports(e, s, path, cur, imps[..i + 1], bound) ==
        if r0.raised || !(target.Some? && target.value != "") then r0
        else ContainNames(e, r0.st, target.value, cur, imps[i].names, bound)
  {
    assert imps[..i + 1][..i] == imps[..i];
  }

  /** Once a prefix of the imports raised, the whole list ends there. */
  lemma {:induction false} ImportsRaised(e: Env, s: CState, path: string, cur: string, imps: seq<ImportFrom>, n: nat, bound: set<string>)
    requires n <= |imps| && Pending(e.files, s.visited) < bound
    requires ContainImports(e, s, path, cur, imps[..n], bound).raised
    ensures ContainImports(e, s, path, cur, imps, bound) == ContainImports(e, s, path, cur, imps[..n], bound)
  {
    if n == |imps| {
      assert imps[..n] == imps;
    } else {
      var front := imps[..|imps| - 1];
      assert front[..n] == imps[..n];
      ImportsRaised(e, s, path, cur, front, n, bound);
    }
  }

  /** Once a prefix of the names raised, the whole list ends there. */
  lemma {:induction false} NamesRaised(e: Env, s: CState, target: string, cur: string, names: seq<string>, n: nat, bound: set<string>)
    requires n <= |names| && Pending(e.files, s.visited) < bound
    requires ContainNames(e, s, target, cur, names[..n], bound).raised
    ensures ContainNames(e, s, target, cur, names, bound) == ContainNames(e, s, target, cur, names[..n], bound)
  {
    if n == |names| {
      assert names[..n] == names;
    } else {
      var front := names[..|names| - 1];
      assert front[..n] == names[..n];
      NamesRaised(e, s, target, cur, front, n, bound);
    }
  }

  /** The first pass of `run`: `build_modules_contain` on every file, in order,
      until one raises. */
  ghost function ContainFiles(e: Env, s: CState, paths: seq<string>): (r: Step)
    ensures Advances(s, r.st)
    ensures !r.raised ==> forall f :: f in paths ==> f in r.st.visited
  {
    if paths == [] then
      AdvancesRefl(s);
      Step(s, false)
    else
      var front := paths[..|paths| - 1];
      var r0 := ContainFiles(e, s, front);
      if r0.raised then r0
      else
        var r1 := Contain(e, r0.st, paths[|paths| - 1]);
        AdvancesTrans(s, r0.st, r1.st);
        GrowsSubset(r0.st.visited, r1.st.visited);
        assert forall f :: f in paths ==> f in front || f == paths[|paths| - 1];
        r1
  }

  lemma {:induction false} ContainFilesRaised(e: Env, s: CState, paths: seq<string>, n: nat)
    requires n <= |paths| && ContainFiles(e, s, paths[..n]).raised
    ensures ContainFiles(e, s, paths) == ContainFiles(e, s, paths[..n])
  {
    if n == |paths| {
      assert paths[..n] == paths;
    } else {
      var front := paths[..|paths| - 1];
      assert front[..n] == paths[..n];
      ContainFilesRaised(e, s, front, n);
    }
  }

  /** A name the target module already resolves when a file's import is
      reached stays resolved to the same symbol, and the import links it:
      after the single-name handling the current module CONTAINS it. */
  lemma ImportOneLinks(e: Env, s: CState, target: string, name: string, cur: string, bound: set<string>)
    requires Pending(e.files, s.visited) < bound && Valid(s.g)
    requires FullNameFromGraph(s.g, e.task, target, name).Found? && FullNameFromGraph(s.g, e.task, target, name).fullName != ""
    ensures var r := ImportOneFn(e, s, target, name, cur, bound);
      !r.raised && r.st.visited == s.visited &&
      FullNameFromGraph(r.st.g, e.task, target, name) == FullNameFromGraph(s.g, e.task, target, name) &&
      ContainsLink(r.st.g, e.htask, cur, FullNameFromGraph(s.g, e.task, target, name).fullName)
  {
    var first := LinkName(e, s, target, name, cur);
    AttemptTwice(s.g, e.task, e.htask, target, name, cur);
    AttemptTwice(first.st.g, e.task, e.htask, target, name, cur);
  }

  /** Within one import: a name resolved when the loop starts is linked once
      the loop completes. */
  lemma {:induction false} NamesLink(e: Env, s: CState, target: string, cur: string, names: seq<string>, bound: set<string>, j: nat)
    requires Pending(e.files, s.visited) < bound && Valid(s.g) && j < |names| && names[j] != "*"
    requires FullNameFromGraph(s.g, e.task, target, names[j]).Found? && FullNameFromGraph(s.g, e.task, target, names[j]).fullName != ""
    ensures var r := ContainNames(e, s, target, cur, names, bound);
      !r.raised ==> ContainsLink(r.st.g, e.htask, cur, FullNameFromGraph(s.g, e.task, target, names[j]).fullName)
  {
    var front := names[..|names| - 1];
    var r0 := ContainNames(e, s, target, cur, front, bound);
    var r := ContainNames(e, s, target, cur, names, bound);
    var l := FullNameFromGraph(s.g, e.task, target, names[j]);
    if !r.raised {
      PendingShrinks(e.files, s.visited, r0.st.visited);
      if j == |names| - 1 {
        LookupStable(s.g, r0.st.g, e.task, target, names[j]);
        ImportOneLinks(e, r0.st, target, names[j], cur, bound);
      } else {
        assert front[j] == names[j];
        NamesLink(e, s, target, cur, front, bound, j);
        ContainsLinkKept(r0.st.g, r.st.g, e.htask, cur, l.fullName);
      }
    }
  }

  /** Name `j` of the import is a single name, taken from a target module
      that already resolves it in `g`. */
  ghost predicate SingleResolved(e: Env, g: Graph, path: string, imp: ImportFrom, j: nat) {
    var t := e.utils.moduleName(path, imp, e.root);
    t.Some? && t.value != "" && j < |imp.names| && imp.names[j] != "*" &&
    FullNameFromGraph(g, e.task, t.value, imp.names[j]).Found? && FullNameFromGraph(g, e.task, t.value, imp.names[j]).fullName != ""
  }

  /** Within one file: a single name of an import with a target module,
      resolved when the file is entered, is linked once the file completes. */
  lemma {:induction false} ImportsLink(e: Env, s: CState, path: string, cur: string, imps: seq<ImportFrom>, bound: set<string>, i: nat, j: nat)
    requires Pending(e.files, s.visited) < bound && Valid(s.g) && i < |imps| && SingleResolved(e, s.g, path, imps[i], j)
    ensures var r := ContainImports(e, s, path, cur, imps, bound);
      !r.raised ==>
        ContainsLink(r.st.g, e.htask, cur, FullNameFromGraph(s.g, e.task, e.utils.moduleName(path, imps[i], e.root).value, imps[i].names[j]).fullName)
  {
    var front := imps[..|imps| - 1];
    var r0 := ContainImports(e, s, path, cur, front, bound);
    var r := ContainImports(e, s, path, cur, imps, bound);
    var target := e.utils.moduleName(path, imps[i], e.root).value;
    var l := FullNameFromGraph(s.g, e.task, target, imps[i].names[j]);
    if !r.raised {
      PendingShrinks(e.files, s.visited, r0.st.visited);
      if i == |imps| - 1 {
        LookupStable(s.g, r0.st.g, e.task, target, imps[i].names[j]);
        NamesLink(e, r0.st, target, cur, imps[i].names, bound, j);
      } else {
        assert front[i] == imps[i];
        ImportsLink(e, s, path, cur, front, bound, i, j);
        ContainsLinkKept(r0.st.g, r.st.g, e.htask, cur, l.fullName);
      }
    }
  }

  /** `build_modules_contain` on a file not yet visited: every single name
      its imports take from a module that already resolves it is linked
      from the file's module once the file completes without raising. */
  lemma ContainLinks(e: Env, s: CState, path: string, i: nat, j: nat)
    requires Valid(s.g) && path !in s.visited && path in e.files && e.files[path].Parsed?
    requires i < |e.files[path].imports| && SingleResolved(e, s.g, path, e.files[path].imports[i], j)
    ensures var imp := e.files[path].imports[i];
      var r := Contain(e, s, path);
      !r.raised ==> ContainsLink(r.st.g, e.htask, ModuleNameOf(e.utils, e.root, path),
                                 FullNameFromGraph(s.g, e.task, e.utils.moduleName(path, imp, e.root).value, imp.names[j]).fullName)
  {
    ContainUnfold(e, s, path);
    ImportsLink(e, CState(s.visited + [path], s.g), path, ModuleNameOf(e.utils, e.root, path), e.files[path].imports,
                Pending(e.files, s.visited), i, j);
  }

  // ---- build_inherited ----

  /** The (class, base name) pairs `build_inherited` visits for one class:
      its simple-name bases, in order. */
  function ClassPairs(cls: string, bases: seq<Base>): (r: seq<(string, string)>)
    ensures forall i :: 0 <= i < |r| ==> r[i].0 == cls
    ensures |r| <= |bases|
  {
    if bases == [] then []
    else
      var last := bases[|bases| - 1];
      ClassPairs(cls, bases[..|bases| - 1]) + (if last.NameBase? then [(cls, last.id)] else [])
  }

  /** The pairs for all classes of a module, in walk order. */
  function BasePairs(cur: string, classes: seq<ClassDef>): seq<(string, string)> {
    if classes == [] then []
    else
      var last := classes[|classes| - 1];
      BasePairs(cur, classes[..|classes| - 1]) + ClassPairs(cur + "." + last.name, last.bases)
  }

  /** The state `build_inherited` changes: `class_inherited` (with its key
      order) and the graph. */
  datatype InheritState = InheritState(inherited: map<string, seq<Option<string>>>, order: seq<string>, g: Graph)

  /** One base of one class: the base is resolved in the current module and
      appended to the class's list (None when not found); a resolved base gets
      an INHERITS relationship. None when the lookup raises StopIteration. */
  function InheritStep(st: InheritState, task: string, htask: string, cur: string, p: (string, string)): (r: Option<InheritState>)
    ensures r.None? <==> FullNameFromGraph(st.g, task, cur, p.1).NoKind?
    ensures r.Some? ==>
      var l := FullNameFromGraph(st.g, task, cur, p.1);
      var b := if l.Found? then Some(l.fullName) else None;
      r.value.inherited == st.inherited[p.0 := Recorded(st.inherited, p.0) + [b]] &&
      r.value.order == (if p.0 in st.inherited then st.order else st.order + [p.0]) &&
      r.value.g == (if b.Some? && b.value != "" then UpdateEdge(st.g, htask, p.0, "INHERITS", b.value, map[]).0 else st.g)
  {
    var l := FullNameFromGraph(st.g, task, cur, p.1);
    if l.NoKind? then None
    else
      var b := if l.Found? then Some(l.fullName) else None;
      var (inherited, order) := RecordBase(st.inherited, st.order, p.0, b);
      var g := if b.Some? && b.value != "" then UpdateEdge(st.g, htask, p.0, "INHERITS", b.value, map[]).0 else st.g;
      Some(InheritState(inherited, order, g))
  }

  /** `class_inherited[cls].append(b)` on a dict that remembers key order. */
  function RecordBase(m: map<string, seq<Option<string>>>, order: seq<string>, cls: string, b: Option<string>): (r: (map<string, seq<Option<string>>>, seq<string>))
    ensures r.0.Keys == m.Keys + {cls} && r.0[cls] == Recorded(m, cls) + [b]
    ensures forall c :: c in m && c != cls ==> r.0[c] == m[c]
    ensures r.1 == if cls in m then order else order + [cls]
  {
    (m[cls := Recorded(m, cls) + [b]], if cls in m then order else order + [cls])
  }

  /** Appending keeps the keys and the order in step and the order free of
      repeats. */
  lemma RecordBaseOrder(m: map<string, seq<Option<string>>>, order: seq<string>, cls: string, b: Option<string>)
    requires KeysInOrder(m, order)
    ensures var r := RecordBase(m, order, cls, b);
      KeysInOrder(r.0, r.1) && Grows(order, r.1)
  {
    var r := RecordBase(m, order, cls, b);
    if cls !in m {
      forall i, j | 0 <= i < j < |r.1| ensures r.1[i] != r.1[j] {
        if j == |order| {
          assert r.1[i] == order[i];
        }
      }
    }
  }

  /** `build_inherited`'s loops over a prefix of the pairs: the state
      reached, and whether a StopIteration ended the loops there. */
  function InheritSteps(st: InheritState, task: string, htask: string, cur: string, pairs: seq<(string, string)>): (InheritState, bool) {
    if pairs == [] then (st, false)
    else
      var r := InheritSteps(st, task, htask, cur, pairs[..|pairs| - 1]);
      if r.1 then r
      else match InheritStep(r.0, task, htask, cur, pairs[|pairs| - 1])
        case None => (r.0, true)
        case Some(s) => (s, false)
  }

  /** How many pairs name class `c`. */
  function CountFor(pairs: seq<(string, string)>, c: string): nat {
    if pairs == [] then 0 else CountFor(pairs[..|pairs| - 1], c) + (if pairs[|pairs| - 1].0 == c then 1 else 0)
  }

  /** `order` lists the keys of `m` once each: the insertion order of a dict. */
  ghost predicate KeysInOrder(m: map<string, seq<Option<string>>>, order: seq<string>) {
    (forall c :: c in m <==> c in order) && NoDups(order)
  }

  /** The key order depends on the keys only. */
  lemma KeysInOrderSameKeys(m: map<string, seq<Option<string>>>, m': map<string, seq<Option<string>>>, order: seq<string>)
    requires KeysInOrder(m, order) && m.Keys == m'.Keys
    ensures KeysInOrder(m', order)
  {
    forall c ensures c in m' <==> c in order {
      assert c in m' <==> c in m'.Keys;
    }
  }

  /** The list recorded for class `c` (empty when absent). */
  function Recorded(m: map<string, seq<Option<string>>>, c: string): seq<Option<string>> {
    if c in m then m[c] else []
  }

  /** One step records exactly one more entry, for its own class. */
  lemma StepRecord(st: InheritState, task: string, htask: string, cur: string, p: (string, string), c: string)
    requires InheritStep(st, task, htask, cur, p).Some?
    ensures var s := InheritStep(st, task, htask, cur, p).value;
      (c in s.inherited <==> c in st.inherited || c == p.0) &&
      |Recorded(s.inherited, c)| == |Recorded(st.inherited, c)| + (if c == p.0 then 1 else 0) &&
      Grows(Recorded(st.inherited, c), Recorded(s.inherited, c))
  {
    var s := InheritStep(st, task, htask, cur, p).value;
    if c == p.0 {
      assert Recorded(s.inherited, c)[..|Recorded(st.inherited, c)|] == Recorded(st.inherited, c);
    }
  }

  /** Every simple-name base is recorded, resolved or not: a class's list
      grows by one entry per pair naming it and keeps its old entries, and a
      class is a key afterwards exactly when it was one before or a pair
      names it. */
  lemma {:induction false} InheritStepsRecord(st: InheritState, task: string, htask: string, cur: string, pairs: seq<(string, string)>, c: string)
    requires !InheritSteps(st, task, htask, cur, pairs).1
    ensures var s := InheritSteps(st, task, htask, cur, pairs).0;
      (c in s.inherited <==> c in st.inherited || CountFor(pairs, c) > 0) &&
      |Recorded(s.inherited, c)| == |Recorded(st.inherited, c)| + CountFor(pairs, c) &&
      Grows(Recorded(st.inherited, c), Recorded(s.inherited, c))
  {
    if pairs == [] {
      assert Recorded(st.inherited, c)[..|Recorded(st.inherited, c)|] == Recorded(st.inherited, c);
    } else {
      var front := pairs[..|pairs| - 1];
      var p := pairs[|pairs| - 1];
      InheritStepsRecord(st, task, htask, cur, front, c);
      var s0 := InheritSteps(st, task, htask, cur, front).0;
      StepRecord(s0, task, htask, cur, p, c);
      var s := InheritStep(s0, task, htask, cur, p).value;
      GrowsTrans(Recorded(st.inherited, c), Recorded(s0.inherited, c), Recorded(s.inherited, c));
    }
  }

  // ---- _build_inherited_method ----

  /** One member row of the base: copied to the class unless the class already
      has a member with that name. */
  function CopyStep(g: Graph, task: string, htask: string, cur: string, row: MemberRow): Graph {
    if HasMemberNamed(g, task, cur, PyText(row.name)) then g
    else UpdateEdge(g, htask, cur, row.rel, row.fullName, map[]).0
  }

  function CopySteps(g: Graph, task: string, htask: string, cur: string, rows: seq<MemberRow>): Graph {
    if rows == [] then g else CopyStep(CopySteps(g, task, htask, cur, rows[..|rows| - 1]), task, htask, cur, rows[|rows| - 1])
  }

  /** Copying members only adds relationships: nodes stay, and every
      relationship there before stays with unchanged endpoints, type and
      properties. */
  lemma CopyStepKeeps(g: Graph, task: string, htask: string, cur: string, row: MemberRow)
    requires Valid(g)
    ensures OnlyAdds(g, CopyStep(g, task, htask, cur, row))
  {
    if !HasMemberNamed(g, task, cur, PyText(row.name)) {
      UpdateEdgeKeeps(g, htask, cur, row.rel, row.fullName);
    } else {
      OnlyAddsRefl(g);
    }
  }

  lemma {:induction false} CopyStepsKeeps(g: Graph, task: string, htask: string, cur: string, rows: seq<MemberRow>)
    ensures Valid(g) ==> OnlyAdds(g, CopySteps(g, task, htask, cur, rows))
  {
    if Valid(g) {
      if rows == [] {
        OnlyAddsRefl(g);
      } else {
        var front := rows[..|rows| - 1];
        CopyStepsKeeps(g, task, htask, cur, front);
        var h := CopySteps(g, task, htask, cur, front);
        CopyStepKeeps(h, task, htask, cur, rows[|rows| - 1]);
        OnlyAddsTrans(g, h, CopySteps(g, task, htask, cur, rows));
      }
    }
  }

  /** `update_edge` without properties only adds relationships: nodes stay,
      and every relationship there before stays exactly as it was. */
  lemma UpdateEdgeKeeps(g: Graph, task: string, startName: string, rel: string, endName: string)
    requires Valid(g)
    ensures var h := UpdateEdge(g, task, startName, rel, endName, map[]).0;
      Valid(h) && h.nodes == g.nodes && h.nextId == g.nextId && Grows(g.edges, h.edges)
  {
    var r := UpdateEdge(g, task, startName, rel, endName, map[]);
    if r.1.Some? {
      UpsertValid(g, MatchNode(g, task, startName).value, rel, MatchNode(g, task, endName).value, map[]);
      var k := r.1.value;
      if k < |g.edges| {
        assert Merge(g.edges[k].props, map[]) == g.edges[k].props;
        assert r.0.edges[k] == g.edges[k];
      }
      assert r.0.edges[..|g.edges|] == g.edges;
    }
  }

  /** The override check: once the class has a member with a name, it keeps
      it, and no later row with that name is copied. */
  lemma HasMemberKept(g: Graph, task: string, htask: string, cur: string, row: MemberRow, name: string)
    requires Valid(g) && HasMemberNamed(g, task, cur, name)
    ensures HasMemberNamed(CopyStep(g, task, htask, cur, row), task, cur, name)
    ensures PyText(row.name) == name ==> CopyStep(g, task, htask, cur, row) == g
  {
    CopyStepKeeps(g, task, htask, cur, row);
    var h := CopyStep(g, task, htask, cur, row);
    var k :| 0 <= k < |g.edges| && MemberAt(g, task, cur, k) && Named(g.nodes[g.edges[k].dst], name);
    assert h.edges[k] == g.edges[k];
    assert MemberAt(h, task, cur, k);
  }

  /** `build_inherited(path)`: a file that cannot be read changes nothing. */
  function InheritFile(e: Env, st: InheritState, path: string): (InheritState, bool) {
    if path !in e.files || e.files[path].Unreadable? then (st, false)
    else
      var cur := ModuleNameOf(e.utils, e.root, path);
      InheritSteps(st, e.task, e.htask, cur, BasePairs(cur, e.files[path].classes))
  }

  /** The second pass of `run`: `build_inherited` on every file, in order,
      until one raises. */
  function InheritFiles(e: Env, st: InheritState, paths: seq<string>): (InheritState, bool) {
    if paths == [] then (st, false)
    else
      var r := InheritFiles(e, st, paths[..|paths| - 1]);
      if r.1 then r else InheritFile(e, r.0, paths[|paths| - 1])
  }

  lemma {:induction false} InheritFilesRaised(e: Env, st: InheritState, paths: seq<string>, n: nat)
    requires n <= |paths| && InheritFiles(e, st, paths[..n]).1
    ensures InheritFiles(e, st, paths) == InheritFiles(e, st, paths[..n])
  {
    if n == |paths| {
      assert paths[..n] == paths;
    } else {
      var front := paths[..|paths| - 1];
      assert front[..n] == paths[..n];
      InheritFilesRaised(e, st, front, n);
    }
  }

  // ---- _build_inherited_method as a function of the state ----

  /** What the third pass changes: the processed pairs and the graph. */
  datatype MState = MState(processed: set<(string, Option<string>)>, g: Graph)

  /** Every recorded (class, base) pair, with `cur` as the class. */
  ghost function Universe(ci: map<string, seq<Option<string>>>, cur: string): set<(string, Option<string>)> {
    set c, i | c in ci && 0 <= i < |ci[c]| :: (cur, ci[c][i])
  }

  /** The graph keeps its nodes and every relationship it had, unchanged. */
  ghost predicate OnlyAdds(g: Graph, h: Graph) {
    Valid(h) && h.nodes == g.nodes && h.nextId == g.nextId && Grows(g.edges, h.edges)
  }

  lemma OnlyAddsRefl(g: Graph)
    requires Valid(g)
    ensures OnlyAdds(g, g)
  {
    assert g.edges[..|g.edges|] == g.edges;
  }

  lemma OnlyAddsTrans(a: Graph, b: Graph, c: Graph)
    requires OnlyAdds(a, b) && OnlyAdds(b, c)
    ensures OnlyAdds(a, c)
  {
    GrowsTrans(a.edges, b.edges, c.edges);
  }

  /** `_build_inherited_method(cur, base)`: a processed pair changes nothing;
      otherwise the pair is marked processed, the ancestor's members are
      copied unless overridden, and the ancestor's own recorded bases follow
      (none when it has no members). Terminates because the unprocessed
      pairs of the finite `bound` shrink. */
  ghost function InheritMethod(e: Env, ci: map<string, seq<Option<string>>>, s: MState, cur: string, base: Option<string>,
                               bound: set<(string, Option<string>)>): (r: MState)
    requires (cur, base) in bound && Universe(ci, cur) <= bound
    ensures s.processed <= r.processed <= s.processed + bound && (cur, base) in r.processed
    ensures (cur, base) in s.processed ==> r == s
    ensures Valid(s.g) ==> OnlyAdds(s.g, r.g)
    decreases bound - s.processed, 1, 0
  {
    if (cur, base) in s.processed then
      if Valid(s.g) then OnlyAddsRefl(s.g); s else s
    else
      var p := s.processed + {(cur, base)};
      var methods := AllEdgeOfClass(s.g, e.task, PyText(base));
      if methods.None? then
        if Valid(s.g) then OnlyAddsRefl(s.g); MState(p, s.g) else MState(p, s.g)
      else
        var s1 := MState(p, CopySteps(s.g, e.task, e.htask, cur, methods.value));
        CopyStepsKeeps(s.g, e.task, e.htask, cur, methods.value);
        if base.Some? && base.value in ci then
          assert (cur, base) in bound - s.processed && (cur, base) !in bound - s1.processed;
          assert forall k :: 0 <= k < |ci[base.value]| ==> (cur, ci[base.value][k]) in Universe(ci, cur);
          var r := InheritBases(e, ci, s1, cur, ci[base.value], bound, bound - s1.processed);
          if Valid(s.g) then OnlyAddsTrans(s.g, s1.g, r.g); r else r
        else s1
  }

  /** The loop over the ancestor's recorded bases, for the same class. */
  ghost function InheritBases(e: Env, ci: map<string, seq<Option<string>>>, s: MState, cur: string, bases: seq<Option<string>>,
                              bound: set<(string, Option<string>)>, top: set<(string, Option<string>)>): (r: MState)
    requires Universe(ci, cur) <= bound && bound - s.processed <= top
    requires forall k :: 0 <= k < |bases| ==> (cur, bases[k]) in bound
    ensures s.processed <= r.processed <= s.processed + bound
    ensures forall b :: b in bases ==> (cur, b) in r.processed
    ensures Valid(s.g) ==> OnlyAdds(s.g, r.g)
    decreases top, 2, |bases|
  {
    if bases == [] then
      if Valid(s.g) then OnlyAddsRefl(s.g); s else s
    else
      var front := bases[..|bases| - 1];
      assert bases == front + [bases[|bases| - 1]];
      var r0 := InheritBases(e, ci, s, cur, front, bound, top);
      var r := InheritMethod(e, ci, r0, cur, bases[|bases| - 1], bound);
      if Valid(s.g) then OnlyAddsTrans(s.g, r0.g, r.g); r else r
  }

  /** One more base is one more `_build_inherited_method` for the same class. */
  lemma InheritBasesSnoc(e: Env, ci: map<string, seq<Option<string>>>, s: MState, cur: string, bases: seq<Option<string>>, k: nat,
                         bound: set<(string, Option<string>)>, top: set<(string, Option<string>)>)
    requires Universe(ci, cur) <= bound && bound - s.processed <= top && k < |bases|
    requires forall j :: 0 <= j < |bases| ==> (cur, bases[j]) in bound
    ensures InheritBases(e, ci, s, cur, bases[..k + 1], bound, top) ==
      InheritMethod(e, ci, InheritBases(e, ci, s, cur, bases[..k], bound, top), cur, bases[k], bound)
  {
    assert bases[..k + 1][..k] == bases[..k];
  }

  /** The pairs of one class, in list order. */
  function ClassBases(c: string, bases: seq<Option<string>>): (r: seq<(string, Option<string>)>)
    ensures |r| == |bases| && forall k :: 0 <= k < |bases| ==> r[k] == (c, bases[k])
  {
    seq(|bases|, k requires 0 <= k < |bases| => (c, bases[k]))
  }

  /** The (class, base) pairs of `class_inherited.items()`, classes in
      insertion order. */
  function OrderPairs(ci: map<string, seq<Option<string>>>, order: seq<string>): seq<(string, Option<string>)> {
    if order == [] then []
    else OrderPairs(ci, order[..|order| - 1]) + ClassBases(order[|order| - 1], Recorded(ci, order[|order| - 1]))
  }

  /** The third pass of `run`: `_build_inherited_method` for each pair, with
      the pair's class's recorded pairs as the bound. */
  ghost function CopyPairs(e: Env, ci: map<string, seq<Option<string>>>, s: MState, pairs: seq<(string, Option<string>)>): (r: MState)
    ensures s.processed <= r.processed
    ensures forall q :: q in pairs ==> q in r.processed
    ensures Valid(s.g) ==> OnlyAdds(s.g, r.g)
  {
    if pairs == [] then
      if Valid(s.g) then OnlyAddsRefl(s.g); s else s
    else
      var front := pairs[..|pairs| - 1];
      var p := pairs[|pairs| - 1];
      var r0 := CopyPairs(e, ci, s, front);
      var r := InheritMethod(e, ci, r0, p.0, p.1, Universe(ci, p.0) + {p});
      assert pairs == front + [p];
      if Valid(s.g) then OnlyAddsTrans(s.g, r0.g, r.g); r else r
  }

  /** Every recorded pair of a listed class is among the third pass's pairs. */
  lemma {:induction false} OrderPairsCover(ci: map<string, seq<Option<string>>>, order: seq<string>, c: string, i: nat)
    requires c in order && c in ci && i < |ci[c]|
    ensures (c, ci[c][i]) in OrderPairs(ci, order)
  {
    var front := order[..|order| - 1];
    var last := order[|order| - 1];
    if c == last {
      assert ClassBases(c, Recorded(ci, c))[i] == (c, ci[c][i]);
    } else {
      assert c in front by {
        var k :| 0 <= k < |order| && order[k] == c;
        assert k < |front| && front[k] == c;
      }
      OrderPairsCover(ci, front, c, i);
    }
  }

  /** With unique full names, the node known to have a name is the match. */
  lemma MatchUnique(g: Graph, task: string, d: nat, name: string)
    requires Valid(g) && UniqueNames(g, task) && IsTaskNode(g, task, d, name)
    ensures MatchNode(g, task, name) == Some(d)
  {
    assert d < g.nextId;
    assert MatchNode(g, task, name).Some?;
  }

  /** A member row of the ancestor stands for relationship `k` of the graph. */
  lemma {:induction false} MemberRowsHas(g: Graph, task: string, cls: string, from: nat, k: nat)
    requires from <= k && MemberAt(g, task, cls, k)
    ensures MemberRowOf(g, k) in MemberRowsFrom(g, task, cls, from)
    decreases k - from
  {
    if from < k {
      MemberRowsHas(g, task, cls, from + 1, k);
    }
  }

  /** More relationships between the same nodes keep every member. */
  lemma HasMemberGrows(g: Graph, h: Graph, task: string, cls: string, name: string)
    requires OnlyAdds(g, h) && HasMemberNamed(g, task, cls, name)
    ensures HasMemberNamed(h, task, cls, name)
  {
    var k :| 0 <= k < |g.edges| && MemberAt(g, task, cls, k) && Named(g.nodes[g.edges[k].dst], name);
    assert h.edges[k] == g.edges[k];
    assert MemberAt(h, task, cls, k);
  }

  /** Copying one named row leaves the class with a member of that name. */
  lemma CopyStepHas(g: Graph, task: string, cur: string, row: MemberRow, d: nat)
    requires Valid(g) && UniqueNames(g, task)
    requires MatchNode(g, task, cur).Some? && "CLASS" in g.nodes[MatchNode(g, task, cur).value].labels
    requires IsTaskNode(g, task, d, row.fullName) && row.name.Some? && Named(g.nodes[d], row.name.value)
    requires row.rel == "HAS_METHOD" || row.rel == "HAS_FIELD"
    ensures HasMemberNamed(CopyStep(g, task, task, cur, row), task, cur, row.name.value)
  {
    if !HasMemberNamed(g, task, cur, PyText(row.name)) {
      MatchUnique(g, task, d, row.fullName);
      var u := UpdateEdge(g, task, cur, row.rel, row.fullName, map[]);
      var k := u.1.value;
      assert MemberAt(u.0, task, cur, k) && Named(u.0.nodes[u.0.edges[k].dst], row.name.value);
    }
  }

  /** Copying rows leaves the class with a member named like each named row. */
  lemma {:induction false} CopyStepsHas(g: Graph, task: string, cur: string, rows: seq<MemberRow>, j: nat, d: nat)
    requires Valid(g) && UniqueNames(g, task) && j < |rows|
    requires MatchNode(g, task, cur).Some? && "CLASS" in g.nodes[MatchNode(g, task, cur).value].labels
    requires IsTaskNode(g, task, d, rows[j].fullName) && rows[j].name.Some? && Named(g.nodes[d], rows[j].name.value)
    requires rows[j].rel == "HAS_METHOD" || rows[j].rel == "HAS_FIELD"
    ensures HasMemberNamed(CopySteps(g, task, task, cur, rows), task, cur, rows[j].name.value)
  {
    var front := rows[..|rows| - 1];
    CopyStepsKeeps(g, task, task, cur, front);
    var h := CopySteps(g, task, task, cur, front);
    MatchSameNodes(g, h, task, cur, 0);
    if j == |rows| - 1 {
      CopyStepHas(h, task, cur, rows[j], d);
    } else {
      assert front[j] == rows[j];
      CopyStepsHas(g, task, cur, front, j, d);
      HasMemberKept(h, task, task, cur, rows[|rows| - 1], rows[j].name.value);
    }
  }

  /** Member propagation: after an unprocessed (class, ancestor) pair, every
      named member of the ancestor is matched by a member of the class with
      the same name: the class's own one when it overrides it, the copied
      one otherwise. */
  lemma InheritMethodCopies(e: Env, ci: map<string, seq<Option<string>>>, s: MState, cur: string, base: Option<string>,
                            bound: set<(string, Option<string>)>, k: nat)
    requires (cur, base) in bound && Universe(ci, cur) <= bound && (cur, base) !in s.processed
    requires Valid(s.g) && e.task == e.htask && UniqueNames(s.g, e.task)
    requires MatchNode(s.g, e.task, cur).Some? && "CLASS" in s.g.nodes[MatchNode(s.g, e.task, cur).value].labels
    requires MemberAt(s.g, e.task, PyText(base), k) && "name" in s.g.nodes[s.g.edges[k].dst].props
    ensures HasMemberNamed(InheritMethod(e, ci, s, cur, base, bound).g, e.task, cur, s.g.nodes[s.g.edges[k].dst].props["name"])
  {
    var rows := MemberRowsFrom(s.g, e.task, PyText(base), 0);
    MemberRowsHas(s.g, e.task, PyText(base), 0, k);
    var j :| 0 <= j < |rows| && rows[j] == MemberRowOf(s.g, k);
    CopyStepsHas(s.g, e.task, cur, rows, j, s.g.edges[k].dst);
    var h := CopySteps(s.g, e.task, e.htask, cur, rows);
    InheritMethodAfterCopy(e, ci, s, cur, base, bound);
    HasMemberGrows(h, InheritMethod(e, ci, s, cur, base, bound).g, e.task, cur, s.g.nodes[s.g.edges[k].dst].props["name"]);
  }

  /** An unprocessed pair whose ancestor has members: the members are copied
      first, and the ancestor's own bases only add relationships to that. */
  lemma InheritMethodAfterCopy(e: Env, ci: map<string, seq<Option<string>>>, s: MState, cur: string, base: Option<string>,
                               bound: set<(string, Option<string>)>)
    requires (cur, base) in bound && Universe(ci, cur) <= bound && (cur, base) !in s.processed && Valid(s.g)
    requires AllEdgeOfClass(s.g, e.task, PyText(base)).Some?
    ensures OnlyAdds(CopySteps(s.g, e.task, e.htask, cur, AllEdgeOfClass(s.g, e.task, PyText(base)).value),
                     InheritMethod(e, ci, s, cur, base, bound).g)
  {
    var h := CopySteps(s.g, e.task, e.htask, cur, AllEdgeOfClass(s.g, e.task, PyText(base)).value);
    CopyStepsKeeps(s.g, e.task, e.htask, cur, AllEdgeOfClass(s.g, e.task, PyText(base)).value);
    if !(base.Some? && base.value in ci) {
      OnlyAddsRefl(h);
    }
  }

  /** The state `run` changes. */
  datatype ManagerState = ManagerState(inherited: map<string, seq<Option<string>>>, order: seq<string>,
                                       processed: set<(string, Option<string>)>, visited: seq<string>, g: Graph)

  /** `run(paths)`: containment for every file, then inheritance for every
      file, then member propagation for every recorded pair; the flag is the
      StopIteration that ends it, with the state reached then. */
  ghost function RunFn(e: Env, s: ManagerState, paths: seq<string>): (r: (ManagerState, bool))
    ensures !r.1 ==> forall f :: f in paths ==> f in r.0.visited
    ensures !r.1 && KeysInOrder(r.0.inherited, r.0.order) ==>
      forall c, i :: c in r.0.inherited && 0 <= i < |r.0.inherited[c]| ==> (c, r.0.inherited[c][i]) in r.0.processed
  {
    var c := ContainFiles(e, CState(s.visited, s.g), paths);
    var s1 := s.(visited := c.st.visited, g := c.st.g);
    if c.raised then (s1, true)
    else
      var i := InheritFiles(e, InheritState(s1.inherited, s1.order, s1.g), paths);
      var s2 := s1.(inherited := i.0.inherited, order := i.0.order, g := i.0.g);
      if i.1 then (s2, true)
      else
        var pairs := OrderPairs(s2.inherited, s2.order);
        var m := CopyPairs(e, s2.inherited, MState(s2.processed, s2.g), pairs);
        var r := s2.(processed := m.processed, g := m.g);
        assert KeysInOrder(r.inherited, r.order) ==>
          forall c, i :: c in r.inherited && 0 <= i < |r.inherited[c]| ==> (c, r.inherited[c][i]) in r.processed by {
          if KeysInOrder(r.inherited, r.order) {
            forall c, i | c in r.inherited && 0 <= i < |r.inherited[c]| ensures (c, r.inherited[c][i]) in r.processed {
              OrderPairsCover(r.inherited, r.order, c, i);
              var k :| 0 <= k < |pairs| && pairs[k] == (c, r.inherited[c][i]);
            }
          }
        }
        (r, false)
  }

  class AstManager {
    const projectPath: string
    const taskId: string
    const graphDB: GraphDatabaseHandler
    /** The readable file system: a path exists iff it is a key. */
    const files: map<string, Source>
    const utils: AstUtils
    var classInherited: map<string, seq<Option<string>>>
    /** The insertion order of `classInherited`'s keys. */
    var inheritedOrder: seq<string>
    var processed: set<(string, Option<string>)>
    var visited: seq<string>

    ghost predicate Valid()
      reads this, graphDB
    {
      graphDB.Valid() && NoDups(visited) && KeysInOrder(classInherited, inheritedOrder)
    }

    constructor (projectPath: string, taskId: string, graphDB: GraphDatabaseHandler, files: map<string, Source>, utils: AstUtils)
      requires graphDB.Valid()
      ensures this.projectPath == projectPath && this.taskId == taskId && this.graphDB == graphDB
      ensures this.files == files && this.utils == utils
      ensures classInherited == map[] && inheritedOrder == [] && processed == {} && visited == []
      ensures Valid()
    {
      this.projectPath := projectPath;
      this.taskId := taskId;
      this.graphDB := graphDB;
      this.files := files;
      this.utils := utils;
      classInherited := map[];
      inheritedOrder := [];
      processed := {};
      visited := [];
    }

    /** The existing files not yet visited: shrinks with every file visited. */
    ghost function Unvisited(): set<string>
      reads this
    {
      Pending(files, visited)
    }

    /** What the passes read and never change. */
    ghost function EnvOf(): Env {
      Env(files, utils, projectPath, taskId, graphDB.taskId)
    }

    /** `_build_modules_contain_edge`: a CONTAINS relationship from the current
        module to the symbol the target module contains under `targetName`,
        with its kind as `association_type`; False, writing nothing, when
        there is no such symbol. `raised` is the StopIteration of a symbol
        without a kind label. */
    method BuildModulesContainEdge(targetModule: string, targetName: string, cur: string) returns (ok: bool, raised: bool)
      requires Valid()
      modifies graphDB
      ensures Valid()
      ensures var l := FullNameFromGraph(old(graphDB.g), taskId, targetModule, targetName);
        (raised <==> l.NoKind?) && (ok <==> l.Found? && l.fullName != "") &&
        graphDB.g == Attempt(old(graphDB.g), taskId, graphDB.taskId, targetModule, targetName, cur)
    {
      var l := FullNameFromGraph(graphDB.g, taskId, targetModule, targetName);
      ok, raised := false, false;
      if l.NoKind? {
        raised := true;
      } else if l.Found? && l.fullName != "" {
        var _ := graphDB.AddEdge(Some("MODULE"), cur, "CONTAINS", None, l.fullName, map["association_type" := l.kind]);
        ok := true;
      }
    }

    /** `_build_modules_contain_edge_all`: a CONTAINS relationship from the
        current module to every symbol the target module contains; False,
        writing nothing, when it contains none. */
    method BuildModulesContainEdgeAll(targetModule: string, cur: string) returns (ok: bool, raised: bool)
      requires Valid()
      modifies graphDB
      ensures Valid()
      ensures var names := AllNamesFromGraph(old(graphDB.g), taskId, targetModule);
        (raised <==> names.RowsNoKind?) && (ok <==> names.Rows?) &&
        (ok ==> graphDB.g == AddContainsAll(old(graphDB.g), graphDB.taskId, cur, names.rows)) &&
        (!ok ==> graphDB.g == old(graphDB.g))
    {
      var names := AllNamesFromGraph(graphDB.g, taskId, targetModule);
      ok, raised := false, names.RowsNoKind?;
      if names.Rows? {
        ghost var g0 := graphDB.g;
        var rows := names.rows;
        for k := 0 to |rows|
          invariant graphDB.Valid() && graphDB.g == AddContainsAll(g0, graphDB.taskId, cur, rows[..k])
        {
          AddContainsAllSnoc(g0, graphDB.taskId, cur, rows, k);
          var _ := graphDB.AddEdge(Some("MODULE"), cur, "CONTAINS", None, rows[k].fullName, map["association_type" := rows[k].kind]);
        }
        assert rows[..|rows|] == rows;
        ok := true;
      }
    }

    /** `build_modules_contain`: a file is handled at most once, since it is
        marked visited before it is read; a file that cannot be read stays
        visited and writes nothing. The visited files and the graph are those
        of `Contain`. */
    method BuildModulesContain(path: string) returns (raised: bool)
      requires Valid()
      modifies this, graphDB
      ensures Valid() && Grows(old(visited), visited) && path in visited
      ensures classInherited == old(classInherited) && inheritedOrder == old(inheritedOrder) && processed == old(processed)
      ensures Step(CState(visited, graphDB.g), raised) == Contain(EnvOf(), CState(old(visited), old(graphDB.g)), path)
      decreases Unvisited(), 5
    {
      raised := false;
      if path in visited {
        return;
      }
      ghost var e := EnvOf();
      ghost var bound := Unvisited();
      visited := visited + [path];
      if path !in files || files[path].Unreadable? {
        return;
      }
      ContainUnfold(e, CState(old(visited), old(graphDB.g)), path);
      ghost var v := visited;
      var cur := ModuleNameOf(utils, projectPath, path);
      raised := BuildImportsContain(path, cur, files[path].imports, bound);
      GrowsTrans(old(visited), v, visited);
      GrowsSubset(v, visited);
    }

    /** The loop over a file's `from … import …` statements, until one raises. */
    method BuildImportsContain(path: string, cur: string, imports: seq<ImportFrom>, ghost bound: set<string>) returns (raised: bool)
      requires Valid() && Unvisited() < bound
      modifies this, graphDB
      ensures Valid() && Grows(old(visited), visited) && Unvisited() < bound
      ensures classInherited == old(classInherited) && inheritedOrder == old(inheritedOrder) && processed == old(processed)
      ensures Step(CState(visited, graphDB.g), raised) == ContainImports(EnvOf(), CState(old(visited), old(graphDB.g)), path, cur, imports, bound)
      decreases bound, 4
    {
      raised := false;
      ghost var e := EnvOf();
      ghost var s1 := CState(visited, graphDB.g);
      assert visited[..|visited|] == visited;
      for i := 0 to |imports|
        invariant Valid() && Grows(old(visited), visited) && Unvisited() < bound
        invariant classInherited == old(classInherited) && inheritedOrder == old(inheritedOrder) && processed == old(processed)
        invariant EnvOf() == e
        invariant Step(CState(visited, graphDB.g), false) == ContainImports(e, s1, path, cur, imports[..i], bound)
      {
        ImportsStep(e, s1, path, cur, imports, i, bound);
        var imp := imports[i];
        var target := utils.moduleName(path, imp, projectPath);
        if target.Some? && target.value != "" {
          ghost var v := visited;
          raised := ImportNames(target.value, cur, imp.names, bound);
          GrowsTrans(old(visited), v, visited);
          if raised {
            ImportsRaised(e, s1, path, cur, imports, i + 1, bound);
            return;
          }
        }
      }
      assert imports[..|imports|] == imports;
    }

    /** The loop over one import's names, until one raises. */
    method ImportNames(target: string, cur: string, names: seq<string>, ghost bound: set<string>) returns (raised: bool)
      requires Valid() && Unvisited() < bound
      modifies this, graphDB
      ensures Valid() && Grows(old(visited), visited) && Unvisited() < bound
      ensures classInherited == old(classInherited) && inheritedOrder == old(inheritedOrder) && processed == old(processed)
      ensures Step(CState(visited, graphDB.g), raised) == ContainNames(EnvOf(), CState(old(visited), old(graphDB.g)), target, cur, names, bound)
      decreases bound, 3
    {
      raised := false;
      ghost var s0 := CState(visited, graphDB.g);
      for j := 0 to |names|
        invariant Valid() && Grows(old(visited), visited) && Unvisited() < bound
        invariant classInherited == old(classInherited) && inheritedOrder == old(inheritedOrder) && processed == old(processed)
        invariant Step(CState(visited, graphDB.g), false) == ContainNames(EnvOf(), s0, target, cur, names[..j], bound)
      {
        assert names[..j + 1][..j] == names[..j];
        ghost var v := visited;
        raised := ImportName(target, names[j], cur, bound);
        GrowsTrans(old(visited), v, visited);
        PendingShrinks(files, v, visited);
        if raised {
          NamesRaised(EnvOf(), s0, target, cur, names, j + 1, bound);
          return;
        }
      }
      assert names[..|names|] == names;
    }

    /** One imported name: `*` takes every symbol of the target module. */
    method ImportName(target: string, name: string, cur: string, ghost bound: set<string>) returns (raised: bool)
      requires Valid() && Unvisited() < bound
      modifies this, graphDB
      ensures Valid() && Grows(old(visited), visited)
      ensures classInherited == old(classInherited) && inheritedOrder == old(inheritedOrder) && processed == old(processed)
      ensures Step(CState(visited, graphDB.g), raised) == ImportNameFn(EnvOf(), CState(old(visited), old(graphDB.g)), target, name, cur, bound)
      decreases bound, 2
    {
      if name == "*" {
        ghost var mid;
        raised, mid := ImportAll(target, cur, bound);
      } else {
        raised := ImportOne(target, name, cur, bound);
      }
    }

    /** A single name: the lookup, then on a miss the target package's
        `__init__.py` (when it exists), then the lookup once more. */
    method ImportOne(target: string, name: string, cur: string, ghost bound: set<string>) returns (raised: bool)
      requires Valid() && Unvisited() < bound
      modifies this, graphDB
      ensures Valid() && Grows(old(visited), visited)
      ensures classInherited == old(classInherited) && inheritedOrder == old(inheritedOrder) && processed == old(processed)
      ensures Step(CState(visited, graphDB.g), raised) == ImportOneFn(EnvOf(), CState(old(visited), old(graphDB.g)), target, name, cur, bound)
      decreases bound, 1
    {
      var ok;
      ok, raised := BuildModulesContainEdge(target, name, cur);
      if raised {
        return;
      }
      if ok {
        raised := Reattempt(target, name, cur);
      } else {
        ghost var mid;
        raised, mid := AfterMiss(target, name, cur, bound);
      }
    }

    /** After a miss: the package file is built when it exists (`mid` is the
        graph then), and the lookup is repeated on that graph. */
    method AfterMiss(target: string, name: string, cur: string, ghost bound: set<string>) returns (raised: bool, ghost mid: Graph)
      requires Valid() && Unvisited() < bound
      modifies this, graphDB
      ensures Valid() && Grows(old(visited), visited)
      ensures classInherited == old(classInherited) && inheritedOrder == old(inheritedOrder) && processed == old(processed)
      ensures var m := TryPackage(EnvOf(), CState(old(visited), old(graphDB.g)), target, bound);
        mid == m.st.g &&
        (m.raised ==> raised && CState(visited, graphDB.g) == m.st) &&
        (!m.raised ==> Step(CState(visited, graphDB.g), raised) == LinkName(EnvOf(), m.st, target, name, cur))
      ensures !raised ==> graphDB.g == Attempt(mid, taskId, graphDB.taskId, target, name, cur)
      ensures raised <==> TryPackage(EnvOf(), CState(old(visited), old(graphDB.g)), target, bound).raised ||
                          FullNameFromGraph(mid, taskId, target, name).NoKind?
      decreases bound, 0
    {
      var init := InitPathOf(utils, projectPath, target);
      if init in files {
        raised := BuildModulesContain(init);
        mid := graphDB.g;
        if raised {
          return;
        }
      }
      mid := graphDB.g;
      raised := Reattempt(target, name, cur);
    }

    /** The lookup repeated: `LinkName` on the current state. */
    method Reattempt(target: string, name: string, cur: string) returns (raised: bool)
      requires Valid()
      modifies graphDB
      ensures Valid()
      ensures Step(CState(visited, graphDB.g), raised) == LinkName(EnvOf(), CState(visited, old(graphDB.g)), target, name, cur)
    {
      var ok;
      ok, raised := BuildModulesContainEdge(target, name, cur);
    }

    /** A wildcard: all symbols of the target module; on a miss the package
        file is built when it exists (`mid` is the graph then), and the
        lookup is repeated on that graph. */
    method ImportAll(target: string, cur: string, ghost bound: set<string>) returns (raised: bool, ghost mid: Graph)
      requires Valid() && Unvisited() < bound
      modifies this, graphDB
      ensures Valid() && Grows(old(visited), visited)
      ensures classInherited == old(classInherited) && inheritedOrder == old(inheritedOrder) && processed == old(processed)
      ensures Step(CState(visited, graphDB.g), raised) == ImportAllFn(EnvOf(), CState(old(visited), old(graphDB.g)), target, cur, bound)
      ensures var names := AllNamesFromGraph(old(graphDB.g), taskId, target);
        !names.RowsNoKind? && (names.Rows? || !TryPackage(EnvOf(), CState(old(visited), old(graphDB.g)), target, bound).raised) ==>
          mid == (if names.Rows? then AddContainsAll(old(graphDB.g), graphDB.taskId, cur, names.rows)
                  else TryPackage(EnvOf(), CState(old(visited), old(graphDB.g)), target, bound).st.g) &&
          (raised <==> AllNamesFromGraph(mid, taskId, target).RowsNoKind?) &&
          graphDB.g == LinkAll(EnvOf(), CState(visited, mid), target, cur).st.g
      decreases bound, 0
    {
      var ok;
      ok, raised := BuildModulesContainEdgeAll(target, cur);
      mid := graphDB.g;
      if raised {
        return;
      }
      if !ok {
        var init := InitPathOf(utils, projectPath, target);
        if init in files {
          raised := BuildModulesContain(init);
          mid := graphDB.g;
          if raised {
            return;
          }
        }
      }
      mid := graphDB.g;
      ok, raised := BuildModulesContainEdgeAll(target, cur);
    }

    /** `build_inherited`: for each class and each simple-name base, the base
        is resolved in the file's module and recorded; resolved bases get an
        INHERITS relationship. A file that cannot be read changes nothing. */
    method BuildInherited(path: string) returns (raised: bool)
      requires Valid()
      modifies this, graphDB
      ensures Valid() && visited == old(visited) && processed == old(processed)
      ensures (InheritState(classInherited, inheritedOrder, graphDB.g), raised) ==
        InheritFile(EnvOf(), InheritState(old(classInherited), old(inheritedOrder), old(graphDB.g)), path)
      ensures !raised ==> forall c :: c in old(classInherited) ==> c in classInherited && Grows(old(classInherited)[c], classInherited[c])
    {
      raised := false;
      if path !in files || files[path].Unreadable? {
        return;
      }
      var classes := files[path].classes;
      var cur := ModuleNameOf(utils, projectPath, path);
      ghost var st0 := InheritState(classInherited, inheritedOrder, graphDB.g);
      for i := 0 to |classes|
        invariant Valid() && visited == old(visited) && processed == old(processed)
        invariant InheritSteps(st0, taskId, graphDB.taskId, cur, BasePairs(cur, classes[..i])) == (InheritState(classInherited, inheritedOrder, graphDB.g), false)
      {
        ghost var done := BasePairs(cur, classes[..i]);
        ghost var sti := InheritState(classInherited, inheritedOrder, graphDB.g);
        var cls := cur + "." + classes[i].name;
        assert classes[..i + 1][..i] == classes[..i];
        assert BasePairs(cur, classes[..i + 1]) == done + ClassPairs(cls, classes[i].bases);
        InheritStepsConcat(st0, taskId, graphDB.taskId, cur, done, ClassPairs(cls, classes[i].bases));
        raised := InheritClass(cur, cls, classes[i].bases);
        if raised {
          BasePairsGrows(cur, classes, i + 1);
          InheritStepsRaised(st0, taskId, graphDB.taskId, cur, BasePairs(cur, classes[..i + 1]), BasePairs(cur, classes));
          return;
        }
      }
      assert classes[..|classes|] == classes;
      forall c | c in st0.inherited ensures c in classInherited && Grows(st0.inherited[c], classInherited[c]) {
        InheritStepsRecord(st0, taskId, graphDB.taskId, cur, BasePairs(cur, classes), c);
        assert Recorded(st0.inherited, c) == st0.inherited[c];
        assert Recorded(classInherited, c) == classInherited[c];
      }
    }

    /** The bases of one class, in order. */
    method InheritClass(cur: string, cls: string, bases: seq<Base>) returns (raised: bool)
      requires Valid()
      modifies this, graphDB
      ensures Valid() && visited == old(visited) && processed == old(processed)
      ensures (InheritState(classInherited, inheritedOrder, graphDB.g), raised) ==
        InheritSteps(InheritState(old(classInherited), old(inheritedOrder), old(graphDB.g)), taskId, graphDB.taskId, cur, ClassPairs(cls, bases))
    {
      raised := false;
      ghost var st0 := InheritState(classInherited, inheritedOrder, graphDB.g);
      for j := 0 to |bases|
        invariant Valid() && visited == old(visited) && processed == old(processed)
        invariant InheritSteps(st0, taskId, graphDB.taskId, cur, ClassPairs(cls, bases[..j])) == (InheritState(classInherited, inheritedOrder, graphDB.g), false)
      {
        assert bases[..j + 1][..j] == bases[..j];
        ghost var pairs := ClassPairs(cls, bases[..j]);
        if bases[j].NameBase? {
          assert ClassPairs(cls, bases[..j + 1]) == pairs + [(cls, bases[j].id)];
          assert (pairs + [(cls, bases[j].id)])[..|pairs|] == pairs;
          raised := InheritBase(cur, cls, bases[j].id);
          if raised {
            ClassPairsGrows(cls, bases, j + 1);
            InheritStepsRaised(st0, taskId, graphDB.taskId, cur, ClassPairs(cls, bases[..j + 1]), ClassPairs(cls, bases));
            return;
          }
        } else {
          assert ClassPairs(cls, bases[..j + 1]) == pairs;
        }
      }
      assert bases[..|bases|] == bases;
    }

    /** One simple-name base of class `cls`. */
    method InheritBase(cur: string, cls: string, id: string) returns (raised: bool)
      requires Valid()
      modifies this, graphDB
      ensures Valid() && visited == old(visited) && processed == old(processed)
      ensures var r := InheritStep(InheritState(old(classInherited), old(inheritedOrder), old(graphDB.g)), taskId, graphDB.taskId, cur, (cls, id));
        (raised <==> r.None?) && InheritState(classInherited, inheritedOrder, graphDB.g) == r.GetOr(InheritState(old(classInherited), old(inheritedOrder), old(graphDB.g)))
    {
      var l := FullNameFromGraph(graphDB.g, taskId, cur, id);
      if l.NoKind? {
        return true;
      }
      raised := false;
      var b := if l.Found? then Some(l.fullName) else None;
      RecordBaseOrder(classInherited, inheritedOrder, cls, b);
      var recorded := RecordBase(classInherited, inheritedOrder, cls, b);
      classInherited, inheritedOrder := recorded.0, recorded.1;
      if b.Some? && b.value != "" {
        var _ := graphDB.UpdateEdge(cls, "INHERITS", b.value, map[]);
      }
    }

    /** `_build_inherited_method`: each (class, ancestor) pair is handled at
        most once; the ancestor's members are copied unless overridden, then
        the ancestor's own recorded bases are handled for the same class.
        Terminates because the unprocessed pairs of the finite `bound` shrink. */
    method BuildInheritedMethod(cur: string, base: Option<string>, ghost bound: set<(string, Option<string>)>)
      requires Valid() && (cur, base) in bound && Universe(classInherited, cur) <= bound
      modifies this, graphDB
      ensures Valid() && visited == old(visited) && classInherited == old(classInherited) && inheritedOrder == old(inheritedOrder)
      ensures MState(processed, graphDB.g) == InheritMethod(EnvOf(), classInherited, MState(old(processed), old(graphDB.g)), cur, base, bound)
      decreases bound - processed, 1
    {
      if (cur, base) in processed {
        return;
      }
      processed := processed + {(cur, base)};
      var methods := AllEdgeOfClass(graphDB.g, taskId, PyText(base));
      if methods.None? {
        return;
      }
      CopyMembers(cur, methods.value);
      if base.Some? && base.value in classInherited {
        assert forall k :: 0 <= k < |classInherited[base.value]| ==> (cur, classInherited[base.value][k]) in Universe(classInherited, cur);
        InheritAncestorBases(cur, classInherited[base.value], bound, bound - processed);
      }
    }

    /** The loop over the ancestor's own recorded bases, for the same class. */
    method InheritAncestorBases(cur: string, bases: seq<Option<string>>, ghost bound: set<(string, Option<string>)>,
                                ghost top: set<(string, Option<string>)>)
      requires Valid() && Universe(classInherited, cur) <= bound && bound - processed <= top
      requires forall k :: 0 <= k < |bases| ==> (cur, bases[k]) in bound
      modifies this, graphDB
      ensures Valid() && visited == old(visited) && classInherited == old(classInherited) && inheritedOrder == old(inheritedOrder)
      ensures MState(processed, graphDB.g) == InheritBases(EnvOf(), classInherited, MState(old(processed), old(graphDB.g)), cur, bases, bound, top)
      decreases top, 2
    {
      ghost var s1 := MState(processed, graphDB.g);
      ghost var e := EnvOf();
      for k := 0 to |bases|
        invariant Valid() && visited == old(visited) && classInherited == old(classInherited) && inheritedOrder == old(inheritedOrder)
        invariant EnvOf() == e && old(processed) <= processed
        invariant MState(processed, graphDB.g) == InheritBases(e, classInherited, s1, cur, bases[..k], bound, top)
      {
        InheritBasesSnoc(e, classInherited, s1, cur, bases, k, bound, top);
        BuildInheritedMethod(cur, bases[k], bound);
      }
      assert bases[..|bases|] == bases;
    }

    /** The loop over the ancestor's member rows, with the override check. */
    method CopyMembers(cur: string, rows: seq<MemberRow>)
      requires Valid()
      modifies graphDB
      ensures Valid() && graphDB.g == CopySteps(old(graphDB.g), taskId, graphDB.taskId, cur, rows)
    {
      ghost var g0 := graphDB.g;
      for k := 0 to |rows|
        invariant graphDB.Valid() && graphDB.g == CopySteps(g0, taskId, graphDB.taskId, cur, rows[..k])
      {
        assert rows[..k + 1][..k] == rows[..k];
        var row := rows[k];
        if !HasMemberNamed(graphDB.g, taskId, cur, PyText(row.name)) {
          var _ := graphDB.UpdateEdge(cur, row.rel, row.fullName, map[]);
        }
      }
      assert rows[..|rows|] == rows;
    }

    /** `_run` (and `run`): containment for every file, then inheritance for
        every file, then member propagation for every recorded pair, as
        `RunFn`. On completion every file was visited and every recorded pair
        processed. */
    method Run(pyFiles: Option<seq<string>>) returns (raised: bool)
      requires Valid()
      modifies this, graphDB
      ensures Valid()
      ensures (ManagerState(classInherited, inheritedOrder, processed, visited, graphDB.g), raised) ==
        RunFn(EnvOf(), ManagerState(old(classInherited), old(inheritedOrder), old(processed), old(visited), old(graphDB.g)),
              pyFiles.GetOr(utils.pyFiles(projectPath)))
      ensures !raised ==> forall f :: f in pyFiles.GetOr(utils.pyFiles(projectPath)) ==> f in visited
      ensures !raised ==> forall c, i :: c in classInherited && 0 <= i < |classInherited[c]| ==> (c, classInherited[c][i]) in processed
      ensures !raised ==> forall c :: c in old(classInherited) ==> c in classInherited && Grows(old(classInherited)[c], classInherited[c])
    {
      var paths := pyFiles.GetOr(utils.pyFiles(projectPath));
      raised := ContainAll(paths);
      if raised {
        return;
      }
      raised := InheritAll(paths);
      if raised {
        return;
      }
      CopyAll();
    }

    /** The first pass of `run`: `build_modules_contain` on every file. */
    method ContainAll(paths: seq<string>) returns (raised: bool)
      requires Valid()
      modifies this, graphDB
      ensures Valid() && classInherited == old(classInherited) && inheritedOrder == old(inheritedOrder) && processed == old(processed)
      ensures Step(CState(visited, graphDB.g), raised) == ContainFiles(EnvOf(), CState(old(visited), old(graphDB.g)), paths)
      ensures !raised ==> forall f :: f in paths ==> f in visited
    {
      raised := false;
      ghost var s0 := CState(visited, graphDB.g);
      for i := 0 to |paths|
        invariant Valid() && classInherited == old(classInherited) && inheritedOrder == old(inheritedOrder) && processed == old(processed)
        invariant Step(CState(visited, graphDB.g), false) == ContainFiles(EnvOf(), s0, paths[..i])
      {
        assert paths[..i + 1][..i] == paths[..i];
        raised := BuildModulesContain(paths[i]);
        if raised {
          ContainFilesRaised(EnvOf(), s0, paths, i + 1);
          return;
        }
      }
      assert paths[..|paths|] == paths;
    }

    /** The second pass of `run`: `build_inherited` on every file. */
    method InheritAll(paths: seq<string>) returns (raised: bool)
      requires Valid()
      modifies this, graphDB
      ensures Valid() && visited == old(visited) && processed == old(processed)
      ensures (InheritState(classInherited, inheritedOrder, graphDB.g), raised) ==
        InheritFiles(EnvOf(), InheritState(old(classInherited), old(inheritedOrder), old(graphDB.g)), paths)
      ensures !raised ==> forall c :: c in old(classInherited) ==> c in classInherited && Grows(old(classInherited)[c], classInherited[c])
    {
      raised := false;
      ghost var st0 := InheritState(classInherited, inheritedOrder, graphDB.g);
      for i := 0 to |paths|
        invariant Valid() && visited == old(visited) && processed == old(processed)
        invariant forall c :: c in old(classInherited) ==> c in classInherited && Grows(old(classInherited)[c], classInherited[c])
        invariant InheritFiles(EnvOf(), st0, paths[..i]) == (InheritState(classInherited, inheritedOrder, graphDB.g), false)
      {
        assert paths[..i + 1][..i] == paths[..i];
        ghost var before := classInherited;
        raised := BuildInherited(paths[i]);
        if raised {
          InheritFilesRaised(EnvOf(), st0, paths, i + 1);
          return;
        }
        forall c | c in old(classInherited) ensures c in classInherited && Grows(old(classInherited)[c], classInherited[c]) {
          GrowsTrans(old(classInherited)[c], before[c], classInherited[c]);
        }
      }
      assert paths[..|paths|] == paths;
    }

    /** The third pass of `run`: `build_inherited_method` for every recorded
        (class, base) pair, classes in insertion order, as `CopyPairs`. */
    method CopyAll()
      requires Valid()
      modifies this, graphDB
      ensures Valid() && visited == old(visited) && classInherited == old(classInherited) && inheritedOrder == old(inheritedOrder)
      ensures MState(processed, graphDB.g) ==
        CopyPairs(EnvOf(), classInherited, MState(old(processed), old(graphDB.g)), OrderPairs(classInherited, inheritedOrder))
      ensures forall c, i :: c in classInherited && 0 <= i < |classInherited[c]| ==> (c, classInherited[c][i]) in processed
    {
      ghost var s0 := MState(processed, graphDB.g);
      var order := inheritedOrder;
      for i := 0 to |order|
        invariant Valid() && order == inheritedOrder && visited == old(visited) && classInherited == old(classInherited)
        invariant MState(processed, graphDB.g) == CopyPairs(EnvOf(), classInherited, s0, OrderPairs(classInherited, order[..i]))
      {
        var c := order[i];
        assert order[..i + 1][..i] == order[..i];
        CopyPairsConcat(EnvOf(), classInherited, s0, OrderPairs(classInherited, order[..i]), ClassBases(c, classInherited[c]));
        CopyClass(c, classInherited[c]);
      }
      assert order[..|order|] == order;
      CopyPairsCoverAll(EnvOf(), classInherited, inheritedOrder, s0);
    }

    /** The loop over one class's recorded bases. */
    method CopyClass(c: string, bases: seq<Option<string>>)
      requires Valid()
      modifies this, graphDB
      ensures Valid() && visited == old(visited) && classInherited == old(classInherited) && inheritedOrder == old(inheritedOrder)
      ensures MState(processed, graphDB.g) == CopyPairs(EnvOf(), classInherited, MState(old(processed), old(graphDB.g)), ClassBases(c, bases))
    {
      ghost var s0 := MState(processed, graphDB.g);
      ghost var e := EnvOf();
      for j := 0 to |bases|
        invariant Valid() && visited == old(visited) && classInherited == old(classInherited) && inheritedOrder == old(inheritedOrder)
        invariant EnvOf() == e
        invariant MState(processed, graphDB.g) == CopyPairs(e, classInherited, s0, ClassBases(c, bases[..j]))
      {
        ghost var xs := ClassBases(c, bases[..j]);
        ClassBasesSnoc(c, bases, j);
        CopyPairsSnoc(e, classInherited, s0, xs, (c, bases[j]));
        BuildInheritedMethod(c, bases[j], Universe(classInherited, c) + {(c, bases[j])});
      }
      assert bases[..|bases|] == bases;
    }
  }

  /** One more base is one more pair. */
  lemma ClassBasesSnoc(c: string, bases: seq<Option<string>>, j: nat)
    requires j < |bases|
    ensures ClassBases(c, bases[..j + 1]) == ClassBases(c, bases[..j]) + [(c, bases[j])]
  {
  }

  /** One more pair is one more `_build_inherited_method`. */
  lemma CopyPairsSnoc(e: Env, ci: map<string, seq<Option<string>>>, s: MState, xs: seq<(string, Option<string>)>, p: (string, Option<string>))
    ensures CopyPairs(e, ci, s, xs + [p]) == InheritMethod(e, ci, CopyPairs(e, ci, s, xs), p.0, p.1, Universe(ci, p.0) + {p})
  {
    assert (xs + [p])[..|xs|] == xs;
  }

  /** Running two lists of pairs one after the other is running their concatenation. */
  lemma {:induction false} CopyPairsConcat(e: Env, ci: map<string, seq<Option<string>>>, s: MState,
                                           xs: seq<(string, Option<string>)>, ys: seq<(string, Option<string>)>)
    ensures CopyPairs(e, ci, s, xs + ys) == CopyPairs(e, ci, CopyPairs(e, ci, s, xs), ys)
  {
    if ys == [] {
      assert xs + ys == xs;
    } else {
      assert (xs + ys)[..|xs + ys| - 1] == xs + ys[..|ys| - 1];
      CopyPairsConcat(e, ci, s, xs, ys[..|ys| - 1]);
    }
  }

  /** After the third pass every recorded pair is processed. */
  lemma CopyPairsCoverAll(e: Env, ci: map<string, seq<Option<string>>>, order: seq<string>, s: MState)
    requires KeysInOrder(ci, order)
    ensures var r := CopyPairs(e, ci, s, OrderPairs(ci, order));
      forall c, i :: c in ci && 0 <= i < |ci[c]| ==> (c, ci[c][i]) in r.processed
  {
    var pairs := OrderPairs(ci, order);
    forall c, i | c in ci && 0 <= i < |ci[c]| ensures (c, ci[c][i]) in CopyPairs(e, ci, s, pairs).processed {
      OrderPairsCover(ci, order, c, i);
    }
  }

  lemma GrowsSubset<T>(a: seq<T>, b: seq<T>)
    requires Grows(a, b)
    ensures forall x :: x in a ==> x in b
  {
    forall x | x in a ensures x in b {
      var k :| 0 <= k < |a| && a[k] == x;
      assert b[k] == x;
    }
  }

  lemma GrowsTrans<T>(a: seq<T>, b: seq<T>, c: seq<T>)
    requires Grows(a, b) && Grows(b, c)
    ensures Grows(a, c)
  {
    assert c[..|a|] == c[..|b|][..|a|];
  }

  lemma GrowsAppend<T>(a: seq<T>, b: seq<T>, c: seq<T>)
    requires Grows(b, c)
    ensures Grows(a + b, a + c)
  {
    assert (a + c)[..|a + b|] == a + c[..|b|];
  }

  lemma {:induction false} ClassPairsGrows(cls: string, bases: seq<Base>, j: nat)
    requires j <= |bases|
    ensures Grows(ClassPairs(cls, bases[..j]), ClassPairs(cls, bases))
  {
    if j < |bases| {
      var front := bases[..|bases| - 1];
      assert front[..j] == bases[..j];
      ClassPairsGrows(cls, front, j);
      GrowsTrans(ClassPairs(cls, bases[..j]), ClassPairs(cls, front), ClassPairs(cls, bases));
    } else {
      assert bases[..j] == bases;
    }
  }

  lemma {:induction false} BasePairsGrows(cur: string, classes: seq<ClassDef>, i: nat)
    requires i <= |classes|
    ensures Grows(BasePairs(cur, classes[..i]), BasePairs(cur, classes))
  {
    if i < |classes| {
      var front := classes[..|classes| - 1];
      assert front[..i] == classes[..i];
      BasePairsGrows(cur, front, i);
      GrowsTrans(BasePairs(cur, classes[..i]), BasePairs(cur, front), BasePairs(cur, classes));
    } else {
      assert classes[..i] == classes;
    }
  }

  /** Running two lists of pairs one after the other is running their concatenation. */
  lemma {:induction false} InheritStepsConcat(st: InheritState, task: string, htask: string, cur: string,
                                              xs: seq<(string, string)>, ys: seq<(string, string)>)
    ensures InheritSteps(st, task, htask, cur, xs + ys) ==
      var a := InheritSteps(st, task, htask, cur, xs);
      if a.1 then a else InheritSteps(a.0, task, htask, cur, ys)
  {
    if ys == [] {
      assert xs + ys == xs;
    } else {
      assert (xs + ys)[..|xs + ys| - 1] == xs + ys[..|ys| - 1];
      InheritStepsConcat(st, task, htask, cur, xs, ys[..|ys| - 1]);
    }
  }

  /** Once a step raises, every longer run ends there too. */
  lemma {:induction false} InheritStepsRaised(st: InheritState, task: string, htask: string, cur: string,
                                              pairs: seq<(string, string)>, all: seq<(string, string)>)
    requires Grows(pairs, all) && InheritSteps(st, task, htask, cur, pairs).1
    ensures InheritSteps(st, task, htask, cur, all) == InheritSteps(st, task, htask, cur, pairs)
  {
    if |all| > |pairs| {
      var front := all[..|all| - 1];
      assert front[..|pairs|] == pairs;
      InheritStepsRaised(st, task, htask, cur, pairs, front);
    } else {
      assert all == pairs;
    }
  }

  /** The inheritance loops keep every class and only append to its list,
      whether or not they raise. */
  lemma {:induction false} InheritStepsKeep(st: InheritState, task: string, htask: string, cur: string, pairs: seq<(string, string)>)
    ensures var r := InheritSteps(st, task, htask, cur, pairs).0;
      forall c :: c in st.inherited ==> c in r.inherited && Grows(st.inherited[c], r.inherited[c])
  {
    var r := InheritSteps(st, task, htask, cur, pairs).0;
    if pairs == [] {
      forall c | c in st.inherited ensures Grows(st.inherited[c], r.inherited[c]) {
        assert st.inherited[c][..|st.inherited[c]|] == st.inherited[c];
      }
    } else {
      var front := pairs[..|pairs| - 1];
      var r0 := InheritSteps(st, task, htask, cur, front);
      InheritStepsKeep(st, task, htask, cur, front);
      var s := InheritStep(r0.0, task, htask, cur, pairs[|pairs| - 1]);
      if !r0.1 && s.Some? {
        forall c | c in st.inherited ensures c in r.inherited && Grows(st.inherited[c], r.inherited[c]) {
          var a := r0.0.inherited[c];
          assert Grows(a, r.inherited[c]) by {
            if c == pairs[|pairs| - 1].0 {
              assert Recorded(r0.0.inherited, c) == a;
              assert (a + [r.inherited[c][|a|]])[..|a|] == a;
            } else {
              assert a[..|a|] == a;
            }
          }
          GrowsTrans(st.inherited[c], a, r.inherited[c]);
        }
      }
    }
  }

  /** The second pass keeps every class and only appends to its list. */
  lemma {:induction false} InheritFilesKeep(e: Env, st: InheritState, paths: seq<string>)
    ensures var r := InheritFiles(e, st, paths).0;
      forall c :: c in st.inherited ==> c in r.inherited && Grows(st.inherited[c], r.inherited[c])
  {
    var r := InheritFiles(e, st, paths).0;
    if paths == [] {
      forall c | c in st.inherited ensures Grows(st.inherited[c], r.inherited[c]) {
        assert st.inherited[c][..|st.inherited[c]|] == st.inherited[c];
      }
    } else {
      var front := paths[..|paths| - 1];
      var r0 := InheritFiles(e, st, front);
      InheritFilesKeep(e, st, front);
      var path := paths[|paths| - 1];
      if !r0.1 && path in e.files && e.files[path].Parsed? {
        var cur := ModuleNameOf(e.utils, e.root, path);
        InheritStepsKeep(r0.0, e.task, e.htask, cur, BasePairs(cur, e.files[path].classes));
        forall c | c in st.inherited ensures c in r.inherited && Grows(st.inherited[c], r.inherited[c]) {
          GrowsTrans(st.inherited[c], r0.0.inherited[c], r.inherited[c]);
        }
      }
    }
  }

  /** `run` keeps every class of `class_inherited` and only appends to its
      list, whether or not it raises. */
  lemma RunFnKeep(e: Env, s: ManagerState, paths: seq<string>)
    ensures var r := RunFn(e, s, paths).0;
      forall c :: c in s.inherited ==> c in r.inherited && Grows(s.inherited[c], r.inherited[c])
  {
    var r := RunFn(e, s, paths).0;
    var c0 := ContainFiles(e, CState(s.visited, s.g), paths);
    if c0.raised {
      forall c | c in s.inherited ensures Grows(s.inherited[c], r.inherited[c]) {
        assert s.inherited[c][..|s.inherited[c]|] == s.inherited[c];
      }
    } else {
      InheritFilesKeep(e, InheritState(s.inherited, s.order, c0.st.g), paths);
    }
  }
}
