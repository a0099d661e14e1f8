# mcp-index core, modelled in Dafny

mcp-index builds a code-relationship graph of a Python project. Files,
modules, classes, functions and fields become nodes in a graph database.
Each node carries the label of its indexing task and a kind label
(`MODULE`, `CLASS`, `FUNCTION`, `METHOD`, `GLOBAL_VARIABLE`, `FIELD`, or
the placeholder `none`). Relationships between nodes are `CONTAINS`,
`INHERITS`, `HAS_METHOD`, `HAS_FIELD` and others. Around that graph sit
small utilities: JSON preparation, an LRU cache, language detection by
file extension, a dependency-injection container, an event bus, the
request/response layer of the agent interface, and a script that rewrites
a `.env` file.

This project models that core and proves properties of it.

- **The graph.** `GraphStore` holds the graph as values:
  - nodes by id;
  - relationships as a sequence in the database's scan order;
  - the next free id.

  One pure function per handler operation states how the graph changes.
  `GraphDatabase.GraphDatabaseHandler` is the stateful handler; each of its
  methods is proved equal to the matching function.
- **Graph reads.** `GraphQueries` gives the Cypher reads of the AST manager
  as functions on the graph: the containment lookups, the kind label, and
  the member rows of a class.
- **`AstManage.AstManager`** runs the three passes:
  1. module containment;
  2. inheritance;
  3. propagation of inherited members.

  It keeps `visited`, `class_inherited` (with its key order), and
  `processed_relations` as fields. The recursive calls terminate:
  - `build_modules_contain` re-enters only files not yet visited;
  - `_build_inherited_method` only recurses into unprocessed pairs.

  `ast_manage.py` and `internal_ast_manager.py` hold the same `AstManager`.
  Apart from the import lines, the second is the first shifted up by two
  lines. The class is modelled once, and the table cites either copy.
- **`AstUpdate.AstUpdateEdge`** is the incremental rebuild:
  - paging reads;
  - old relationships carried into the new task in batches, grouped by
    type;
  - the merge of migrated inheritance into the manager's table;
  - the passes on the changed files.
- **The utility modules** follow their source files one to one:
  `PyValue` (the dynamic Python values the utilities handle), `JsonUtils`,
  `CommonUtils`, `LanguageUtils`, `DependencyInjection`, `Events`,
  `UpdateEnv` and `AgentInterface`.
- **Library behaviour.** `OsPath` gives the parts of `str` and `posixpath`
  behaviour the code relies on: `rfind`, `lower`, `splitext`, `dirname` and
  `join`. `Wrappers` holds `Option` and the `Call` outcome (a returned value
  or a raised exception's message).

Calls into code that is not part of this model are parameters. These are:

- the `ast_utils` helpers (`get_dotted_name`, `get_module_name`,
  `module_name_to_path`, `get_py_files`);
- `os.path.relpath`;
- the agent interface's components;
- factories and event callbacks.

The file system is a map from path to a parsed summary of the file (its
`ImportFrom` and `ClassDef` nodes in walk order) or `Unreadable`.

## Model

| member | source | states |
|---|---|---|
| JsonUtils.SafeJsonSerialize | mcp_code_indexer/utils/json_utils.py:34-44 | on any value Python can build, the result has no set outside a tuple |
| JsonUtils.ConvertSetsToLists | mcp_code_indexer/utils/json_utils.py:10-31 | defines `convert_sets_to_lists`; ConvertedHasNoSets, DictShape, SetAndListShape and ConvertIdempotent state its effect |
| JsonUtils.HashableHasNoSets | mcp_code_indexer/utils/json_utils.py:10-31 | a hashable value holds no set and converts to itself |
| JsonUtils.ConvertedHasNoSets | mcp_code_indexer/utils/json_utils.py:10-31 | after conversion no set remains outside a tuple |
| JsonUtils.DictShape | mcp_code_indexer/utils/json_utils.py:24-25 | a dict becomes a dict with the same keys in the same order, each value converted |
| JsonUtils.SetAndListShape | mcp_code_indexer/utils/json_utils.py:26-29 | a set becomes a list of exactly its members, each once; a list becomes a list of the same length with each item converted |
| JsonUtils.ConvertIdempotent | mcp_code_indexer/utils/json_utils.py:10-31 | converting twice equals converting once |
| JsonUtils.DocumentedExample | mcp_code_indexer/utils/json_utils.py:20-22 | `{'a': {1,2,3}, 'b': [4,5,{6,7}]}` serializes to `{'a': [1,2,3], 'b': [4,5,[6,7]]}` |
| CommonUtils.SameAsJsonUtils | mcp_code_indexer/utils/common_utils.py:21-38 | this file's copy (which tests for a set before a dict) agrees with the json_utils conversion on every value |
| CommonUtils.ConvertSetsToLists | mcp_code_indexer/utils/common_utils.py:21-38 | defines this file's copy of the conversion; SameAsJsonUtils states that it agrees with the json_utils one |
| CommonUtils.RemoveFirst | mcp_code_indexer/utils/common_utils.py:226 | `list.remove(key)` drops one entry; on a list without duplicates exactly the key is gone and no duplicate appears |
| CommonUtils.GetFileExtension | mcp_code_indexer/utils/common_utils.py:94-105 | the result is "" or a dot followed by no dot or slash; it is a suffix of the lowercased path and holds no upper-case letter |
| CommonUtils.ExtensionIgnoresCase | mcp_code_indexer/utils/common_utils.py:94-105 | a path and its lowercase form have the same extension |
| CommonUtils.LRUCache.SizeMatches | mcp_code_indexer/utils/common_utils.py:209-256 | under the cache invariant (cache keys and `usage` hold the same keys, `usage` has no duplicate, capacity bound), `usage` is exactly as long as the cache |
| CommonUtils.LRUCache.constructor | mcp_code_indexer/utils/common_utils.py:202-211 | a new cache is empty, keeps the invariant and has the given capacity |
| CommonUtils.LRUCache.Get | mcp_code_indexer/utils/common_utils.py:213-229 | a hit returns the value and moves the key to the most recent end; a miss returns the default and changes nothing |
| CommonUtils.LRUCache.Put | mcp_code_indexer/utils/common_utils.py:231-251 | an existing key gets the new value and is refreshed without eviction; a new key fills a free slot, or evicts exactly `usage[0]` when the cache is full; with capacity ≤ 0 and a new key, `pop` on the empty list raises (ok is false) and nothing changes |
| CommonUtils.LRUCache.Clear | mcp_code_indexer/utils/common_utils.py:253-256 | both the cache and `usage` are empty |
| CommonUtils.LRUCache.Len | mcp_code_indexer/utils/common_utils.py:258-260 | the length is the number of cached keys, at most the capacity when the capacity is at least 1 |
| LanguageUtils.GetLanguageFromExtension | mcp_code_indexer/utils/language_utils.py:58-70 | the table's language for the lowercased path's extension, else "text"; the result is "text" or a supported language |
| LanguageUtils.GetCommentMarkers | mcp_code_indexer/utils/language_utils.py:72-82 | the table's markers for a listed language, else `["#", "//"]` |
| LanguageUtils.GetSupportedLanguages | mcp_code_indexer/utils/language_utils.py:84-91 | exactly the languages the extension table maps to |
| LanguageUtils.GetSupportedExtensions | mcp_code_indexer/utils/language_utils.py:93-100 | exactly the extension table's keys |
| LanguageUtils.LanguageIgnoresCase | mcp_code_indexer/utils/language_utils.py:69 | a path and its lowercase form get the same language |
| LanguageUtils.UnknownIsText | mcp_code_indexer/utils/language_utils.py:58-70 | no extension, or one outside the table, gives "text", and "text" is not among the supported languages |
| LanguageUtils.YamlSpellings | mcp_code_indexer/utils/language_utils.py:36 | both `.yml` and `.yaml` give "yaml" |
| LanguageUtils.UpperCaseExample | mcp_code_indexer/utils/language_utils.py:69 | `src/Main.PY` is python |
| LanguageUtils.MainPyExt | mcp_code_indexer/utils/language_utils.py:69 | the extension of `src/main.py` is `.py` |
| LanguageUtils.NoExtensionExamples | mcp_code_indexer/utils/language_utils.py:69-70 | `Makefile` and `.bashrc` are "text" |
| PyValue.QuoteFor | mcp_code_indexer/agent_interface.py:152 | the quote `repr` chooses: double exactly when the string has a single quote and no double quote |
| PyValue.EscapeChar | mcp_code_indexer/agent_interface.py:152 | a plain character other than the quote is shown as itself; every character is shown by at least one |
| PyValue.EscapedPlain | mcp_code_indexer/agent_interface.py:152 | a string of plain characters without the quote is shown unchanged |
| PyValue.EscapedQuoted | mcp_code_indexer/agent_interface.py:152 | every occurrence of the chosen quote inside the shown text is escaped by a backslash |
| PyValue.StrRepr | mcp_code_indexer/agent_interface.py:152 | `repr` of a string starts and ends with the chosen quote |
| PyValue.StrReprSingle | mcp_code_indexer/agent_interface.py:152 | a string of plain characters without a single quote is shown between single quotes |
| PyValue.StrReprDouble | mcp_code_indexer/agent_interface.py:152 | a string of plain characters with a single quote and no double quote is shown between double quotes, unchanged |
| DependencyInjection.DependencyContainer.constructor | mcp_code_indexer/utils/dependency_injection.py:18-21 | both tables start empty |
| DependencyInjection.DependencyContainer.Register | mcp_code_indexer/utils/dependency_injection.py:23-31 | the name maps to the instance; the factories are unchanged |
| DependencyInjection.DependencyContainer.RegisterFactory | mcp_code_indexer/utils/dependency_injection.py:33-41 | the name maps to the factory; the instances are unchanged |
| DependencyInjection.DependencyContainer.Get | mcp_code_indexer/utils/dependency_injection.py:43-66 | a stored instance wins; otherwise the factory is called and a returned value is cached; with neither, a KeyError whose `str` is the `repr` of "No dependency registered for '<name>'" |
| DependencyInjection.UnregisteredMessage | mcp_code_indexer/utils/dependency_injection.py:66 | for a name of plain characters without `"`, the KeyError reads `"No dependency registered for '<name>'"`, in double quotes because the message holds a single quote |
| DependencyInjection.DependencyContainer.Clear | mcp_code_indexer/utils/dependency_injection.py:80-83 | both tables are empty, so `has` (line 78) holds for no name |
| DependencyInjection.RegisterThenGet | mcp_code_indexer/utils/dependency_injection.py:23-31 | after `register(name, x)` two gets both return `x`, whether or not a factory of that name exists |
| DependencyInjection.FactoryCalledOnce | mcp_code_indexer/utils/dependency_injection.py:61-64 | a factory's first returned value is returned by the next get without calling it again; after a raise the factory is called again |
| Events.EventBus.constructor | mcp_code_indexer/events.py:71-78 | the first initialization leaves no subscribers |
| Events.EventBus.Subscribe | mcp_code_indexer/events.py:80-93 | the callback is appended unless it is already listed for the type; no callback is listed twice; other types are unchanged |
| Events.EventBus.Unsubscribe | mcp_code_indexer/events.py:95-105 | a listed callback is removed and no longer listed; otherwise nothing changes |
| Events.EventBus.Publish | mcp_code_indexer/events.py:107-123 | exactly the type's subscribers are called, in order; the failing ones are those that raise, and a raise does not stop later callbacks; no subscribers means no calls |
| Events.Raising | mcp_code_indexer/events.py:117-121 | the failing callbacks are exactly the called ones that raise |
| Events.RaisingAppend | mcp_code_indexer/events.py:117-121 | one more callback adds itself to the failures exactly when it raises |
| Events.EventBusClass.constructor | mcp_code_indexer/events.py:60 | the class starts without an instance |
| Events.EventBusClass.New | mcp_code_indexer/events.py:63-78 | the first `EventBus()` makes a fresh bus with no subscribers; later calls return that same instance, subscribers untouched |
| UpdateEnv.ApiValue | scripts/update_env.py:23-26 | the value of an `api_vars` key, None for other keys |
| UpdateEnv.SplitLines | scripts/update_env.py:29 | `splitlines` pieces hold no line break, and only empty text gives no lines |
| UpdateEnv.Strip | scripts/update_env.py:35 | `strip()` leaves no whitespace at either end |
| UpdateEnv.StripIsSlice | scripts/update_env.py:35 | the stripped line is a slice of the line with only whitespace cut around it |
| UpdateEnv.TrimLeftCutsSpace | scripts/update_env.py:35 | only whitespace is cut on the left |
| UpdateEnv.TrimRightCutsSpace | scripts/update_env.py:35 | only whitespace is cut on the right |
| UpdateEnv.AssignedApiKey | scripts/update_env.py:36-46 | defines which api variable a stripped line assigns; AssignedApiKeyIff states exactly when |
| UpdateEnv.RewriteLine | scripts/update_env.py:36-50 | defines one stripped line's output; RewriteLines, OutputKeepsLines and PassThrough state its effect |
| UpdateEnv.AssignedApiKeyIff | scripts/update_env.py:36-46 | a stripped line assigns an api variable exactly when it is not blank, not a comment, contains `=`, and its stripped key is in `api_vars` |
| UpdateEnv.RewriteLines | scripts/update_env.py:34-50 | one output line per input line, in order, each the rewrite of the stripped line |
| UpdateEnv.UpdatedVarsMembers | scripts/update_env.py:44-46 | `updated_vars` holds exactly the api variables some line assigns |
| UpdateEnv.CollectHas | scripts/update_env.py:31 | the collected set holds exactly the values found on some line |
| UpdateEnv.Missing | scripts/update_env.py:59-61 | exactly the `KEY=value` lines of api variables not seen |
| UpdateEnv.RewriteOne | scripts/update_env.py:35-50 | one line's output and the api variable it assigns |
| UpdateEnv.RewriteAll | scripts/update_env.py:34-50 | the loop yields the rewritten lines and the set of assigned api variables |
| UpdateEnv.AppendMissing | scripts/update_env.py:59-61 | the lines followed by the missing variables in dict order |
| UpdateEnv.Output | scripts/update_env.py:33-61 | defines the output lines for the existing text; OutputKeepsLines, EveryApiVarPresent and AppendedOnlyUnseen state their content |
| UpdateEnv.UpdateEnvFile | scripts/update_env.py:17-65 | the text written is the "\n"-join of the output lines for the existing text |
| UpdateEnv.OutputKeepsLines | scripts/update_env.py:33-58 | every line is kept, stripped and in order, unless it assigns an api variable and becomes `KEY=value`; then "" and "# API Embedding Configuration" follow |
| UpdateEnv.PassThrough | scripts/update_env.py:36-38 | blank lines, comments and lines without `=` pass through stripped |
| UpdateEnv.EveryApiVarPresent | scripts/update_env.py:44-61 | every api variable appears in the output with its value |
| UpdateEnv.ApiVarRewritten | scripts/update_env.py:34-47 | an api variable the file assigns appears with its value where the file assigned it |
| UpdateEnv.ApiVarAppended | scripts/update_env.py:52-61 | an api variable no line assigns appears with its value after the header |
| UpdateEnv.AppendedOnlyUnseen | scripts/update_env.py:59-61 | only api variables no line assigned are appended after the header |
| AgentInterface.ActionsComplete | mcp_code_indexer/agent_interface.py:25-34 | the list of actions holds every enum member |
| AgentInterface.ParseAction | mcp_code_indexer/agent_interface.py:57 | `ActionType(v)` is the member whose value is `v`, else ValueError "<repr> is not a valid ActionType" |
| AgentInterface.Subscript | mcp_code_indexer/agent_interface.py:57-59 | `data[key]` raises KeyError exactly when the key is absent, else returns the first entry's value |
| AgentInterface.RequestToDict | mcp_code_indexer/agent_interface.py:44-51 | defines `AgentRequest.to_dict`; RequestRoundTrip states that `from_dict` reads it back |
| AgentInterface.ResponseToDict | mcp_code_indexer/agent_interface.py:71-78 | defines `AgentResponse.to_dict`; ResponseRoundTrip states that `from_dict` reads it back |
| AgentInterface.RequestFromDict | mcp_code_indexer/agent_interface.py:54-61 | a missing action raises KeyError('action'); success means action, parameters and request_id are present and read back, and user_id defaults to None; failure means one of those is missing or the action is not a valid value |
| AgentInterface.ResponseFromDict | mcp_code_indexer/agent_interface.py:81-88 | succeeds exactly when request_id, success and data are present, reading them back, with error defaulting to None |
| AgentInterface.RequestRoundTrip | mcp_code_indexer/agent_interface.py:44-61 | `from_dict(to_dict(r)) == r`, and `to_dict` stores the action's string value |
| AgentInterface.ResponseRoundTrip | mcp_code_indexer/agent_interface.py:71-88 | `from_dict(to_dict(r)) == r` |
| AgentInterface.MissingOptionalIsNone | mcp_code_indexer/agent_interface.py:60 | a missing `user_id` or `error` reads as None |
| AgentInterface.FirstMissing | mcp_code_indexer/agent_interface.py:188-346 | the first required parameter that is missing or falsy, or None when all are present |
| AgentInterface.Handle | mcp_code_indexer/agent_interface.py:188-346 | a handler raises "Missing required parameter: <name>" for the first missing parameter, AttributeError for non-dict parameters, and otherwise returns its component's outcome |
| AgentInterface.AgentInterface.constructor | mcp_code_indexer/agent_interface.py:120-129 | every action type is mapped to its own handler |
| AgentInterface.AgentInterface.ProcessRequest | mcp_code_indexer/agent_interface.py:133-186 | a dict `from_dict` rejects gives success False, data None, "Invalid request format: ..." and the dict's request_id or "unknown"; success True has error None, success False has data None and a string error |
| AgentInterface.AgentInterface.ProcessObject | mcp_code_indexer/agent_interface.py:159-186 | with every action registered, a request object keeps its request_id; a handler result gives success True, and a handler exception gives success False with `str(e)` |
| AgentInterface.AgentInterface.MissingParameterFails | mcp_code_indexer/agent_interface.py:168-186 | a missing or falsy required parameter fails the request with "Missing required parameter: <name>" |
| AgentInterface.AgentInterface.DictFormAgrees | mcp_code_indexer/agent_interface.py:143-186 | a request and its dict form are processed alike |
| GraphStore.MatchNode | mcp_code_indexer/environment/graph_database/internal_graph_database.py:121-136 | the lowest-id node carrying the task label and the full name, or None when there is none |
| GraphStore.MatchFrom | mcp_code_indexer/environment/graph_database/internal_graph_database.py:121-136 | the first task node with the name at or after an id, and none of the task nodes before it has the name; None when there is none |
| GraphStore.MatchNoneValid | mcp_code_indexer/environment/graph_database/internal_graph_database.py:121-136 | in a valid graph, a failed match means no node of the task has the name |
| GraphStore.MatchUnique | mcp_code_indexer/environment/graph_database/internal_graph_database.py:121-136 | when the task's full names are unique, the match is the one node with the name |
| GraphStore.UpdateEdgeEveryMatch | mcp_code_indexer/environment/graph_database/ast_search/ast_manage.py:541-552 | with the task's full names unique, every node pair the MERGE matches is the pair `update_edge`'s match links |
| GraphStore.LabelOrNone | mcp_code_indexer/environment/graph_database/internal_graph_database.py:149-150 | None or "" become the `none` label, any other label is kept |
| GraphStore.CreateNode | mcp_code_indexer/environment/graph_database/internal_graph_database.py:138-156 | one fresh node with the task label, the kind label and the properties; nothing else changes and the graph stays valid |
| GraphStore.UpdateNodeLabel | mcp_code_indexer/environment/graph_database/internal_graph_database.py:158-175 | true exactly when a node matches; every task node with the name and the `none` label swaps `none` for the kind; nothing else changes |
| GraphStore.AddNodeLabel | mcp_code_indexer/environment/graph_database/internal_graph_database.py:177-193 | true exactly when a node matches; every task node with the name gains the label; nothing else changes |
| GraphStore.Merge | mcp_code_indexer/environment/graph_database/internal_graph_database.py:294 | `dict.update`: the new entries win and the other old entries stay |
| GraphStore.UpdateNode | mcp_code_indexer/environment/graph_database/internal_graph_database.py:284-295 | the matched node gets the properties merged in; no match changes nothing |
| GraphStore.AddNode | mcp_code_indexer/environment/graph_database/internal_graph_database.py:297-320 | on a match with a non-empty label the matched node is returned; on a match with an empty label the label query fails, giving None and no change; with no match exactly the node `_create_node` builds is created and returned |
| GraphStore.AddNodeMatched | mcp_code_indexer/environment/graph_database/internal_graph_database.py:308-316 | with a non-empty label: a matched placeholder has `none` replaced by the label; a matched typed node gains the label; its properties are merged; no node is created |
| GraphStore.AddNodeKeepsUnique | mcp_code_indexer/environment/graph_database/internal_graph_database.py:297-320 | `add_node` keeps the graph valid and the task's full names unique, whatever the label |
| GraphStore.AddNodeEmptyLabel | mcp_code_indexer/environment/graph_database/internal_graph_database.py:149-150 | an unmatched name with an empty label gets one fresh node labelled with the task and `none`; old nodes stay |
| GraphStore.FindEdge | mcp_code_indexer/environment/graph_database/internal_graph_database.py:356-357 | the first relationship with that start, type and end, or None when there is none |
| GraphStore.UpsertEdge | mcp_code_indexer/environment/graph_database/internal_graph_database.py:355-366 | an existing relationship with the key is updated in place (properties merged, no duplicate); otherwise one is appended with the properties; all other relationships stay |
| GraphStore.UpsertValid | mcp_code_indexer/environment/graph_database/internal_graph_database.py:355-366 | writing a relationship between existing nodes keeps the graph valid |
| GraphStore.UpsertIdempotent | mcp_code_indexer/environment/graph_database/internal_graph_database.py:355-366 | writing the same relationship twice equals writing it once |
| GraphStore.MatchOrCreate | mcp_code_indexer/environment/graph_database/internal_graph_database.py:345-353 | the matched node, or a node created for the name |
| GraphStore.MatchOrCreateFacts | mcp_code_indexer/environment/graph_database/internal_graph_database.py:345-353 | matching or creating keeps the graph valid, adds at most one node, makes the name match, and keeps full names unique |
| GraphStore.AddEdgeAsWritten | mcp_code_indexer/environment/graph_database/internal_graph_database.py:344-367 | `add_edge` as written: the relationship of the type joins a start node and an end node with the given names |
| GraphStore.AddEdge | mcp_code_indexer/environment/graph_database/internal_graph_database.py:322-367 | `add_edge` with the end matched after the start is created: the relationship joins task nodes with the two names and carries the params; existing nodes are unchanged |
| GraphStore.AddEdgeKeepsUnique | mcp_code_indexer/environment/graph_database/internal_graph_database.py:344-367 | `add_edge` keeps the graph valid and the task's full names unique |
| GraphStore.AddEdgeIdempotent | mcp_code_indexer/environment/graph_database/internal_graph_database.py:344-367 | a second identical `add_edge` changes nothing and returns the same relationship |
| GraphStore.AddEdgeAsWrittenDuplicates | mcp_code_indexer/environment/graph_database/internal_graph_database.py:345-353 | with `start_name == end_name` and no such node, the code as written creates two nodes with the same full name |
| GraphStore.AddEdgeSelfLoop | mcp_code_indexer/environment/graph_database/internal_graph_database.py:345-353 | on the same input the corrected `add_edge` creates one node and a self-loop |
| GraphStore.UpdateEdge | mcp_code_indexer/environment/graph_database/internal_graph_database.py:369-400 | a missing endpoint gives None and changes nothing; otherwise the relationship joins the two matched nodes and no node changes |
| GraphStore.Picked | mcp_code_indexer/environment/graph_database/internal_graph_database.py:13-27 | `WITH n LIMIT batch`: at most `batch` nodes, all eligible; when none is picked with a positive batch, no node is eligible |
| GraphStore.StripBatch | mcp_code_indexer/environment/graph_database/internal_graph_database.py:13-19 | the label removal keeps the node ids and relationships and reports how many nodes it picked |
| GraphStore.DeleteBatch | mcp_code_indexer/environment/graph_database/internal_graph_database.py:21-27 | node deletion only removes nodes and reports how many it picked |
| GraphStore.Cleared | mcp_code_indexer/environment/graph_database/internal_graph_database.py:195-217 | the end state of `clear_task_data`: it keeps the id counter; its content is stated by ClearedFacts |
| GraphStore.ClearedFacts | mcp_code_indexer/environment/graph_database/internal_graph_database.py:13-27 | no node keeps the task label; single-label task nodes and their relationships are gone; other task nodes only lose the label; nodes of other tasks are unchanged; validity is kept |
| GraphStore.TaskNodeKinds | mcp_code_indexer/environment/graph_database/internal_graph_database.py:15-23 | a task node either has another label (label removal) or has only the task label (deletion) |
| GraphStore.StripBatchKeepsCleared | mcp_code_indexer/environment/graph_database/internal_graph_database.py:206-209 | a label-removal round keeps the cleared state as its target and removes task nodes, or picks none and changes nothing |
| GraphStore.DeleteBatchKeepsCleared | mcp_code_indexer/environment/graph_database/internal_graph_database.py:211-214 | a deletion round keeps the graph valid and the cleared state as its target |
| GraphStore.DeleteBatchProgress | mcp_code_indexer/environment/graph_database/internal_graph_database.py:211-214 | a deletion round removes task nodes, or picks none and changes nothing |
| GraphStore.ClearedWhenDone | mcp_code_indexer/environment/graph_database/internal_graph_database.py:216-217 | when a round picks nothing to strip or delete, the graph is already cleared |
| GraphStore.PathRows | mcp_code_indexer/environment/graph_database/internal_graph_database.py:410-416 | one row per task node with a `file_path`, giving its path and full name |
| GraphStore.FileNodesFrom | mcp_code_indexer/environment/graph_database/internal_graph_database.py:410-416 | exactly the task nodes with a `file_path`, in increasing id order |
| GraphStore.PathStep | mcp_code_indexer/environment/graph_database/internal_graph_database.py:418-424 | a path starting with the root is cut by the root's length through `update_node`; other rows change nothing |
| GraphStore.PathSteps | mcp_code_indexer/environment/graph_database/internal_graph_database.py:418-424 | the loop changes no relationship, id or node key |
| GraphStore.StrippedNode | mcp_code_indexer/environment/graph_database/internal_graph_database.py:421-424 | stripping keeps a node's name, labels and property keys |
| GraphStore.UpdateFilePathStrips | mcp_code_indexer/environment/graph_database/internal_graph_database.py:402-424 | with unique full names, every task path starting with the root loses it, every other path and every other node stay unchanged, and relationships stay |
| GraphDatabase.GraphDatabaseHandler.constructor | mcp_code_indexer/environment/graph_database/internal_graph_database.py:71-97 | a handler for a task over a valid graph |
| GraphDatabase.GraphDatabaseHandler.CreateNode | mcp_code_indexer/environment/graph_database/internal_graph_database.py:138-156 | the graph becomes `CreateNode` of the old one, with a fresh node id |
| GraphDatabase.GraphDatabaseHandler.UpdateNodeLabel | mcp_code_indexer/environment/graph_database/internal_graph_database.py:158-175 | the graph becomes `UpdateNodeLabel` of the old one; the result says whether a node matched |
| GraphDatabase.GraphDatabaseHandler.AddNodeLabel | mcp_code_indexer/environment/graph_database/internal_graph_database.py:177-193 | the graph becomes `AddNodeLabel` of the old one; the result says whether a node matched |
| GraphDatabase.GraphDatabaseHandler.UpdateNode | mcp_code_indexer/environment/graph_database/internal_graph_database.py:284-295 | the graph becomes `UpdateNode` of the old one |
| GraphDatabase.GraphDatabaseHandler.AddNode | mcp_code_indexer/environment/graph_database/internal_graph_database.py:297-320 | the graph and the returned id become `AddNode` of the old graph (None for the failing empty-label query), and unique full names stay unique |
| GraphDatabase.GraphDatabaseHandler.AddEdge | mcp_code_indexer/environment/graph_database/internal_graph_database.py:322-367 | the graph becomes the corrected `AddEdge` of the old one, and unique full names stay unique |
| GraphDatabase.GraphDatabaseHandler.UpdateEdge | mcp_code_indexer/environment/graph_database/internal_graph_database.py:369-400 | the graph becomes `UpdateEdge` of the old one, and no node changes |
| GraphDatabase.GraphDatabaseHandler.MergeRelationship | mcp_code_indexer/environment/graph_database/ast_search/ast_manage.py:541-552 | the per-row MERGE, between the first node of the task with each name: a missing endpoint skips the row (the corrected behaviour, see Findings), an existing relationship is reused; the query itself merges every matching node pair (see Left out) |
| GraphDatabase.GraphDatabaseHandler.ClearTaskData | mcp_code_indexer/environment/graph_database/internal_graph_database.py:195-217 | with a positive batch size the loop ends in the cleared graph; with batch size 0 nothing changes |
| GraphDatabase.GraphDatabaseHandler.UpdateFilePath | mcp_code_indexer/environment/graph_database/internal_graph_database.py:402-424 | the loop over the snapshot rows; with unique full names every task path under the root is stripped and nothing else changes |
| GraphDatabase.GraphDatabaseHandler.UpdatePaths | mcp_code_indexer/environment/graph_database/internal_graph_database.py:418-424 | the loop applies `PathStep` to each row in order |
| GraphQueries.KindLabel | mcp_code_indexer/environment/graph_database/ast_search/ast_manage.py:56-59 | the first listed kind the node carries, or None when it has no kind label (where `next` raises StopIteration) |
| GraphQueries.FullNameFromGraph | mcp_code_indexer/environment/graph_database/ast_search/ast_manage.py:38-62 | NotFound exactly when the module CONTAINS no node with the name; otherwise the first such node gives its full name and kind, or NoKind when it has no kind label |
| GraphQueries.FirstContainedFrom | mcp_code_indexer/environment/graph_database/ast_search/ast_manage.py:38-62 | the first CONTAINS relationship of the module whose end node has the name; none earlier matches; None when there is none |
| GraphQueries.ContainedFrom | mcp_code_indexer/environment/graph_database/ast_search/ast_manage.py:64-91 | the end nodes of the module's CONTAINS relationships; empty exactly when there are none |
| GraphQueries.AllNamesFromGraph | mcp_code_indexer/environment/graph_database/ast_search/internal_ast_manager.py:62-89 | no rows exactly when the module CONTAINS nothing; otherwise one `[full_name, kind]` row per contained node in order, or NoKind when a contained node has no kind label |
| GraphQueries.AllEdgeOfClass | mcp_code_indexer/environment/graph_database/ast_search/ast_manage.py:93-112 | the class's HAS_METHOD/HAS_FIELD rows in order, or None exactly when it has none |
| GraphQueries.MemberRowsFrom | mcp_code_indexer/environment/graph_database/ast_search/ast_manage.py:93-112 | the class's member rows, each HAS_METHOD or HAS_FIELD; empty exactly when there are none |
| GraphQueries.PyText | mcp_code_indexer/environment/graph_database/ast_search/ast_manage.py:102-104 | an optional name written into the query text: the name itself, or the text `None` (what the f-string gives for None) |
| AstManage.ModuleNameOf | mcp_code_indexer/environment/graph_database/ast_search/internal_ast_manager.py:272-277 | a path containing `__init__.py` names its directory's dotted name, any other path its own |
| AstManage.AddContainsAll | mcp_code_indexer/environment/graph_database/ast_search/ast_manage.py:241-250 | defines the wildcard loop over the rows; AddContainsAllLinks and AddContainsAllExtends state its effect |
| AstManage.AddEdgeKeeps | mcp_code_indexer/environment/graph_database/internal_graph_database.py:344-367 | `add_edge` keeps every node and every relationship key |
| AstManage.AddContainsAllLinks | mcp_code_indexer/environment/graph_database/ast_search/ast_manage.py:240-250 | after the wildcard loop a CONTAINS link joins the current module to every listed symbol |
| AstManage.AddContainsStep | mcp_code_indexer/environment/graph_database/ast_search/ast_manage.py:241-250 | one more row keeps the links of the rows before it and adds its own |
| AstManage.ContainsLinkNew | mcp_code_indexer/environment/graph_database/ast_search/ast_manage.py:215-221 | the relationship `add_edge` writes is a CONTAINS link from the current module to the name |
| AstManage.ContainsLinkKept | mcp_code_indexer/environment/graph_database/ast_search/ast_manage.py:240-250 | a CONTAINS link survives later writes that keep nodes and relationship keys |
| AstManage.Attempt | mcp_code_indexer/environment/graph_database/ast_search/ast_manage.py:199-223 | defines one single-name lookup and the CONTAINS write on a hit; AttemptExtends and AttemptTwice state its effect |
| AstManage.FirstStable | mcp_code_indexer/environment/graph_database/ast_search/ast_manage.py:38-62 | the first matching containment row stays first when relationships are only added |
| AstManage.AttemptTwice | mcp_code_indexer/environment/graph_database/ast_search/ast_manage.py:304-315 | the second lookup after a successful first one writes nothing new |
| AstManage.AttemptExtends | mcp_code_indexer/environment/graph_database/ast_search/ast_manage.py:199-223 | one lookup keeps every node and every relationship key |
| AstManage.AddContainsAllExtends | mcp_code_indexer/environment/graph_database/ast_search/ast_manage.py:241-250 | the wildcard loop keeps every node and every relationship key |
| AstManage.LookupStable | mcp_code_indexer/environment/graph_database/ast_search/ast_manage.py:38-62 | once the module CONTAINS the name, later extensions of the graph give the same lookup answer |
| AstManage.LinkName | mcp_code_indexer/environment/graph_database/ast_search/ast_manage.py:199-223 | one `_build_modules_contain_edge`: visited unchanged, the graph only extended; it raises exactly when the lookup finds a node without a kind label; a symbol found is then CONTAINed by the current module |
| AstManage.LinkNameFacts | mcp_code_indexer/environment/graph_database/ast_search/ast_manage.py:199-223 | the lookup's write extends the graph and links a symbol it finds |
| AstManage.LinkAll | mcp_code_indexer/environment/graph_database/ast_search/ast_manage.py:225-252 | one `_build_modules_contain_edge_all`: visited unchanged; raises exactly when a contained node has no kind label; otherwise every listed symbol is linked |
| AstManage.LinkAllFacts | mcp_code_indexer/environment/graph_database/ast_search/ast_manage.py:225-252 | the wildcard write extends the graph and links every listed symbol |
| AstManage.Contain | mcp_code_indexer/environment/graph_database/ast_search/ast_manage.py:254-315 | `build_modules_contain`: the path ends visited and `visited` only grows; a visited path changes nothing; a missing or unreadable file is only appended to `visited` |
| AstManage.ContainImports | mcp_code_indexer/environment/graph_database/ast_search/ast_manage.py:281-315 | the loop over a file's imports only extends `visited` and the graph |
| AstManage.ContainNames | mcp_code_indexer/environment/graph_database/ast_search/ast_manage.py:289-315 | the loop over one import's names only extends `visited` and the graph |
| AstManage.ImportNameFn | mcp_code_indexer/environment/graph_database/ast_search/ast_manage.py:289-315 | one imported name only extends `visited` and the graph |
| AstManage.ImportOneFn | mcp_code_indexer/environment/graph_database/ast_search/ast_manage.py:303-315 | a single name: a lookup that finds a kind-less node raises at once and changes nothing; a run that does not raise leaves a found symbol CONTAINed |
| AstManage.ImportAllFn | mcp_code_indexer/environment/graph_database/ast_search/ast_manage.py:292-302 | a wildcard: a kind-less contained node raises at once and changes nothing |
| AstManage.TryPackage | mcp_code_indexer/environment/graph_database/ast_search/ast_manage.py:294-301 | after a miss the package `__init__.py` is built and visited when it exists; otherwise nothing changes |
| AstManage.ContainUnfold | mcp_code_indexer/environment/graph_database/ast_search/ast_manage.py:263-281 | a readable unvisited file is its imports run on the state where it is visited, and fewer files are pending |
| AstManage.ImportsStep | mcp_code_indexer/environment/graph_database/ast_search/ast_manage.py:281-315 | one more import runs its names after the imports before it, unless those raised |
| AstManage.ImportsRaised | mcp_code_indexer/environment/graph_database/ast_search/ast_manage.py:281-315 | once an import raises, the rest of the file's imports are not run |
| AstManage.NamesRaised | mcp_code_indexer/environment/graph_database/ast_search/ast_manage.py:289-315 | once a name raises, the rest of the import's names are not run |
| AstManage.ContainFiles | mcp_code_indexer/environment/graph_database/ast_search/ast_manage.py:153-154 | the first pass of `run`: `visited` only grows and, without a raise, holds every file |
| AstManage.ContainFilesRaised | mcp_code_indexer/environment/graph_database/ast_search/ast_manage.py:153-154 | once a file raises, the later files are not run |
| AstManage.ImportOneLinks | mcp_code_indexer/environment/graph_database/ast_search/ast_manage.py:303-315 | a name the target module already resolves is linked, visits nothing and does not raise |
| AstManage.NamesLink | mcp_code_indexer/environment/graph_database/ast_search/ast_manage.py:289-315 | a name resolved when the import's loop starts is CONTAINed once the loop completes without raising |
| AstManage.ImportsLink | mcp_code_indexer/environment/graph_database/ast_search/ast_manage.py:281-315 | a resolved single name of any import is CONTAINed once the file's loop completes without raising |
| AstManage.ContainLinks | mcp_code_indexer/environment/graph_database/ast_search/ast_manage.py:254-315 | `build_modules_contain` on an unvisited readable file: every single name its imports take from a module that resolves it is CONTAINed by the file's module, unless the file raises |
| AstManage.ClassPairs | mcp_code_indexer/environment/graph_database/ast_search/internal_ast_manager.py:343-345 | the pairs for one class are for that class, one per simple-name base at most |
| AstManage.InheritStep | mcp_code_indexer/environment/graph_database/ast_search/ast_manage.py:345-361 | one simple-name base: raises when the lookup finds no kind label; otherwise the resolved name (or None) is appended to the class's list, and an INHERITS relationship is written only for a resolved base |
| AstManage.RecordBase | mcp_code_indexer/environment/graph_database/ast_search/ast_manage.py:352-355 | `class_inherited[cls].append(b)`: the class's list grows by `b`, other classes stay, and a new class joins the key order |
| AstManage.RecordBaseOrder | mcp_code_indexer/environment/graph_database/ast_search/ast_manage.py:352-355 | appending keeps the key order in step with the keys |
| AstManage.InheritSteps | mcp_code_indexer/environment/graph_database/ast_search/ast_manage.py:340-361 | defines `build_inherited`'s loops over the (class, base) pairs, stopping at the first raise; InheritStepsRecord, InheritStepsConcat and InheritStepsRaised state its effect |
| AstManage.StepRecord | mcp_code_indexer/environment/graph_database/ast_search/ast_manage.py:352-355 | one step records exactly one more entry, for its own class |
| AstManage.InheritStepsRecord | mcp_code_indexer/environment/graph_database/ast_search/internal_ast_manager.py:336-359 | every simple-name base is recorded, resolved or not: each list grows by one entry per pair naming its class |
| AstManage.CopyStep | mcp_code_indexer/environment/graph_database/ast_search/ast_manage.py:184-191 | defines one member row of the ancestor, copied unless the class already has a member of that name; CopyStepKeeps, CopyStepHas and HasMemberKept state its effect |
| AstManage.CopySteps | mcp_code_indexer/environment/graph_database/ast_search/ast_manage.py:184-191 | defines the loop over the ancestor's member rows; CopyStepsKeeps and CopyStepsHas state its effect |
| AstManage.CopyStepKeeps | mcp_code_indexer/environment/graph_database/ast_search/ast_manage.py:185-190 | copying a member only adds relationships; nodes stay |
| AstManage.CopyStepsKeeps | mcp_code_indexer/environment/graph_database/ast_search/ast_manage.py:184-191 | the member loop keeps every node and every relationship |
| AstManage.UpdateEdgeKeeps | mcp_code_indexer/environment/graph_database/internal_graph_database.py:385-400 | `update_edge` without properties keeps the nodes and existing relationships |
| AstManage.HasMemberKept | mcp_code_indexer/environment/graph_database/ast_search/internal_ast_manager.py:182-189 | a member named like an existing member of the class is not copied (the override wins), and existing members remain |
| AstManage.InheritFile | mcp_code_indexer/environment/graph_database/ast_search/ast_manage.py:317-361 | defines `build_inherited(path)`: an unreadable file changes nothing, otherwise InheritSteps over its simple-name bases |
| AstManage.InheritFiles | mcp_code_indexer/environment/graph_database/ast_search/ast_manage.py:156-157 | defines the second pass of `run`, stopping at the first raise; InheritFilesRaised states that |
| AstManage.InheritFilesRaised | mcp_code_indexer/environment/graph_database/ast_search/ast_manage.py:156-157 | once a file raises, the later files are not run |
| AstManage.InheritMethod | mcp_code_indexer/environment/graph_database/ast_search/ast_manage.py:165-197 | `_build_inherited_method`: the pair ends processed, only pairs of the bound are added, a processed pair changes nothing, and the graph only gains relationships |
| AstManage.InheritBases | mcp_code_indexer/environment/graph_database/ast_search/ast_manage.py:193-197 | the recursion over the ancestor's recorded bases leaves each of them processed for the class, and only adds relationships |
| AstManage.ClassBases | mcp_code_indexer/environment/graph_database/ast_search/ast_manage.py:160-161 | one class's (class, base) pairs, one per recorded base, in list order |
| AstManage.OrderPairs | mcp_code_indexer/environment/graph_database/ast_search/ast_manage.py:159-161 | defines the (class, base) pairs of `class_inherited.items()`, classes in insertion order; OrderPairsCover states that it covers every recorded pair |
| AstManage.CopyPairs | mcp_code_indexer/environment/graph_database/ast_search/ast_manage.py:159-163 | the third pass of `run`: every pair it is given ends processed, processed pairs only grow, and the graph only gains relationships |
| AstManage.OrderPairsCover | mcp_code_indexer/environment/graph_database/ast_search/ast_manage.py:159-161 | every recorded base of a listed class is one of the third pass's pairs |
| AstManage.MatchUnique | mcp_code_indexer/environment/graph_database/internal_graph_database.py:121-136 | with unique full names the node known to carry a name is the one `_match_node` returns |
| AstManage.MemberRowsHas | mcp_code_indexer/environment/graph_database/ast_search/ast_manage.py:93-112 | every HAS_METHOD or HAS_FIELD relationship of the class from position `from` on is one of its member rows |
| AstManage.HasMemberGrows | mcp_code_indexer/environment/graph_database/ast_search/ast_manage.py:114-133 | a member the override check sees stays seen when relationships are only added |
| AstManage.CopyStepHas | mcp_code_indexer/environment/graph_database/ast_search/ast_manage.py:184-191 | after one named row is handled the class has a member with that name, copied or its own override |
| AstManage.CopyStepsHas | mcp_code_indexer/environment/graph_database/ast_search/ast_manage.py:184-191 | after the member loop the class has a member named like every named row of the ancestor |
| AstManage.InheritMethodCopies | mcp_code_indexer/environment/graph_database/ast_search/ast_manage.py:165-191 | member propagation: after an unprocessed (class, ancestor) pair, the class has a member named like each member of the ancestor |
| AstManage.InheritMethodAfterCopy | mcp_code_indexer/environment/graph_database/ast_search/ast_manage.py:176-197 | after an unprocessed pair whose ancestor has members, the ancestor's own bases only add relationships to the graph with the copied members |
| AstManage.RunFn | mcp_code_indexer/environment/graph_database/ast_search/ast_manage.py:144-163 | `_run`: without a raise every file is visited and, with the key order in step, every recorded (class, base) pair is processed |
| AstManage.AstManager.constructor | mcp_code_indexer/environment/graph_database/ast_search/ast_manage.py:22-36 | empty `visited`, `class_inherited` and `processed_relations` |
| AstManage.AstManager.BuildModulesContainEdge | mcp_code_indexer/environment/graph_database/ast_search/ast_manage.py:199-223 | writes `CONTAINS` with `association_type` only when the target module CONTAINS a node with the name; true exactly then; raises for a kind-less node |
| AstManage.AstManager.BuildModulesContainEdgeAll | mcp_code_indexer/environment/graph_database/ast_search/ast_manage.py:225-252 | one CONTAINS relationship per symbol the target module contains; false, writing nothing, when it contains none |
| AstManage.AstManager.BuildModulesContain | mcp_code_indexer/environment/graph_database/ast_search/ast_manage.py:254-315 | the new visited list, graph and raise flag are exactly `Contain` of the old ones; the other tables are unchanged |
| AstManage.AstManager.BuildImportsContain | mcp_code_indexer/environment/graph_database/ast_search/ast_manage.py:281-315 | the loop over a file's `from … import …` statements, until one raises, is exactly `ContainImports`; the other tables are unchanged |
| AstManage.AstManager.ImportNames | mcp_code_indexer/environment/graph_database/ast_search/ast_manage.py:289-315 | the loop over one import's names is exactly `ContainNames`; the other tables are unchanged |
| AstManage.AstManager.ImportName | mcp_code_indexer/environment/graph_database/ast_search/ast_manage.py:289-315 | one imported name is exactly `ImportNameFn`; the other tables are unchanged |
| AstManage.AstManager.ImportOne | mcp_code_indexer/environment/graph_database/ast_search/ast_manage.py:303-315 | a single name is exactly `ImportOneFn`: the lookup, on a miss the package file, then the second lookup |
| AstManage.AstManager.AfterMiss | mcp_code_indexer/environment/graph_database/ast_search/ast_manage.py:307-315 | after a miss: the state after `TryPackage` is the intermediate graph, and without a raise the graph is the second lookup `Attempt` on it; it raises exactly when the package build or the second lookup raises |
| AstManage.AstManager.Reattempt | mcp_code_indexer/environment/graph_database/ast_search/ast_manage.py:313-315 | the second lookup is exactly `LinkName` on the current state |
| AstManage.AstManager.ImportAll | mcp_code_indexer/environment/graph_database/ast_search/ast_manage.py:292-302 | a wildcard is exactly `ImportAllFn`: the write of all symbols, on a miss the package file, then the write repeated |
| AstManage.AstManager.BuildInherited | mcp_code_indexer/environment/graph_database/ast_search/ast_manage.py:317-361 | the inheritance tables, the graph and the raise flag are exactly `InheritFile` of the old ones; recorded lists only grow |
| AstManage.AstManager.InheritClass | mcp_code_indexer/environment/graph_database/ast_search/ast_manage.py:345-361 | one class's bases, in order, exactly as `InheritSteps` over its pairs |
| AstManage.AstManager.InheritBase | mcp_code_indexer/environment/graph_database/ast_search/ast_manage.py:345-361 | one base, exactly as `InheritStep`; a raise changes nothing |
| AstManage.AstManager.BuildInheritedMethod | mcp_code_indexer/environment/graph_database/ast_search/ast_manage.py:165-197 | the processed pairs and the graph are exactly `InheritMethod` of the old ones; the tables are unchanged |
| AstManage.AstManager.InheritAncestorBases | mcp_code_indexer/environment/graph_database/ast_search/ast_manage.py:193-197 | the loop over the ancestor's own recorded bases, for the same class, is exactly `InheritBases`; the tables are unchanged |
| AstManage.AstManager.CopyMembers | mcp_code_indexer/environment/graph_database/ast_search/ast_manage.py:180-190 | the member loop with the override check, as `CopySteps` |
| AstManage.AstManager.Run | mcp_code_indexer/environment/graph_database/ast_search/ast_manage.py:135-163 | the whole manager state and the raise flag are exactly `RunFn` of the old state; without a raise every file is visited, every recorded pair is processed and recorded lists only grow |
| AstManage.AstManager.ContainAll | mcp_code_indexer/environment/graph_database/ast_search/ast_manage.py:153-154 | the visited list, graph and raise flag are exactly `ContainFiles` of the old ones; without a raise every file is visited |
| AstManage.AstManager.InheritAll | mcp_code_indexer/environment/graph_database/ast_search/ast_manage.py:156-157 | the tables, graph and raise flag are exactly `InheritFiles` of the old ones; recorded lists only grow |
| AstManage.AstManager.CopyAll | mcp_code_indexer/environment/graph_database/ast_search/ast_manage.py:159-163 | the processed pairs and the graph are exactly `CopyPairs` over `OrderPairs`; every recorded (class, base) pair is processed |
| AstManage.AstManager.CopyClass | mcp_code_indexer/environment/graph_database/ast_search/ast_manage.py:160-163 | the loop over one class's recorded bases is exactly `CopyPairs` over its pairs |
| AstManage.CopyPairsConcat | mcp_code_indexer/environment/graph_database/ast_search/ast_manage.py:159-163 | running two lists of pairs one after the other is running their concatenation |
| AstManage.CopyPairsCoverAll | mcp_code_indexer/environment/graph_database/ast_search/ast_manage.py:159-163 | with the key order in step, after the third pass every recorded pair is processed |
| AstManage.InheritStepsConcat | mcp_code_indexer/environment/graph_database/ast_search/ast_manage.py:340-361 | running two lists of pairs one after the other is running their concatenation |
| AstManage.InheritStepsRaised | mcp_code_indexer/environment/graph_database/ast_search/ast_manage.py:340-361 | once a prefix of the pairs raises, the whole run ends there with the same state |
| AstManage.InheritStepsKeep | mcp_code_indexer/environment/graph_database/ast_search/ast_manage.py:352-355 | `build_inherited`'s loops keep every class of `class_inherited` and only append to its list, whether or not they raise |
| AstManage.InheritFilesKeep | mcp_code_indexer/environment/graph_database/ast_search/ast_manage.py:156-157 | the second pass of `run` keeps every class and only appends to its list |
| AstManage.RunFnKeep | mcp_code_indexer/environment/graph_database/ast_search/ast_manage.py:144-163 | `_run` keeps every class of `class_inherited` and only appends to its list, whether or not it raises |
| AstUpdate.Page | mcp_code_indexer/environment/graph_database/ast_search/ast_manage.py:414 | `SKIP offset LIMIT batch`: a slice of at most `batch` rows, short only at the end |
| AstUpdate.PageAll | mcp_code_indexer/environment/graph_database/ast_search/ast_manage.py:409-424 | the paging loop fetches every row (none for batch size 0) |
| AstUpdate.NamesInFile | mcp_code_indexer/environment/graph_database/ast_search/ast_manage.py:410-415 | exactly the full names of the new task's nodes whose `file_path` is the file |
| AstUpdate.InFileFrom | mcp_code_indexer/environment/graph_database/ast_search/ast_manage.py:410-415 | exactly the new task's nodes whose `file_path` is the file |
| AstUpdate.OldEdgesConcat | mcp_code_indexer/environment/graph_database/ast_search/ast_manage.py:472-505 | splitting the names into chunks does not change the rows |
| AstUpdate.OldEdgesFrom | mcp_code_indexer/environment/graph_database/ast_search/ast_manage.py:477-487 | every row comes from an old relationship into the named node |
| AstUpdate.OldEdges | mcp_code_indexer/environment/graph_database/ast_search/ast_manage.py:472-505 | defines the rows for the names, chunk by chunk; OldEdgesConcat, OldEdgesSound and OldEdgesComplete state its content |
| AstUpdate.OldEdgesSound | mcp_code_indexer/environment/graph_database/ast_search/ast_manage.py:477-487 | every row is an old relationship from a node of both tasks, with a path, into a named node in another file |
| AstUpdate.OldEdgesFromComplete | mcp_code_indexer/environment/graph_database/ast_search/ast_manage.py:477-487 | every old relationship, from `from` on, from a node of both tasks with a path into an old-task node of the name in another file, is a row |
| AstUpdate.OldEdgesComplete | mcp_code_indexer/environment/graph_database/ast_search/ast_manage.py:472-505 | every such old relationship into a node of any of the names is a row of the query |
| AstUpdate.TypesOfFacts | mcp_code_indexer/environment/graph_database/ast_search/ast_manage.py:522-529 | each type is listed once, and exactly the types that occur are listed |
| AstUpdate.Pairs | mcp_code_indexer/environment/graph_database/ast_search/ast_manage.py:523-529 | a type's (source, target) pairs are at most as many as the rows; PairsPartition and PairsHas state its content |
| AstUpdate.PairsHas | mcp_code_indexer/environment/graph_database/ast_search/ast_manage.py:523-529 | every row's pair is in the group of its type |
| AstUpdate.TypeOrder | mcp_code_indexer/environment/graph_database/ast_search/ast_manage.py:522-537 | defines the `defaultdict` key order: first appearance, with INHERITS added by the lookup at line 532; GroupByType states it |
| AstUpdate.PairsPartition | mcp_code_indexer/environment/graph_database/ast_search/ast_manage.py:522-529 | the groups together hold every row once |
| AstUpdate.GroupByType | mcp_code_indexer/environment/graph_database/ast_search/ast_manage.py:522-529 | each type maps to its (source, target) pairs in order; the key order is first appearance, with INHERITS present |
| AstUpdate.MergeAll | mcp_code_indexer/environment/graph_database/ast_search/ast_manage.py:538-561 | defines the corrected merge of one group: each pair with both endpoints present is linked, between the first node of each name, and returned; MergeAllFacts, MergeAllLinks and MergeAllConcat state its effect |
| AstUpdate.MergeAllFacts | mcp_code_indexer/environment/graph_database/ast_search/ast_manage.py:538-561 | merging keeps every node and relationship, and returns a row exactly for each pair with both endpoints present |
| AstUpdate.MergeAllConcat | mcp_code_indexer/environment/graph_database/ast_search/ast_manage.py:538-561 | merging in consecutive batches is merging the whole list |
| AstUpdate.MergeAllLinks | mcp_code_indexer/environment/graph_database/ast_search/ast_manage.py:538-561 | every pair of the group whose endpoints both exist is linked by the merge |
| AstUpdate.MergeTypes | mcp_code_indexer/environment/graph_database/ast_search/ast_manage.py:537-561 | defines the merge of all groups in type order; MergeTypesKeeps and MergeTypesLinks state its effect |
| AstUpdate.LinkedKept | mcp_code_indexer/environment/graph_database/ast_search/ast_manage.py:537-561 | a written relationship stays when later steps keep the nodes and only append |
| AstUpdate.MergeTypesLinks | mcp_code_indexer/environment/graph_database/ast_search/ast_manage.py:537-561 | every row of a listed type whose endpoints both exist is linked once all groups are merged |
| AstUpdate.MergeTypesLinked | mcp_code_indexer/environment/graph_database/ast_search/ast_manage.py:537-561 | one row of a listed type whose endpoints exist is linked by its group's merge and kept by the later groups |
| AstUpdate.MergeBatchAsWritten | mcp_code_indexer/environment/graph_database/ast_search/ast_manage.py:538-561 | the query as written: a batch with a missing endpoint writes nothing and returns no row, because MERGE fails on the null node and `execute_query` returns `''` |
| AstUpdate.MergeBatchLosesPairs | mcp_code_indexer/environment/graph_database/ast_search/ast_manage.py:538-561 | on a two-node graph the batch `[(m.A, m.B), (m.A, m.Gone)]` as written writes nothing, while the corrected merge writes and returns `m.A CALLS m.B` |
| AstUpdate.MergeTypesKeeps | mcp_code_indexer/environment/graph_database/ast_search/ast_manage.py:536-563 | migration only adds relationships between existing nodes |
| AstUpdate.RecordAllOrder | mcp_code_indexer/environment/graph_database/ast_search/ast_manage.py:532-533 | the key order stays in step with the recorded classes |
| AstUpdate.RecordAllLists | mcp_code_indexer/environment/graph_database/ast_search/ast_manage.py:532-533 | each class's list is its old list followed by its INHERITS targets in order |
| AstUpdate.RecordAll | mcp_code_indexer/environment/graph_database/ast_search/ast_manage.py:532-533 | defines the appends of the INHERITS pairs; RecordAllOrder and RecordAllLists state their effect |
| AstUpdate.DictUpdate | mcp_code_indexer/environment/graph_database/ast_search/ast_manage.py:619 | defines `dict.update` on an insertion-ordered dict: the second dict's entries win and its new keys follow the old order; DictUpdateOrder and NewKeysFacts state it |
| AstUpdate.DictUpdateOrder | mcp_code_indexer/environment/graph_database/ast_search/ast_manage.py:619 | `dict.update` keeps the key order in step and extends it |
| AstUpdate.NewKeysFacts | mcp_code_indexer/environment/graph_database/ast_search/ast_manage.py:619 | the keys `dict.update` adds are the listed keys not yet present, each once |
| AstUpdate.MigrateFileFn | mcp_code_indexer/environment/graph_database/ast_search/ast_manage.py:602-609 | defines one changed file's migration: no nodes or no old rows leave the state unchanged, otherwise the rows are merged and their INHERITS pairs recorded; MigrateFileFacts states its effect |
| AstUpdate.MigrateFileFacts | mcp_code_indexer/environment/graph_database/ast_search/ast_manage.py:602-609 | one file only appends relationships, links every carried row whose endpoints exist, records exactly the INHERITS targets after each old list, and keeps the key order in step |
| AstUpdate.OldToNewFn | mcp_code_indexer/environment/graph_database/ast_search/ast_manage.py:601-609 | defines the changed files migrated in order; OldToNewFacts and OldToNewLinks state its effect |
| AstUpdate.OldToNewFacts | mcp_code_indexer/environment/graph_database/ast_search/ast_manage.py:601-609 | the whole migration only appends relationships, keeps every existing link, grows every recorded list and keeps the key order in step |
| AstUpdate.OldToNewStep | mcp_code_indexer/environment/graph_database/ast_search/ast_manage.py:601-609 | the migration up to file `i` is file `i` migrated after the earlier ones |
| AstUpdate.OldToNewLinks | mcp_code_indexer/environment/graph_database/ast_search/ast_manage.py:601-609 | a row carried for a changed file, whose endpoints exist when that file's turn comes, is linked once all files are done |
| AstUpdate.OldToNewCarries | mcp_code_indexer/environment/graph_database/ast_search/ast_manage.py:601-609 | every old relationship of the starting graph into an old-task node sharing a full name with a node of a changed file (from a node of both tasks in another file) is linked in the new task at the end, whenever both full names have a node of the new task |
| AstUpdate.LinkedToEnd | mcp_code_indexer/environment/graph_database/ast_search/ast_manage.py:601-609 | what is linked after the first `j` files stays linked to the end |
| AstUpdate.AstUpdateEdge.constructor | mcp_code_indexer/environment/graph_database/ast_search/ast_manage.py:367-390 | a fresh manager for the new task and empty `class_inherited` |
| AstUpdate.AstUpdateEdge.GetAllNodeInFile | mcp_code_indexer/environment/graph_database/ast_search/ast_manage.py:392-426 | the file's node names fetched page by page; None when there are none |
| AstUpdate.AstUpdateEdge.GetOldEdgeList | mcp_code_indexer/environment/graph_database/ast_search/ast_manage.py:451-507 | the old relationships into the named nodes, chunk by chunk and page by page; None when there are none; a zero chunk size raises ValueError |
| AstUpdate.AstUpdateEdge.BuildEdgesFromList | mcp_code_indexer/environment/graph_database/ast_search/ast_manage.py:509-563 | every INHERITS pair is appended to `class_inherited`; each type's group is merged in batches that cover it once; None when nothing merged |
| AstUpdate.AstUpdateEdge.RecordInherits | mcp_code_indexer/environment/graph_database/ast_search/ast_manage.py:532-533 | the loop over the INHERITS pairs is `RecordAll` |
| AstUpdate.AstUpdateEdge.MergeGroups | mcp_code_indexer/environment/graph_database/ast_search/ast_manage.py:537-561 | the loop over the types is `MergeTypes` |
| AstUpdate.AstUpdateEdge.MergeGroup | mcp_code_indexer/environment/graph_database/ast_search/ast_manage.py:538-561 | one type's batches are `MergeAll` of its pairs |
| AstUpdate.AstUpdateEdge.MergeBatch | mcp_code_indexer/environment/graph_database/ast_search/ast_manage.py:538-561 | one batch is the corrected `MergeAll` of its pairs (see Findings) |
| AstUpdate.AstUpdateEdge.BuildEdgeOldToNew | mcp_code_indexer/environment/graph_database/ast_search/ast_manage.py:565-584 | the relationship through `update_edge`; a written INHERITS relationship is recorded |
| AstUpdate.AstUpdateEdge.BuildOldNodeToNew | mcp_code_indexer/environment/graph_database/ast_search/ast_manage.py:601-609 | the graph and the migrated tables are exactly `OldToNewFn` of the old ones; relationships are only appended and recorded lists only grow |
| AstUpdate.AstUpdateEdge.MigrateFile | mcp_code_indexer/environment/graph_database/ast_search/ast_manage.py:602-609 | one changed file: the graph and tables are exactly `MigrateFileFn` of the old ones |
| AstUpdate.AstUpdateEdge.MergeInherited | mcp_code_indexer/environment/graph_database/ast_search/ast_manage.py:619 | the manager's table becomes `dict.update` with the migrated inheritance |
| AstUpdate.AstUpdateEdge.BuildNewNodeToOld | mcp_code_indexer/environment/graph_database/ast_search/ast_manage.py:586-593 | the manager's whole state and the raise flag are exactly `RunFn` on the changed files; every class already in `class_inherited` stays and its list only grows, whether or not the run raises |
| AstUpdate.AstUpdateEdge.BuildEdge | mcp_code_indexer/environment/graph_database/ast_search/ast_manage.py:617-620 | the migration and the key order are `OldToNewFn` of the old ones; the manager's state and raise flag are `RunFn` of the state whose table is `dict.update` with them and whose graph is the migrated one; `update` shares the lists, so afterwards each migrated class's list is the manager's list, which extends the migrated one by what the run appended |

## Left out

- Neo4j, py2neo and the Cypher text are not modelled. Each query is modelled by the graph read or write it performs.
- `_connect_to_graph`, `clear_database`, `execute_query` and its variants (error handling, timeout thread pool) are left out. So are `NoOpLock` and `FileLock`: locking and concurrency.
- Rows come back in node-id order or relationship order. Neo4j promises no order, so the model fixes one.
- Which label `next(...)` picks when a node has two kind labels depends on Neo4j's label order. The model takes the first in the list's order.
- `create_indexes` and `drop_indexes` are left out. They only tune performance.
- `_get_node_to_target_in_old_graph` is never called and is left out. So are the unused `set_C` and `edge_NC_to_C` fields.
- `graphOld` and `graphNew` are one database here. The model uses one handler for both.
- `method_decorator` is treated as the identity; its code is not part of this model.
- `ast.parse`, `pathlib` reads and `os.path.exists` become the file map.
- The `ast_utils` helpers and `os.path.relpath` are function parameters.
- GraphDatabase.GraphDatabaseHandler.constructor requires a non-empty task id. Without one, `_match_node` matches across all tasks, and that branch is not modelled.
- On a match, `add_node` with an empty label builds a label query with no label, which Neo4j rejects. The model returns None for that error instead of an exception.
- AstUpdate.AstUpdateEdge.BuildEdgesFromList requires a positive batch size for a non-empty list, because with batch size 0 the source loop never ends. The same holds for MergeGroups and MergeGroup.
- AstUpdate.AstUpdateEdge.BuildEdge: the list objects that `dict.update` shares between the two tables are modelled within one call only. After a first `build_edge`, a later `build_old_node_to_new` on the same object appends to lists the manager also holds, and the model does not show those appends in the manager's table until the next `update`. At the end of a `build_edge` the two agree again, and the contract states that.
- In the MERGE query of `_build_edges_from_list`, a row with a missing endpoint makes the whole query fail (see Findings). The rest of the model uses the corrected per-row merge, `MergeAll`, which skips only that row.
- GraphDatabase.GraphDatabaseHandler.MergeRelationship and AstUpdate.MergeAll merge each pair between the first node of the task with each full name. The MERGE of `_build_edges_from_list` binds every node of the task with the name, so when two nodes share a full name it merges from each of them and returns a row per node pair. The corrected `add_edge` of the model keeps the names unique (AddEdgeKeepsUnique), and then the two agree (UpdateEdgeEveryMatch). Duplicate names arise only through the `add_edge` bug under Findings.
- A `"full_name"` key in the properties passed to `add_node`, `add_edge` or `update_node` is not modelled: the node keeps its full name apart from its properties. In the source `_create_node` then raises TypeError (a repeated keyword argument) and `update_node` renames the node. No caller in the indexer passes that key.
- PyValue.StrRepr shows every character from U+0080 up as itself. Python escapes the non-printable ones among them (`\x80`, `\u2028`), and the model does not classify Unicode printability.
- In `clear_task_data`, `size(labels(n)) > 1` also counts a node's kind label. So an indexed node only loses the task label and is never deleted; the model does exactly that.
- The second containment attempt always runs, even after a first success. It is modelled as written; AttemptTwice shows it writes nothing new.
- Prints, logging and the `.env` file read and write in `update_env_file`. The model goes from the existing text to the written text.
- OsPath.Lower folds ASCII letters only, while `str.lower` also folds other letters.
- Python set iteration order is hash order. A set is modelled as its members listed once each, and conversion keeps that order.
- Event timestamps, `publish_async`, the class lock and the module-level `subscribe`/`unsubscribe`/`publish` wrappers are left out.
- Callbacks that change the subscriber list during `publish` are not modelled.
- `get_container`, the module-level register/get/has/clear wrappers, and the `Inject`/`Injectable` decorators are left out: they forward to a global container by reflection.
- `DependencyContainer.has` is the predicate `Has`, stated through `Clear`'s contract.
- `common_utils` `safe_json_loads`, `safe_json_dumps`, `get_relative_path`, `timed_cache`, `retry`, `is_binary_file` and `ensure_dir_exists` are left out: they are JSON text, time, sleeps and file system access.
- The `AgentInterface` components (indexer, search engine, analyzers) are one opaque function from action and parameters to an outcome. The index-project progress callback is inside it.

## Findings

| source | as written | input that shows it | evidently intended | confidence | as-written member | corrected member |
|---|---|---|---|---|---|---|
| mcp_code_indexer/environment/graph_database/internal_graph_database.py:344-353 | both endpoints are matched before either is created, so a missing start that equals the end is created twice | `add_edge(start_name="pkg.f", end_name="pkg.f")` on a graph without `pkg.f` | match the end node after the start node exists, giving one node with a self-loop | not executed | GraphStore.AddEdgeAsWrittenDuplicates | GraphStore.AddEdgeSelfLoop |
| mcp_code_indexer/environment/graph_database/ast_search/ast_manage.py:538-561 | a MERGE on a row whose endpoint is missing fails on the null node, so the whole batch query fails and `execute_query` returns `''`: no pair of the batch is written | the two-node graph `m.A`, `m.B` and the batch `[(m.A, m.B), (m.A, m.Gone)]` of CALLS pairs | the `WHERE ... IS NOT NULL` evidently means to skip only the row with the missing endpoint and merge the others | not executed | AstUpdate.MergeBatchAsWritten | AstUpdate.MergeAll |
