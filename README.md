# Step debugger core, in Dafny

This project models the deterministic core of `docs/static/pyodide_pdb.py`, a
step-through debugger for short Python scripts. The debugger runs in the browser
under Pyodide. It analyses a script once and records a trace of the script's run.
Then it replays that trace one line per `step`. For each variable it shows the
value, the type and a scope label such as `global`, `local (f)` or `outer (f)`.

The model covers:

- **Scope tree** (`ScopeNode`, `ScopeAnalyzer`): how the visitors build the tree
  of module, function, class, lambda and comprehension scopes. This includes the
  variables each scope records and the map from each source line to its most
  specific scope.
- **Trace filter** (`_prepare_execution_trace` and its trace function): which
  line events become trace entries, what each entry records, and when the
  closing final-state entry is added.
- **Scope labels** (`_determine_variable_scope`, `_get_scope_from_ast`,
  `_get_scope_from_runtime`, `_format_scope_name`, `_format_parent_scope_name`).
- **Replay cursor** (`StepDebugger.__init__`, `step`, `reset`, `get_state`).
- **Static extraction** of assigned names (`extract_assigned_variables`) and of
  each variable's last assignment line (`_extract_variable_assignments`).
- **Range display** (`_represent_range_object`).

Modules, one per file:

| module | file | what it holds |
|---|---|---|
| `Wrappers` | wrappers.dfy | `Option` |
| `PyStr` | pystr.dfy | Python's `strip`, `rstrip`, `splitlines`, `split`, `str(int)`, and their properties |
| `PyAst` | pyast.dfy | The syntax tree the analyser reads; `ast.walk` as a breadth-first walk |
| `Scopes` | scopes.dfy | `ScopeNode` objects as an arena of records; `add_child`, `add_variable`, `get_scope_path`, `contains_line` |
| `Visitor` | visitor.dfy | Each `visit_*` method as a function on the arena, which specifies the method |
| `Analyzer` | analyzer.dfy | Class `ScopeAnalyzer`, whose methods update the arena, the current scope and the line map in place; each is proved to compute its `Visitor` function |
| `LineMap` | linemap.dfy | `_build_line_to_scope_map` as a fold over the scopes in pre-order, and the "deepest scope wins" theorem |
| `Labels` | labels.dfy | The scope-label helpers |
| `Frames` | frames.dfy | What the trace function reads from a frame |
| `Tracer` | tracer.dfy | The trace function's filter, the entries and the final entry |
| `Extraction` | extraction.dfy | `extract_assigned_variables` and `_extract_variable_assignments` |
| `RangeFormat` | rangefmt.dfy | `_represent_range_object` and its round trip |
| `Debugger` | debugger.dfy | Class `StepDebugger`; the replay cursor as a function; the `type_info` finding |

`ScopeNode` objects point to each other through `parent` and `children`. In the
model they are records in a sequence owned by the analyser: index 0 is `root`, and
the links are indices. A parent always comes before its children, so the model
has no cycles. Walks up the parent chain therefore terminate.

## Behaviour of the code that the model keeps

All references are to `docs/static/pyodide_pdb.py`.

- `step_index` starts at 0 (line 281) and is the index of the *next* entry to
  load (lines 499 and 507). There is no -1 sentinel.
- A step finishes the replay when the index reaches the end of the trace, or
  when the entry it loaded is the final-state entry (lines 510-512). It does not
  finish when it loads the second-to-last entry.
- On an empty trace, `step` sets `finished` and changes nothing else (lines
  494-496).
- When the script raises during tracing, the message is printed into the
  captured output (line 382) after the last event, and no entry is recorded
  after it. The final-state entry comes from a separate, untraced run (lines
  389-395). That run may or may not raise, whatever the traced run did, so the
  model takes its outcome as an independent input.
- `extract_assigned_variables` includes the direct `Name` elements of `Tuple`
  targets of assignments, `for` loops and comprehensions (lines 680, 692 and
  706).
- The closing entry (line `len(lines) - 1`, every variable labelled `global`) is
  added whenever the trace is non-empty and the second run succeeds (lines
  389-418).

## Model

| member | source | states |
|---|---|---|
| Scopes.AddChild | docs/static/pyodide_pdb.py:19-22 | The child takes the next free index and is stored exactly as given, except that it records its parent. The parent is unchanged except that its `children` grows by exactly that index. Every other scope is unchanged. |
| Scopes.AddVariable | docs/static/pyodide_pdb.py:24-26 | The scope's variables gain (or overwrite) the one name with the given record. Every other variable and every other scope is unchanged. |
| Scopes.RootArena | docs/static/pyodide_pdb.py:44-48 | The analyser's initial tree is a well-formed tree whose root is a module scope with path `module`. |
| Scopes.Depth | docs/static/pyodide_pdb.py:34-38 | A scope's depth is at least 1, and is 1 exactly for the root. |
| Scopes.ScopePathDots | docs/static/pyodide_pdb.py:34-38 | When no name contains a dot, a scope's path has exactly one dot per ancestor. |
| Scopes.PathDepthIsDepth | docs/static/pyodide_pdb.py:84-91 | With dot-free names, `len(get_scope_path().split('.'))` equals 1 plus the number of ancestors. |
| Scopes.AddChildWellFormed | docs/static/pyodide_pdb.py:19-22 | Adding a child keeps the arena one tree: parents come first, and every child names its parent back. |
| Scopes.AddChildPaths | docs/static/pyodide_pdb.py:19-38 | The new child's path is its parent's path, a dot and its name, one level deeper. No older scope's path changes. |
| Scopes.AddVariableWellFormed | docs/static/pyodide_pdb.py:24-26 | Recording a variable keeps the tree well formed and dot-free. |
| Scopes.AddVariablePaths | docs/static/pyodide_pdb.py:24-38 | Recording a variable changes no scope's path. |
| Visitor.Visit | docs/static/pyodide_pdb.py:123-137 | Dispatch on the node type keeps the tree well formed. Older scopes keep their headers. Only the current scope gains children and variables, and every new scope hangs below it. |
| Visitor.VisitAll | docs/static/pyodide_pdb.py:104-106 | Visiting statements in turn has the same frame as visiting one node. |
| Visitor.GenericVisit | docs/static/pyodide_pdb.py:266-268 | Visiting a node's children in order has the same frame. |
| Visitor.ExtractTargetVars | docs/static/pyodide_pdb.py:246-264 | Exactly the names bound by the target (through tuples, lists and starred targets, not subscripts or attributes) are recorded in the current scope as assignments on the line. Every other variable and scope is unchanged. |
| Visitor.ExtractEltVars | docs/static/pyodide_pdb.py:250-253 | The same for each element of a tuple or list target, in turn. |
| Visitor.ExtractKeepsTree | docs/static/pyodide_pdb.py:246-264 | Extracting target names keeps the tree well formed and within the visitor frame. |
| Visitor.AddParameters | docs/static/pyodide_pdb.py:99-101 | Exactly the positional parameters are recorded in the new scope as parameters. The scope's other variables keep their values, and every other scope is unchanged. |
| Visitor.AddParametersKeepsTree | docs/static/pyodide_pdb.py:99-101 | Adding parameters keeps the tree well formed. |
| Visitor.VisitFunctionDef | docs/static/pyodide_pdb.py:93-108 | A new function scope, named after the function and spanning its lines, becomes a child of the current scope. Every parameter is recorded in it. |
| Visitor.VisitClassDef | docs/static/pyodide_pdb.py:110-121 | A new class scope, named after the class and spanning its lines, becomes a child of the current scope. |
| Visitor.HandleComprehension | docs/static/pyodide_pdb.py:139-153 | A new scope named after the comprehension kind, spanning the node's lines, becomes a child of the current scope. Every name bound by a `for` clause is recorded in it. |
| Visitor.VisitGenerators | docs/static/pyodide_pdb.py:173-179 | Every name bound by the `for` clauses is recorded in the comprehension scope. |
| Visitor.VisitAssign | docs/static/pyodide_pdb.py:191-198 | Every name bound by a target is recorded in the current scope with the statement's line. |
| Visitor.VisitAugAssign | docs/static/pyodide_pdb.py:200-203 | The target's names are recorded in the current scope with the statement's line. |
| Visitor.VisitFor | docs/static/pyodide_pdb.py:205-216 | The loop target's names are recorded in the current scope. |
| Visitor.VisitWith | docs/static/pyodide_pdb.py:218-227 | Every `as` target's names are recorded in the current scope. |
| Visitor.VisitItems | docs/static/pyodide_pdb.py:219-222 | The same for a prefix of the `with` items. |
| Visitor.VisitLambda | docs/static/pyodide_pdb.py:229-244 | A new scope named `lambda`, spanning the node's lines, becomes a child of the current scope. Every parameter is recorded in it. |
| Analyzer.MapLines | docs/static/pyodide_pdb.py:78-82 | The line-by-line loop over `lineno..end_lineno` leaves the map that the specification `MapLinesUpTo` gives. |
| Analyzer.ScopeAnalyzer.constructor | docs/static/pyodide_pdb.py:44-50 | The analyser starts with only the module scope, spanning lines 1 to `len(lines)`. That scope is current and the line map is empty. |
| Analyzer.ScopeAnalyzer.AddChild | docs/static/pyodide_pdb.py:19-22 | The arena becomes `Scopes.AddChild` of the old one, and the new index is returned. |
| Analyzer.ScopeAnalyzer.AddVariable | docs/static/pyodide_pdb.py:24-26 | The arena becomes `Scopes.AddVariable` of the old one. |
| Analyzer.ScopeAnalyzer.Analyze | docs/static/pyodide_pdb.py:52-61 | On a syntax error nothing changes. Otherwise the tree is the module visit, the line map is the pre-order fold over it, and the root is returned. |
| Analyzer.ScopeAnalyzer.BuildLineToScopeMap | docs/static/pyodide_pdb.py:63-65 | The line map becomes the fold of `_map_lines_to_scope` over all scopes in pre-order. |
| Analyzer.ScopeAnalyzer.TraverseScopeTree | docs/static/pyodide_pdb.py:67-73 | The line map becomes the fold over the subtree of the scope, in pre-order. The tree is unchanged. |
| Analyzer.ScopeAnalyzer.MapLinesToScope | docs/static/pyodide_pdb.py:78-82 | The scope takes every line of its range on which it is more specific than the current holder. |
| Analyzer.ScopeAnalyzer.Visit | docs/static/pyodide_pdb.py:93-268 | The method computes `Visitor.Visit` in place. The current scope and the line map are restored afterwards. |
| Analyzer.ScopeAnalyzer.VisitInScope | docs/static/pyodide_pdb.py:191-227 | The same, for the visitors that do not open a scope. |
| Analyzer.ScopeAnalyzer.VisitEach | docs/static/pyodide_pdb.py:104-106 | The method computes `Visitor.VisitAll` in place. |
| Analyzer.ScopeAnalyzer.GenericVisit | docs/static/pyodide_pdb.py:266-268 | The method computes `Visitor.GenericVisit` in place. |
| Analyzer.ScopeAnalyzer.AddParameters | docs/static/pyodide_pdb.py:99-101 | The method computes `Visitor.AddParameters` in place. |
| Analyzer.ScopeAnalyzer.VisitFunctionDef | docs/static/pyodide_pdb.py:93-108 | The method computes `Visitor.VisitFunctionDef` and restores the current scope. |
| Analyzer.ScopeAnalyzer.VisitClassDef | docs/static/pyodide_pdb.py:110-121 | The method computes `Visitor.VisitClassDef` and restores the current scope. |
| Analyzer.ScopeAnalyzer.HandleComprehension | docs/static/pyodide_pdb.py:139-171 | The method computes `Visitor.HandleComprehension`. The temporary scope switch is undone. |
| Analyzer.ScopeAnalyzer.ProcessComprehensionComponents | docs/static/pyodide_pdb.py:173-189 | Generators are visited first, then the elements, in the current scope. |
| Analyzer.ScopeAnalyzer.VisitAssign | docs/static/pyodide_pdb.py:191-198 | The method computes `Visitor.VisitAssign` in place. |
| Analyzer.ScopeAnalyzer.VisitAugAssign | docs/static/pyodide_pdb.py:200-203 | The method computes `Visitor.VisitAugAssign` in place. |
| Analyzer.ScopeAnalyzer.VisitFor | docs/static/pyodide_pdb.py:205-216 | The method computes `Visitor.VisitFor` in place. |
| Analyzer.ScopeAnalyzer.VisitWith | docs/static/pyodide_pdb.py:218-227 | The method computes `Visitor.VisitWith` in place. |
| Analyzer.ScopeAnalyzer.VisitLambda | docs/static/pyodide_pdb.py:229-244 | The method computes `Visitor.VisitLambda` and restores the current scope. |
| Analyzer.ScopeAnalyzer.ExtractTargetVars | docs/static/pyodide_pdb.py:246-264 | The method computes `Visitor.ExtractTargetVars` in place. |
| Analyzer.AnalyzeScopes | docs/static/pyodide_pdb.py:285-287 | The tree and line map that `StepDebugger` keeps are well formed. On a syntax error they are the root alone with an empty line map. Otherwise they are the module visit and its `LineToScope`. |
| LineMap.MapLinesStep | docs/static/pyodide_pdb.py:78-82 | One more line of the range is taken exactly when the scope is more specific there. Earlier lines do not change that test. |
| LineMap.MapLinesInTurnUpTo | docs/static/pyodide_pdb.py:78-82 | Updating line after line gives the map the per-line specification describes. |
| LineMap.MapLinesEmpty | docs/static/pyodide_pdb.py:79 | An empty range changes nothing. |
| LineMap.MapScopeAt | docs/static/pyodide_pdb.py:78-91 | A scope takes a line exactly when it covers the line and is more specific. Otherwise the line keeps its holder, or stays unmapped. |
| LineMap.MapInOrderConcat | docs/static/pyodide_pdb.py:67-73 | Mapping scopes in two runs equals mapping them in one. |
| LineMap.MapInOrderDomain | docs/static/pyodide_pdb.py:63-82 | A line is mapped exactly when some visited scope with a valid range covers it. The scope it maps to covers it. |
| LineMap.MapInOrderDeepest | docs/static/pyodide_pdb.py:84-91 | The scope a line maps to has a path at least as long as every visited scope covering it. |
| LineMap.MapInOrderFirst | docs/static/pyodide_pdb.py:84-91 | Of the deepest covering scopes, the first visited keeps the line: the comparison is strict. |
| LineMap.PreOrder | docs/static/pyodide_pdb.py:67-73 | The traversal starts at the scope itself, and every scope it visits has an index no smaller than the scope's. |
| LineMap.PreOrderInSubtree | docs/static/pyodide_pdb.py:67-73 | Every scope the traversal visits lies in the subtree of the scope it starts from: climbing parents from it reaches that scope. |
| LineMap.TraverseStep | docs/static/pyodide_pdb.py:72-73 | One more child adds that child's whole subtree, after the earlier children. |
| LineMap.TraverseStart | docs/static/pyodide_pdb.py:69-73 | Before the children, only the scope's own lines are done. After all children, the whole subtree is done in pre-order. |
| LineMap.PreOrderVisitsAll | docs/static/pyodide_pdb.py:63-73 | The traversal from the root reaches every scope. |
| LineMap.LineToScopeDeepest | docs/static/pyodide_pdb.py:63-91 | After `_build_line_to_scope_map`, a line is mapped exactly when some scope covers it. Its scope covers it and is at least as deep as every covering scope. Among the deepest, the first in pre-order wins. |
| Labels.FormatScopeNameDecodes | docs/static/pyodide_pdb.py:456-466 | A label is `global` exactly for the module scope. Otherwise the scope's name reads back from it, and `local (...)` never equals `outer (...)`. |
| Labels.Chain | docs/static/pyodide_pdb.py:444-452 | The chain starts at the scope, climbs one parent at a time and ends at the root. |
| Labels.GetScopeFromAst | docs/static/pyodide_pdb.py:438-454 | The `while parent_scope` loop returns the specified label. |
| Labels.EnclosingLabelFirst | docs/static/pyodide_pdb.py:444-452 | The enclosing search finds nothing exactly when no scope on the chain defines the name. Otherwise it answers with the first definer, formatted as an outer scope. |
| Labels.AstScopeLabelNone | docs/static/pyodide_pdb.py:438-454 | There is no label exactly when there is no current scope or nothing on its chain defines the name. |
| Labels.AstScopeLabelNearest | docs/static/pyodide_pdb.py:438-454 | When the current scope defines the name, its own label is used. Otherwise the nearest defining ancestor's label is used. |
| Labels.ContextName | docs/static/pyodide_pdb.py:470-478 | Code names outside the table are returned unchanged. |
| Labels.RuntimeScopeLabelDecodes | docs/static/pyodide_pdb.py:468-484 | The runtime label is `global` exactly when the frame's locals lack the name. Otherwise it names the frame's code kind. |
| Labels.EnclosingLabelNonEmpty | docs/static/pyodide_pdb.py:430-432 | A label found in the tree is never empty, so the tree's answer is never replaced by the frame's. |
| Labels.DetermineVariableScopeCases | docs/static/pyodide_pdb.py:424-436 | Module-level frames give `global`. Otherwise the tree decides when it has an answer, and the frame decides when it does not. |
| Tracer.RecordEvents | docs/static/pyodide_pdb.py:319-370 | Running the trace function over the events in turn records exactly the specified entries. |
| Tracer.RecordedEntries | docs/static/pyodide_pdb.py:327-369 | Every recorded entry is on an existing, non-blank line, taken before the line runs, and not a final state. No two consecutive entries share a line. |
| Tracer.EntryVariables | docs/static/pyodide_pdb.py:338-356 | An entry shows exactly the tracked, non-private frame variables. A local shadows a global of the same name. Each value and type comes from the local when there is one, and from the global otherwise. The three tables share their keys, and each label is `_determine_variable_scope`'s. |
| Tracer.FinalEntryVariables | docs/static/pyodide_pdb.py:398-404 | The final entry shows exactly the tracked final globals, each with its value and type and labelled `global`. The three tables share their keys. |
| Tracer.RecordedOutputsGrow | docs/static/pyodide_pdb.py:327-369 | When the run's output only grows from event to event, each recorded entry's output is a prefix of every later entry's. Every recorded output lies between the first and the last event's output. |
| Tracer.PreparedOutputsGrow | docs/static/pyodide_pdb.py:319-422 | Under the same condition, each entry's output in the whole trace is a prefix of every later one's, provided the second run's output extends the traced run's last output. |
| Tracer.PreparedFinal | docs/static/pyodide_pdb.py:389-418 | The trace ends with a final state exactly when something was recorded and the second run succeeded. That entry is on the last line, after execution, and is the only final state. |
| Extraction.AddTargetNames | docs/static/pyodide_pdb.py:667-676 | One target adds its name, or the direct names of its tuple. |
| Extraction.AddDirectNames | docs/static/pyodide_pdb.py:665-710 | One node adds exactly the names its kind contributes. |
| Extraction.ExtractAssignedVariables | docs/static/pyodide_pdb.py:661-713 | The result is empty on a syntax error. Otherwise it is exactly the names the nodes of the tree contribute. |
| Extraction.WalkCollectsAssignedNames | docs/static/pyodide_pdb.py:665-710 | Walking the tree breadth first collects the same names as a structural recursion over it. |
| Extraction.AssignedNamesExample | docs/static/pyodide_pdb.py:661-713 | For `x = 1` followed by `for y in range(3):` with `z = y` in its body, the names are exactly `x`, `y` and `z`: a target nested in a loop body is found. |
| Extraction.AssignedNamesTargetsExample | docs/static/pyodide_pdb.py:661-713 | For `a, (b, c) = t`, `d[0] = 1`, `for i, j in t: pass` and `def f(p): return [k for k in p]`, the names are exactly `a`, `i`, `j`, `p` and `k`. The nested tuple, the subscript and the function's own name contribute none. |
| Extraction.RecordTargetsEffect | docs/static/pyodide_pdb.py:306-312 | An assignment records its stripped line for each plain-name target and keeps the other entries. |
| Extraction.AssignmentKeys | docs/static/pyodide_pdb.py:301-317 | A name is in the map exactly when some walked assignment with an in-range line binds it directly. |
| Extraction.LastAssignmentWins | docs/static/pyodide_pdb.py:301-317 | The map holds the stripped line of the last such assignment in walk order. |
| Extraction.RecordAssignment | docs/static/pyodide_pdb.py:306-312 | The loop over one assignment's targets computes the specified update. |
| Extraction.ExtractVariableAssignments | docs/static/pyodide_pdb.py:301-317 | The map is empty on a syntax error, and otherwise is the fold over the breadth-first walk. |
| Extraction.BreadthFirstOrderDecidesExample | docs/static/pyodide_pdb.py:305-312 | For `if c:` / `    x = 1` / `x = 2`, the walk reaches the nested assignment last, so `x` maps to `x = 1`. |
| PyAst.WalkVisitsEveryNodeOnce | docs/static/pyodide_pdb.py:305 | `ast.walk` yields every node of the tree exactly once. |
| PyAst.WalkStep | docs/static/pyodide_pdb.py:305 | The walk yields the front node, then continues with the rest of the queue and that node's children. |
| PyStr.StripEmptyIffBlank | docs/static/pyodide_pdb.py:332 | `line.strip()` is empty exactly when the line is all whitespace. |
| Debugger.RStripAll | docs/static/pyodide_pdb.py:275 | There are as many lines as before. Each line is cut to a prefix of itself that does not end in whitespace, and the part cut off is all whitespace. |
| RangeFormat.RepresentRangeRoundTrip | docs/static/pyodide_pdb.py:644-659 | The display reads back as the range's start, stop and step. A default start or step left out is exactly Python's default. |
| Debugger.StepCursorBounds | docs/static/pyodide_pdb.py:493-512 | A step never moves the index past the end and moves it by at most one. It never clears `finished`. Past the end or when finished, it sets only `finished`. |
| Debugger.StepCursorLoads | docs/static/pyodide_pdb.py:497-512 | A step that proceeds loads entry `k` (its line, variables, scope labels, types and the lines of its output) and leaves the index at `k + 1`. It finishes exactly at the end or on the final state. |
| Debugger.StepsBeforeEnd | docs/static/pyodide_pdb.py:493-512 | After `k` steps from a reset, with `k` below the trace length, entry `k - 1` is shown (line, variables, scope labels, types and output lines) and the replay is not finished. |
| Debugger.StepsToEnd | docs/static/pyodide_pdb.py:493-512 | Exactly `n` steps replay a trace of `n` entries and finish with the last entry fully shown. Every further step changes nothing. |
| Debugger.StepsOnEmptyTrace | docs/static/pyodide_pdb.py:493-496 | On an empty trace, every step only sets `finished`. |
| Debugger.PreparedNoEarlyFinal | docs/static/pyodide_pdb.py:389-418 | Built traces have no final state before their last entry. |
| Debugger.AttributesGrow | docs/static/pyodide_pdb.py:493-523 | Calls only add attributes. `type_info` is set exactly when `__init__` set it or a loading step or `reset` ran. |
| Debugger.GetStateRaisesAsWritten | docs/static/pyodide_pdb.py:525-535 | `__init__` (lines 272-299) never assigns `type_info`, so `get_state` fails exactly until some call assigns it. |
| Debugger.GetStateAlwaysSucceeds | docs/static/pyodide_pdb.py:514-535 | With `type_info` set in `__init__`, `get_state` succeeds after any calls. |
| Debugger.StepDebugger.constructor | docs/static/pyodide_pdb.py:272-299 | The code, the watched names and whether the script compiles are kept as given. The cursor fields start as `reset` leaves them, `type_info` included; the source does not set `type_info` here, see Findings. `finished` is set exactly when the script does not compile. The lines are right-stripped. The scope tree and line map are those `ScopeAnalyzer(code).analyze()` builds, the assignment map is extracted (empty on a syntax error), and the trace is built from them. |
| Debugger.StepDebugger.PrepareExecutionTrace | docs/static/pyodide_pdb.py:319-422 | The trace becomes the recorded entries plus the optional final entry, and no cursor field changes. Without compiled code there are no events. |
| Debugger.StepDebugger.Step | docs/static/pyodide_pdb.py:493-512 | The cursor fields become `StepCursor` of the old ones, and the trace is unchanged. |
| Debugger.StepDebugger.Reset | docs/static/pyodide_pdb.py:514-523 | The cursor returns to its initial state, and the trace is rebuilt from the new run. |
| Debugger.StepDebugger.GetState | docs/static/pyodide_pdb.py:525-535 | The result projects the displayed fields and the lines, and changes nothing. |

## Left out

- Running the script is not modelled: `compile`, `exec`, `sys.settrace`, frame
  objects and the redirected `stdout`. The run is given as the sequence of events
  the trace function receives, each with its frame facts and the output printed
  so far. The second run is given as an optional final outcome (absent when it
  raises). Whether the script compiles is a parameter.
- `ast.parse` is not modelled. Its result is a parameter: a tree, or a syntax
  error. `ast.fix_missing_locations` is the identity on the trees of the model.
- The `ast.NodeVisitor` dispatch machinery is not modelled. Dispatch is a
  `match` on the node type. Nodes the model does not distinguish are `Other`
  nodes whose children are visited generically.
- `node_to_scope` is not modelled, because nothing in the core reads it.
- `_format_value_for_display`, `_get_variable_type` and the zip, enumerate, map
  and filter representers are not modelled. They rely on object introspection,
  `eval`, `itertools.tee` and regular expressions. A runtime value is reduced to
  its display string and type name.
- `RangeFormat.RepresentRange` models `_represent_range_object` as a function of
  start, stop and step. Its `except` branch cannot be reached with those
  attributes. `_format_value_for_display` only passes objects with a `__next__`
  method to the representers, so a real `range` is shown through `repr`.
- Diagnostics are not modelled: `print`, `traceback.print_exc` and the
  compilation-error message.
- `_extract_variable_assignments` catches every exception; the model has only
  the syntax-error case. `hasattr(node, 'lineno')` always holds for assignments.
- constructor: `Debugger.StepDebugger.constructor` models the corrected `__init__`, which sets `type_info` to `{}`. As written, `__init__` leaves it unset. The lemmas under Findings model that difference on the set of assigned attributes.
- PreparedOutputsGrow: the growth of the output along the run is a hypothesis. So is the condition that the second, untraced run prints at least what the traced run had printed by its last event. Both hold for a script that behaves the same on both runs. The model does not capture a run whose output differs between the two runs, for example one that uses `random`.
- Extraction.ExtractAssignedVariables: returns a set. The order of
  `list(assigned_vars)` is not modelled, because Python's set order is
  unspecified.
- LineMap.LineToScopeDeepest: requires that no scope name contains a dot, which
  holds for identifiers and the fixed scope-type names. A dotted name would make
  `split('.')` over-count a scope's depth. The model does not prove that the
  tree `Analyzer.AnalyzeScopes` builds is dot-free, so the theorem applies to
  the debugger's map only under that assumption about the script's names.
- `_prepare_execution_trace` builds its list inside the trace function. The
  model collects the entries in a local sequence (`Tracer.RecordEvents`) and
  assigns the field once; no other code observes the field in between.
  `_map_lines_to_scope` is treated the same way (`Analyzer.MapLines`).
- The per-variable loops that fill the entry tables are modelled as map
  comprehensions over the frame's variables. Dafny maps have no key order, so
  the insertion order of `locals`, `scope_info` and `type_info` is not
  modelled. In the source, an entry lists the frame's globals first, then the
  locals not among them (lines 341-344); the final entry follows
  `final_globals` (line 402). `get_state` passes these dictionaries to its
  caller in that order (lines 525-535). The key order of `variable_assignments`
  is lost too. The zip representer, which is not part of this model, reads
  that order: it takes the first assignment containing `zip(` (line 581).

## Findings

| source | as written | input that shows it | evidently intended | confidence | as-written member | corrected member |
|---|---|---|---|---|---|---|
| docs/static/pyodide_pdb.py:272-283, 525-535 | `__init__` never assigns `self.type_info`, but `get_state` reads it. It raises `AttributeError` until a step loads an entry or `reset` runs; on a script that does not compile, every step before a `reset` leaves it raising. | A new `StepDebugger`, then `get_state()`; or two `step()` calls on an empty trace, then `get_state()` | `__init__` sets `self.type_info = {}`, as `reset` does (docs/static/pyodide_pdb.py:518) | not executed | Debugger.GetStateRaisesAsWritten | Debugger.GetStateAlwaysSucceeds |
