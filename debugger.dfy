/**
 * `StepDebugger`: builds the scope tree, the assignment map and the
 * execution trace of a script once, then replays the trace one entry per
 * `step`.
 *
 * The replay cursor is specified by `StepCursor`, a function on the fields
 * `step` touches; the lemmas below are about that function, and `Step` is
 * proved to compute it.
 */
module Debugger {
  import opened Wrappers
  import opened PyStr
  import opened PyAst
  import opened Scopes
  import opened LineMap
  import opened Frames
  import opened Tracer
  import Extraction
  import Analyzer
  import Visitor

  /** The fields `step` and `reset` write. */
  datatype Cursor = Cursor(
    currentLine: int,
    locals: map<string, string>,
    scopeInfo: map<string, string>,
    typeInfo: map<string, string>,
    outputLines: seq<string>,
    finished: bool,
    stepIndex: nat)

  /** The dictionary `get_state` returns. */
  datatype State = State(
    currentLine: int,
    locals: map<string, string>,
    scopeInfo: map<string, string>,
    typeInfo: map<string, string>,
    outputLines: seq<string>,
    lines: seq<string>,
    finished: bool)

  /** The cursor `reset` leaves: no line yet, nothing shown, at the first entry. */
  function ResetCursor(): Cursor {
    Cursor(-1, map[], map[], map[], [], false, 0)
  }

  /** `step`: past the end or once finished, only `finished` is set; otherwise
      the next entry is loaded, the index moves past it, and the replay is
      finished when that was the last entry or the final state. */
  function StepCursor(c: Cursor, trace: seq<Entry>): Cursor {
    if c.finished || c.stepIndex >= |trace| then c.(finished := true)
    else
      var e := trace[c.stepIndex];
      Cursor(e.line, e.locals, e.scopeInfo, e.typeInfo, SplitLines(e.output),
             c.stepIndex + 1 >= |trace| || e.finalState, c.stepIndex + 1)
  }

  /** `n` calls of `step`. */
  function Steps(c: Cursor, trace: seq<Entry>, n: nat): Cursor {
    if n == 0 then c else StepCursor(Steps(c, trace, n - 1), trace)
  }

  /** No entry but the last is a final state (what `_prepare_execution_trace` produces). */
  predicate NoEarlyFinal(trace: seq<Entry>) {
    forall j :: 0 <= j < |trace| - 1 ==> !trace[j].finalState
  }

  /** One step never moves the index past the end of the trace, moves it by
      at most one, never clears `finished`, and changes nothing but
      `finished` when the replay is over or the index is at the end. */
  lemma StepCursorBounds(c: Cursor, trace: seq<Entry>)
    requires c.stepIndex <= |trace|
    ensures StepCursor(c, trace).stepIndex <= |trace|
    ensures StepCursor(c, trace).stepIndex == c.stepIndex || StepCursor(c, trace).stepIndex == c.stepIndex + 1
    ensures c.finished ==> StepCursor(c, trace).finished
    ensures c.finished || c.stepIndex == |trace| ==> StepCursor(c, trace) == c.(finished := true)
    ensures c.finished ==> StepCursor(c, trace) == c
  {
  }

  /** A step that proceeds loads entry `k` and leaves the index at `k + 1`. */
  lemma StepCursorLoads(c: Cursor, trace: seq<Entry>)
    requires !c.finished && c.stepIndex < |trace|
    ensures var r := StepCursor(c, trace); var e := trace[c.stepIndex];
            r.currentLine == e.line && r.locals == e.locals && r.scopeInfo == e.scopeInfo
            && r.typeInfo == e.typeInfo && r.outputLines == SplitLines(e.output) && r.stepIndex == c.stepIndex + 1
            && (r.finished <==> r.stepIndex == |trace| || e.finalState)
  {
  }

  /** Replaying from a reset, before the end: after `k` steps (`k` below the
      trace length) entry `k - 1` is shown and the replay is not finished. */
  lemma {:induction false} StepsBeforeEnd(trace: seq<Entry>, k: nat)
    requires NoEarlyFinal(trace) && 0 < k < |trace|
    ensures var c := Steps(ResetCursor(), trace, k);
            !c.finished && c.stepIndex == k && c.currentLine == trace[k - 1].line && c.locals == trace[k - 1].locals
            && c.scopeInfo == trace[k - 1].scopeInfo && c.typeInfo == trace[k - 1].typeInfo
            && c.outputLines == SplitLines(trace[k - 1].output)
  {
    if k > 1 {
      StepsBeforeEnd(trace, k - 1);
    }
  }

  /** Exactly `n` steps replay a trace of `n` entries: the `n`-th step shows the
      last entry and finishes, and every further step changes nothing. */
  lemma {:induction false} StepsToEnd(trace: seq<Entry>, m: nat)
    requires NoEarlyFinal(trace) && |trace| > 0 && m >= |trace|
    ensures var c := Steps(ResetCursor(), trace, |trace|);
            c.finished && c.stepIndex == |trace| && c.currentLine == trace[|trace| - 1].line
            && c.locals == trace[|trace| - 1].locals && c.scopeInfo == trace[|trace| - 1].scopeInfo
            && c.typeInfo == trace[|trace| - 1].typeInfo && c.outputLines == SplitLines(trace[|trace| - 1].output)
    ensures Steps(ResetCursor(), trace, m) == Steps(ResetCursor(), trace, |trace|)
  {
    var n := |trace|;
    if n > 1 {
      StepsBeforeEnd(trace, n - 1);
    }
    if m > n {
      StepsToEnd(trace, m - 1);
    }
  }

  /** On an empty trace the first step only sets `finished`, and so do all later ones. */
  lemma {:induction false} StepsOnEmptyTrace(m: nat)
    requires m >= 1
    ensures Steps(ResetCursor(), [], m) == ResetCursor().(finished := true)
  {
    if m > 1 {
      StepsOnEmptyTrace(m - 1);
    }
  }

  /** The traces `_prepare_execution_trace` builds have no early final state. */
  lemma PreparedNoEarlyFinal(ctx: Context, events: seq<Event>, finalRun: Option<FinalRun>)
    requires ValidContext(ctx)
    ensures NoEarlyFinal(Prepared(ctx, events, finalRun))
  {
    PreparedFinal(ctx, events, finalRun);
  }

  /** The attributes `get_state` reads. */
  const GetStateAttributes: set<string> :=
    {"current_line", "locals_dict", "scope_info", "type_info", "output_lines", "lines", "finished"}

  /** The attributes `__init__` assigns as written; `type_info` is not among them. */
  const InitAttributesAsWritten: set<string> :=
    {"code", "varnames", "lines", "current_line", "locals_dict", "scope_info", "finished",
     "execution_trace", "step_index", "output_lines", "scope_analyzer", "scope_tree",
     "line_to_scope", "variable_assignments"}

  /** The attributes `__init__` assigns once it also sets `type_info = {}`, as
      `reset` does; the `StepDebugger` class below is initialised this way. */
  const InitAttributes: set<string> := InitAttributesAsWritten + {"type_info"}

  /** A call made on a debugger: a `step` that loads an entry or one that only
      sets `finished`, or a `reset`. */
  datatype Call = StepCall(proceeds: bool) | ResetCall

  /** The attributes set after `__init__` (which set `init`) and then `calls`:
      a step that loads an entry and `reset` assign `type_info`, a step that
      does not proceed assigns only `finished`. */
  function AttributesAfter(init: set<string>, calls: seq<Call>): set<string> {
    if calls == [] then init
    else
      AttributesAfter(init, calls[..|calls| - 1])
      + (if calls[|calls| - 1] == StepCall(false) then {"finished"}
         else {"current_line", "locals_dict", "scope_info", "type_info", "output_lines", "step_index", "finished"})
  }

  /** `get_state` raises `AttributeError` unless every attribute it reads is set. */
  predicate GetStateSucceeds(init: set<string>, calls: seq<Call>) {
    GetStateAttributes <= AttributesAfter(init, calls)
  }

  /** Calls only ever add attributes, and `type_info` is set after `calls`
      exactly when `init` set it or one of the calls assigned it. */
  lemma {:induction false} AttributesGrow(init: set<string>, calls: seq<Call>)
    ensures init <= AttributesAfter(init, calls)
    ensures "type_info" in AttributesAfter(init, calls) <==>
              "type_info" in init || exists i :: 0 <= i < |calls| && calls[i] != StepCall(false)
  {
    if calls != [] {
      var n := |calls| - 1;
      AttributesGrow(init, calls[..n]);
      assert forall i :: 0 <= i < n ==> calls[..n][i] == calls[i];
    }
  }

  /** As written, `get_state` raises on a new debugger, and keeps raising
      until a step loads an entry or `reset` runs; a script that does not
      compile has an empty trace, so every step before a `reset` leaves it
      raising. */
  lemma GetStateRaisesAsWritten(calls: seq<Call>)
    ensures GetStateSucceeds(InitAttributesAsWritten, calls) <==> exists i :: 0 <= i < |calls| && calls[i] != StepCall(false)
    ensures !GetStateSucceeds(InitAttributesAsWritten, [])
    ensures !GetStateSucceeds(InitAttributesAsWritten, [StepCall(false), StepCall(false)])
  {
    AttributesGrow(InitAttributesAsWritten, calls);
    AttributesGrow(InitAttributesAsWritten, [StepCall(false), StepCall(false)]);
    assert "type_info" !in InitAttributesAsWritten;
  }

  /** With `type_info` set by `__init__`, `get_state` succeeds after any calls. */
  lemma GetStateAlwaysSucceeds(calls: seq<Call>)
    ensures GetStateSucceeds(InitAttributes, calls)
  {
    AttributesGrow(InitAttributes, calls);
  }

  class StepDebugger {
    const code: string
    const varnames: seq<string>
    /** `self.lines`: the source lines, right-stripped. */
    const lines: seq<string>
    /** The scope tree `ScopeAnalyzer` built, and its line map. */
    const scopes: Arena
    const lineToScope: map<int, nat>
    /** `self.variable_assignments`. */
    const variableAssignments: map<string, string>
    /** Whether `compile` accepted the script. */
    const compiles: bool

    var currentLine: int
    var localsDict: map<string, string>
    var scopeInfo: map<string, string>
    var typeInfo: map<string, string>
    var finished: bool
    var executionTrace: seq<Entry>
    var stepIndex: nat
    var outputLines: seq<string>

    function Ctx(): Context {
      Context(lines, varnames, scopes, lineToScope)
    }

    ghost predicate Valid()
      reads this
    {
      ValidContext(Ctx()) && stepIndex <= |executionTrace|
    }

    function CursorOf(): Cursor
      reads this
    {
      Cursor(currentLine, localsDict, scopeInfo, typeInfo, outputLines, finished, stepIndex)
    }

    /**
     * `StepDebugger(code, varnames)`. The parse of the script, whether it
     * compiles, the events of the traced run and the outcome of the second
     * run are the interpreter's, given here as parameters.
     */
    constructor(code: string, varnames: seq<string>, parsed: ParseResult, compiles: bool,
                events: seq<Event>, finalRun: Option<FinalRun>)
      ensures Valid()
      ensures this.code == code && this.varnames == varnames && this.compiles == compiles
      ensures lines == RStripAll(SplitLines(code))
      ensures parsed.SyntaxError? ==> scopes == RootArena(|SplitLines(code)|) && lineToScope == map[]
      ensures parsed.Parsed? ==> scopes == Visitor.Visit(RootArena(|SplitLines(code)|), 0, ModuleNode(parsed.body))
      ensures parsed.Parsed? ==> lineToScope == LineToScope(scopes)
      ensures parsed.SyntaxError? ==> variableAssignments == map[]
      ensures parsed.Parsed? ==> variableAssignments == Extraction.AssignmentsOf(lines, Extraction.ModuleWalk(parsed.body))
      ensures CursorOf() == ResetCursor().(finished := !compiles)
      ensures executionTrace == Prepared(Ctx(), if compiles then events else [], finalRun)
    {
      this.code := code;
      this.varnames := varnames;
      lines := RStripAll(SplitLines(code));
      var tree, lineMap := Analyzer.AnalyzeScopes(code, parsed);
      scopes := tree;
      lineToScope := lineMap;
      var assignments := Extraction.ExtractVariableAssignments(RStripAll(SplitLines(code)), parsed);
      variableAssignments := assignments;
      this.compiles := compiles;
      currentLine := -1;
      localsDict := map[];
      scopeInfo := map[];
      typeInfo := map[];
      finished := false;
      executionTrace := [];
      stepIndex := 0;
      outputLines := [];
      new;
      assert CursorOf() == ResetCursor() && ValidContext(Ctx());
      if compiles {
        PrepareExecutionTrace(events, finalRun);
      } else {
        finished := true;
        assert Prepared(Ctx(), [], finalRun) == [];
      }
    }

    /** `_prepare_execution_trace`: the trace function's filter, run over the
        events of the traced run, then the final-state entry. Without compiled
        code the run fails before its first event. */
    method PrepareExecutionTrace(events: seq<Event>, finalRun: Option<FinalRun>)
      requires ValidContext(Ctx())
      modifies this
      ensures CursorOf() == old(CursorOf())
      ensures executionTrace == Prepared(Ctx(), if compiles then events else [], finalRun)
    {
      var evs := if compiles then events else [];
      executionTrace := [];
      executionTrace := RecordEvents(Ctx(), evs);
      if executionTrace != [] && finalRun.Some? {
        executionTrace := executionTrace + [FinalEntry(Ctx(), finalRun.value)];
      }
    }

    /** `step`. */
    method Step()
      requires Valid()
      modifies this
      ensures Valid() && executionTrace == old(executionTrace)
      ensures CursorOf() == StepCursor(old(CursorOf()), executionTrace)
    {
      if finished || stepIndex >= |executionTrace| {
        finished := true;
        return;
      }
      var currentState := executionTrace[stepIndex];
      currentLine := currentState.line;
      localsDict := currentState.locals;
      scopeInfo := currentState.scopeInfo;
      typeInfo := currentState.typeInfo;
      outputLines := SplitLines(currentState.output);
      stepIndex := stepIndex + 1;
      if stepIndex >= |executionTrace| || currentState.finalState {
        finished := true;
      }
    }

    /** `reset`: back to the start, then the trace is built again from a new run. */
    method Reset(events: seq<Event>, finalRun: Option<FinalRun>)
      requires Valid()
      modifies this
      ensures Valid() && CursorOf() == ResetCursor()
      ensures executionTrace == Prepared(Ctx(), if compiles then events else [], finalRun)
    {
      currentLine := -1;
      localsDict := map[];
      scopeInfo := map[];
      typeInfo := map[];
      outputLines := [];
      finished := false;
      stepIndex := 0;
      PrepareExecutionTrace(events, finalRun);
    }

    /** `get_state`: reads the fields, changes nothing. */
    function GetState(): (s: State)
      reads this
      ensures s.currentLine == currentLine && s.locals == localsDict && s.scopeInfo == scopeInfo
      ensures s.typeInfo == typeInfo && s.outputLines == outputLines && s.lines == lines && s.finished == finished
    {
      State(currentLine, localsDict, scopeInfo, typeInfo, outputLines, lines, finished)
    }
  }

  /** `[line.rstrip() for line in code.splitlines()]`: each line loses exactly
      its trailing whitespace. */
  function RStripAll(ls: seq<string>): (r: seq<string>)
    ensures |r| == |ls|
    ensures forall i :: 0 <= i < |ls| ==> |r[i]| <= |ls[i]| && r[i] == ls[i][..|r[i]|]
    ensures forall i :: 0 <= i < |ls| ==> IsBlank(ls[i][|r[i]|..])
    ensures forall i :: 0 <= i < |ls| ==> r[i] == [] || !IsSpace(r[i][|r[i]| - 1])
  {
    var r := seq(|ls|, i requires 0 <= i < |ls| => RStrip(ls[i]));
    forall i | 0 <= i < |ls| ensures r[i] == ls[i][..|r[i]|] && IsBlank(ls[i][|r[i]|..]) {
      RStripDropsBlankSuffix(ls[i]);
    }
    r
  }
}
