/**
 * `_prepare_execution_trace`: which line events of the traced run become
 * trace entries, what each entry records, and the closing final-state entry.
 *
 * The run itself (`compile`, `exec`, `sys.settrace`, the captured stdout) is
 * outside the model: it is given as the sequence of events the trace
 * function receives, and the second run that rebuilds the final state as an
 * optional outcome (`None` when it raises).
 */
module Tracer {
  import opened Wrappers
  import opened PyStr
  import opened Scopes
  import opened LineMap
  import opened Frames
  import opened Labels

  /** One entry of `execution_trace`; `finalState` is `False` where the
      dictionary has no `'final_state'` key. */
  datatype Entry = Entry(
    line: int,
    locals: map<string, string>,
    scopeInfo: map<string, string>,
    typeInfo: map<string, string>,
    output: string,
    preExecution: bool,
    finalState: bool)

  /** What the trace function reads from the debugger: the right-stripped
      source lines, the names to show, the scope tree and the line map. */
  datatype Context = Context(lines: seq<string>, varnames: seq<string>, scopes: Arena, lineToScope: map<int, nat>)

  ghost predicate ValidContext(ctx: Context) {
    WellFormed(ctx.scopes) && IndexMap(ctx.scopes, ctx.lineToScope)
  }

  /** The outcome of re-running the script for the final state: its globals
      and everything it printed. */
  datatype FinalRun = FinalRun(globals: map<string, Value>, output: string)

  /** A variable is shown when the caller asked for it and it is not private. */
  predicate Tracked(ctx: Context, k: string) {
    k in ctx.varnames && !StartsWith(k, "_")
  }

  /** `dict(frame.f_globals)` updated with `frame.f_locals`. */
  function FrameVariables(frame: Frame): map<string, Value> {
    frame.globals + frame.locals
  }

  /** The 0-based source line of an event. */
  function LineIndex(ev: Event): int {
    ev.frame.lineno - 1
  }

  /** Whether the trace function records an event, given the line it recorded
      last: an event of the script's own code, a `'line'` event, on a line
      that exists, is not blank and differs from the last recorded one. */
  predicate Keep(ctx: Context, ev: Event, previous: Option<int>) {
    && ev.frame.filename == "<string>"
    && ev.kind == "line"
    && 0 <= LineIndex(ev) < |ctx.lines|
    && previous != Some(LineIndex(ev))
    && Strip(ctx.lines[LineIndex(ev)]) != ""
  }

  /** The entry recorded for an event: the state before the line runs. */
  function EntryOf(ctx: Context, ev: Event): (e: Entry)
    requires ValidContext(ctx)
  {
    var vars := FrameVariables(ev.frame);
    var current := if ev.frame.lineno in ctx.lineToScope then Some(ctx.lineToScope[ev.frame.lineno]) else None;
    Entry(
      LineIndex(ev),
      map k | k in vars.Keys && Tracked(ctx, k) :: vars[k].display,
      map k | k in vars.Keys && Tracked(ctx, k) :: DetermineVariableScope(ctx.scopes, k, ev.frame, current),
      map k | k in vars.Keys && Tracked(ctx, k) :: vars[k].typeName,
      ev.output,
      true,
      false)
  }

  /** The entries recorded from `events` when the last recorded line is `previous`. */
  function Recorded(ctx: Context, events: seq<Event>, previous: Option<int>): seq<Entry>
    requires ValidContext(ctx)
  {
    if events == [] then []
    else if Keep(ctx, events[0], previous) then
      [EntryOf(ctx, events[0])] + Recorded(ctx, events[1..], Some(LineIndex(events[0])))
    else Recorded(ctx, events[1..], previous)
  }

  /** The trace function on one event: record it when it is kept, then go on
      with the rest. */
  lemma RecordedStep(ctx: Context, events: seq<Event>, i: nat, previous: Option<int>)
    requires ValidContext(ctx) && i < |events|
    ensures Recorded(ctx, events[i..], previous)
         == if Keep(ctx, events[i], previous)
            then [EntryOf(ctx, events[i])] + Recorded(ctx, events[i + 1..], Some(LineIndex(events[i])))
            else Recorded(ctx, events[i + 1..], previous)
  {
    assert events[i..][1..] == events[i + 1..];
  }

  /** The trace function of `_prepare_execution_trace` over the events of the
      run in turn: a kept event appends its entry and becomes the last
      recorded line. */
  method RecordEvents(ctx: Context, evs: seq<Event>) returns (trace: seq<Entry>)
    requires ValidContext(ctx)
    ensures trace == Recorded(ctx, evs, None)
  {
    trace := [];
    var previous: Option<int> := None;
    for i := 0 to |evs|
      invariant trace + Recorded(ctx, evs[i..], previous) == Recorded(ctx, evs, None)
    {
      var ev := evs[i];
      RecordedStep(ctx, evs, i, previous);
      if ev.frame.filename == "<string>" {
        var lineNo := ev.frame.lineno - 1;
        if ev.kind == "line" && 0 <= lineNo < |ctx.lines| {
          if previous != Some(lineNo) && Strip(ctx.lines[lineNo]) != "" {
            trace := trace + [EntryOf(ctx, ev)];
            previous := Some(lineNo);
          }
        }
      }
    }
    assert evs[|evs|..] == [];
  }

  /** The closing entry: the final globals on the last line, every one of them
      labelled global, after execution. */
  function FinalEntry(ctx: Context, run: FinalRun): Entry {
    Entry(
      |ctx.lines| - 1,
      map k | k in run.globals.Keys && Tracked(ctx, k) :: run.globals[k].display,
      map k | k in run.globals.Keys && Tracked(ctx, k) :: "global",
      map k | k in run.globals.Keys && Tracked(ctx, k) :: run.globals[k].typeName,
      run.output,
      false,
      true)
  }

  /** The whole trace: the recorded entries, then the final entry when
      something was recorded and the second run succeeded. */
  function Prepared(ctx: Context, events: seq<Event>, finalRun: Option<FinalRun>): seq<Entry>
    requires ValidContext(ctx)
  {
    var t := Recorded(ctx, events, None);
    if t != [] && finalRun.Some? then t + [FinalEntry(ctx, finalRun.value)] else t
  }

  /** Every recorded entry is on an existing, non-blank line, is taken before
      the line runs, is not a final state, and no entry repeats the line of
      the one before it (nor the line recorded before the events). */
  lemma {:induction false} RecordedEntries(ctx: Context, events: seq<Event>, previous: Option<int>)
    requires ValidContext(ctx)
    ensures |Recorded(ctx, events, previous)| <= |events|
    ensures forall j :: 0 <= j < |Recorded(ctx, events, previous)| ==>
              var e := Recorded(ctx, events, previous)[j];
              0 <= e.line < |ctx.lines| && Strip(ctx.lines[e.line]) != "" && e.preExecution && !e.finalState
    ensures forall j :: 0 < j < |Recorded(ctx, events, previous)| ==>
              Recorded(ctx, events, previous)[j - 1].line != Recorded(ctx, events, previous)[j].line
    ensures Recorded(ctx, events, previous) != [] ==> previous != Some(Recorded(ctx, events, previous)[0].line)
  {
    if events != [] {
      var ev := events[0];
      if Keep(ctx, ev, previous) {
        var rest := Recorded(ctx, events[1..], Some(LineIndex(ev)));
        RecordedEntries(ctx, events[1..], Some(LineIndex(ev)));
        var r := [EntryOf(ctx, ev)] + rest;
        assert Recorded(ctx, events, previous) == r;
        forall j | 0 < j < |r| ensures r[j - 1].line != r[j].line {
          if j > 1 { assert r[j - 1] == rest[j - 2] && r[j] == rest[j - 1]; }
        }
      } else {
        RecordedEntries(ctx, events[1..], previous);
      }
    }
  }

  /** An entry shows exactly the tracked variables of the frame, a local
      shadowing a global of the same name, with the scope label
      `_determine_variable_scope` gives it. */
  lemma EntryVariables(ctx: Context, ev: Event, k: string)
    requires ValidContext(ctx)
    ensures k in EntryOf(ctx, ev).locals <==> (k in ev.frame.globals || k in ev.frame.locals) && Tracked(ctx, k)
    ensures EntryOf(ctx, ev).locals.Keys == EntryOf(ctx, ev).scopeInfo.Keys == EntryOf(ctx, ev).typeInfo.Keys
    ensures k in ev.frame.locals && Tracked(ctx, k) ==>
              EntryOf(ctx, ev).locals[k] == ev.frame.locals[k].display
              && EntryOf(ctx, ev).typeInfo[k] == ev.frame.locals[k].typeName
    ensures k in ev.frame.globals && k !in ev.frame.locals && Tracked(ctx, k) ==>
              EntryOf(ctx, ev).locals[k] == ev.frame.globals[k].display
              && EntryOf(ctx, ev).typeInfo[k] == ev.frame.globals[k].typeName
    ensures k in EntryOf(ctx, ev).scopeInfo ==>
              EntryOf(ctx, ev).scopeInfo[k] == DetermineVariableScope(ctx.scopes, k, ev.frame,
                if ev.frame.lineno in ctx.lineToScope then Some(ctx.lineToScope[ev.frame.lineno]) else None)
  {
  }

  /** The final entry shows the tracked final globals, all labelled global. */
  lemma FinalEntryVariables(ctx: Context, run: FinalRun, k: string)
    ensures k in FinalEntry(ctx, run).locals <==> k in run.globals && Tracked(ctx, k)
    ensures k in FinalEntry(ctx, run).locals ==>
              FinalEntry(ctx, run).locals[k] == run.globals[k].display && FinalEntry(ctx, run).scopeInfo[k] == "global"
              && FinalEntry(ctx, run).typeInfo[k] == run.globals[k].typeName
    ensures FinalEntry(ctx, run).scopeInfo.Keys == FinalEntry(ctx, run).locals.Keys == FinalEntry(ctx, run).typeInfo.Keys
  {
  }

  /** The trace ends with a final-state entry exactly when something was
      recorded and the second run succeeded; that entry sits on the last
      line, labels every variable global, and is the only final state. */
  lemma PreparedFinal(ctx: Context, events: seq<Event>, finalRun: Option<FinalRun>)
    requires ValidContext(ctx)
    ensures var t := Prepared(ctx, events, finalRun);
            (t != [] && t[|t| - 1].finalState) <==> (Recorded(ctx, events, None) != [] && finalRun.Some?)
    ensures var t := Prepared(ctx, events, finalRun);
            t != [] && t[|t| - 1].finalState ==>
              finalRun.Some? && t[|t| - 1] == FinalEntry(ctx, finalRun.value)
              && t[|t| - 1].line == |ctx.lines| - 1 && !t[|t| - 1].preExecution
    ensures var t := Prepared(ctx, events, finalRun);
            forall j :: 0 <= j < |t| - 1 ==> !t[j].finalState
    ensures var t := Prepared(ctx, events, finalRun);
            t[..|Recorded(ctx, events, None)|] == Recorded(ctx, events, None)
  {
    RecordedEntries(ctx, events, None);
  }

  /** The output printed so far only grows along the run: each event's output
      is a prefix of every later event's. */
  ghost predicate EventOutputsGrow(events: seq<Event>) {
    forall i, j :: 0 <= i < j < |events| ==> events[i].output <= events[j].output
  }

  /** Each entry's output is a prefix of every later entry's output. */
  ghost predicate EntryOutputsGrow(t: seq<Entry>) {
    forall i, j :: 0 <= i < j < |t| ==> t[i].output <= t[j].output
  }

  /** The filter keeps outputs in event order: when the run's output only
      grows, so does the output recorded in the entries, and every recorded
      output lies between the first and the last event's output. */
  lemma {:induction false} RecordedOutputsGrow(ctx: Context, events: seq<Event>, previous: Option<int>)
    requires ValidContext(ctx) && EventOutputsGrow(events)
    ensures EntryOutputsGrow(Recorded(ctx, events, previous))
    ensures forall j :: 0 <= j < |Recorded(ctx, events, previous)| ==>
              events[0].output <= Recorded(ctx, events, previous)[j].output
              && Recorded(ctx, events, previous)[j].output <= events[|events| - 1].output
    decreases |events|
  {
    if events != [] {
      var rest := events[1..];
      var p := if Keep(ctx, events[0], previous) then Some(LineIndex(events[0])) else previous;
      var r := Recorded(ctx, rest, p);
      RecordedOutputsGrow(ctx, rest, p);
      if rest != [] {
        assert events[0].output <= rest[0].output && rest[|rest| - 1] == events[|events| - 1];
      }
      if Keep(ctx, events[0], previous) {
        var t := [EntryOf(ctx, events[0])] + r;
        assert t[0].output == events[0].output;
        assert events[0].output <= events[|events| - 1].output by {
          if |events| > 1 { assert 0 < |events| - 1; }
        }
        forall i, j | 0 <= i < j < |t| ensures t[i].output <= t[j].output {
          assert t[j] == r[j - 1];
          if i > 0 { assert t[i] == r[i - 1]; }
        }
      }
    }
  }

  /** The whole trace keeps outputs in order, provided the second run's output
      extends what the traced run had printed by its last event. */
  lemma PreparedOutputsGrow(ctx: Context, events: seq<Event>, finalRun: Option<FinalRun>)
    requires ValidContext(ctx) && EventOutputsGrow(events)
    requires finalRun.Some? && events != [] ==> events[|events| - 1].output <= finalRun.value.output
    ensures EntryOutputsGrow(Prepared(ctx, events, finalRun))
  {
    var r := Recorded(ctx, events, None);
    RecordedOutputsGrow(ctx, events, None);
    if r != [] && finalRun.Some? {
      var t := r + [FinalEntry(ctx, finalRun.value)];
      forall i, j | 0 <= i < j < |t| ensures t[i].output <= t[j].output {
        assert t[i] == r[i];
        if j < |r| { assert t[j] == r[j]; }
      }
    }
  }
}
