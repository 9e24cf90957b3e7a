/**
 * What the tracer sees of the running script. Real frame objects, the values
 * they hold and the interpreter that produces the line events are outside the
 * model: a value is reduced to the two strings the debugger derives from it,
 * and a frame to the facts the debugger reads.
 */
module Frames {
  /** A runtime value as `_format_value_for_display` and `_get_variable_type`
      render it. */
  datatype Value = Value(display: string, typeName: string)

  /**
   * A frame: its code's `co_filename` and `co_name`, its `f_lineno`
   * (1-based), its globals and locals, and whether `f_locals is f_globals`
   * (true in module-level code).
   */
  datatype Frame = Frame(
    filename: string,
    lineno: int,
    codeName: string,
    globals: map<string, Value>,
    locals: map<string, Value>,
    localsAreGlobals: bool)

  /** One call of the trace function: the frame, the event name (`'line'`,
      `'call'`, ...), and what the script has printed so far. */
  datatype Event = Event(frame: Frame, kind: string, output: string)
}
