/**
 * The records that travel between the debugger's parts: the trace record the
 * server builds for every selected event, the control records it queues, and
 * the JSON shapes of predicates and breakpoints exchanged with the frontend.
 */
module Trace {
  import opened Errors

  /** A parameter value as the program's data poll reports it. */
  datatype ParamValue =
    | IntValue(i: int)
    | StrValue(s: string)
    | BoolValue(b: bool)
    | FloatValue(r: real)

  /** One entry of the "parameters" snapshot, its "callback" already removed. */
  datatype Parameter = Parameter(value: ParamValue, editable: bool, unit: string)

  /** What one b-thread requested, waited for and blocked at the selected step. */
  datatype ThreadInfo = ThreadInfo(
    name: string,
    priority: int,
    request: seq<string>,
    waitFor: seq<string>,
    block: seq<string>)

  /** The "trace" record published for one selected event. */
  datatype TraceRecord = TraceRecord(
    selected: string,
    threads: seq<ThreadInfo>,
    parameters: map<string, Parameter>,
    datetime: real,
    id: int)

  /** What the server puts on its event queue: a trace record or an "info" record. */
  datatype Message =
    | Trace(record: TraceRecord)
    | Info(paused: bool, ended: bool, breakpointIds: seq<string>)

  /** {name, kind, value, predicates}: one predicate of a breakpoint chain on the wire. */
  datatype JsonPredicate = JsonPredicate(
    name: string,
    kind: string,
    value: string,
    predicates: seq<JsonPredicate>)

  /**
   * {id, chain, paused?, current_position?}: a breakpoint on the wire; the
   * frontend always sends "paused", the stop-if-different payload sends
   * "current_position" instead.
   */
  datatype JsonBreakpoint = JsonBreakpoint(
    id: string,
    chain: seq<JsonPredicate>,
    paused: Option<bool>,
    currentPosition: Option<int>)
}
