/**
 * The server side of the debugger: how the listener resolves the event sets of
 * the b-threads' tickets into event names, builds and publishes one trace
 * record per selected event, pauses one event after a breakpoint fires,
 * coerces parameter updates, and dispatches incoming breakpoints.
 *
 * Events are identified by their names; a b-thread by a number standing for
 * the identity of its generator object.
 */
module Listener {
  import opened Errors
  import opened Text
  import opened Trace
  import opened BreakPoints

  // ===========================================================================
  // Server-sent events

  /** _format_sse: an optional "event:" line, then a "data:" line and a blank line. */
  function FormatSse(data: string, event: Option<string>): string
  {
    var msg := "data: " + data + "\n\n";
    if event.Some? then "event: " + event.value + "\n" + msg else msg
  }

  /** The index of the first newline in s, or |s|. */
  function LineEnd(s: string): (k: nat)
    ensures k <= |s| && (k < |s| ==> s[k] == '\n')
    ensures forall i | 0 <= i < k :: s[i] != '\n'
  {
    if s == [] || s[0] == '\n' then 0 else 1 + LineEnd(s[1..])
  }

  /** The "data:" part of one message: the text between "data: " and the closing blank line. */
  function ParseData(s: string): Option<string>
  {
    if |s| >= 8 && s[..6] == "data: " && s[|s| - 2..] == "\n\n" then Some(s[6..|s| - 2]) else None
  }

  /** Reads one message back: its event name, if any, and its data. */
  function ParseSse(s: string): Option<(Option<string>, string)>
  {
    if |s| >= 7 && s[..7] == "event: " then
      var k := 7 + LineEnd(s[7..]);
      if k < |s| then
        var data := ParseData(s[k + 1..]);
        if data.Some? then Some((Some(s[7..k]), data.value)) else None
      else None
    else
      var data := ParseData(s);
      if data.Some? then Some((None, data.value)) else None
  }

  predicate NoNewline(s: string)
  {
    forall i | 0 <= i < |s| :: s[i] != '\n'
  }

  lemma ParseDataOf(data: string)
    ensures ParseData("data: " + data + "\n\n") == Some(data)
  {
    var msg := "data: " + data + "\n\n";
    assert msg[..6] == "data: " && msg[|msg| - 2..] == "\n\n" && msg[6..|msg| - 2] == data;
  }

  /** A message carries its data and its event name back, when the name is one line. */
  lemma FormatSseRoundTrip(data: string, event: Option<string>)
    requires event.Some? ==> NoNewline(event.value)
    ensures ParseSse(FormatSse(data, event)) == Some((event, data))
  {
    var msg := "data: " + data + "\n\n";
    ParseDataOf(data);
    if event.Some? {
      var e := event.value;
      var s := "event: " + e + "\n" + msg;
      assert FormatSse(data, event) == s;
      EventLine(e, msg);
      var k := 7 + LineEnd(s[7..]);
      assert k == 7 + |e| && s[k + 1..] == msg;
    } else {
      assert FormatSse(data, event) == msg;
      assert msg[0] == 'd';
    }
  }

  /** The pieces ParseSse cuts an "event:" line and what follows it into. */
  lemma EventLine(e: string, rest: string)
    requires NoNewline(e)
    ensures var s := "event: " + e + "\n" + rest;
      && |s| >= 7 && s[..7] == "event: " && 7 + LineEnd(s[7..]) == 7 + |e| < |s|
      && s[7..7 + |e|] == e && s[7 + |e| + 1..] == rest
  {
    var s := "event: " + e + "\n" + rest;
    assert s[7..] == e + ("\n" + rest);
    LineEndOf(e, "\n" + rest);
  }

  lemma LineEndOf(line: string, rest: string)
    requires NoNewline(line) && rest != [] && rest[0] == '\n'
    ensures LineEnd(line + rest) == |line|
  {
    if line != [] {
      assert (line + rest)[1..] == line[1..] + rest;
      LineEndOf(line[1..], rest);
    }
  }

  // ===========================================================================
  // Event sets

  /** What a ticket holds under "request", "waitFor" or "block". */
  datatype EventSet =
    | Missing                          // the key is absent: None
    | Nothing                          // EmptyEventSet
    | Everything                       // All
    | Listed(events: seq<string>)      // EventSetList
    | Filtered(accepts: string -> bool) // EventSet over a predicate (AllExcept among them)
    | Single(event: string)            // one BEvent
    | Several(items: seq<EventSet>)    // a Python list of event sets

  /** The events named explicitly in an event set, whatever the known events. */
  ghost function Explicit(d: EventSet): set<string>
  {
    match d
    case Listed(es) => set i | 0 <= i < |es| :: es[i]
    case Single(e) => {e}
    case Several(items) => set i, x | 0 <= i < |items| && x in Explicit(items[i]) :: x
    case _ => {}
  }

  /** [e for e in s if accepts(e)]. */
  function FilterSeq(accepts: string -> bool, s: seq<string>): (r: seq<string>)
    ensures |r| <= |s|
    ensures forall x :: x in r <==> x in s && accepts(x)
  {
    if s == [] then []
    else (if accepts(s[0]) then [s[0]] else []) + FilterSeq(accepts, s[1..])
  }

  /**
   * The filter keeps each event in place: filtering a + b filters a, then b.
   * With the one-element case of FilterSeq's definition this fixes the result
   * completely, so the kept events come out in their original order.
   */
  lemma {:induction false} FilterSeqAppend(accepts: string -> bool, a: seq<string>, b: seq<string>)
    ensures FilterSeq(accepts, a + b) == FilterSeq(accepts, a) + FilterSeq(accepts, b)
  {
    if a == [] {
      assert a + b == b;
    } else {
      assert (a + b)[0] == a[0] && (a + b)[1..] == a[1..] + b;
      FilterSeqAppend(accepts, a[1..], b);
    }
  }

  /** A predicate event set keeps the known events it accepts in their original order. */
  lemma ResolveFilteredInOrder(accepts: string -> bool, a: seq<string>, b: seq<string>)
    ensures Resolve(Filtered(accepts), Some(a + b)) ==
      Resolve(Filtered(accepts), Some(a)) + Resolve(Filtered(accepts), Some(b))
    ensures forall e :: Resolve(Filtered(accepts), Some([e])) == if accepts(e) then [e] else []
  {
    FilterSeqAppend(accepts, a, b);
    forall e
      ensures Resolve(Filtered(accepts), Some([e])) == if accepts(e) then [e] else []
    {
      assert [e][1..] == [];
    }
  }

  /** _extract_event_names_if_known(event_set, known_events). */
  function Resolve(d: EventSet, known: Option<seq<string>>): (r: seq<string>)
    ensures d.Everything? ==> r == (if known.Some? then known.value else [])
    ensures d.Filtered? ==> forall x :: x in r <==> known.Some? && x in known.value && d.accepts(x)
    decreases d, 1
  {
    match d
    case Missing => []
    case Nothing => []
    case Everything => if known.Some? then known.value else []
    case Listed(es) => es
    case Filtered(accepts) => FilterSeq(accepts, if known.Some? then known.value else [])
    case Single(e) => [e]
    case Several(items) => ResolveAll(items, known)
  }

  /** The resolutions of the items of a list, concatenated in order. */
  function ResolveAll(items: seq<EventSet>, known: Option<seq<string>>): seq<string>
    decreases items, 0
  {
    if items == [] then [] else Resolve(items[0], known) + ResolveAll(items[1..], known)
  }

  /** A list of event sets resolves piecewise: splitting the list splits the result. */
  lemma {:induction false} ResolveAllAppend(a: seq<EventSet>, b: seq<EventSet>, known: Option<seq<string>>)
    ensures ResolveAll(a + b, known) == ResolveAll(a, known) + ResolveAll(b, known)
  {
    if a == [] {
      assert a + b == b;
    } else {
      assert (a + b)[0] == a[0] && (a + b)[1..] == a[1..] + b;
      ResolveAllAppend(a[1..], b, known);
    }
  }

  /**
   * With no known events (as _get_all_events calls it), a set resolves to
   * exactly the events it names explicitly: All and predicate sets add nothing.
   */
  lemma {:induction false} ResolveUnknown(d: EventSet)
    ensures forall x :: x in Resolve(d, None) <==> x in Explicit(d)
    decreases d, 1
  {
    if d.Several? {
      ResolveAllUnknown(d.items);
    }
  }

  lemma {:induction false} ResolveAllUnknown(items: seq<EventSet>)
    ensures forall x :: x in ResolveAll(items, None) <==> exists i | 0 <= i < |items| :: x in Explicit(items[i])
    decreases items, 0
  {
    if items != [] {
      ResolveUnknown(items[0]);
      ResolveAllUnknown(items[1..]);
      forall x | x in ResolveAll(items, None)
        ensures exists i | 0 <= i < |items| :: x in Explicit(items[i])
      {
        if x !in Resolve(items[0], None) {
          assert x in ResolveAll(items[1..], None);
          var i :| 0 <= i < |items[1..]| && x in Explicit(items[1..][i]);
          assert x in Explicit(items[i + 1]);
        }
      }
      forall x | exists i | 0 <= i < |items| :: x in Explicit(items[i])
        ensures x in ResolveAll(items, None)
      {
        var i :| 0 <= i < |items| && x in Explicit(items[i]);
        if i > 0 {
          assert x in Explicit(items[1..][i - 1]);
        }
      }
    }
  }

  // ===========================================================================
  // Tickets and the thread information of a trace record

  /** A b-thread's ticket: a dictionary with these keys, each of which may be absent. */
  datatype Ticket =
    Ticket(bt: Option<nat>, priority: Option<int>, request: EventSet, waitFor: EventSet, block: EventSet)

  /** len(t) == 0: every key is absent. */
  predicate IsEmpty(t: Ticket)
  {
    t.bt.None? && t.priority.None? && t.request.Missing? && t.waitFor.Missing? && t.block.Missing?
  }

  /** The events a ticket names explicitly. */
  function TicketEvents(t: Ticket): seq<string>
  {
    Resolve(t.request, None) + Resolve(t.waitFor, None) + Resolve(t.block, None)
  }

  ghost function TicketExplicit(t: Ticket): set<string>
  {
    Explicit(t.request) + Explicit(t.waitFor) + Explicit(t.block)
  }

  predicate NoDuplicates(s: seq<string>)
  {
    forall i, j | 0 <= i < j < |s| :: s[i] != s[j]
  }

  /** list(set(s)), keeping first occurrences. */
  function Dedupe(s: seq<string>): (r: seq<string>)
    ensures NoDuplicates(r)
    ensures forall x :: x in r <==> x in s
  {
    if s == [] then []
    else
      var rest := Dedupe(s[..|s| - 1]);
      if s[|s| - 1] in rest then
        assert s == s[..|s| - 1] + [s[|s| - 1]];
        rest
      else
        assert s == s[..|s| - 1] + [s[|s| - 1]];
        rest + [s[|s| - 1]]
  }

  /** The names the tickets give explicitly, ticket after ticket. */
  function Gathered(tickets: seq<Ticket>): seq<string>
  {
    if tickets == [] then []
    else Gathered(tickets[..|tickets| - 1]) + TicketEvents(tickets[|tickets| - 1])
  }

  /** What _get_all_events returns. */
  function AllEvents(tickets: seq<Ticket>): seq<string>
  {
    Dedupe(Gathered(tickets))
  }

  lemma TicketEventsExplicit(t: Ticket)
    ensures forall x :: x in TicketEvents(t) <==> x in TicketExplicit(t)
  {
    ResolveUnknown(t.request);
    ResolveUnknown(t.waitFor);
    ResolveUnknown(t.block);
  }

  lemma {:induction false} GatheredExplicit(tickets: seq<Ticket>)
    ensures forall x :: x in Gathered(tickets) <==> exists i | 0 <= i < |tickets| :: x in TicketExplicit(tickets[i])
  {
    if tickets != [] {
      var n := |tickets| - 1;
      GatheredExplicit(tickets[..n]);
      TicketEventsExplicit(tickets[n]);
      forall x
        ensures x in Gathered(tickets) <==> exists i | 0 <= i < |tickets| :: x in TicketExplicit(tickets[i])
      {
        ExplicitLast(tickets, x);
      }
    }
  }

  /** Some ticket names x explicitly iff one before the last does or the last one does. */
  lemma ExplicitLast(tickets: seq<Ticket>, x: string)
    requires tickets != []
    ensures var n := |tickets| - 1;
      (exists i | 0 <= i < |tickets| :: x in TicketExplicit(tickets[i])) <==>
        (exists i | 0 <= i < n :: x in TicketExplicit(tickets[..n][i])) || x in TicketExplicit(tickets[n])
  {
    var n := |tickets| - 1;
    if exists i | 0 <= i < |tickets| :: x in TicketExplicit(tickets[i]) {
      var i :| 0 <= i < |tickets| && x in TicketExplicit(tickets[i]);
      if i < n {
        assert tickets[..n][i] == tickets[i];
      }
    }
    if exists i | 0 <= i < n :: x in TicketExplicit(tickets[..n][i]) {
      var i :| 0 <= i < n && x in TicketExplicit(tickets[..n][i]);
      assert tickets[..n][i] == tickets[i];
    }
  }

  /**
   * _get_all_events returns each event at most once, and exactly the events
   * some ticket names explicitly in its request, waitFor or block.
   */
  lemma AllEventsMeaning(tickets: seq<Ticket>)
    ensures NoDuplicates(AllEvents(tickets))
    ensures forall x :: x in AllEvents(tickets) <==> exists i | 0 <= i < |tickets| :: x in TicketExplicit(tickets[i])
  {
    GatheredExplicit(tickets);
  }

  /** _get_all_events: the loop gathers the names, then duplicates go. */
  method GetAllEvents(tickets: seq<Ticket>) returns (r: seq<string>)
    ensures r == AllEvents(tickets)
  {
    var result: seq<string> := [];
    var n := 0;
    while n < |tickets|
      invariant n <= |tickets|
      invariant result == Gathered(tickets[..n])
    {
      assert tickets[..n + 1][..n] == tickets[..n];
      result := result + TicketEvents(tickets[n]);
      n := n + 1;
    }
    assert tickets[..n] == tickets;
    r := Dedupe(result);
  }

  /** One b_thread_info entry: its name, its priority (0 by default) and its resolved sets. */
  function InfoOf(t: Ticket, name: string, all: seq<string>): ThreadInfo
  {
    ThreadInfo(name, if t.priority.Some? then t.priority.value else 0,
      Resolve(t.request, Some(all)), Resolve(t.waitFor, Some(all)), Resolve(t.block, Some(all)))
  }

  /**
   * The b_thread_info list of a trace record: empty tickets are skipped, every
   * other one gives one entry; a ticket without "bt", or whose b-thread has no
   * name, raises KeyError.
   */
  function ThreadInfos(tickets: seq<Ticket>, names: map<nat, string>, all: seq<string>): Result<seq<ThreadInfo>>
  {
    if tickets == [] then Ok([])
    else
      var t := tickets[0];
      var rest := ThreadInfos(tickets[1..], names, all);
      if IsEmpty(t) then rest
      else if t.bt.None? then Err(MissingKey("bt"))
      else if t.bt.value !in names then Err(UnmarkedBThread(t.bt.value))
      else if rest.Err? then rest
      else Ok([InfoOf(t, names[t.bt.value], all)] + rest.value)
  }

  /** The tickets that are not empty, in order. */
  function NonEmpty(tickets: seq<Ticket>): (r: seq<Ticket>)
    ensures forall i | 0 <= i < |r| :: !IsEmpty(r[i])
  {
    if tickets == [] then []
    else (if IsEmpty(tickets[0]) then [] else [tickets[0]]) + NonEmpty(tickets[1..])
  }

  predicate Named(t: Ticket, names: map<nat, string>)
  {
    t.bt.Some? && t.bt.value in names
  }

  predicate AllNamed(ts: seq<Ticket>, names: map<nat, string>)
  {
    forall i | 0 <= i < |ts| :: Named(ts[i], names)
  }

  lemma AllNamedCons(t: Ticket, ts: seq<Ticket>, names: map<nat, string>)
    ensures AllNamed([t] + ts, names) <==> Named(t, names) && AllNamed(ts, names)
  {
    if AllNamed([t] + ts, names) {
      assert Named(([t] + ts)[0], names);
      forall i | 0 <= i < |ts| ensures Named(ts[i], names) {
        assert Named(([t] + ts)[i + 1], names);
      }
    }
  }

  /** The thread information is built exactly when every non-empty ticket names a known b-thread. */
  lemma {:induction false} ThreadInfosSucceed(tickets: seq<Ticket>, names: map<nat, string>, all: seq<string>)
    ensures ThreadInfos(tickets, names, all).Ok? <==> AllNamed(NonEmpty(tickets), names)
  {
    if tickets != [] {
      ThreadInfosSucceed(tickets[1..], names, all);
      if !IsEmpty(tickets[0]) {
        AllNamedCons(tickets[0], NonEmpty(tickets[1..]), names);
      } else {
        assert ThreadInfos(tickets, names, all) == ThreadInfos(tickets[1..], names, all);
        assert NonEmpty(tickets) == NonEmpty(tickets[1..]);
      }
    }
  }

  /** An empty ticket is skipped: it adds no entry and raises nothing. */
  lemma EmptySkipped(t: Ticket, tickets: seq<Ticket>, names: map<nat, string>, all: seq<string>)
    requires IsEmpty(t)
    ensures ThreadInfos([t] + tickets, names, all) == ThreadInfos(tickets, names, all)
    ensures NonEmpty([t] + tickets) == NonEmpty(tickets)
  {
    assert ([t] + tickets)[1..] == tickets;
  }

  /** When it is built, it holds one entry per non-empty ticket, in order. */
  lemma {:induction false} ThreadInfosEntries(tickets: seq<Ticket>, names: map<nat, string>, all: seq<string>)
    requires ThreadInfos(tickets, names, all).Ok?
    ensures var infos, ts := ThreadInfos(tickets, names, all).value, NonEmpty(tickets);
      && |infos| == |ts|
      && forall i | 0 <= i < |ts| :: Named(ts[i], names) && infos[i] == InfoOf(ts[i], names[ts[i].bt.value], all)
  {
    if tickets != [] {
      if !IsEmpty(tickets[0]) {
        ThreadInfosEntries(tickets[1..], names, all);
        var rest := NonEmpty(tickets[1..]);
        assert NonEmpty(tickets) == [tickets[0]] + rest;
      } else {
        assert ThreadInfos(tickets, names, all) == ThreadInfos(tickets[1..], names, all);
        assert NonEmpty(tickets) == NonEmpty(tickets[1..]);
        ThreadInfosEntries(tickets[1..], names, all);
      }
    }
  }

  /** infos in front of a result that did not raise; an exception stays as it is. */
  function Prepend(infos: seq<ThreadInfo>, r: Result<seq<ThreadInfo>>): Result<seq<ThreadInfo>>
  {
    if r.Ok? then Ok(infos + r.value) else r
  }

  /** The ticket loop of event_selected. */
  method BuildThreadInfos(tickets: seq<Ticket>, names: map<nat, string>, all: seq<string>)
    returns (r: Result<seq<ThreadInfo>>)
    ensures r == ThreadInfos(tickets, names, all)
  {
    var infos: seq<ThreadInfo> := [];
    var n := 0;
    assert tickets[0..] == tickets;
    assert Prepend([], ThreadInfos(tickets, names, all)) == ThreadInfos(tickets, names, all) by {
      var x := ThreadInfos(tickets, names, all);
      if x.Ok? { assert [] + x.value == x.value; }
    }
    while n < |tickets|
      invariant n <= |tickets|
      invariant ThreadInfos(tickets, names, all) == Prepend(infos, ThreadInfos(tickets[n..], names, all))
    {
      var t := tickets[n];
      assert tickets[n..][0] == t && tickets[n..][1..] == tickets[n + 1..];
      if IsEmpty(t) {
        n := n + 1;
        continue;
      }
      if t.bt.None? {
        return Err(MissingKey("bt"));
      }
      if t.bt.value !in names {
        return Err(UnmarkedBThread(t.bt.value));
      }
      var info := InfoOf(t, names[t.bt.value], all);
      ghost var later := ThreadInfos(tickets[n + 1..], names, all);
      if later.Ok? {
        assert infos + ([info] + later.value) == (infos + [info]) + later.value;
      }
      infos := infos + [info];
      n := n + 1;
    }
    assert infos + [] == infos;
    return Ok(infos);
  }

  // ===========================================================================
  // Parameter updates

  /**
   * __set_parameter: the value the parameter's callback receives. The stored
   * value's type decides: an int takes int(new_value), a str takes new_value
   * as it is, and any other type (bool, but also float) takes whether
   * new_value is "True". An unknown parameter raises KeyError.
   */
  function SetParameter(data: map<string, Parameter>, parameter: string, newValue: string): Result<ParamValue>
  {
    if parameter !in data then Err(MissingKey(parameter))
    else match data[parameter].value
      case IntValue(_) =>
        var n := ParseInt(newValue);
        if n.Ok? then Ok(IntValue(n.value)) else Err(n.error)
      case StrValue(_) => Ok(StrValue(newValue))
      case _ => Ok(BoolValue(newValue == "True"))
  }

  /** str() of a parameter value, as the frontend sends it back. */
  function PyStr(v: ParamValue): string
    requires !v.FloatValue?
  {
    match v
    case IntValue(n) => IntToString(n)
    case StrValue(t) => t
    case BoolValue(b) => if b then "True" else "False"
  }

  predicate SameKind(a: ParamValue, b: ParamValue)
  {
    (a.IntValue? && b.IntValue?) || (a.StrValue? && b.StrValue?) || (a.BoolValue? && b.BoolValue?)
  }

  /** Sending back str() of a value of the parameter's own type delivers that value to the callback. */
  lemma SetParameterReadsBack(data: map<string, Parameter>, parameter: string, v: ParamValue)
    requires parameter in data && SameKind(data[parameter].value, v)
    ensures SetParameter(data, parameter, PyStr(v)) == Ok(v)
  {
    if v.IntValue? {
      ParseIntToString(v.i);
    }
  }

  // ===========================================================================
  // The listener

  /** The ids of the trace records on a queue, in order. */
  function TraceIds(q: seq<Message>): seq<int>
  {
    if q == [] then []
    else TraceIds(q[..|q| - 1]) + (if q[|q| - 1].Trace? then [q[|q| - 1].record.id] else [])
  }

  /** 0, 1, ..., n - 1. */
  function Upto(n: nat): (r: seq<int>)
    ensures |r| == n && forall i | 0 <= i < n :: r[i] == i
  {
    if n == 0 then [] else Upto(n - 1) + [n - 1]
  }

  /** An owed info record carries no trace id. */
  lemma TraceIdsPending(q: seq<Message>, owed: bool, ids: seq<string>)
    ensures TraceIds(q + Pending(owed, ids)) == TraceIds(q)
  {
    if owed {
      TraceIdsSnoc(q, Info(true, false, ids));
    } else {
      assert q + [] == q;
    }
  }

  /** Publishing the owed info record and then the record with the next id keeps the ids gapless. */
  lemma TraceIdsPublish(q: seq<Message>, owed: bool, ids: seq<string>, rec: TraceRecord, n: nat)
    requires TraceIds(q) == Upto(n) && rec.id == n
    ensures TraceIds(q + Pending(owed, ids) + [Trace(rec)]) == Upto(n + 1)
  {
    TraceIdsPending(q, owed, ids);
    TraceIdsSnoc(q + Pending(owed, ids), Trace(rec));
  }

  lemma TraceIdsSnoc(q: seq<Message>, m: Message)
    ensures TraceIds(q + [m]) == TraceIds(q) + (if m.Trace? then [m.record.id] else [])
  {
    assert (q + [m])[..|q|] == q;
  }

  /**
   * MonitoringListener, with its event queue as a sequence of messages and the
   * b-thread names it was told about; the data poll's result, the clock and
   * the tickets of the b-program are passed to each step.
   */
  class MonitoringListener {
    const repository: BreakpointRepository
    var names: map<nat, string>
    var queue: seq<Message>
    var currentId: nat
    var setBreakPoint: bool

    /**
     * The repository's own invariant. That the published records carry the
     * ids 0, 1, 2, ... is TraceIdsPublish, applied to the queue each step leaves.
     */
    ghost predicate Valid()
      reads this, repository, repository.Objects()
    {
      repository.Valid()
    }

    constructor ()
      ensures Valid() && fresh(repository)
      ensures names == map[] && queue == [] && currentId == 0 && !setBreakPoint
      ensures repository.stored == [] && repository.fired == [] && repository.view == []
      ensures TraceIds(queue) == Upto(currentId)
    {
      repository := new BreakpointRepository();
      names := map[];
      queue := [];
      currentId := 0;
      setBreakPoint := false;
    }

    /** mark_name. */
    method MarkName(name: string, bt: nat)
      modifies this
      ensures names == old(names)[bt := name]
      ensures queue == old(queue) && currentId == old(currentId) && setBreakPoint == old(setBreakPoint)
    {
      names := names[bt := name];
    }

    /** __pause: the run lock is taken and an info record with no breakpoint ids is queued. */
    method Pause()
      requires Valid()
      modifies this
      ensures Valid() && queue == old(queue) + [Info(true, false, [])]
      ensures names == old(names) && currentId == old(currentId) && setBreakPoint == old(setBreakPoint)
    {
      queue := queue + Pending(true, []);
    }

    /** __send_ended, as ended() calls it. */
    method Ended()
      requires Valid()
      modifies this
      ensures Valid() && queue == old(queue) + [Info(true, true, [])]
      ensures names == old(names) && currentId == old(currentId) && setBreakPoint == old(setBreakPoint)
    {
      queue := queue + [Info(true, true, [])];
    }

    /**
     * event_selected as one step: first the pause owed to the previous step
     * (an info record naming the fired breakpoints), then the trace record of
     * this event with the next id, then the breakpoints advance on it and the
     * result is remembered for the next step. A b-thread without a name
     * raises before anything but the owed pause is queued.
     */
    method EventSelected(event: string, tickets: seq<Ticket>, parameters: map<string, Parameter>, now: real)
      returns (r: Result<()>)
      requires Valid()
      modifies this, repository, repository.Objects()
      ensures Valid() && names == old(names) && repository.stored == old(repository.stored)
      ensures var pending := Pending(old(setBreakPoint), FiredIds(old(repository.stored), old(repository.fired)));
        var infos := ThreadInfos(tickets, names, AllEvents(tickets));
        if infos.Err? then
          && r == Err(infos.error)
          && queue == old(queue) + pending && currentId == old(currentId) && !setBreakPoint
          && repository.fired == old(repository.fired) && repository.view == old(repository.view)
        else
          var rec := TraceRecord(event, infos.value, parameters, now, old(currentId));
          && queue == old(queue) + pending + [Trace(rec)] && currentId == old(currentId) + 1
          && EventOutcome(r, setBreakPoint, AdvanceResult(old(repository.view), rec))
          && repository.view == AdvancedUpTo(old(repository.view), FirstRaising(old(repository.view), rec), rec)
    {
      var ids := repository.Which();
      var pending := Pending(setBreakPoint, ids);
      var all := GetAllEvents(tickets);
      var infos := BuildThreadInfos(tickets, names, all);
      if infos.Err? {
        Abandon(pending);
        return Err(infos.error);
      }
      var rec := TraceRecord(event, infos.value, parameters, now, currentId);
      r := PublishAndAdvance(pending, rec);
    }

    /** event_selected leaving through an exception: only the owed info record is queued and the flag is clear. */
    method Abandon(pending: seq<Message>)
      requires repository.Valid()
      modifies this
      ensures repository.Valid() && names == old(names) && currentId == old(currentId)
      ensures queue == old(queue) + pending && !setBreakPoint
    {
      queue, setBreakPoint := queue + pending, false;
    }

    /**
     * The end of event_selected: queue the owed info record and the trace
     * record with the next id, advance the breakpoints on the record and
     * remember whether one of them fired. The repository and the queue are
     * disjoint, so the model advances the breakpoints before it writes the
     * listener's own fields; the final state is the one the source reaches
     * by queueing first.
     */
    method PublishAndAdvance(pending: seq<Message>, rec: TraceRecord) returns (r: Result<()>)
      requires repository.Valid()
      modifies this, repository, repository.Objects()
      ensures repository.Valid() && names == old(names) && repository.stored == old(repository.stored)
      ensures queue == old(queue) + pending + [Trace(rec)] && currentId == old(currentId) + 1
      ensures EventOutcome(r, setBreakPoint, AdvanceResult(old(repository.view), rec))
      ensures repository.view == AdvancedUpTo(old(repository.view), FirstRaising(old(repository.view), rec), rec)
    {
      var fired := repository.AdvanceBreakPoints(rec);
      Publish(pending, rec, fired == Ok(true));
      r := if fired.Ok? then Ok(()) else Err(fired.error);
    }

    /** The listener's own writes in event_selected: the queued records, the next id and the flag. */
    method Publish(pending: seq<Message>, rec: TraceRecord, fired: bool)
      requires repository.Valid()
      modifies this
      ensures repository.Valid() && names == old(names)
      ensures queue == old(queue) + pending + [Trace(rec)] && currentId == old(currentId) + 1
      ensures setBreakPoint == fired
    {
      queue, currentId, setBreakPoint := queue + pending + [Trace(rec)], currentId + 1, fired;
    }

    /**
     * __add_breakpoint: the id "0" is reserved for the stop-if-different
     * breakpoint and is parsed as a DifferenceBreakpoint, every other id as a
     * Breakpoint; either is then added to the repository.
     */
    method AddBreakpoint(j: JsonBreakpoint) returns (r: Result<()>)
      requires Valid()
      modifies repository
      ensures Valid()
      ensures r.Ok? <==>
        && ChainParses(j.chain) && (j.id == "0" ==> j.currentPosition.Some?)
        && HashChain(ParsedChain(j.chain)) !in Hashes2(old(repository.stored))
      ensures r.Err? ==>
        if !ChainParses(j.chain) then
          exists k | 0 <= k < |j.chain| ::
            ChainEntry(j.chain[k]) == Err(r.error) && forall i | 0 <= i < k :: ChainEntry(j.chain[i]).Ok?
        else if j.id == "0" && j.currentPosition.None? then r.error == MissingKey("current_position")
        else r.error == DuplicateHash(HashChain(ParsedChain(j.chain)))
      ensures r.Err? ==> repository.stored == old(repository.stored) && repository.fired == old(repository.fired)
      ensures r.Ok? ==> && |repository.stored| == |old(repository.stored)| + 1
                        && repository.stored[..|old(repository.stored)|] == old(repository.stored)
                        && repository.fired == old(repository.fired) + [false]
      ensures r.Ok? ==> var bp := repository.stored[|old(repository.stored)|].bp;
        && bp.id == j.id && fresh(bp) && (bp.difference <==> j.id == "0")
        && |bp.chain| == |j.chain| && bp.position == 0
        && (forall i | 0 <= i < |j.chain| :: ChainEntry(j.chain[i]) == Ok(bp.chain[i]))
        && (bp.difference ==> j.currentPosition == Some(bp.compared))
    {
      var parsed;
      if j.id == "0" {
        parsed := DifferenceFromJson(j);
      } else {
        parsed := BreakpointFromJson(j);
      }
      if parsed.Err? {
        return Err(parsed.error);
      }
      assert parsed.value.chain == ParsedChain(j.chain);
      r := repository.AddBreakpoint(parsed.value);
    }

    /** __delete_breakpoint. */
    method DeleteBreakpoint(id: string)
      requires Valid()
      modifies repository
      ensures Valid()
      ensures var k := FirstWithId(old(repository.stored), id);
        repository.stored == RemovedAt(old(repository.stored), k) && repository.fired == RemovedAt(old(repository.fired), k)
    {
      repository.DeleteBreakpoint(id);
    }
  }

  /** The info record owed to a breakpoint that fired on the previous record, if any. */
  function Pending(owed: bool, ids: seq<string>): seq<Message>
  {
    if owed then [Info(true, false, ids)] else []
  }

  /**
   * How event_selected ends once its record is published: an exception from a
   * breakpoint propagates and leaves the flag clear; otherwise the flag is set
   * exactly when some breakpoint fired.
   */
  predicate EventOutcome(r: Result<()>, setBreakPoint: bool, advance: Result<bool>)
  {
    && (advance.Err? ==> r == Err(advance.error) && !setBreakPoint)
    && (advance.Ok? ==> r == Ok(()) && setBreakPoint == advance.value)
  }
}
