# bp-debugger: a Dafny model of the breakpoint engine and its trace bus

bp-debugger is a remote debugger for behavioural programs (b-programs). A
monitoring listener sits inside the running b-program on the server. For every
selected event it publishes a trace record: the event, what each b-thread
requested, waited for and blocked, the program's parameters, a time stamp and a
running id. It also advances the user's breakpoints on that record and pauses
the program one event after a breakpoint fires. A client backend relays the
server's record stream to any number of browser streams. It keeps the records
by id, builds a "stop if different" breakpoint from an imported model and keeps
a copy of the breakpoints the frontend has sent. The frontend edits breakpoints
as trees of flat and compound predicates and exchanges them as JSON.

The model has seven modules, one per file:

- `errors.dfy` (`Errors`): the Python exceptions as values (`Result`, `Option`, `Error`).
- `text.dfy` (`Text`): `str.join`, `sorted()` on strings, `str(int)` and `int(str)`.
- `trace.dfy` (`Trace`): the records on the wire: trace and info records, and the JSON shapes of predicates and breakpoints.
- `break_point.dfy` (`BreakPoints`): the six predicates, `Breakpoint` and `DifferenceBreakpoint` (one class), and `BreakpointRepository` (a class over two insertion-ordered sequences standing for its two dicts).
- `listener.dfy` (`Listener`): event-set resolution, the thread information of a trace record, `event_selected` as one atomic step, parameter coercion, and the breakpoint dispatch of `MonitoringListener`.
- `client.dfy` (`Client`): the client `App`, its message queues, the fan-out, the stream projection, the stop-if-different payload and the breakpoint store.
- `frontend.dfy` (`Frontend`): predicates, their JSON and display, the `BreakPoint` list entry, and the `PredicateBuilder` and `BreakPointBuilder` editing classes.

Objects the source updates in place are classes: a breakpoint, the repository,
the listener, the client app, a queue, a frontend breakpoint and the builders.
Their methods are proved against functions on values (`PatternAdvance`,
`DifferenceAdvance`, `AdvanceResult`, `Without`, `Rebuilt`, ...). The
properties the source promises are proved about those functions as lemmas.

A Python dict is an insertion-ordered sequence of key-value pairs. Both
repository dicts hold the same breakpoints in the same order, so
`BreakpointRepository` keeps them as two parallel sequences, `stored` and
`fired`.

`DifferenceBreakpoint` is a subclass of `Breakpoint` whose name-mangled
`__current_position` is a second attribute beside the inherited one. The model
uses a single class `Breakpoint` with a `difference` flag. It has two
positions: `position`, the inherited one that `reset()` zeroes, and
`compared`, the subclass's own. Its two constructors stand for the two Python
constructors.

## Model

Some definitions model a source function directly but have no row of their own. Each is specified by the lemma or method rows that cite the same lines:
- `BreakPoints`: `Eval`, `Hash`, `HashChain`, `ChainEntry`;
- `Listener`: `SetParameter`, `FormatSse`, `ParseSse`, `ThreadInfos`, `AllEvents`;
- `Client`: `Project`;
- `Frontend`: `ToJson`, `PredicateFromJson`, `Display`.

| member | source | states |
|---|---|---|
| BreakPoints.AttemptSolve | debugger/server/break_point.py:19-117 | AND holds iff every child holds, OR iff some child holds, and every child is evaluated; SELECTED holds iff the record's selected event is the name; REQUESTED / BLOCKED iff some b_thread_info entry lists it; NUMBER iff the record id equals it |
| BreakPoints.ScanThreads | debugger/server/break_point.py:76-81 | the scan finds the event exactly when some thread entry's request (or block) list contains it |
| BreakPoints.HashOrderIndependent | debugger/server/break_point.py:26-46 | the hash of an AND / OR is the same for any permutation of its children |
| BreakPoints.HashesPermutation | debugger/server/break_point.py:27 | permuted children give permuted child hashes |
| BreakPoints.ChainHashCollision | debugger/server/break_point.py:177-178 | two different chains can share a chain hash, so add_breakpoint rejects the second as a duplicate |
| BreakPoints.ChainEntryOk | debugger/server/break_point.py:143-152 | a chain entry parses iff every name in it is registered and every EVENT_NUMBER value parses as int |
| BreakPoints.ChildrenOk | debugger/server/break_point.py:29-35 | AND / OR children parse iff each does, one result per child |
| BreakPoints.ParseChain | debugger/server/break_point.py:145-151 | the chain parses entry by entry in order; an error is that of the first entry that fails, after all earlier ones parsed |
| BreakPoints.PyIndex | debugger/server/break_point.py:190 | a negative chain index counts from the end, as Python indexing does |
| BreakPoints.PatternAdvance | debugger/server/break_point.py:158-172 | IndexError iff the position is outside the chain; otherwise the new position is inside the chain and is 0 after firing |
| BreakPoints.PatternMatchAdvances | debugger/server/break_point.py:159-171 | a matching record moves one step on and fires exactly at the last predicate, resetting to 0 |
| BreakPoints.PatternRestart | debugger/server/break_point.py:162-168 | on a mismatch the position becomes 1 if chain[0] matches the same record, else 0 (and a one-predicate chain fires) |
| BreakPoints.PatternRun | debugger/server/break_point.py:158-175 | feeding records to a fresh breakpoint keeps 0 <= position < len(chain), one result per record |
| BreakPoints.PatternRunInvariant | debugger/server/break_point.py:158-175 | the position counts how many of the latest records matched the head of the chain in order |
| BreakPoints.PatternFiresOnlyAfterFullMatch | debugger/server/break_point.py:158-175 | whenever a breakpoint fires, the last len(chain) records satisfied the chain in order |
| BreakPoints.PatternFullTraversal | debugger/server/break_point.py:158-175 | records satisfying the chain in order fire on the last one only and leave the position at 0 |
| BreakPoints.PatternRestartExample | debugger/server/break_point.py:162-171 | chain [SELECTED X, SELECTED Y] fed X, X, Y fires on the third record only |
| BreakPoints.DifferenceAdvance | debugger/server/break_point.py:188-197 | inside the chain: one step on, firing iff chain[position] fails; at or past the end: no fire, position unchanged; IndexError below -len |
| BreakPoints.DifferenceRun | debugger/server/break_point.py:188-197 | one result per record fed |
| BreakPoints.DifferenceRunCompares | debugger/server/break_point.py:188-197 | started at p, the t-th record is compared with chain[p + t] and fires iff it differs; never fires once the chain is used up |
| BreakPoints.DifferenceExample | debugger/server/break_point.py:188-197 | reference [X, Y] against live X, Z, anything fires on Z only |
| BreakPoints.Breakpoint.constructor | debugger/server/break_point.py:138-141 | a new Breakpoint has its id and chain and starts at position 0 |
| BreakPoints.Breakpoint.Difference | debugger/server/break_point.py:182-185 | a DifferenceBreakpoint keeps the inherited position at 0 and its own at current_position |
| BreakPoints.Breakpoint.Reset | debugger/server/break_point.py:174-175 | reset zeroes the inherited position and never the difference position |
| BreakPoints.Breakpoint.Advance | debugger/server/break_point.py:158-197 | advance dispatches on the class: the result and new position are PatternAdvance's or DifferenceAdvance's, the other position untouched |
| BreakPoints.Breakpoint.AdvancePattern | debugger/server/break_point.py:158-172 | Breakpoint.advance returns and moves to what PatternAdvance says |
| BreakPoints.Breakpoint.AdvanceDifference | debugger/server/break_point.py:188-197 | DifferenceBreakpoint.advance returns and moves to what DifferenceAdvance says |
| BreakPoints.BreakpointFromJson | debugger/server/break_point.py:143-152 | a parsed Breakpoint has the JSON id, one predicate per entry and position 0; otherwise the first failing entry's error |
| BreakPoints.DifferenceFromJson | debugger/server/break_point.py:199-208 | as above for a DifferenceBreakpoint starting at current_position; KeyError when current_position is missing |
| BreakPoints.AdvancedUpTo | debugger/server/break_point.py:230-235 | the first n breakpoints advanced, the rest untouched |
| BreakPoints.FirstRaising | debugger/server/break_point.py:232-233 | the first breakpoint whose advance raises, every earlier one advancing normally |
| BreakPoints.AnyFiredExists | debugger/server/break_point.py:236-238 | "True in all_state" iff some breakpoint fired |
| BreakPoints.AdvanceResultMeaning | debugger/server/break_point.py:230-238 | without an exception: true iff at least one breakpoint fired, each advanced once with its result as its flag; an exception stops at the first raising breakpoint |
| BreakPoints.FiredIdsMembers | debugger/server/break_point.py:240-245 | which() reports an id iff some breakpoint with that id last fired |
| BreakPoints.FirstWithId | debugger/server/break_point.py:224-225 | the first stored breakpoint with the id, none before it |
| BreakPoints.StoredValidWithout | debugger/server/break_point.py:226-227 | removing one breakpoint keeps keys and breakpoints unique and keyed by chain hash |
| BreakPoints.AdvanceStored | debugger/server/break_point.py:233-234 | advancing a stored breakpoint changes it as EntryAdvance says, and not at all when it raises |
| BreakPoints.BreakpointRepository.constructor | debugger/server/break_point.py:212-214 | both dicts start empty |
| BreakPoints.BreakpointRepository.AddBreakpoint | debugger/server/break_point.py:216-221 | a chain hash already present is a KeyError with both dicts unchanged; otherwise the breakpoint is appended under its hash with fired false |
| BreakPoints.BreakpointRepository.DeleteBreakpoint | debugger/server/break_point.py:223-228 | removes the first breakpoint with the id from both dicts, and nothing when none has it |
| BreakPoints.BreakpointRepository.RemoveAt | debugger/server/break_point.py:226-227 | pops one item from both dicts, which stay in step, keep their hashes distinct and keep showing the entries |
| BreakPoints.BreakpointRepository.AdvanceBreakPoints | debugger/server/break_point.py:230-238 | the result is AdvanceResult of the stored breakpoints, and they end as AdvancedUpTo their first raising one |
| BreakPoints.BreakpointRepository.AdvanceAt | debugger/server/break_point.py:233-235 | one loop step: advance the i-th breakpoint and keep its result as its flag |
| BreakPoints.BreakpointRepository.Which | debugger/server/break_point.py:240-245 | the ids whose flag is true, in insertion order |
| Text.JoinSnoc | debugger/server/break_point.py:178 | a join puts the separator between neighbours only |
| Text.JoinLength | debugger/server/break_point.py:178 | a join holds every part once and one separator fewer than parts |
| Text.JoinStep | debugger/server/break_point.py:178 | joining one more part adds the separator before it, except in front of the first part |
| Text.Sort | debugger/server/break_point.py:27 | sorted() gives a sorted permutation of its input |
| Text.SortedUnique | debugger/server/break_point.py:27 | two sorted permutations of the same strings are equal |
| Text.SortPermutation | debugger/server/break_point.py:27 | sorted() depends only on the multiset of its input |
| Text.ParseIntToString | debugger/client/backend/client.py:183 | int(str(n)) == n for every int n |
| Text.TrimStartShape | debugger/server/break_point.py:124 | the leading whitespace int() skips: what is left is a suffix of the text, everything cut off is whitespace, and it does not start with whitespace |
| Text.TrimEndShape | debugger/server/break_point.py:124 | the trailing whitespace int() skips: what is left is a prefix of the text, everything cut off is whitespace, and it does not end with whitespace |
| Text.StripShape | debugger/server/break_point.py:124 | the text int() reads after skipping whitespace at both ends neither starts nor ends with whitespace |
| Text.ParseIntOfStrip | debugger/server/break_point.py:124 | int() reads only the text inside the surrounding whitespace: two strings that strip alike parse alike |
| Text.ParseIntPadded | debugger/server/break_point.py:124 | whitespace before and after a number is ignored, so " 7\n" parses as 7 |
| Text.ParseIntUnderscore | debugger/server/break_point.py:124 | a single underscore between runs of digits is ignored, so "1_000" parses as 1000 |
| Text.ParseIntBadUnderscores | debugger/server/break_point.py:124 | a doubled, leading or trailing underscore is a ValueError |
| Text.Unsigned | debugger/server/break_point.py:124 | text with no surrounding whitespace and no sign parses iff it is digit groups joined by single underscores |
| Listener.FormatSseRoundTrip | debugger/server/listener.py:14-18 | a formatted message reads back as its event name and data; the client's copy of _format_sse (debugger/client/backend/client.py lines 10-14) is the same function |
| Listener.FilterSeq | debugger/server/listener.py:42-46 | the known events that satisfy the set's predicate, no others |
| Listener.FilterSeqAppend | debugger/server/listener.py:42-46 | filtering keeps each event in place: filtering a + b is filtering a, then b, so the kept events come out in their original order |
| Listener.ResolveFilteredInOrder | debugger/server/listener.py:42-46 | a predicate event set resolves to the known events it accepts in their original order: known events a + b resolve to those of a, then those of b, and a single event to itself iff accepted |
| Listener.Resolve | debugger/server/listener.py:21-48 | All gives the known events or []; a predicate set gives exactly the known events it accepts |
| Listener.ResolveAllAppend | debugger/server/listener.py:26-30 | a list resolves to the in-order concatenation of its items' resolutions |
| Listener.ResolveUnknown | debugger/server/listener.py:31-48 | with no known events, a set resolves to exactly the events it names explicitly |
| Listener.ResolveAllUnknown | debugger/server/listener.py:26-30 | the same for a list of sets |
| Listener.Dedupe | debugger/server/listener.py:61 | list(set(...)) has no duplicates and the same members |
| Listener.TicketEventsExplicit | debugger/server/listener.py:53-60 | the names a ticket contributes are those its request, waitFor and block name explicitly |
| Listener.GatheredExplicit | debugger/server/listener.py:51-60 | the gathered names are those some ticket names explicitly |
| Listener.AllEventsMeaning | debugger/server/listener.py:51-61 | _get_all_events is duplicate-free and holds exactly the explicitly named events |
| Listener.GetAllEvents | debugger/server/listener.py:51-61 | the loop computes AllEvents |
| Listener.NonEmpty | debugger/server/listener.py:229-230 | the tickets kept are exactly the non-empty ones (len(t) != 0), in order |
| Listener.EmptySkipped | debugger/server/listener.py:229-230 | a ticket with no key at all adds no entry and raises nothing: it is skipped |
| Listener.ThreadInfosSucceed | debugger/server/listener.py:227-243 | the thread information is built iff every non-empty ticket names a b-thread that has a name |
| Listener.ThreadInfosEntries | debugger/server/listener.py:227-243 | one entry per non-empty ticket, in order: its name, priority (0 by default) and resolved sets |
| Listener.BuildThreadInfos | debugger/server/listener.py:226-243 | the ticket loop computes ThreadInfos |
| Listener.SetParameterReadsBack | debugger/server/listener.py:146-157 | str() of a value of the parameter's own type (int, str, bool) reaches the callback as that value |
| Listener.TraceIdsPending | debugger/server/listener.py:159-167 | an info record carries no trace id |
| Listener.TraceIdsPublish | debugger/server/listener.py:250-253 | publishing the owed info and the next record keeps the trace ids 0, 1, 2, ... with no gap |
| Listener.MonitoringListener.constructor | debugger/server/listener.py:65-92 | empty queue and names, current_id 0, no pending break, empty repository |
| Listener.MonitoringListener.MarkName | debugger/server/listener.py:179-181 | records the b-thread's name and nothing else |
| Listener.MonitoringListener.Pause | debugger/server/listener.py:111-114 | queues one paused, not ended info record with no ids |
| Listener.MonitoringListener.Ended | debugger/server/listener.py:169-177 | queues one paused, ended info record with no ids |
| Listener.MonitoringListener.EventSelected | debugger/server/listener.py:212-261 | queues the owed paused info (ids from which()), then the trace record with the next id, then advances the breakpoints and sets the flag iff one fired; an unnamed b-thread raises after the owed info only |
| Listener.MonitoringListener.PublishAndAdvance | debugger/server/listener.py:249-256 | the record gets id current_id, current_id grows by one, the flag becomes the advance result |
| Listener.MonitoringListener.Abandon | debugger/server/listener.py:214-231 | when a b-thread has no name, only the owed info record is queued and the flag stays clear |
| Listener.MonitoringListener.Publish | debugger/server/listener.py:250-256 | queues the owed info and the record, advances current_id by one and keeps whether a breakpoint fired |
| Listener.MonitoringListener.AddBreakpoint | debugger/server/listener.py:134-140 | succeeds iff every chain entry parses, id "0" comes with a current_position, and the parsed chain's hash is new; then the new breakpoint (a DifferenceBreakpoint for id "0") is appended with fired false. Otherwise the error is the first failing entry's, the KeyError for current_position, or the duplicate-hash KeyError, in that order, and nothing changes |
| Listener.MonitoringListener.DeleteBreakpoint | debugger/server/listener.py:142-144 | delegates to the repository's delete |
| Client.Find | debugger/client/backend/client.py:154 | a key is found iff present, at its first occurrence |
| Client.PutLookup | debugger/client/backend/client.py:154 | d[k] = v: k now maps to v, other keys unchanged, an existing key keeps its place |
| Client.PopLookup | debugger/client/backend/client.py:159 | d.pop(k): KeyError iff k is absent; otherwise k is gone, the other keys read as before and stay in their order |
| Client.RemoveAtLookup | debugger/client/backend/client.py:159 | removing one pair changes no lookup but that of its own key |
| Client.RemoveAtKeepsOrder | debugger/client/backend/client.py:159 | removing one pair leaves the other keys in the order they had |
| Client.MessageQueue.constructor | debugger/client/backend/client.py:54 | a new queue is empty, with the given capacity (0 for unbounded) |
| Client.MessageQueue.Put | debugger/client/backend/client.py:59 | put appends at the end |
| Client.MessageQueue.Get | debugger/client/backend/client.py:57 | get takes from the front |
| Client.Without | debugger/client/backend/client.py:89-91 | the consumers kept are exactly those not among the removed ones |
| Client.WithoutAppend | debugger/client/backend/client.py:89-91 | dropping keeps each consumer in place: from a + b it drops from a, then from b, so the kept consumers stay in their order |
| Client.Among | debugger/client/backend/client.py:83-86 | exactly the full consumers |
| Client.AmongAppend | debugger/client/backend/client.py:83-86 | the full consumers are listed in their order: from a + b, those of a, then those of b |
| Client.WithoutNothing | debugger/client/backend/client.py:85-86 | when no queue is full, the fan-out drops no consumer |
| Client.RemoveEach | debugger/client/backend/client.py:90-91 | removing each listed queue in turn leaves exactly the others, in order |
| Client.ProjectDropsOnlyThreadsAndTime | debugger/client/backend/client.py:107-118 | a trace record loses exactly b_thread_info and datetime; other records pass unchanged |
| Client.ProjectForgets | debugger/client/backend/client.py:110-115 | records differing only in those two fields are sent alike |
| Client.StreamShape | debugger/client/backend/client.py:96-118 | the stream is the initial payload, then each queued record projected, in order |
| Client.SplitSecondCutsData | debugger/client/backend/client.py:71 | see Findings: a record whose JSON contains "data: " is cut short |
| Client.SplitSecondAgrees | debugger/client/backend/client.py:71 | while the data contains no "data: ", the split reads it back whole |
| Client.AfterFirstMarkerReadsData | debugger/client/backend/client.py:71 | the corrected reading returns exactly the data of every line the server formats |
| Client.ImportedChain | debugger/client/backend/client.py:187-194 | one flat EVENT_SELECTED entry per imported state, in import order |
| Client.StopIfDifferentOnServer | debugger/client/backend/client.py:184-196 | the server parses that chain as SELECTED predicates of the imported events, in order |
| Client.App.constructor | debugger/client/backend/client.py:18-31 | empty backup, consumers and dicts, timeout 0, not running |
| Client.App.CreateQueueFromBackup | debugger/client/backend/client.py:51-65 | the new queue holds the backup's records in order, the backup ends as it began, the queue is appended to the consumers |
| Client.App.Receive | debugger/client/backend/client.py:70-91 | a trace record is stored under str(id) and backed up; any other sets running to not paused; every consumer queue is unbounded, so each one gets the record at the end and none is dropped |
| Client.App.FanOut | debugger/client/backend/client.py:81-91 | the fan-out of one record: the consumers that are not full are kept and the full ones dropped, and as every consumer is unbounded, each one gets the record and none is dropped; nothing else changes |
| Client.App.FillConsumers | debugger/client/backend/client.py:83-88 | puts on each non-full queue and lists the full ones |
| Client.App.ClientListen | debugger/client/backend/client.py:93-106 | registers a snapshot queue of the backup, which ends as it began, and starts the stream with the initial payload of timeout, parameters and running; no other field changes |
| Client.App.EnableStopIfDifferent | debugger/client/backend/client.py:180-197 | id "0"; current_position 0 with no state, else the last recorded id + 1; one EVENT_SELECTED per imported state |
| Client.App.UploadModel | debugger/client/backend/client.py:225-240 | stores the imported states (a dict, so keys are unique) and answers one trace summary per state, in order; no other field changes |
| Client.App.Start | debugger/client/backend/client.py:122-125 | marks the program running, nothing else changes |
| Client.App.SetTimeout | debugger/client/backend/client.py:137-140 | stores the new timeout, nothing else changes |
| Client.App.ConnectToServer | debugger/client/backend/client.py:242-244 | the server's parameter snapshot becomes the initial parameters |
| Client.App.GetStateData | debugger/client/backend/client.py:142-150 | the b_thread_info of the one entry stored under the id, in the recorded or the imported states; KeyError iff the id is absent |
| Client.App.GetBreakpoints | debugger/client/backend/client.py:163-167 | the stored breakpoints, all of them, in insertion order |
| Client.App.AddBreakpoint | debugger/client/backend/client.py:152-156 | stores (or overwrites in place) the breakpoint under its id; other ids read as before and no other field changes |
| Client.App.DeleteBreakpoint | debugger/client/backend/client.py:158-161 | pops the breakpoint, the others keeping their order (Client.PopLookup); KeyError iff absent, and then nothing changes; no other field changes |
| Client.App.SetPaused | debugger/client/backend/client.py:169-178 | pause and unpause set only the paused field of that entry, to true and false respectively, keeping the key order; KeyError iff absent; no other field changes |
| Client.PutKeyedById | debugger/client/backend/client.py:73 | records stay keyed by str(id) |
| Client.PutKeyedByOwnId | debugger/client/backend/client.py:154 | breakpoints stay keyed by their own id |
| Client.PopKeyedByOwnId | debugger/client/backend/client.py:159 | the same after a pop |
| Frontend.ChildrenToJson | debugger/client/frontend/src/lib/breakpoint.ts:43-54 | a compound predicate's children's JSON, in order |
| Frontend.PredicateRoundTrip | debugger/client/frontend/src/lib/breakpoint.ts:271-281 | predicate_from_json(p.to_json()) is p: class, name, content and children in order |
| Frontend.ChildrenRoundTrip | debugger/client/frontend/src/lib/breakpoint.ts:273-276 | the same for a list of children |
| Frontend.JsonRoundTrip | debugger/client/frontend/src/lib/breakpoint.ts:43-80 | JSON of the shape to_json writes is written back unchanged |
| Frontend.ToJsonCanonical | debugger/client/frontend/src/lib/breakpoint.ts:73-80 | to_json writes flat with no children, or compound with an empty value |
| Frontend.DisplayFrame | debugger/client/frontend/src/lib/breakpoint.ts:33-41 | a display starts with padding, name and "(" and ends with ")" |
| Frontend.DisplayPredicate | debugger/client/frontend/src/lib/breakpoint.ts:33-71 | the display loop computes Display, children indented two more spaces; a flat predicate displays as padding, name and content in parentheses |
| Frontend.BreakpointRoundTrip | debugger/client/frontend/src/lib/breakpoint.ts:283-289 | breakpoint_from_json(b.to_json()) has b's id, chain element by element and paused flag |
| Frontend.Displays | debugger/client/frontend/src/lib/breakpoint.ts:206-207 | each predicate's display, in chain order |
| Frontend.BreakPoint.constructor | debugger/client/frontend/src/lib/breakpoint.ts:169-173 | a new breakpoint is shown in "secondary" |
| Frontend.BreakPoint.SetFired | debugger/client/frontend/src/lib/breakpoint.ts:187-190 | color is "primary" iff fired, else "secondary" |
| Frontend.BreakPoint.Pause | debugger/client/frontend/src/lib/breakpoint.ts:192-194 | paused, color unchanged |
| Frontend.BreakPoint.Unpause | debugger/client/frontend/src/lib/breakpoint.ts:196-198 | not paused, color unchanged |
| Frontend.BreakPoint.Display | debugger/client/frontend/src/lib/breakpoint.ts:204-213 | the displays joined by blank lines, with none after the last |
| Frontend.BreakPoint.ToJson | debugger/client/frontend/src/lib/breakpoint.ts:215-225 | writes id, each predicate's JSON and paused, which BreakpointRoundTrip reads back |
| Frontend.BreakpointFromJson | debugger/client/frontend/src/lib/breakpoint.ts:283-289 | id, predicates read in order, paused only when the JSON says true |
| Frontend.PredicateKind | debugger/client/frontend/src/lib/breakpoint.ts:114-121 | the kind of the first mapping with the name, "" when none has it |
| Frontend.RebuiltShape | debugger/client/frontend/src/lib/breakpoint.ts:149-159 | what a filled builder builds: compound with rebuilt children when the kind is "compound", else flat with the content |
| Frontend.RebuiltAgrees | debugger/client/frontend/src/lib/breakpoint.ts:136-159 | when the mapping's kinds agree with p's classes, filling then building gives p |
| Frontend.RebuiltMismatch | debugger/client/frontend/src/lib/breakpoint.ts:149-159 | a flat predicate whose name maps to "compound" builds back as an empty compound |
| Frontend.IndexOf | debugger/client/frontend/src/lib/breakpoint.ts:128 | indexOf: the first position of the builder, -1 iff absent |
| Frontend.PredicateBuilder.constructor | debugger/client/frontend/src/lib/breakpoint.ts:83-92 | no sub-builders, empty name and value |
| Frontend.PredicateBuilder.Build | debugger/client/frontend/src/lib/breakpoint.ts:149-159 | build gives Spec: compound with the children built in order when the kind is "compound", else flat with the value |
| Frontend.PredicateBuilder.AddPredicateBuilder | debugger/client/frontend/src/lib/breakpoint.ts:123-125 | appends one empty builder, nothing else changes |
| Frontend.PredicateBuilder.RemovePredicateBuilder | debugger/client/frontend/src/lib/breakpoint.ts:127-134 | false and unchanged when absent; otherwise removes exactly the first occurrence and returns true |
| Frontend.PredicateBuilder.FillFromPredicate | debugger/client/frontend/src/lib/breakpoint.ts:136-147 | takes p's name, and p's content or one filled builder per child appended in order; on a fresh builder Spec becomes Rebuilt(p) |
| Frontend.PredicateBuilder.Attach | debugger/client/frontend/src/lib/breakpoint.ts:142 | appends the filled builders, which keep what they build |
| Frontend.PredicateBuilder.FillCompound | debugger/client/frontend/src/lib/breakpoint.ts:136-147 | for an AND/OR predicate: takes its name, keeps the value and appends one filled builder per child; on a fresh builder Spec becomes Rebuilt(p) |
| Frontend.PredicateBuilder.FilledSpec | debugger/client/frontend/src/lib/breakpoint.ts:136-159 | a builder holding p's name and content, or builders for p's children, builds Rebuilt(p) |
| Frontend.FillEach | debugger/client/frontend/src/lib/breakpoint.ts:139-143 | one new builder per child, filled from it, in order |
| Frontend.FilledBuilder | debugger/client/frontend/src/lib/breakpoint.ts:140-141 | a new builder filled from one child builds exactly that child, as rebuilt over the possible predicates |
| Frontend.FillThenBuild | debugger/client/frontend/src/lib/breakpoint.ts:136-159 | a fresh builder filled from p builds Rebuilt(p), which is p when the kinds agree |
| Frontend.BreakPointBuilder.constructor | debugger/client/frontend/src/lib/breakpoint.ts:228-234 | no builders |
| Frontend.BreakPointBuilder.AddPredicateBuilder | debugger/client/frontend/src/lib/breakpoint.ts:247-251 | appends and returns a new empty builder |
| Frontend.BreakPointBuilder.RemovePredicateBuilder | debugger/client/frontend/src/lib/breakpoint.ts:253-260 | false and unchanged when absent; otherwise removes exactly the first occurrence |
| Frontend.BreakPointBuilder.FillFromBreakpoint | debugger/client/frontend/src/lib/breakpoint.ts:236-241 | one filled builder per chain predicate, appended in order, earlier builders kept |
| Frontend.BreakPointBuilder.Attach | debugger/client/frontend/src/lib/breakpoint.ts:238-239 | appends the filled builders, which keep what they build |
| Frontend.BreakPointBuilder.Build | debugger/client/frontend/src/lib/breakpoint.ts:262-268 | a new unpaused breakpoint whose chain is every builder's build, in order |
| Frontend.EditBreakpoint | debugger/client/frontend/src/lib/breakpoint.ts:236-268 | filling a fresh builder from a breakpoint and building gives its chain rebuilt, which is its chain when the kinds agree |

## Left out

- Locks and threads: `__run_lock`, `__step_lock` and `__backup_queue_lock` exist for concurrency, and the model leaves them out. `event_selected` is one atomic step here, and the client's operations run one at a time.
- Flask routes, `requests` calls, `Response` objects and the blocking `queue.get()` of the stream generators are network and I/O. The client's forwarding of breakpoints and commands to the server is not modelled. Records arrive at the client already decoded. Payloads are values, not JSON text.
- `time.sleep`, `datetime.now()` and the frontend's `v4()` are not modelled. The time stamp of a trace record and the id of a built breakpoint are parameters.
- The bppy runtime is foreign code. Tickets and event sets are a small datatype. The predicate of an `EventSet` is a function parameter, and a b-thread is a number standing for its generator. Events are identified by their names only, and a `BEvent`'s `data` is dropped. So two events with the same name but different data, which the `set()` of `_get_all_events` (debugger/server/listener.py:61) keeps apart and `All` then lists twice, are one event in `Listener.Dedupe` and `Listener.AllEvents`.
- The forwarding calls to the wrapped listener (`self.__listener.*`) are not modelled. Their results are not part of the model.
- The client's `__pause`, `__step`, `__disable_stop_if_different` and `__set_parameter` only forward a request, and `__client_frontend` only serves a page; none is modelled. `__download_model` serves `__id_by_state` as JSON text and `run` starts the threads; neither is modelled.
- The server's `__continue` and `__step` only move the locks, and `__set_timeout` only sets how long `time.sleep` waits; none is modelled. `__client_connect`, `__client_listen`, `register_data_poll` and the `starting`/`started`/... forwarding callbacks are not modelled either. The data poll's result is a parameter of each step.
- `float(timeout)` is not modelled, because floating point is out of scope. The client's timeout is a real number.
- The `print` in `DifferenceBreakpoint.__init__` is not modelled.
- Listener.Dedupe: `list(set(...))` has no specified order; the model keeps first occurrences. Only membership and absence of duplicates are claimed.
- Text.ParseInt: `int()` also accepts decimal digits of other scripts (Arabic-Indic, Devanagari, fullwidth, ...); the model accepts ASCII digits only and rejects the others. The limit on the number of digits of newer Python versions (4300 by default) is not modelled either.
- BreakPoints.ChainEntryOk: through Text.ParseInt, an EVENT_NUMBER value written with non-ASCII decimal digits counts as malformed here, although Python parses it.
- Frontend.DisplayPredicate: the padding a compound display writes into its children is not kept. The children's padding is passed down instead, so only the resulting string is modelled.
- Frontend.FillEach: the loop over the children is written as a recursion over them. It visits them in the same order.
- Frontend.PredicateBuilder.FillFromPredicate: the builders for the children are filled first and appended together at the end. The source pushes each one right after filling it. Nothing can observe the builder in between, so the final state is the same.
- Frontend.BreakPointBuilder.FillFromBreakpoint: the same holds here. The source adds each builder with `add_predicate_builder()` and then fills it; the model fills all of them first and then appends them in order.
- Listener.IsEmpty: a key whose value is None reads as absent. So a ticket such as `{"request": None}`, which `len()` counts as non-empty and which then raises KeyError on "bt", is skipped here as empty.
- Listener.MonitoringListener.EventSelected: that the trace ids are gapless is not in the listener's invariant. It is the separate lemma Listener.TraceIdsPublish, applied to the queue each step leaves.
- Client.MessageQueue.constructor: a queue's capacity is a number, and 0 means unbounded. Every queue the client creates is unbounded, so `full()` is never true for them. `Client.App.Valid` records this for every consumer, and Client.App.Receive and Client.App.FanOut state that every consumer receives each record and none is dropped. So the removal at debugger/client/backend/client.py:89-91 never happens: the queue of a closed browser stream stays registered and keeps growing.
- Client.App.SetPaused: one method models both `__pause_breakpoint` and `__unpause_breakpoint`. The server call each of them makes afterwards is not modelled.
- Client.App.ClientListen: the stream's later payloads are described by Client.Stream over the records the queue receives. The generator's timing, which reads `timeout` and `running` only when the first payload is sent, is not modelled.
- BreakPoints.Breakpoint: `DifferenceBreakpoint` is not a separate subclass. One class with a `difference` flag stands for both classes, with the two name-mangled positions as two fields.

## Findings

| source | as written | input that shows it | evidently intended | confidence | as-written member | corrected member |
|---|---|---|---|---|---|---|
| debugger/client/backend/client.py:71 | `line.split("data: ")[1]` keeps only the text between the first and the second "data: " | a trace record whose JSON text contains `data: `, e.g. the JSON string `"data: "` from an event so named: the line `data: "data: "` yields `"` | everything after the first "data: " is the record's JSON text | not executed; follows from the semantics of str.split | Client.SplitSecond (Client.SplitSecondCutsData) | Client.AfterFirstMarker (Client.AfterFirstMarkerReadsData) |

The rest of the client model takes the records as already decoded, which is
the corrected reading.
