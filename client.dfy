/**
 * The client's backend: it relays the server's record stream to any number of
 * browser streams, keeps every trace record it has seen by id, builds the
 * stop-if-different breakpoint from an imported model, and keeps its own copy
 * of the breakpoints the frontend has sent.
 *
 * Records arrive already decoded from JSON, and the payloads the client sends
 * are given as values; the JSON text and the HTTP calls around them are not
 * modelled.
 */
module Client {
  import opened Errors
  import opened Text
  import opened Trace
  import opened BreakPoints
  import Listener

  // ===========================================================================
  // Insertion-ordered dictionaries with string keys

  /** One key-value pair of a Python dict, which remembers insertion order. */
  datatype Item<V> = Item(key: string, value: V)

  function Keys<V>(d: seq<Item<V>>): (ks: seq<string>)
    ensures |ks| == |d| && forall i | 0 <= i < |d| :: ks[i] == d[i].key
  {
    seq(|d|, i requires 0 <= i < |d| => d[i].key)
  }

  predicate UniqueKeys<V>(d: seq<Item<V>>)
  {
    forall i, j | 0 <= i < j < |d| :: d[i].key != d[j].key
  }

  /** The position of key k, if it is present. */
  function Find<V>(d: seq<Item<V>>, k: string): (r: Option<nat>)
    ensures r.None? <==> k !in Keys(d)
    ensures r.Some? ==>
      && r.value < |d| && d[r.value].key == k
      && forall i | 0 <= i < r.value :: d[i].key != k
  {
    if d == [] then None
    else if d[0].key == k then Some(0)
    else
      match Find(d[1..], k)
      case None => None
      case Some(i) => Some(i + 1)
  }

  /** d.get(k). */
  function Lookup<V>(d: seq<Item<V>>, k: string): Option<V>
  {
    match Find(d, k)
    case None => None
    case Some(i) => Some(d[i].value)
  }

  /** d[k] = v: an existing key keeps its place, a new one goes last. */
  function Put<V>(d: seq<Item<V>>, k: string, v: V): seq<Item<V>>
  {
    match Find(d, k)
    case None => d + [Item(k, v)]
    case Some(i) => d[i := Item(k, v)]
  }

  /** d.pop(k): the pairs without k, or a KeyError when k is absent. */
  function Pop<V>(d: seq<Item<V>>, k: string): Result<seq<Item<V>>>
  {
    match Find(d, k)
    case None => Err(MissingKey(k))
    case Some(i) => Ok(d[..i] + d[i + 1..])
  }

  /** A key is found at its first occurrence. */
  lemma {:induction false} FindFirst<V>(d: seq<Item<V>>, k: string, i: nat)
    requires i < |d| && d[i].key == k && forall j | 0 <= j < i :: d[j].key != k
    ensures Find(d, k) == Some(i)
  {
    if i > 0 {
      FindFirst(d[1..], k, i - 1);
    }
  }

  /** In a dict with unique keys a key is found where it sits. */
  lemma FindAt<V>(d: seq<Item<V>>, k: string, i: nat)
    requires UniqueKeys(d) && i < |d| && d[i].key == k
    ensures Find(d, k) == Some(i)
  {
    assert forall j | 0 <= j < i :: d[j].key != d[i].key;
    FindFirst(d, k, i);
  }

  /** The pairs of d without the one at position i. */
  lemma RemoveAt<V>(d: seq<Item<V>>, i: nat, r: seq<Item<V>>)
    requires i < |d| && r == d[..i] + d[i + 1..]
    ensures |r| + 1 == |d|
    ensures forall j | 0 <= j < |r| :: r[j] == d[if j < i then j else j + 1]
  {
  }

  lemma UniqueKeysRemoveAt<V>(d: seq<Item<V>>, i: nat, r: seq<Item<V>>)
    requires UniqueKeys(d) && i < |d| && r == d[..i] + d[i + 1..]
    ensures UniqueKeys(r) && d[i].key !in Keys(r)
  {
    RemoveAt(d, i, r);
    forall a, b | 0 <= a < b < |r|
      ensures r[a].key != r[b].key
    {
      var a', b' := if a < i then a else a + 1, if b < i then b else b + 1;
      assert r[a] == d[a'] && r[b] == d[b'] && a' < b';
    }
    forall j | 0 <= j < |r|
      ensures r[j].key != d[i].key
    {
      var j' := if j < i then j else j + 1;
      assert r[j] == d[j'] && j' != i;
    }
  }

  /** Removing the pair at position i leaves the other keys in their order in d. */
  lemma RemoveAtKeepsOrder<V>(d: seq<Item<V>>, i: nat, r: seq<Item<V>>)
    requires UniqueKeys(d) && i < |d| && r == d[..i] + d[i + 1..]
    ensures KeysInOrderOf(r, d)
  {
    RemoveAt(d, i, r);
    forall a, b | 0 <= a < b < |r|
      ensures && Find(d, r[a].key).Some? && Find(d, r[b].key).Some?
              && Find(d, r[a].key).value < Find(d, r[b].key).value
    {
      var a', b' := if a < i then a else a + 1, if b < i then b else b + 1;
      assert r[a] == d[a'] && r[b] == d[b'];
      FindAt(d, r[a].key, a');
      FindAt(d, r[b].key, b');
    }
  }

  /** After d[k] = v the key reads back v, every other key reads as before, and the key order grows only by a new key. */
  lemma PutLookup<V>(d: seq<Item<V>>, k: string, v: V)
    requires UniqueKeys(d)
    ensures UniqueKeys(Put(d, k, v))
    ensures Lookup(Put(d, k, v), k) == Some(v)
    ensures forall k' | k' != k :: Lookup(Put(d, k, v), k') == Lookup(d, k')
    ensures Keys(Put(d, k, v)) == if k in Keys(d) then Keys(d) else Keys(d) + [k]
  {
    var r := Put(d, k, v);
    var at := if Find(d, k).Some? then Find(d, k).value else |d|;
    assert at < |r| && r[at] == Item(k, v);
    assert forall j | 0 <= j < |r| && j != at :: r[j] == d[j];
    assert Keys(r) == if k in Keys(d) then Keys(d) else Keys(d) + [k];
    assert UniqueKeys(r);
    FindAt(r, k, at);
    forall k' | k' != k
      ensures Lookup(r, k') == Lookup(d, k')
    {
      match Find(d, k')
      case None =>
        assert k' !in Keys(r);
      case Some(j) =>
        FindAt(r, k', j);
    }
  }

  /** Every key of r is a key of d, and r lists them in the order d does. */
  predicate KeysInOrderOf<V>(r: seq<Item<V>>, d: seq<Item<V>>)
  {
    forall a, b | 0 <= a < b < |r| ::
      && Find(d, r[a].key).Some? && Find(d, r[b].key).Some?
      && Find(d, r[a].key).value < Find(d, r[b].key).value
  }

  /** After d.pop(k) the key is gone, every other key reads as before and keeps its order. */
  lemma PopLookup<V>(d: seq<Item<V>>, k: string)
    requires UniqueKeys(d)
    ensures Pop(d, k).Err? <==> k !in Keys(d)
    ensures Pop(d, k).Ok? ==>
      var r := Pop(d, k).value;
      && UniqueKeys(r) && Lookup(r, k) == None
      && (forall k' | k' != k :: Lookup(r, k') == Lookup(d, k'))
      && |r| + 1 == |d|
      && KeysInOrderOf(r, d)
  {
    if Find(d, k).Some? {
      var i := Find(d, k).value;
      var r := d[..i] + d[i + 1..];
      assert Pop(d, k) == Ok(r);
      assert UniqueKeys(r) && Lookup(r, k) == None by {
        UniqueKeysRemoveAt(d, i, r);
      }
      assert |r| + 1 == |d| && forall k' | k' != k :: Lookup(r, k') == Lookup(d, k') by {
        RemoveAtLookup(d, i, r);
      }
      RemoveAtKeepsOrder(d, i, r);
    }
  }

  /** Removing the pair at position i changes no lookup but that of its key. */
  lemma RemoveAtLookup<V>(d: seq<Item<V>>, i: nat, r: seq<Item<V>>)
    requires UniqueKeys(d) && i < |d| && r == d[..i] + d[i + 1..]
    ensures |r| + 1 == |d|
    ensures forall k' | k' != d[i].key :: Lookup(r, k') == Lookup(d, k')
  {
    RemoveAt(d, i, r);
    UniqueKeysRemoveAt(d, i, r);
    forall k' | k' != d[i].key
      ensures Lookup(r, k') == Lookup(d, k')
    {
      RemoveAtLookupOf(d, i, r, k');
    }
  }

  lemma RemoveAtLookupOf<V>(d: seq<Item<V>>, i: nat, r: seq<Item<V>>, k': string)
    requires UniqueKeys(d) && UniqueKeys(r) && i < |d| && |r| + 1 == |d| && k' != d[i].key
    requires forall j | 0 <= j < |r| :: r[j] == d[if j < i then j else j + 1]
    ensures Lookup(r, k') == Lookup(d, k')
  {
    match Find(d, k')
    case None =>
      forall j | 0 <= j < |r|
        ensures Keys(r)[j] != k'
      {
        var j' := if j < i then j else j + 1;
        assert r[j] == d[j'] && Keys(d)[j'] == d[j'].key;
      }
    case Some(j) =>
      var at := if j < i then j else j - 1;
      assert r[at] == d[j];
      FindAt(r, k', at);
  }

  // ===========================================================================
  // Queues

  /** queue.Queue(maxsize): a FIFO that is full once maxsize > 0 items are queued. */
  class MessageQueue {
    var items: seq<Message>
    const maxsize: nat

    constructor (maxsize: nat)
      ensures items == [] && this.maxsize == maxsize
    {
      items := [];
      this.maxsize := maxsize;
    }

    predicate Full()
      reads this
    {
      0 < maxsize <= |items|
    }

    predicate Empty()
      reads this
    {
      |items| == 0
    }

    /** put(): blocks on a full queue, so it is only called on one that is not full. */
    method Put(m: Message)
      requires !Full()
      modifies this
      ensures items == old(items) + [m]
    {
      items := items + [m];
    }

    /** get(): blocks on an empty queue, so it is only called on one that is not empty. */
    method Get() returns (m: Message)
      requires !Empty()
      modifies this
      ensures [m] + items == old(items)
    {
      m := items[0];
      items := items[1..];
    }
  }

  /** The queues of s that are not in gone, in order. */
  function Without(s: seq<MessageQueue>, gone: set<MessageQueue>): (r: seq<MessageQueue>)
    ensures forall i | 0 <= i < |r| :: r[i] in s && r[i] !in gone
    ensures forall i | 0 <= i < |s| && s[i] !in gone :: s[i] in r
  {
    if s == [] then []
    else (if s[0] in gone then [] else [s[0]]) + Without(s[1..], gone)
  }

  /** The queues of s that are in gone, in order. */
  function Among(s: seq<MessageQueue>, gone: set<MessageQueue>): (r: seq<MessageQueue>)
    ensures forall i | 0 <= i < |r| :: r[i] in s && r[i] in gone
    ensures forall i | 0 <= i < |s| && s[i] in gone :: s[i] in r
  {
    if s == [] then []
    else (if s[0] in gone then [s[0]] else []) + Among(s[1..], gone)
  }

  /**
   * Without keeps each queue in place: dropping from a + b drops from a, then
   * from b. With the one-queue case of its definition this fixes the result,
   * so the kept queues come out in their original order.
   */
  lemma {:induction false} WithoutAppend(a: seq<MessageQueue>, b: seq<MessageQueue>, gone: set<MessageQueue>)
    ensures Without(a + b, gone) == Without(a, gone) + Without(b, gone)
  {
    if a == [] {
      assert a + b == b;
    } else {
      assert (a + b)[0] == a[0] && (a + b)[1..] == a[1..] + b;
      WithoutAppend(a[1..], b, gone);
      if a[0] !in gone {
        assert [a[0]] + (Without(a[1..], gone) + Without(b, gone)) == ([a[0]] + Without(a[1..], gone)) + Without(b, gone);
      }
    }
  }


  /** Among keeps each queue in place too: picking from a + b picks from a, then from b. */
  lemma {:induction false} AmongAppend(a: seq<MessageQueue>, b: seq<MessageQueue>, gone: set<MessageQueue>)
    ensures Among(a + b, gone) == Among(a, gone) + Among(b, gone)
  {
    if a == [] {
      assert a + b == b;
    } else {
      assert (a + b)[0] == a[0] && (a + b)[1..] == a[1..] + b;
      AmongAppend(a[1..], b, gone);
      if a[0] in gone {
        assert [a[0]] + (Among(a[1..], gone) + Among(b, gone)) == ([a[0]] + Among(a[1..], gone)) + Among(b, gone);
      }
    }
  }


  /** The queues of qs that are full now. */
  ghost function FullAmong(qs: seq<MessageQueue>): set<MessageQueue>
    reads qs
  {
    set q | q in qs && q.Full()
  }

  predicate Distinct(s: seq<MessageQueue>)
  {
    forall i, j | 0 <= i < j < |s| :: s[i] != s[j]
  }

  /** list.remove(x): drops the first occurrence of x. */
  function RemoveFirst(s: seq<MessageQueue>, x: MessageQueue): (r: seq<MessageQueue>)
    requires x in s
    ensures |r| + 1 == |s|
  {
    if s[0] == x then s[1..] else [s[0]] + RemoveFirst(s[1..], x)
  }

  lemma {:induction false} AmongSnoc(s: seq<MessageQueue>, x: MessageQueue, gone: set<MessageQueue>)
    ensures Among(s + [x], gone) == Among(s, gone) + (if x in gone then [x] else [])
  {
    if s == [] {
      assert s + [x] == [x];
    } else {
      assert (s + [x])[0] == s[0];
      assert (s + [x])[1..] == s[1..] + [x];
      AmongSnoc(s[1..], x, gone);
    }
  }

  /** Removing a queue that occurs once is the same as leaving it out. */
  lemma {:induction false} RemoveFirstWithout(s: seq<MessageQueue>, gone: set<MessageQueue>, x: MessageQueue)
    requires Distinct(s) && x in s && x !in gone
    ensures x in Without(s, gone)
    ensures RemoveFirst(Without(s, gone), x) == Without(s, gone + {x})
  {
    var w := Without(s[1..], gone);
    if s[0] == x {
      assert Without(s, gone) == [x] + w;
      assert forall j | 1 <= j < |s| :: s[j] != s[0];
      assert x !in s[1..];
      WithoutAbsent(s[1..], gone, x);
      assert Without(s, gone + {x}) == Without(s[1..], gone + {x});
    } else {
      assert x in s[1..];
      assert Distinct(s[1..]) by {
        assert forall i, j | 0 <= i < j < |s| - 1 :: s[1..][i] == s[i + 1] && s[1..][j] == s[j + 1];
      }
      RemoveFirstWithout(s[1..], gone, x);
      if s[0] in gone {
        assert Without(s, gone) == w;
        assert Without(s, gone + {x}) == Without(s[1..], gone + {x});
      } else {
        assert Without(s, gone) == [s[0]] + w;
        assert Without(s, gone + {x}) == [s[0]] + Without(s[1..], gone + {x});
      }
    }
  }

  /** Leaving queues out keeps the rest distinct. */
  lemma {:induction false} WithoutDistinct(s: seq<MessageQueue>, gone: set<MessageQueue>)
    requires Distinct(s)
    ensures Distinct(Without(s, gone))
  {
    if s != [] {
      assert Distinct(s[1..]) by {
        assert forall i, j | 0 <= i < j < |s| - 1 :: s[1..][i] == s[i + 1] && s[1..][j] == s[j + 1];
      }
      WithoutDistinct(s[1..], gone);
      assert s[0] !in s[1..];
    }
  }

  lemma {:induction false} AmongDistinct(s: seq<MessageQueue>, gone: set<MessageQueue>)
    requires Distinct(s)
    ensures Distinct(Among(s, gone))
  {
    if s != [] {
      assert Distinct(s[1..]) by {
        assert forall i, j | 0 <= i < j < |s| - 1 :: s[1..][i] == s[i + 1] && s[1..][j] == s[j + 1];
      }
      AmongDistinct(s[1..], gone);
      assert s[0] !in s[1..];
    }
  }

  /** Leaving out nothing keeps every queue. */
  lemma {:induction false} WithoutNothing(s: seq<MessageQueue>)
    ensures Without(s, {}) == s
  {
    if s != [] {
      WithoutNothing(s[1..]);
    }
  }

  lemma {:induction false} WithoutAbsent(s: seq<MessageQueue>, gone: set<MessageQueue>, x: MessageQueue)
    requires x !in s
    ensures Without(s, gone) == Without(s, gone + {x})
  {
    if s != [] {
      WithoutAbsent(s[1..], gone, x);
    }
  }

  /** Leaving out sets that agree on the elements of s leaves out the same queues. */
  lemma {:induction false} WithoutAgree(s: seq<MessageQueue>, a: set<MessageQueue>, b: set<MessageQueue>)
    requires forall q | q in s :: q in a <==> q in b
    ensures Without(s, a) == Without(s, b)
  {
    if s != [] {
      WithoutAgree(s[1..], a, b);
    }
  }

  /** The second loop of the fan-out: list.remove for each queue found full. */
  method RemoveEach(c0: seq<MessageQueue>, toRemove: seq<MessageQueue>, ghost gone: set<MessageQueue>)
    returns (kept: seq<MessageQueue>)
    requires Distinct(c0) && toRemove == Among(c0, gone)
    ensures kept == Without(c0, gone) && Distinct(kept)
  {
    kept := c0;
    ghost var removed: set<MessageQueue> := {};
    WithoutNothing(c0);
    AmongDistinct(c0, gone);
    for k := 0 to |toRemove|
      invariant forall j | 0 <= j < k :: toRemove[j] in removed
      invariant forall q | q in removed :: q in toRemove[..k]
      invariant kept == Without(c0, removed)
    {
      var q := toRemove[k];
      assert q !in removed by {
        assert forall j | 0 <= j < k :: toRemove[j] != q;
      }
      RemoveFirstWithout(c0, removed, q);
      kept := RemoveFirst(kept, q);
      removed := removed + {q};
    }
    assert forall q | q in c0 :: q in removed <==> q in gone by {
      assert toRemove[..|toRemove|] == toRemove;
    }
    WithoutAgree(c0, removed, gone);
    WithoutDistinct(c0, gone);
  }

  // ===========================================================================
  // The stream sent to a browser

  /** What __client_listen sends, before JSON encoding. */
  datatype Payload =
    | Initial(timeout: real, parameters: map<string, Parameter>, running: bool)
    | TraceSummary(selected: string, parameters: map<string, Parameter>, id: int)
    | Relayed(m: Message)

  /** A trace record cut down to type/selected/parameters/id; any other record unchanged. */
  function Project(m: Message): Payload
  {
    match m
    case Trace(r) => TraceSummary(r.selected, r.parameters, r.id)
    case Info(_, _, _) => Relayed(m)
  }

  /** A summary and the two fields it drops give back the record. */
  function Restore(p: Payload, threads: seq<ThreadInfo>, datetime: real): Message
  {
    match p
    case TraceSummary(s, ps, id) => Trace(TraceRecord(s, threads, ps, datetime, id))
    case Relayed(m) => m
    case Initial(_, _, _) => Info(false, false, [])
  }

  /** The projection drops exactly b_thread_info and datetime of a trace record, and nothing of any other record. */
  lemma ProjectDropsOnlyThreadsAndTime(m: Message)
    ensures Project(m).TraceSummary? <==> m.Trace?
    ensures m.Trace? ==> Restore(Project(m), m.record.threads, m.record.datetime) == m
    ensures m.Info? ==> forall ts: seq<ThreadInfo>, d: real :: Restore(Project(m), ts, d) == m
  {
  }

  /** Records that differ only in b_thread_info and datetime are sent alike. */
  lemma ProjectForgets(r: TraceRecord, threads: seq<ThreadInfo>, datetime: real)
    ensures Project(Trace(r)) == Project(Trace(r.(threads := threads, datetime := datetime)))
  {
  }

  /** stream(): the initial payload, then every queued record projected, in order. */
  function Stream(first: Payload, ms: seq<Message>): (ps: seq<Payload>)
  {
    if ms == [] then [first] else Stream(first, ms[..|ms| - 1]) + [Project(ms[|ms| - 1])]
  }

  lemma {:induction false} StreamShape(first: Payload, ms: seq<Message>)
    ensures |Stream(first, ms)| == |ms| + 1 && Stream(first, ms)[0] == first
    ensures forall i | 0 <= i < |ms| :: Stream(first, ms)[i + 1] == Project(ms[i])
  {
    if ms != [] {
      StreamShape(first, ms[..|ms| - 1]);
    }
  }

  // ===========================================================================
  // Reading a line of the server's stream

  /** Whether the separator "data: " starts at position i of s. */
  predicate MarkerAt(s: string, i: nat)
  {
    i + 6 <= |s| && s[i..i + 6] == "data: "
  }

  /** The first position at or after `from` where "data: " starts, or |s| when there is none. */
  function NextMarker(s: string, from: nat): (k: nat)
    requires from <= |s|
    ensures from <= k <= |s|
    ensures k < |s| ==> MarkerAt(s, k)
    ensures forall i | from <= i < k :: !MarkerAt(s, i)
    decreases |s| - from
  {
    if from == |s| || MarkerAt(s, from) then from else NextMarker(s, from + 1)
  }

  /**
   * line.split("data: ")[1], as __listen_to_server cuts the JSON text out of a
   * line: the text between the first separator and the next one, or the end
   * of the line; an IndexError when the line holds no separator.
   */
  function SplitSecond(line: string): Result<string>
  {
    var a := NextMarker(line, 0);
    if a == |line| then Err(IndexOutOfRange)
    else Ok(line[a + 6..NextMarker(line, a + 6)])
  }

  /** The JSON text after the first separator, whatever it contains. */
  function AfterFirstMarker(line: string): Result<string>
  {
    var a := NextMarker(line, 0);
    if a == |line| then Err(IndexOutOfRange) else Ok(line[a + 6..])
  }

  /**
   * Splitting reads the data back only while the data itself never contains
   * "data: ": the JSON text "data: " (a string holding the separator, as an
   * event named so would put into a trace record) is cut down to one quote.
   */
  lemma SplitSecondCutsData()
    ensures var d := "\"data: \"";
      SplitSecond("data: " + d) == Ok("\"") && SplitSecond("data: " + d) != Ok(d)
  {
    var line := "data: " + "\"" + "data: " + "\"";
    assert line == "data: " + "\"data: \"";
    assert line[0..6] == "data: " && line[7..13] == "data: ";
    assert line[6..12][0] == line[6] == '\"';
    assert NextMarker(line, 0) == 0;
    assert NextMarker(line, 6) == 7;
    assert line[6..7] == "\"";
  }

  /** Where the data holds no separator, splitting and the intended reading agree. */
  lemma SplitSecondAgrees(d: string)
    requires forall i | 0 <= i < |d| :: !MarkerAt(d, i)
    ensures SplitSecond("data: " + d) == AfterFirstMarker("data: " + d) == Ok(d)
  {
    var line := "data: " + d;
    assert line[0..6] == "data: " && line[6..] == d;
    assert MarkerAt(line, 0) && NextMarker(line, 0) == 0;
    forall i | 6 <= i < |line|
      ensures !MarkerAt(line, i)
    {
      if i + 6 <= |line| {
        assert line[i..i + 6] == d[i - 6..i];
        assert !MarkerAt(d, i - 6);
      }
    }
    assert NextMarker(line, 6) == |line|;
    assert line[6..|line|] == d;
    assert SplitSecond(line) == Ok(d);
    assert AfterFirstMarker(line) == Ok(d);
  }

  /** The data line of any message the server formats reads back as exactly its data. */
  lemma AfterFirstMarkerReadsData(d: string)
    ensures var msg := Listener.FormatSse(d, None);
      AfterFirstMarker(msg[..|msg| - 2]) == Ok(d)
  {
    var msg := Listener.FormatSse(d, None);
    var line := msg[..|msg| - 2];
    assert line == "data: " + d;
    assert MarkerAt(line, 0);
  }

  // ===========================================================================
  // The stop-if-different breakpoint

  /** {"name": "EVENT_SELECTED", "value": selected, "kind": "flat"}. */
  function SelectedEntry(selected: string): JsonPredicate
  {
    JsonPredicate("EVENT_SELECTED", "flat", selected, [])
  }

  /** The selected events of the imported states, one flat predicate each, in import order. */
  function ImportedChain(imported: seq<Item<TraceRecord>>): (chain: seq<JsonPredicate>)
    ensures |chain| == |imported|
    ensures forall i | 0 <= i < |imported| :: chain[i] == SelectedEntry(imported[i].value.selected)
  {
    if imported == [] then []
    else ImportedChain(imported[..|imported| - 1]) + [SelectedEntry(imported[|imported| - 1].value.selected)]
  }

  /**
   * The server builds the stop-if-different breakpoint this payload describes:
   * a difference breakpoint comparing the imported selected events in order,
   * starting at the payload's position.
   */
  lemma StopIfDifferentOnServer(imported: seq<Item<TraceRecord>>, position: int)
    ensures var j := JsonBreakpoint("0", ImportedChain(imported), None, Some(position));
      forall i | 0 <= i < |j.chain| :: ChainEntry(j.chain[i]) == Ok(EventSelected(imported[i].value.selected))
  {
  }

  /** Each trace record is stored under str(its id). */
  predicate KeyedById(d: seq<Item<TraceRecord>>)
  {
    forall i | 0 <= i < |d| :: d[i].key == IntToString(d[i].value.id)
  }

  /** Each breakpoint is stored under its own id. */
  predicate KeyedByOwnId(d: seq<Item<JsonBreakpoint>>)
  {
    forall i | 0 <= i < |d| :: d[i].key == d[i].value.id
  }

  // ===========================================================================
  // The application

  class App {
    /** __backup_queue: every trace record so far, for streams that start late. */
    const backup: MessageQueue
    /** __consumer_queues: one queue per open browser stream. */
    var consumers: seq<MessageQueue>
    /** __id_by_state: the trace records seen, by str(id). */
    var idByState: seq<Item<TraceRecord>>
    /** __imported_id_by_state: the states of an uploaded model. */
    var importedIdByState: seq<Item<TraceRecord>>
    var timeout: real
    var initialParameters: map<string, Parameter>
    var running: bool
    /** __json_breakpoints: the breakpoints the frontend has sent, by id. */
    var jsonBreakpoints: seq<Item<JsonBreakpoint>>

    ghost predicate Valid()
      reads this
    {
      && backup.maxsize == 0
      && backup !in consumers
      && (forall q | q in consumers :: q.maxsize == 0)
      && Distinct(consumers)
      && UniqueKeys(idByState) && KeyedById(idByState)
      && UniqueKeys(importedIdByState)
      && UniqueKeys(jsonBreakpoints) && KeyedByOwnId(jsonBreakpoints)
    }

    constructor ()
      ensures Valid() && fresh(backup) && backup.items == []
      ensures consumers == [] && idByState == [] && importedIdByState == [] && jsonBreakpoints == []
      ensures timeout == 0.0 && initialParameters == map[] && !running
    {
      backup := new MessageQueue(0);
      consumers := [];
      idByState := [];
      importedIdByState := [];
      timeout := 0.0;
      initialParameters := map[];
      running := false;
      jsonBreakpoints := [];
    }

    /**
     * __create_queue_from_backup: a new unbounded queue holding the backup's
     * records in order, registered as a consumer; the backup ends as it began.
     */
    method CreateQueueFromBackup() returns (q: MessageQueue)
      requires Valid()
      modifies this, backup
      ensures Valid() && fresh(q) && q.maxsize == 0
      ensures q.items == old(backup.items) && backup.items == old(backup.items)
      ensures consumers == old(consumers) + [q]
      ensures idByState == old(idByState) && importedIdByState == old(importedIdByState)
      ensures jsonBreakpoints == old(jsonBreakpoints) && running == old(running)
      ensures timeout == old(timeout) && initialParameters == old(initialParameters)
    {
      q := new MessageQueue(0);
      var toReAdd: seq<Message> := [];
      while !backup.Empty()
        invariant fresh(q) && q.maxsize == 0 && q != backup
        invariant toReAdd + backup.items == old(backup.items) && q.items == toReAdd
        modifies backup, q
        decreases |backup.items|
      {
        var element := backup.Get();
        toReAdd := toReAdd + [element];
        q.Put(element);
      }
      consumers := consumers + [q];
      for k := 0 to |toReAdd|
        invariant backup.items == toReAdd[..k]
        modifies backup
      {
        backup.Put(toReAdd[k]);
      }
    }

    /**
     * The body of __listen_to_server's loop for one record: a trace record is
     * kept by id and backed up, any other record sets the running flag; then
     * the record is fanned out to the consumers.
     */
    method Receive(m: Message)
      requires Valid()
      modifies this, backup, consumers
      ensures Valid()
      ensures m.Trace? ==>
        && idByState == Put(old(idByState), IntToString(m.record.id), m.record)
        && backup.items == old(backup.items) + [m] && running == old(running)
      ensures m.Info? ==>
        idByState == old(idByState) && backup.items == old(backup.items) && running == !m.paused
      ensures consumers == Without(old(consumers), old(FullAmong(consumers)))
      ensures consumers == old(consumers) && forall q | q in consumers :: q.items == old(q.items) + [m]
      ensures importedIdByState == old(importedIdByState) && jsonBreakpoints == old(jsonBreakpoints)
      ensures timeout == old(timeout) && initialParameters == old(initialParameters)
    {
      if m.Trace? {
        var key := IntToString(m.record.id);
        PutLookup(idByState, key, m.record);
        PutKeyedById(idByState, m.record);
        idByState := Put(idByState, key, m.record);
        backup.Put(m);
      } else {
        running := !m.paused;
      }
      FanOut(m);
    }

    /** Fills every consumer queue that is not full and drops the full ones. */
    method FanOut(m: Message)
      requires Valid()
      modifies this, consumers
      ensures Valid()
      ensures consumers == Without(old(consumers), old(FullAmong(consumers)))
      ensures consumers == old(consumers) && forall q | q in consumers :: q.items == old(q.items) + [m]
      ensures idByState == old(idByState) && importedIdByState == old(importedIdByState)
      ensures jsonBreakpoints == old(jsonBreakpoints) && running == old(running)
      ensures timeout == old(timeout) && initialParameters == old(initialParameters)
    {
      ghost var gone := FullAmong(consumers);
      assert gone == {};
      WithoutNothing(consumers);
      var c0 := consumers;
      var toRemove := FillConsumers(m);
      var kept := RemoveEach(c0, toRemove, gone);
      consumers := kept;
    }

    /** The first loop of the fan-out: puts m on every queue that is not full and lists the full ones. */
    method FillConsumers(m: Message) returns (toRemove: seq<MessageQueue>)
      requires Distinct(consumers)
      modifies consumers
      ensures toRemove == Among(consumers, old(FullAmong(consumers)))
      ensures forall q | q in consumers ::
        q.items == if old(q.Full()) then old(q.items) else old(q.items) + [m]
    {
      var qs := consumers;
      ghost var gone := FullAmong(qs);
      toRemove := [];
      for i := 0 to |qs|
        invariant toRemove == Among(qs[..i], gone)
        invariant forall j | 0 <= j < i ::
          qs[j].items == if qs[j] in gone then old(qs[j].items) else old(qs[j].items) + [m]
        invariant forall j | i <= j < |qs| :: qs[j].items == old(qs[j].items)
      {
        var q := qs[i];
        assert qs[..i + 1] == qs[..i] + [q];
        AmongSnoc(qs[..i], q, gone);
        if q.Full() {
          toRemove := toRemove + [q];
        } else {
          q.Put(m);
          assert forall j | 0 <= j < |qs| && j != i :: qs[j] != q;
        }
      }
      assert qs[..|qs|] == qs;
    }

    /**
     * __client_listen: registers a queue for a new browser stream; the stream
     * then sends the initial payload and each record the queue receives, as
     * Stream describes.
     */
    method ClientListen() returns (q: MessageQueue, first: Payload)
      requires Valid()
      modifies this, backup
      ensures Valid() && fresh(q) && q.items == old(backup.items) && consumers == old(consumers) + [q]
      ensures backup.items == old(backup.items)
      ensures first == Initial(old(timeout), old(initialParameters), old(running))
      ensures idByState == old(idByState) && importedIdByState == old(importedIdByState)
      ensures jsonBreakpoints == old(jsonBreakpoints) && running == old(running)
      ensures timeout == old(timeout) && initialParameters == old(initialParameters)
    {
      q := CreateQueueFromBackup();
      first := Initial(timeout, initialParameters, running);
    }

    /** __enable_stop_if_different: the breakpoint payload posted to the server. */
    method EnableStopIfDifferent() returns (j: JsonBreakpoint)
      requires Valid()
      ensures j.id == "0" && j.paused.None?
      ensures j.currentPosition == Some(if idByState == [] then 0 else idByState[|idByState| - 1].value.id + 1)
      ensures |j.chain| == |importedIdByState|
      ensures forall i | 0 <= i < |importedIdByState| ::
        j.chain[i] == SelectedEntry(importedIdByState[i].value.selected)
    {
      var currentPosition := 0;
      if |idByState| > 0 {
        var last := idByState[|idByState| - 1];
        ParseIntToString(last.value.id);
        var parsed := ParseInt(last.key);
        currentPosition := parsed.value + 1;
      }
      j := JsonBreakpoint("0", ImportedChain(importedIdByState), None, Some(currentPosition));
    }

    /** __upload_model: stores the imported states and answers one trace summary per state, in order. */
    method UploadModel(imported: seq<Item<TraceRecord>>) returns (payload: seq<Payload>)
      requires Valid() && UniqueKeys(imported)
      modifies this
      ensures Valid() && importedIdByState == imported
      ensures |payload| == |imported|
      ensures forall i | 0 <= i < |imported| :: payload[i] == Project(Trace(imported[i].value))
      ensures idByState == old(idByState) && consumers == old(consumers) && jsonBreakpoints == old(jsonBreakpoints)
      ensures timeout == old(timeout) && initialParameters == old(initialParameters) && running == old(running)
    {
      importedIdByState := imported;
      payload := [];
      for i := 0 to |imported|
        invariant |payload| == i
        invariant forall k | 0 <= k < i :: payload[k] == Project(Trace(imported[k].value))
      {
        var value := imported[i].value;
        payload := payload + [TraceSummary(value.selected, value.parameters, value.id)];
      }
    }

    /** __start: the server is told to continue, and the client marks the program running. */
    method Start()
      requires Valid()
      modifies this
      ensures Valid() && running
      ensures consumers == old(consumers) && idByState == old(idByState) && importedIdByState == old(importedIdByState)
      ensures jsonBreakpoints == old(jsonBreakpoints) && timeout == old(timeout) && initialParameters == old(initialParameters)
    {
      running := true;
    }

    /** __set_timeout, with float(timeout) already applied: only the stored timeout changes. */
    method SetTimeout(t: real)
      requires Valid()
      modifies this
      ensures Valid() && timeout == t
      ensures consumers == old(consumers) && idByState == old(idByState) && importedIdByState == old(importedIdByState)
      ensures jsonBreakpoints == old(jsonBreakpoints) && running == old(running) && initialParameters == old(initialParameters)
    {
      timeout := t;
    }

    /** __connect_to_server: the server's parameter snapshot becomes the initial parameters. */
    method ConnectToServer(parameters: map<string, Parameter>)
      requires Valid()
      modifies this
      ensures Valid() && initialParameters == parameters
      ensures consumers == old(consumers) && idByState == old(idByState) && importedIdByState == old(importedIdByState)
      ensures jsonBreakpoints == old(jsonBreakpoints) && running == old(running) && timeout == old(timeout)
    {
      initialParameters := parameters;
    }

    /**
     * __get_state_data: the b_thread_info of a recorded state ("current") or
     * of an imported one (any other data type); a KeyError for an unknown id.
     */
    method GetStateData(current: bool, stateId: string) returns (r: Result<seq<ThreadInfo>>)
      requires Valid()
      ensures var d := if current then idByState else importedIdByState;
        && (r.Err? <==> stateId !in Keys(d))
        && (r.Err? ==> r.error == MissingKey(stateId))
        && (r.Ok? ==> forall i | 0 <= i < |d| && d[i].key == stateId :: d[i].value.threads == r.value)
    {
      var d := if current then idByState else importedIdByState;
      FindLookup(d, stateId);
      var found := Lookup(d, stateId);
      if found.None? {
        return Err(MissingKey(stateId));
      }
      r := Ok(found.value.threads);
    }

    /** __get_breakpoint: the stored breakpoints, in insertion order. */
    method GetBreakpoints() returns (bps: seq<JsonBreakpoint>)
      ensures |bps| == |jsonBreakpoints|
      ensures forall i | 0 <= i < |bps| :: bps[i] == jsonBreakpoints[i].value
    {
      bps := [];
      for i := 0 to |jsonBreakpoints|
        invariant |bps| == i
        invariant forall k | 0 <= k < i :: bps[k] == jsonBreakpoints[k].value
      {
        bps := bps + [jsonBreakpoints[i].value];
      }
    }

    /** __add_breakpoint: stores the breakpoint under its id, replacing one with that id. */
    method AddBreakpoint(j: JsonBreakpoint)
      requires Valid()
      modifies this
      ensures Valid()
      ensures Lookup(jsonBreakpoints, j.id) == Some(j)
      ensures forall k | k != j.id :: Lookup(jsonBreakpoints, k) == Lookup(old(jsonBreakpoints), k)
      ensures Keys(jsonBreakpoints) ==
        if j.id in Keys(old(jsonBreakpoints)) then Keys(old(jsonBreakpoints)) else Keys(old(jsonBreakpoints)) + [j.id]
      ensures idByState == old(idByState) && consumers == old(consumers) && running == old(running)
      ensures importedIdByState == old(importedIdByState)
      ensures timeout == old(timeout) && initialParameters == old(initialParameters)
    {
      PutLookup(jsonBreakpoints, j.id, j);
      PutKeyedByOwnId(jsonBreakpoints, j.id, j);
      jsonBreakpoints := Put(jsonBreakpoints, j.id, j);
    }

    /** __delete_breakpoint: pops the breakpoint; a KeyError when there is none with that id. */
    method DeleteBreakpoint(id: string) returns (r: Result<()>)
      requires Valid()
      modifies this
      ensures Valid()
      ensures r.Err? <==> id !in Keys(old(jsonBreakpoints))
      ensures r.Err? ==> r.error == MissingKey(id) && jsonBreakpoints == old(jsonBreakpoints)
      ensures r.Ok? ==> Lookup(jsonBreakpoints, id) == None && |jsonBreakpoints| + 1 == |old(jsonBreakpoints)|
      ensures r.Ok? ==> jsonBreakpoints == Pop(old(jsonBreakpoints), id).value
      ensures forall k | k != id :: Lookup(jsonBreakpoints, k) == Lookup(old(jsonBreakpoints), k)
      ensures idByState == old(idByState) && consumers == old(consumers) && running == old(running)
      ensures importedIdByState == old(importedIdByState)
      ensures timeout == old(timeout) && initialParameters == old(initialParameters)
    {
      PopLookup(jsonBreakpoints, id);
      var popped := Pop(jsonBreakpoints, id);
      if popped.Err? {
        return Err(popped.error);
      }
      PopKeyedByOwnId(jsonBreakpoints, id);
      jsonBreakpoints := popped.value;
      r := Ok(());
    }

    /** __pause_breakpoint (paused = true) and __unpause_breakpoint (paused = false). */
    method SetPaused(id: string, paused: bool) returns (r: Result<JsonBreakpoint>)
      requires Valid()
      modifies this
      ensures Valid()
      ensures r.Err? <==> id !in Keys(old(jsonBreakpoints))
      ensures r.Err? ==> r.error == MissingKey(id) && jsonBreakpoints == old(jsonBreakpoints)
      ensures r.Ok? ==>
        && Lookup(old(jsonBreakpoints), id) == Some(r.value.(paused := Lookup(old(jsonBreakpoints), id).value.paused))
        && r.value.paused == Some(paused)
        && Lookup(jsonBreakpoints, id) == Some(r.value)
        && Keys(jsonBreakpoints) == Keys(old(jsonBreakpoints))
      ensures forall k | k != id :: Lookup(jsonBreakpoints, k) == Lookup(old(jsonBreakpoints), k)
      ensures idByState == old(idByState) && consumers == old(consumers) && running == old(running)
      ensures importedIdByState == old(importedIdByState)
      ensures timeout == old(timeout) && initialParameters == old(initialParameters)
    {
      var current := Lookup(jsonBreakpoints, id);
      if current.None? {
        FindLookup(jsonBreakpoints, id);
        return Err(MissingKey(id));
      }
      var updated := current.value.(paused := Some(paused));
      FindLookup(jsonBreakpoints, id);
      PutLookup(jsonBreakpoints, id, updated);
      PutKeyedByOwnId(jsonBreakpoints, id, updated);
      jsonBreakpoints := Put(jsonBreakpoints, id, updated);
      r := Ok(updated);
    }
  }

  lemma FindLookup<V>(d: seq<Item<V>>, k: string)
    ensures Lookup(d, k).None? <==> k !in Keys(d)
    ensures Lookup(d, k).Some? ==> exists i | 0 <= i < |d| :: d[i] == Item(k, Lookup(d, k).value)
  {
    if Find(d, k).Some? {
      var i := Find(d, k).value;
      assert d[i] == Item(k, Lookup(d, k).value);
    }
  }

  lemma PutKeyedById(d: seq<Item<TraceRecord>>, rec: TraceRecord)
    requires KeyedById(d)
    ensures KeyedById(Put(d, IntToString(rec.id), rec))
  {
  }

  lemma PutKeyedByOwnId(d: seq<Item<JsonBreakpoint>>, k: string, j: JsonBreakpoint)
    requires KeyedByOwnId(d) && j.id == k
    ensures KeyedByOwnId(Put(d, k, j))
  {
  }

  lemma PopKeyedByOwnId(d: seq<Item<JsonBreakpoint>>, k: string)
    requires KeyedByOwnId(d) && Pop(d, k).Ok?
    ensures KeyedByOwnId(Pop(d, k).value)
  {
    var i := Find(d, k).value;
    RemoveAt(d, i, Pop(d, k).value);
  }
}
