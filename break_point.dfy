/**
 * The breakpoint engine: a predicate algebra evaluated against one trace
 * record, cyclic chain breakpoints, one-shot difference breakpoints, and the
 * repository that deduplicates breakpoints by the hash of their chain.
 */
module BreakPoints {
  import opened Errors
  import opened Text
  import opened Trace

  // ===========================================================================
  // Predicates

  datatype Predicate =
    | EventSelected(event: string)
    | EventRequested(event: string)
    | EventBlocked(event: string)
    | EventNumber(number: int)
    | And(children: seq<Predicate>)
    | Or(children: seq<Predicate>)

  /** attempt_solve: whether the predicate holds of one trace record. */
  predicate Eval(p: Predicate, rec: TraceRecord)
  {
    match p
    case EventSelected(e) => rec.selected == e
    case EventRequested(e) => exists i | 0 <= i < |rec.threads| :: e in rec.threads[i].request
    case EventBlocked(e) => exists i | 0 <= i < |rec.threads| :: e in rec.threads[i].block
    case EventNumber(n) => rec.id == n
    case And(cs) => forall i | 0 <= i < |cs| :: Eval(cs[i], rec)
    case Or(cs) => exists i | 0 <= i < |cs| :: Eval(cs[i], rec)
  }

  /**
   * attempt_solve as the classes run it: EventRequested and EventBlocked scan
   * b_thread_info and stop at the first entry naming the event; AND and OR
   * evaluate every child (the list is built before all/any looks at it).
   */
  method AttemptSolve(p: Predicate, rec: TraceRecord) returns (holds: bool)
    ensures holds == Eval(p, rec)
    decreases p
  {
    match p
    case EventSelected(e) =>
      holds := rec.selected == e;
    case EventRequested(e) =>
      holds := ScanThreads(rec.threads, e, true);
    case EventBlocked(e) =>
      holds := ScanThreads(rec.threads, e, false);
    case EventNumber(n) =>
      holds := rec.id == n;
    case And(cs) =>
      holds := true;
      for i := 0 to |cs|
        invariant holds == forall k | 0 <= k < i :: Eval(cs[k], rec)
      {
        var r := AttemptSolve(cs[i], rec);
        holds := holds && r;
      }
    case Or(cs) =>
      holds := false;
      for i := 0 to |cs|
        invariant holds == exists k | 0 <= k < i :: Eval(cs[k], rec)
      {
        var r := AttemptSolve(cs[i], rec);
        holds := holds || r;
      }
  }

  /** The loop of EventRequested/EventBlocked.attempt_solve: is e in the "request" (or "block") list of some entry? */
  method ScanThreads(threads: seq<ThreadInfo>, e: string, request: bool) returns (found: bool)
    ensures request ==> found == exists i | 0 <= i < |threads| :: e in threads[i].request
    ensures !request ==> found == exists i | 0 <= i < |threads| :: e in threads[i].block
  {
    for i := 0 to |threads|
      invariant request ==> forall k | 0 <= k < i :: e !in threads[k].request
      invariant !request ==> forall k | 0 <= k < i :: e !in threads[k].block
    {
      if e in (if request then threads[i].request else threads[i].block) {
        return true;
      }
    }
    return false;
  }

  /** hash: a leaf is tagged with its kind; AND/OR join their children's sorted hashes. */
  function Hash(p: Predicate): string
    decreases p, 1
  {
    match p
    case EventSelected(e) => "SELECTED:" + e
    case EventRequested(e) => "REQUESTED:" + e
    case EventBlocked(e) => "BLOCKED:" + e
    case EventNumber(n) => "NUMBER:" + IntToString(n)
    case And(cs) => Join(Sort(Hashes(cs)), "-AND-")
    case Or(cs) => Join(Sort(Hashes(cs)), "-OR-")
  }

  /** The hashes of a sequence of predicates, in order. */
  function Hashes(cs: seq<Predicate>): (hs: seq<string>)
    ensures |hs| == |cs| && forall i | 0 <= i < |cs| :: hs[i] == Hash(cs[i])
    decreases cs, 0
  {
    if cs == [] then [] else [Hash(cs[0])] + Hashes(cs[1..])
  }

  /** [f(x) for x in s]. */
  function MapSeq<A, B>(f: A -> B, s: seq<A>): (r: seq<B>)
    ensures |r| == |s| && forall i | 0 <= i < |s| :: r[i] == f(s[i])
  {
    seq(|s|, i requires 0 <= i < |s| => f(s[i]))
  }

  lemma MultisetWithout<T>(s: seq<T>, k: nat)
    requires k < |s|
    ensures multiset(s) == multiset{s[k]} + multiset(s[..k] + s[k + 1..])
  {
    assert s == s[..k] + [s[k]] + s[k + 1..];
  }

  lemma MapSeqWithout<A, B>(f: A -> B, s: seq<A>, k: nat)
    requires k < |s|
    ensures MapSeq(f, s[..k] + s[k + 1..]) == MapSeq(f, s)[..k] + MapSeq(f, s)[k + 1..]
  {
  }

  lemma MultisetCancel<T>(x: T, a: multiset<T>, b: multiset<T>)
    requires multiset{x} + a == multiset{x} + b
    ensures a == b
  {
    assert forall y :: a[y] == (multiset{x} + a)[y] - multiset{x}[y];
    assert forall y :: b[y] == (multiset{x} + b)[y] - multiset{x}[y];
  }

  /** Taking one element out of a sequence takes its image out of the mapped multiset. */
  lemma MapSeqMultisetWithout<A, B>(f: A -> B, s: seq<A>, k: nat)
    requires k < |s|
    ensures multiset(MapSeq(f, s)) == multiset{f(s[k])} + multiset(MapSeq(f, s[..k] + s[k + 1..]))
  {
    MapSeqWithout(f, s, k);
    MultisetWithout(MapSeq(f, s), k);
  }

  /** Mapping commutes with reordering: permuted inputs give permuted images. */
  lemma {:induction false} MapSeqPermutation<A, B>(f: A -> B, cs: seq<A>, ds: seq<A>)
    requires multiset(cs) == multiset(ds)
    ensures multiset(MapSeq(f, cs)) == multiset(MapSeq(f, ds))
    decreases |cs|
  {
    if cs != [] {
      var x := cs[0];
      assert x in multiset(ds);
      var k :| 0 <= k < |ds| && ds[k] == x;
      var cs', ds' := cs[..0] + cs[1..], ds[..k] + ds[k + 1..];
      assert multiset(cs') == multiset(ds') by {
        MultisetWithout(cs, 0);
        MultisetWithout(ds, k);
        MultisetCancel(x, multiset(cs'), multiset(ds'));
      }
      MapSeqPermutation(f, cs', ds');
      assert multiset(MapSeq(f, cs)) == multiset{f(x)} + multiset(MapSeq(f, cs')) by {
        MapSeqMultisetWithout(f, cs, 0);
      }
      assert multiset(MapSeq(f, ds)) == multiset{f(x)} + multiset(MapSeq(f, ds')) by {
        MapSeqMultisetWithout(f, ds, k);
      }
    }
  }

  /** Hashing commutes with reordering: permuted predicates give permuted hashes. */
  lemma HashesPermutation(cs: seq<Predicate>, ds: seq<Predicate>)
    requires multiset(cs) == multiset(ds)
    ensures multiset(Hashes(cs)) == multiset(Hashes(ds))
  {
    assert Hashes(cs) == MapSeq(Hash, cs);
    assert Hashes(ds) == MapSeq(Hash, ds);
    MapSeqPermutation(Hash, cs, ds);
  }

  /**
   * The hash of an AND or an OR does not depend on the order of its children:
   * breakpoints that differ only in that order deduplicate.
   */
  lemma HashOrderIndependent(cs: seq<Predicate>, ds: seq<Predicate>)
    requires multiset(cs) == multiset(ds)
    ensures Hash(And(cs)) == Hash(And(ds))
    ensures Hash(Or(cs)) == Hash(Or(ds))
  {
    HashesPermutation(cs, ds);
    SortPermutation(Hashes(cs), Hashes(ds));
  }

  /** hash_chain: the chain's predicate hashes, in chain order, joined with "--". */
  function HashChain(chain: seq<Predicate>): string
  {
    Join(Hashes(chain), "--")
  }

  /**
   * The chain hash is coarser than the chain: a single EventSelected whose name
   * contains "--SELECTED:" shares its hash with a two-step chain, so the
   * repository treats the second as a duplicate of the first.
   */
  lemma ChainHashCollision()
    ensures HashChain([EventSelected("a--SELECTED:b")])
         == HashChain([EventSelected("a"), EventSelected("b")])
    ensures [EventSelected("a--SELECTED:b")] != [EventSelected("a"), EventSelected("b")]
  {
    var two := [EventSelected("a"), EventSelected("b")];
    var hs := Hashes(two);
    assert hs[0] == "SELECTED:a" && hs[1] == "SELECTED:b";
    assert hs[1..] == ["SELECTED:b"];
    assert Join(hs, "--") == "SELECTED:a" + "--" + "SELECTED:b";
    var one := Hashes([EventSelected("a--SELECTED:b")]);
    assert one[0] == "SELECTED:a--SELECTED:b";
    assert Join(one, "--") == "SELECTED:a--SELECTED:b";
  }

  // ===========================================================================
  // Parsing (the from_json class methods and POSSIBLE_PREDICATES)

  datatype PredicateClass =
    | SelectedClass | RequestedClass | BlockedClass | NumberClass | AndClass | OrClass

  /** POSSIBLE_PREDICATES.get(name). */
  function Registry(name: string): Option<PredicateClass>
  {
    if name == "EVENT_SELECTED" then Some(SelectedClass)
    else if name == "EVENT_REQUESTED" then Some(RequestedClass)
    else if name == "EVENT_BLOCKED" then Some(BlockedClass)
    else if name == "EVENT_NUMBER" then Some(NumberClass)
    else if name == "AND" then Some(AndClass)
    else if name == "OR" then Some(OrClass)
    else None
  }

  /** cls.from_json(j) for one of the six predicate classes. */
  function FromJson(c: PredicateClass, j: JsonPredicate): Result<Predicate>
    decreases j
  {
    match c
    case SelectedClass => Ok(EventSelected(j.value))
    case RequestedClass => Ok(EventRequested(j.value))
    case BlockedClass => Ok(EventBlocked(j.value))
    case NumberClass =>
      (match ParseInt(j.value)
       case Ok(n) => Ok(EventNumber(n))
       case Err(e) => Err(e))
    case AndClass =>
      (match ChildrenFromJson(j.predicates)
       case Ok(cs) => Ok(And(cs))
       case Err(e) => Err(e))
    case OrClass =>
      (match ChildrenFromJson(j.predicates)
       case Ok(cs) => Ok(Or(cs))
       case Err(e) => Err(e))
  }

  /**
   * The children of an AND/OR, in order; an unregistered child name fails as
   * None.from_json does (an AttributeError, not the ValueError of the top level).
   */
  function ChildrenFromJson(js: seq<JsonPredicate>): Result<seq<Predicate>>
    decreases js
  {
    if js == [] then Ok([])
    else
      match Registry(js[0].name)
      case None => Err(NoPredicateClass(js[0].name))
      case Some(c) =>
        match FromJson(c, js[0])
        case Err(e) => Err(e)
        case Ok(p) =>
          match ChildrenFromJson(js[1..])
          case Err(e) => Err(e)
          case Ok(ps) => Ok([p] + ps)
  }

  /** One top-level chain entry: an unregistered name is a ValueError. */
  function ChainEntry(j: JsonPredicate): Result<Predicate>
  {
    match Registry(j.name)
    case None => Err(UnknownPredicate(j.name))
    case Some(c) => FromJson(c, j)
  }

  /** A predicate description every class of which is registered and whose numbers parse. */
  predicate WellFormed(j: JsonPredicate)
    decreases j
  {
    && Registry(j.name).Some?
    && (j.name == "EVENT_NUMBER" ==> ParseInt(j.value).Ok?)
    && ((j.name == "AND" || j.name == "OR") ==>
          forall i | 0 <= i < |j.predicates| :: WellFormed(j.predicates[i]))
  }

  /** Parsing a predicate succeeds exactly on well-formed descriptions. */
  lemma {:induction false} ChainEntryOk(j: JsonPredicate)
    ensures ChainEntry(j).Ok? <==> WellFormed(j)
  {
    if j.name == "AND" || j.name == "OR" {
      ChildrenOk(j.predicates);
    } else {
      FlatEntryOk(j);
    }
  }

  /** A flat entry parses iff its name is registered and, for EVENT_NUMBER, its value is an int. */
  lemma FlatEntryOk(j: JsonPredicate)
    requires j.name != "AND" && j.name != "OR"
    ensures ChainEntry(j).Ok? <==> WellFormed(j)
  {
    if j.name == "EVENT_NUMBER" {
      var n := ParseInt(j.value);
      assert ChainEntry(j) == if n.Ok? then Ok(EventNumber(n.value)) else Err(n.error);
    }
  }

  lemma {:induction false} ChildrenOk(js: seq<JsonPredicate>)
    ensures ChildrenFromJson(js).Ok? <==> forall i | 0 <= i < |js| :: WellFormed(js[i])
    ensures ChildrenFromJson(js).Ok? ==> |ChildrenFromJson(js).value| == |js|
    decreases js
  {
    if js != [] {
      ChainEntryOk(js[0]);
      ChildrenOk(js[1..]);
      assert forall i | 1 <= i < |js| :: js[i] == js[1..][i - 1];
    }
  }

  /** Every entry of a JSON chain parses. */
  predicate ChainParses(js: seq<JsonPredicate>)
  {
    forall i | 0 <= i < |js| :: ChainEntry(js[i]).Ok?
  }

  /** The predicates a JSON chain whose every entry parses stands for, in order. */
  function ParsedChain(js: seq<JsonPredicate>): (ps: seq<Predicate>)
    requires ChainParses(js)
    ensures |ps| == |js| && forall i | 0 <= i < |js| :: ChainEntry(js[i]) == Ok(ps[i])
  {
    if js == [] then [] else [ChainEntry(js[0]).value] + ParsedChain(js[1..])
  }

  /**
   * The loop of Breakpoint.from_json (and DifferenceBreakpoint.from_json):
   * parse the chain entries in order and stop at the first that fails.
   */
  method ParseChain(js: seq<JsonPredicate>) returns (r: Result<seq<Predicate>>)
    ensures r.Ok? ==> |r.value| == |js| && forall i | 0 <= i < |js| :: ChainEntry(js[i]) == Ok(r.value[i])
    ensures r.Err? ==> exists k | 0 <= k < |js| ::
      ChainEntry(js[k]) == Err(r.error) && forall i | 0 <= i < k :: ChainEntry(js[i]).Ok?
  {
    var predicates: seq<Predicate> := [];
    var i := 0;
    while i < |js|
      invariant 0 <= i <= |js| && |predicates| == i
      invariant forall k | 0 <= k < i :: ChainEntry(js[k]) == Ok(predicates[k])
    {
      var entry := ChainEntry(js[i]);
      if entry.Err? {
        return Err(entry.error);
      }
      predicates := predicates + [entry.value];
      i := i + 1;
    }
    return Ok(predicates);
  }

  // ===========================================================================
  // Advancing a chain

  /** The result of one advance: whether it fired and the new position, or the exception. */
  datatype Step = Moved(fired: bool, to: int) | Raised(error: Error)
  {
    function Outcome(): Result<bool>
    {
      if Moved? then Ok(fired) else Err(error)
    }

    function PositionAfter(from: int): int
    {
      if Moved? then to else from
    }
  }

  /** chain[i] in Python: a negative index counts from the end. */
  function PyIndex(i: int, n: nat): (k: nat)
    requires 0 <= i + n && i < n
    ensures k < n && (0 <= i ==> k == i) && (i < 0 ==> k == i + n)
  {
    if i < 0 then i + n else i
  }

  /**
   * Breakpoint.advance: match chain[position]; on a mismatch restart at 0 and
   * retry chain[0] on the same record; reaching the end fires and restarts.
   * Indexing past the chain (only possible for an empty chain) is an IndexError.
   */
  function PatternAdvance(chain: seq<Predicate>, position: nat, rec: TraceRecord): (s: Step)
    ensures s.Raised? <==> |chain| <= position
    ensures s.Moved? ==> 0 <= s.to < |chain| && (s.fired ==> s.to == 0)
  {
    if |chain| <= position then Raised(IndexOutOfRange)
    else
      var p :=
        if Eval(chain[position], rec) then position + 1
        else if Eval(chain[0], rec) then 1
        else 0;
      if p == |chain| then Moved(true, 0) else Moved(false, p)
  }

  /** A record that matches the current step moves one step on, firing exactly at the last. */
  lemma PatternMatchAdvances(chain: seq<Predicate>, position: nat, rec: TraceRecord)
    requires position < |chain| && Eval(chain[position], rec)
    ensures PatternAdvance(chain, position, rec)
         == if position + 1 == |chain| then Moved(true, 0) else Moved(false, position + 1)
  {
  }

  /**
   * The restart rule: a record that fails the current step restarts the match,
   * and is itself tried against chain[0].
   */
  lemma PatternRestart(chain: seq<Predicate>, position: nat, rec: TraceRecord)
    requires position < |chain| && !Eval(chain[position], rec)
    ensures !Eval(chain[0], rec) ==> PatternAdvance(chain, position, rec) == Moved(false, 0)
    ensures Eval(chain[0], rec) && |chain| > 1 ==> PatternAdvance(chain, position, rec) == Moved(false, 1)
    ensures Eval(chain[0], rec) && |chain| == 1 ==> PatternAdvance(chain, position, rec) == Moved(true, 0)
  {
  }

  /** Feeding records one after another to a fresh Breakpoint: the final position and every result. */
  function PatternRun(chain: seq<Predicate>, recs: seq<TraceRecord>): (r: (int, seq<bool>))
    requires chain != []
    ensures 0 <= r.0 < |chain| && |r.1| == |recs|
    decreases |recs|
  {
    if recs == [] then (0, [])
    else
      var before := PatternRun(chain, recs[..|recs| - 1]);
      var s := PatternAdvance(chain, before.0, recs[|recs| - 1]);
      (s.to, before.1 + [s.fired])
  }

  /** The last p records matched chain[0..p), in order. */
  ghost predicate MatchedSuffix(chain: seq<Predicate>, recs: seq<TraceRecord>, p: int)
  {
    0 <= p <= |recs| && p <= |chain|
    && forall k | 0 <= k < p :: Eval(chain[k], recs[|recs| - p + k])
  }

  /** The position of a Breakpoint counts how many of the latest records matched the chain's head. */
  lemma {:induction false} PatternRunInvariant(chain: seq<Predicate>, recs: seq<TraceRecord>)
    requires chain != []
    ensures MatchedSuffix(chain, recs, PatternRun(chain, recs).0)
    decreases |recs|
  {
    if recs != [] {
      PatternRunInvariant(chain, recs[..|recs| - 1]);
    }
  }

  /**
   * Soundness of a Breakpoint: whenever it fires, the last |chain| records fed
   * to it satisfied the chain's predicates in order.
   */
  lemma {:induction false} PatternFiresOnlyAfterFullMatch(chain: seq<Predicate>, recs: seq<TraceRecord>, t: nat)
    requires chain != [] && t < |recs| && PatternRun(chain, recs).1[t]
    ensures |chain| <= t + 1
    ensures forall k | 0 <= k < |chain| :: Eval(chain[k], recs[t + 1 - |chain| + k])
    decreases |recs|
  {
    var prefix := recs[..|recs| - 1];
    if t < |recs| - 1 {
      assert PatternRun(chain, recs).1[t] == PatternRun(chain, prefix).1[t];
      PatternFiresOnlyAfterFullMatch(chain, prefix, t);
    } else {
      PatternRunInvariant(chain, prefix);
      var p := PatternRun(chain, prefix).0;
      assert Eval(chain[p], recs[t]);
      assert p + 1 == |chain|;
    }
  }

  /**
   * The cyclic behaviour: from position 0, records that satisfy the chain in
   * order fire on the last of them only, and leave the breakpoint at 0 again.
   */
  lemma {:induction false} PatternFullTraversal(chain: seq<Predicate>, recs: seq<TraceRecord>, n: nat)
    requires chain != [] && |recs| == |chain| && n <= |chain|
    requires forall k | 0 <= k < |chain| :: Eval(chain[k], recs[k])
    ensures PatternRun(chain, recs[..n]).0 == if n == |chain| then 0 else n
    ensures forall k | 0 <= k < n :: PatternRun(chain, recs[..n]).1[k] == (k == |chain| - 1)
  {
    if n > 0 {
      PatternFullTraversal(chain, recs, n - 1);
      assert recs[..n][..n - 1] == recs[..n - 1];
      assert recs[..n][n - 1] == recs[n - 1];
    }
  }

  /** Chain [SELECTED X, SELECTED Y] fed X, X, Y fires on the third record only. */
  lemma PatternRestartExample(x: TraceRecord, x2: TraceRecord, y: TraceRecord)
    requires x.selected == "X" && x2.selected == "X" && y.selected == "Y"
    ensures PatternRun([EventSelected("X"), EventSelected("Y")], [x, x2, y]).1 == [false, false, true]
    ensures PatternRun([EventSelected("X"), EventSelected("Y")], [x, x2, y]).0 == 0
  {
    var chain := [EventSelected("X"), EventSelected("Y")];
    assert [x][..0] == [] && [x, x2][..1] == [x] && [x, x2, y][..2] == [x, x2];
    var r0 := PatternRun(chain, []);
    assert r0.0 == 0 && r0.1 == [];
    var r1 := PatternRun(chain, [x]);
    assert r1.0 == 1 && r1.1 == [] + [false];
    var r2 := PatternRun(chain, [x, x2]);
    assert r2.0 == 1 && r2.1 == [false] + [false];
    var r3 := PatternRun(chain, [x, x2, y]);
    assert r3.0 == 0 && r3.1 == [false, false] + [true];
  }

  /**
   * DifferenceBreakpoint.advance: while the position is inside the chain,
   * step past chain[position] and fire when the record does NOT satisfy it;
   * past the end, never fire and stay put.
   */
  function DifferenceAdvance(chain: seq<Predicate>, position: int, rec: TraceRecord): (s: Step)
    ensures s.Raised? <==> position < -|chain|
    ensures |chain| <= position ==> s == Moved(false, position)
    ensures 0 <= position < |chain| ==> s == Moved(!Eval(chain[position], rec), position + 1)
  {
    if position < |chain| then
      if position < -|chain| then Raised(IndexOutOfRange)
      else Moved(!Eval(chain[PyIndex(position, |chain|)], rec), position + 1)
    else Moved(false, position)
  }

  /** The results of feeding records one after another, starting at position p. */
  function DifferenceRun(chain: seq<Predicate>, p: nat, recs: seq<TraceRecord>): (fired: seq<bool>)
    ensures |fired| == |recs|
    decreases |recs|
  {
    if recs == [] then []
    else
      var s := DifferenceAdvance(chain, p, recs[0]);
      [s.fired] + DifferenceRun(chain, s.to, recs[1..])
  }

  /**
   * A difference breakpoint started at p compares the t-th record fed with
   * chain[p + t], fires exactly where they differ, and never fires once the
   * chain is used up.
   */
  lemma {:induction false} DifferenceRunCompares(chain: seq<Predicate>, p: nat, recs: seq<TraceRecord>, t: nat)
    requires t < |recs|
    ensures DifferenceRun(chain, p, recs)[t] == (p + t < |chain| && !Eval(chain[p + t], recs[t]))
    decreases t
  {
    if t > 0 {
      var s := DifferenceAdvance(chain, p, recs[0]);
      DifferenceRunCompares(chain, s.to, recs[1..], t - 1);
      assert recs[1..][t - 1] == recs[t];
    }
  }

  /** Reference [SELECTED X, SELECTED Y] against live X, Z, then anything: only Z fires. */
  lemma DifferenceExample(x: TraceRecord, z: TraceRecord, w: TraceRecord)
    requires x.selected == "X" && z.selected == "Z"
    ensures DifferenceRun([EventSelected("X"), EventSelected("Y")], 0, [x, z, w]) == [false, true, false]
  {
    var chain := [EventSelected("X"), EventSelected("Y")];
    DifferenceRunCompares(chain, 0, [x, z, w], 0);
    DifferenceRunCompares(chain, 0, [x, z, w], 1);
    DifferenceRunCompares(chain, 0, [x, z, w], 2);
  }

  // ===========================================================================
  // Breakpoint objects

  /**
   * A breakpoint. DifferenceBreakpoint is a subclass of Breakpoint, and name
   * mangling gives each of the two classes its own __current_position
   * attribute, so a DifferenceBreakpoint carries both. One class stands for
   * both here; `difference` records which constructor built the object and so
   * which advance() runs.
   */
  class Breakpoint {
    const id: string
    const chain: seq<Predicate>
    /** Built as a DifferenceBreakpoint rather than a plain Breakpoint. */
    const difference: bool
    /** Breakpoint's __current_position: the one reset() sets to 0. */
    var position: nat
    /** DifferenceBreakpoint's own __current_position (0 and unused for a plain Breakpoint). */
    var compared: int

    /** Between calls the chain position points into the chain (or is 0 for an empty chain). */
    ghost predicate Valid()
      reads this
    {
      position < |chain| || position == 0
    }

    /** Breakpoint(b_id, *chain). */
    constructor (id: string, chain: seq<Predicate>)
      ensures this.id == id && this.chain == chain && !difference
      ensures position == 0 && compared == 0 && Valid()
    {
      this.id := id;
      this.chain := chain;
      difference := false;
      position := 0;
      compared := 0;
    }

    /** DifferenceBreakpoint(b_id, current_position, *chain): the base constructor zeroes the inherited position. */
    constructor Difference(id: string, currentPosition: int, chain: seq<Predicate>)
      ensures this.id == id && this.chain == chain && difference
      ensures position == 0 && compared == currentPosition && Valid()
    {
      this.id := id;
      this.chain := chain;
      difference := true;
      position := 0;
      compared := currentPosition;
    }

    /** reset(), which DifferenceBreakpoint inherits: it never touches the comparison position. */
    method Reset()
      modifies this
      ensures position == 0 && compared == old(compared)
    {
      position := 0;
    }

    /** advance(), dispatched on the class that built this breakpoint. */
    method Advance(rec: TraceRecord) returns (r: Result<bool>)
      modifies this
      ensures !difference ==>
        && r == PatternAdvance(chain, old(position), rec).Outcome()
        && position == PatternAdvance(chain, old(position), rec).PositionAfter(old(position))
        && compared == old(compared)
      ensures difference ==>
        && r == DifferenceAdvance(chain, old(compared), rec).Outcome()
        && compared == DifferenceAdvance(chain, old(compared), rec).PositionAfter(old(compared))
        && position == old(position)
      ensures old(Valid()) ==> Valid()
    {
      if difference {
        r := AdvanceDifference(rec);
      } else {
        r := AdvancePattern(rec);
      }
    }

    /** Breakpoint.advance. */
    method AdvancePattern(rec: TraceRecord) returns (r: Result<bool>)
      modifies this
      ensures r == PatternAdvance(chain, old(position), rec).Outcome()
      ensures position == PatternAdvance(chain, old(position), rec).PositionAfter(old(position))
      ensures compared == old(compared)
    {
      if |chain| <= position {
        return Err(IndexOutOfRange);
      }
      var step := chain[position];
      var solved := AttemptSolve(step, rec);
      if solved {
        position := position + 1;
      } else {
        Reset();
        var first := chain[position];
        var firstSolved := AttemptSolve(first, rec);
        if firstSolved {
          position := position + 1;
        }
      }
      if position == |chain| {
        Reset();
        return Ok(true);
      }
      return Ok(false);
    }

    /** DifferenceBreakpoint.advance. */
    method AdvanceDifference(rec: TraceRecord) returns (r: Result<bool>)
      modifies this
      ensures r == DifferenceAdvance(chain, old(compared), rec).Outcome()
      ensures compared == DifferenceAdvance(chain, old(compared), rec).PositionAfter(old(compared))
      ensures position == old(position)
    {
      if compared < |chain| {
        if compared < -|chain| {
          return Err(IndexOutOfRange);
        }
        var expected := chain[PyIndex(compared, |chain|)];
        compared := compared + 1;
        var solved := AttemptSolve(expected, rec);
        if solved {
          return Ok(false);
        } else {
          return Ok(true);
        }
      } else {
        return Ok(false);
      }
    }
  }

  /** Breakpoint.from_json. */
  method BreakpointFromJson(j: JsonBreakpoint) returns (r: Result<Breakpoint>)
    ensures r.Ok? ==> (fresh(r.value) && r.value.Valid() && r.value.id == j.id && !r.value.difference
      && r.value.position == 0 && |r.value.chain| == |j.chain|
      && forall i | 0 <= i < |j.chain| :: ChainEntry(j.chain[i]) == Ok(r.value.chain[i]))
    ensures r.Err? ==> exists k | 0 <= k < |j.chain| ::
      ChainEntry(j.chain[k]) == Err(r.error) && forall i | 0 <= i < k :: ChainEntry(j.chain[i]).Ok?
  {
    var chain := ParseChain(j.chain);
    if chain.Err? {
      return Err(chain.error);
    }
    var b := new Breakpoint(j.id, chain.value);
    return Ok(b);
  }

  /** DifferenceBreakpoint.from_json: the chain first, then int(current_position). */
  method DifferenceFromJson(j: JsonBreakpoint) returns (r: Result<Breakpoint>)
    ensures r.Ok? ==> (fresh(r.value) && r.value.Valid() && r.value.id == j.id && r.value.difference
      && j.currentPosition == Some(r.value.compared) && r.value.position == 0
      && |r.value.chain| == |j.chain|
      && forall i | 0 <= i < |j.chain| :: ChainEntry(j.chain[i]) == Ok(r.value.chain[i]))
    ensures r.Err? ==>
      ((exists k | 0 <= k < |j.chain| ::
         ChainEntry(j.chain[k]) == Err(r.error) && forall i | 0 <= i < k :: ChainEntry(j.chain[i]).Ok?)
       || (ChainParses(j.chain) && j.currentPosition.None? && r.error == MissingKey("current_position")))
  {
    var chain := ParseChain(j.chain);
    if chain.Err? {
      return Err(chain.error);
    }
    if j.currentPosition.None? {
      return Err(MissingKey("current_position"));
    }
    var d := new Breakpoint.Difference(j.id, j.currentPosition.value, chain.value);
    return Ok(d);
  }

  // ===========================================================================
  // The repository

  /** One item of __breakpoints_by_chain: a chain hash and the breakpoint stored under it. */
  datatype Stored = Stored(hash: string, bp: Breakpoint)

  /** The position of a stored breakpoint, tagged with its class. */
  datatype Cursor = PatternAt(offset: nat) | DifferenceAt(position: int)

  /** A stored breakpoint as a value, with its last fired flag. */
  datatype Entry = Entry(hash: string, id: string, chain: seq<Predicate>, cursor: Cursor, fired: bool)

  ghost function EntryOf(s: Stored, fired: bool): Entry
    reads s.bp
  {
    var b := s.bp;
    Entry(s.hash, b.id, b.chain, if b.difference then DifferenceAt(b.compared) else PatternAt(b.position), fired)
  }

  /** One advance of a stored breakpoint, by its class. */
  function EntryAdvance(e: Entry, rec: TraceRecord): Step
  {
    match e.cursor
    case PatternAt(p) => PatternAdvance(e.chain, p, rec)
    case DifferenceAt(p) => DifferenceAdvance(e.chain, p, rec)
  }

  /** A stored breakpoint after an advance that did not raise: new position, result as fired flag. */
  function Advanced(e: Entry, rec: TraceRecord): Entry
  {
    var s := EntryAdvance(e, rec);
    match e.cursor
    case PatternAt(_) =>
      if s.Moved? then e.(cursor := PatternAt(s.to), fired := s.fired) else e
    case DifferenceAt(_) =>
      if s.Moved? then e.(cursor := DifferenceAt(s.to), fired := s.fired) else e
  }

  /** The stored breakpoints after the first n of them have been advanced. */
  function AdvancedUpTo(es: seq<Entry>, n: nat, rec: TraceRecord): (r: seq<Entry>)
    requires n <= |es|
    ensures |r| == |es|
    ensures forall i | 0 <= i < n :: r[i] == Advanced(es[i], rec)
    ensures forall i | n <= i < |es| :: r[i] == es[i]
  {
    seq(|es|, i requires 0 <= i < |es| => if i < n then Advanced(es[i], rec) else es[i])
  }

  lemma AdvancedUpToStep(es: seq<Entry>, n: nat, rec: TraceRecord)
    requires n < |es|
    ensures AdvancedUpTo(es, n, rec)[n := Advanced(es[n], rec)] == AdvancedUpTo(es, n + 1, rec)
  {
  }

  /** The index of the first entry whose advance raises, or |es|. */
  function FirstRaising(es: seq<Entry>, rec: TraceRecord): (k: nat)
    ensures k <= |es|
    ensures forall i | 0 <= i < k :: EntryAdvance(es[i], rec).Moved?
    ensures k < |es| ==> EntryAdvance(es[k], rec).Raised?
  {
    if es == [] then 0
    else if EntryAdvance(es[0], rec).Raised? then 0
    else 1 + FirstRaising(es[1..], rec)
  }

  /** Below FirstRaising, the advance at i decides whether FirstRaising is i. */
  lemma {:induction false} FirstRaisingAt(es: seq<Entry>, i: nat, rec: TraceRecord)
    requires i < |es| && i <= FirstRaising(es, rec)
    ensures EntryAdvance(es[i], rec).Raised? ==> FirstRaising(es, rec) == i
    ensures EntryAdvance(es[i], rec).Moved? ==> i + 1 <= FirstRaising(es, rec)
  {
    if i > 0 {
      FirstRaisingAt(es[1..], i - 1, rec);
    }
  }

  /** Whether the advance of a stored breakpoint fires. */
  predicate Fires(e: Entry, rec: TraceRecord)
  {
    var s := EntryAdvance(e, rec);
    s.Moved? && s.fired
  }

  /** Whether any of the first n entries fires on its advance. */
  function AnyFired(es: seq<Entry>, n: nat, rec: TraceRecord): bool
    requires n <= |es|
  {
    n > 0 && (AnyFired(es, n - 1, rec) || Fires(es[n - 1], rec))
  }

  /** What advance_break_points returns: the first exception, else whether any breakpoint fired. */
  function AdvanceResult(es: seq<Entry>, rec: TraceRecord): Result<bool>
  {
    var k := FirstRaising(es, rec);
    if k < |es| then Err(EntryAdvance(es[k], rec).error) else Ok(AnyFired(es, |es|, rec))
  }

  lemma {:induction false} AnyFiredExists(es: seq<Entry>, n: nat, rec: TraceRecord)
    requires n <= |es|
    ensures AnyFired(es, n, rec) <==> exists i | 0 <= i < n :: Fires(es[i], rec)
  {
    if n > 0 {
      AnyFiredExists(es, n - 1, rec);
    }
  }

  /**
   * advance_break_points does not short-circuit: without an exception it
   * returns true exactly when at least one stored breakpoint fired, and each
   * breakpoint is advanced once and keeps its own result as its fired flag;
   * an exception stops it at the first breakpoint that raises, leaving that
   * one and the later ones untouched.
   */
  lemma AdvanceResultMeaning(es: seq<Entry>, rec: TraceRecord)
    ensures var k := FirstRaising(es, rec);
      && (k == |es| ==> AdvanceResult(es, rec) == Ok(exists i | 0 <= i < |es| :: Fires(es[i], rec)))
      && (k < |es| ==> AdvanceResult(es, rec) == Err(EntryAdvance(es[k], rec).error))
      && (forall i | 0 <= i < k :: AdvancedUpTo(es, k, rec)[i].fired == Fires(es[i], rec))
      && (forall i | k <= i < |es| :: AdvancedUpTo(es, k, rec)[i] == es[i])
  {
    AnyFiredExists(es, |es|, rec);
  }

  /** which(): the ids whose last fired flag is true, in insertion order. */
  function FiredIds(ss: seq<Stored>, fired: seq<bool>): seq<string>
    requires |ss| == |fired|
  {
    if ss == [] then []
    else (if fired[0] then [ss[0].bp.id] else []) + FiredIds(ss[1..], fired[1..])
  }

  lemma FiredIdsFrom(ss: seq<Stored>, fired: seq<bool>, i: nat)
    requires |ss| == |fired| && i < |ss|
    ensures FiredIds(ss[i..], fired[i..])
      == (if fired[i] then [ss[i].bp.id] else []) + FiredIds(ss[i + 1..], fired[i + 1..])
  {
    assert ss[i..][1..] == ss[i + 1..] && fired[i..][1..] == fired[i + 1..];
  }

  /** An id is reported by which() exactly when some breakpoint with that id last fired. */
  lemma {:induction false} FiredIdsMembers(ss: seq<Stored>, fired: seq<bool>, x: string)
    requires |ss| == |fired|
    ensures x in FiredIds(ss, fired) <==> exists i | 0 <= i < |ss| :: fired[i] && ss[i].bp.id == x
  {
    if ss != [] {
      FiredIdsMembers(ss[1..], fired[1..], x);
      if x in FiredIds(ss[1..], fired[1..]) {
        var i :| 0 <= i < |ss| - 1 && fired[1..][i] && ss[1..][i].bp.id == x;
        assert fired[i + 1] && ss[i + 1].bp.id == x;
      }
      if exists i | 0 <= i < |ss| :: fired[i] && ss[i].bp.id == x {
        var i :| 0 <= i < |ss| && fired[i] && ss[i].bp.id == x;
        if i > 0 {
          assert fired[1..][i - 1] && ss[1..][i - 1].bp.id == x;
        }
      }
    }
  }

  /** The index of the first stored breakpoint with this id, or |ss|. */
  function FirstWithId(ss: seq<Stored>, id: string): (k: nat)
    ensures k <= |ss|
    ensures k < |ss| ==> ss[k].bp.id == id
    ensures forall i | 0 <= i < k :: ss[i].bp.id != id
  {
    if ss == [] then 0
    else if ss[0].bp.id == id then 0
    else 1 + FirstWithId(ss[1..], id)
  }

  /** Below FirstWithId, the id at i decides whether FirstWithId is i. */
  lemma {:induction false} FirstWithIdAt(ss: seq<Stored>, id: string, i: nat)
    requires i < |ss| && i <= FirstWithId(ss, id)
    ensures ss[i].bp.id == id ==> FirstWithId(ss, id) == i
    ensures ss[i].bp.id != id ==> i + 1 <= FirstWithId(ss, id)
  {
    if i > 0 {
      FirstWithIdAt(ss[1..], id, i - 1);
    }
  }

  /** s with item k popped, or s itself when k is past its end. */
  function RemovedAt<T>(s: seq<T>, k: nat): seq<T>
  {
    if k < |s| then s[..k] + s[k + 1..] else s
  }

  function Hashes2(ss: seq<Stored>): (hs: seq<string>)
    ensures |hs| == |ss| && forall i | 0 <= i < |ss| :: hs[i] == ss[i].hash
  {
    seq(|ss|, i requires 0 <= i < |ss| => ss[i].hash)
  }

  /** Each breakpoint is keyed by its own chain hash; keys and breakpoints are unique. */
  ghost predicate StoredValid(ss: seq<Stored>)
  {
    && (forall i | 0 <= i < |ss| :: ss[i].hash == HashChain(ss[i].bp.chain))
    && (forall i, j | 0 <= i < j < |ss| :: ss[i].hash != ss[j].hash)
    && (forall i, j | 0 <= i < j < |ss| :: ss[i].bp != ss[j].bp)
  }

  lemma StoredValidWithout(ss: seq<Stored>, k: nat)
    requires StoredValid(ss) && k < |ss|
    ensures StoredValid(ss[..k] + ss[k + 1..])
  {
    var rest := ss[..k] + ss[k + 1..];
    forall i | 0 <= i < |rest| ensures rest[i] == ss[if i < k then i else i + 1] && rest[i].hash == HashChain(rest[i].bp.chain) {
    }
    forall i, j | 0 <= i < j < |rest|
      ensures rest[i].hash != rest[j].hash && rest[i].bp != rest[j].bp
    {
      var a, b := if i < k then i else i + 1, if j < k then j else j + 1;
      assert rest[i] == ss[a] && rest[j] == ss[b] && a < b;
    }
  }

  /** Removing the k-th item of a sequence shifts the ones after it down by one. */
  lemma SeqWithout<T>(s: seq<T>, k: nat, i: nat)
    requires k < |s| && i < |s| - 1
    ensures (s[..k] + s[k + 1..])[i] == s[if i < k then i else i + 1]
  {
  }

  /** Removing the same position from the stored items, their flags and their values keeps them in step. */
  lemma EntriesWithout(ss: seq<Stored>, fs: seq<bool>, es: seq<Entry>, k: nat,
                       rs: seq<Stored>, rf: seq<bool>, re: seq<Entry>)
    requires |ss| == |fs| == |es| && k < |ss|
    requires forall i | 0 <= i < |ss| :: EntryOf(ss[i], fs[i]) == es[i]
    requires rs == ss[..k] + ss[k + 1..] && rf == fs[..k] + fs[k + 1..] && re == es[..k] + es[k + 1..]
    ensures forall i | 0 <= i < |rs| :: EntryOf(rs[i], rf[i]) == re[i]
  {
    forall i | 0 <= i < |rs| ensures EntryOf(rs[i], rf[i]) == re[i] {
      SeqWithout(ss, k, i);
      SeqWithout(fs, k, i);
      SeqWithout(es, k, i);
    }
  }

  /** advance() on a stored breakpoint, as a change of its value. */
  method AdvanceStored(s: Stored, fired: bool, rec: TraceRecord) returns (r: Result<bool>)
    modifies s.bp
    ensures r == EntryAdvance(old(EntryOf(s, fired)), rec).Outcome()
    ensures r.Ok? ==> EntryOf(s, r.value) == Advanced(old(EntryOf(s, fired)), rec)
    ensures r.Err? ==> EntryOf(s, fired) == old(EntryOf(s, fired))
  {
    r := s.bp.Advance(rec);
  }

  /**
   * BreakpointRepository: __breakpoints_by_chain as the insertion-ordered
   * sequence `stored`, and the values of __fired_by_breakpoint, which holds
   * the same breakpoints in the same order, as `fired`.
   */
  class BreakpointRepository {
    var stored: seq<Stored>
    var fired: seq<bool>
    /** The stored breakpoints with their fired flags, as values. */
    ghost var view: seq<Entry>

    ghost function Objects(): set<Breakpoint>
      reads this
    {
      set i | 0 <= i < |stored| :: stored[i].bp
    }

    ghost predicate Valid()
      reads this, Objects()
    {
      StoredValid(stored) && Shows(view)
    }

    /** The stored breakpoints and their fired flags are, as values, exactly es. */
    ghost predicate Shows(es: seq<Entry>)
      reads this, Objects()
    {
      |fired| == |stored| == |es| && forall k | 0 <= k < |stored| :: EntryOf(stored[k], fired[k]) == es[k]
    }

    constructor ()
      ensures Valid() && stored == [] && fired == [] && view == []
    {
      stored := [];
      fired := [];
      view := [];
    }

    method AddBreakpoint(b: Breakpoint) returns (r: Result<()>)
      requires Valid()
      modifies this
      ensures Valid()
      ensures var h := HashChain(b.chain);
        if h in Hashes2(old(stored)) then
          r == Err(DuplicateHash(h)) && stored == old(stored) && fired == old(fired) && view == old(view)
        else
          && r == Ok(()) && stored == old(stored) + [Stored(h, b)] && fired == old(fired) + [false]
          && view == old(view) + [EntryOf(Stored(h, b), false)]
    {
      var h := HashChain(b.chain);
      if h in Hashes2(stored) {
        return Err(DuplicateHash(h));
      }
      stored, fired, view := stored + [Stored(h, b)], fired + [false], view + [EntryOf(Stored(h, b), false)];
      return Ok(());
    }

    method DeleteBreakpoint(id: string)
      requires Valid()
      modifies this
      ensures Valid()
      ensures var k := FirstWithId(old(stored), id);
        && stored == RemovedAt(old(stored), k) && fired == RemovedAt(old(fired), k)
        && view == RemovedAt(old(view), k)
    {
      var i := 0;
      while i < |stored| && stored[i].bp.id != id
        invariant 0 <= i <= |stored| && i <= FirstWithId(stored, id)
        modifies {}
      {
        FirstWithIdAt(stored, id, i);
        i := i + 1;
      }
      if i < |stored| {
        FirstWithIdAt(stored, id, i);
        RemoveAt(i);
      }
    }

    /** Pops item i from both dicts. */
    method RemoveAt(i: nat)
      requires Valid() && i < |stored|
      modifies this
      ensures Valid()
      ensures stored == RemovedAt(old(stored), i) && fired == RemovedAt(old(fired), i)
      ensures view == RemovedAt(old(view), i)
    {
      StoredValidWithout(stored, i);
      var ss, fs := stored[..i] + stored[i + 1..], fired[..i] + fired[i + 1..];
      ghost var es := view[..i] + view[i + 1..];
      EntriesWithout(stored, fired, view, i, ss, fs, es);
      stored, fired, view := ss, fs, es;
    }

    method AdvanceBreakPoints(rec: TraceRecord) returns (r: Result<bool>)
      requires Valid()
      modifies this, Objects()
      ensures Valid() && stored == old(stored)
      ensures r == AdvanceResult(old(view), rec)
      ensures view == AdvancedUpTo(old(view), FirstRaising(old(view), rec), rec)
    {
      ghost var start := view;
      var any := false;
      var i := 0;
      while i < |stored|
        invariant 0 <= i <= |stored| == |start| == |fired|
        invariant stored == old(stored) && view == start
        invariant i <= FirstRaising(start, rec)
        invariant Shows(AdvancedUpTo(start, i, rec))
        invariant any == AnyFired(start, i, rec)
      {
        assert stored[i].bp in old(Objects());
        var step := AdvanceAt(i, rec, start);
        FirstRaisingAt(start, i, rec);
        if step.Err? {
          SetView(AdvancedUpTo(start, i, rec));
          return Err(step.error);
        }
        any := any || step.value;
        i := i + 1;
      }
      SetView(AdvancedUpTo(start, i, rec));
      return Ok(any);
    }

    /** Records, as the ghost view, the entries the breakpoints and flags now show. */
    method SetView(ghost es: seq<Entry>)
      requires StoredValid(stored) && Shows(es)
      modifies this
      ensures Valid() && view == es
      ensures stored == old(stored) && fired == old(fired)
    {
      view := es;
    }

    /**
     * The body of the loop in advance_break_points: advance the i-th breakpoint
     * and record its result as its fired flag.
     */
    method AdvanceAt(i: nat, rec: TraceRecord, ghost start: seq<Entry>) returns (step: Result<bool>)
      requires i < |stored| == |start|
      requires StoredValid(stored) && Shows(AdvancedUpTo(start, i, rec))
      modifies this, stored[i].bp
      ensures stored == old(stored) && view == old(view)
      ensures step == EntryAdvance(start[i], rec).Outcome()
      ensures step.Ok? == EntryAdvance(start[i], rec).Moved?
      ensures step.Ok? ==> step.value == Fires(start[i], rec)
      ensures step.Ok? ==> Shows(AdvancedUpTo(start, i + 1, rec))
      ensures step.Err? ==> Shows(AdvancedUpTo(start, i, rec))
    {
      ghost var current := AdvancedUpTo(start, i, rec);
      var s := stored[i];
      step := AdvanceStored(s, fired[i], rec);
      forall k | 0 <= k < |stored| && k != i
        ensures EntryOf(stored[k], fired[k]) == current[k]
      {
        assert stored[k].bp != s.bp;
      }
      if step.Ok? {
        fired := fired[i := step.value];
        AdvancedUpToStep(start, i, rec);
      }
    }

    method Which() returns (ids: seq<string>)
      requires Valid()
      ensures ids == FiredIds(stored, fired)
    {
      ids := [];
      var i := 0;
      assert stored[0..] == stored && fired[0..] == fired;
      while i < |stored|
        invariant 0 <= i <= |stored| == |fired|
        invariant ids + FiredIds(stored[i..], fired[i..]) == FiredIds(stored, fired)
      {
        FiredIdsFrom(stored, fired, i);
        var rest := FiredIds(stored[i + 1..], fired[i + 1..]);
        if fired[i] {
          assert ids + ([stored[i].bp.id] + rest) == (ids + [stored[i].bp.id]) + rest;
          ids := ids + [stored[i].bp.id];
        } else {
          assert [] + rest == rest;
        }
        i := i + 1;
      }
      assert ids + [] == ids;
    }
  }
}
