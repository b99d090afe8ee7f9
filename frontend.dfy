/**
 * The frontend's breakpoint editor: predicates as the editor holds them, their
 * JSON form, the breakpoints shown in the list, and the builders the editing
 * form fills and reads back.
 */
module Frontend {
  import opened Errors
  import opened Text
  import opened Trace

  // ===========================================================================
  // Predicates

  /** FlatPredicate(name, content) and CompoundPredicate(name, predicates). */
  datatype Pred =
    | Flat(name: string, content: string)
    | Compound(name: string, children: seq<Pred>)

  /** to_json: a flat predicate carries its content, a compound one its children. */
  function ToJson(p: Pred): JsonPredicate
    decreases p, 1
  {
    match p
    case Flat(n, c) => JsonPredicate(n, "flat", c, [])
    case Compound(n, cs) => JsonPredicate(n, "compound", "", ChildrenToJson(cs))
  }

  function ChildrenToJson(cs: seq<Pred>): (js: seq<JsonPredicate>)
    ensures |js| == |cs| && forall i | 0 <= i < |cs| :: js[i] == ToJson(cs[i])
    decreases cs, 0
  {
    if cs == [] then [] else [ToJson(cs[0])] + ChildrenToJson(cs[1..])
  }

  /** predicate_from_json: kind "compound" gives a compound predicate, any other kind a flat one. */
  function PredicateFromJson(j: JsonPredicate): Pred
    decreases j, 1
  {
    if j.kind == "compound" then Compound(j.name, ChildrenFromJson(j.predicates))
    else Flat(j.name, j.value)
  }

  function ChildrenFromJson(js: seq<JsonPredicate>): (ps: seq<Pred>)
    ensures |ps| == |js| && forall i | 0 <= i < |js| :: ps[i] == PredicateFromJson(js[i])
    decreases js, 0
  {
    if js == [] then [] else [PredicateFromJson(js[0])] + ChildrenFromJson(js[1..])
  }

  /** Reading back what to_json wrote gives the same predicate: class, name, content and children in order. */
  lemma {:induction false} PredicateRoundTrip(p: Pred)
    ensures PredicateFromJson(ToJson(p)) == p
    decreases p, 1
  {
    if p.Compound? {
      ChildrenRoundTrip(p.children);
    }
  }

  lemma {:induction false} ChildrenRoundTrip(cs: seq<Pred>)
    ensures ChildrenFromJson(ChildrenToJson(cs)) == cs
    decreases cs, 0
  {
    forall i | 0 <= i < |cs|
      ensures ChildrenFromJson(ChildrenToJson(cs))[i] == cs[i]
    {
      PredicateRoundTrip(cs[i]);
    }
  }

  /** The JSON shapes to_json produces: flat with no children, or compound with an empty value. */
  predicate Canonical(j: JsonPredicate)
    decreases j
  {
    if j.kind == "compound" then j.value == "" && forall i | 0 <= i < |j.predicates| :: Canonical(j.predicates[i])
    else j.kind == "flat" && j.predicates == []
  }

  /** Every JSON predicate of that shape is written back unchanged, and to_json writes only that shape. */
  lemma {:induction false} JsonRoundTrip(j: JsonPredicate)
    requires Canonical(j)
    ensures ToJson(PredicateFromJson(j)) == j
    decreases j
  {
    if j.kind == "compound" {
      var ps := ChildrenFromJson(j.predicates);
      forall i | 0 <= i < |j.predicates|
        ensures ChildrenToJson(ps)[i] == j.predicates[i]
      {
        JsonRoundTrip(j.predicates[i]);
      }
    }
  }

  lemma {:induction false} ToJsonCanonical(p: Pred)
    ensures Canonical(ToJson(p))
    decreases p
  {
    if p.Compound? {
      forall i | 0 <= i < |p.children|
        ensures Canonical(ToJson(p.children[i]))
      {
        ToJsonCanonical(p.children[i]);
      }
    }
  }

  // ===========================================================================
  // Display

  /**
   * display() of a predicate whose padding is `padding`: a flat predicate on
   * one line, a compound one over several lines with its children indented by
   * two more spaces.
   */
  function Display(p: Pred, padding: string): string
    decreases p, 1
  {
    match p
    case Flat(n, c) => padding + n + "(" + c + ")"
    case Compound(n, cs) => padding + n + "(\n" + DisplayLines(cs, padding + "  ") + padding + ")"
  }

  /** Each child's display followed by a newline. */
  function DisplayLines(cs: seq<Pred>, padding: string): string
    decreases cs, 0
  {
    if cs == [] then "" else DisplayLines(cs[..|cs| - 1], padding) + Display(cs[|cs| - 1], padding) + "\n"
  }

  /** Every display starts with the padding, the name and "(" and ends with ")". */
  lemma DisplayFrame(p: Pred, padding: string)
    ensures var s := Display(p, padding); var head := padding + p.name + "(";
      |s| > |head| && s[..|head|] == head && s[|s| - 1] == ')'
  {
    var s := Display(p, padding);
    var head := padding + p.name + "(";
    match p
    case Flat(n, c) =>
      assert s == head + c + ")";
    case Compound(n, cs) =>
      assert s == head + ("\n" + DisplayLines(cs, padding + "  ") + padding + ")");
  }

  /** CompoundPredicate.display / FlatPredicate.display, with the children's padding passed down. */
  method DisplayPredicate(p: Pred, padding: string) returns (result: string)
    ensures result == Display(p, padding)
    decreases p
  {
    match p
    case Flat(n, c) =>
      result := padding + n + "(" + c + ")";
    case Compound(n, cs) =>
      result := padding + n + "(\n";
      for i := 0 to |cs|
        invariant result == padding + n + "(\n" + DisplayLines(cs[..i], padding + "  ")
      {
        var line := DisplayPredicate(cs[i], padding + "  ");
        assert cs[..i + 1][..i] == cs[..i];
        result := result + line + "\n";
      }
      assert cs[..|cs|] == cs;
      result := result + padding + ")";
  }

  // ===========================================================================
  // Breakpoints in the list

  /** The JSON a breakpoint's to_json() writes: its id, each predicate's JSON and the paused flag. */
  function BreakpointJson(id: string, chain: seq<Pred>, paused: bool): JsonBreakpoint
  {
    JsonBreakpoint(id, ChildrenToJson(chain), Some(paused), None)
  }

  /** Reading a written breakpoint back gives its id, its chain element by element and its paused flag. */
  lemma BreakpointRoundTrip(id: string, chain: seq<Pred>, paused: bool)
    ensures var j := BreakpointJson(id, chain, paused);
      j.id == id && ChildrenFromJson(j.chain) == chain && (j.paused == Some(true)) == paused
  {
    ChildrenRoundTrip(chain);
  }

  /** The predicates' displays, in chain order. */
  function Displays(chain: seq<Pred>): (ds: seq<string>)
    ensures |ds| == |chain| && forall i | 0 <= i < |chain| :: ds[i] == Display(chain[i], "")
  {
    if chain == [] then [] else [Display(chain[0], "")] + Displays(chain[1..])
  }

  class BreakPoint {
    const id: string
    const chain: seq<Pred>
    var paused: bool
    /** The colour the list shows the breakpoint in. */
    var color: string

    /** new BreakPoint(id, chain, paused); a new breakpoint is shown as not fired. */
    constructor (id: string, chain: seq<Pred>, paused: bool)
      ensures this.id == id && this.chain == chain && this.paused == paused && color == "secondary"
    {
      this.id := id;
      this.chain := chain;
      this.paused := paused;
      color := "secondary";
    }

    /** The fired setter: "primary" exactly when fired. */
    method SetFired(fired: bool)
      modifies this
      ensures color == (if fired then "primary" else "secondary") && paused == old(paused)
    {
      if fired {
        color := "primary";
      } else {
        color := "secondary";
      }
    }

    method Pause()
      modifies this
      ensures paused && color == old(color)
    {
      paused := true;
    }

    method Unpause()
      modifies this
      ensures !paused && color == old(color)
    {
      paused := false;
    }

    /** display(): the predicates' displays with a blank line between neighbours and none after the last. */
    method Display() returns (result: string)
      ensures result == Join(Displays(chain), "\n\n")
    {
      ghost var ds := Displays(chain);
      result := "";
      for i := 0 to |chain|
        invariant result == Join(ds[..i], "\n\n") + (if 0 < i < |chain| then "\n\n" else "")
      {
        var shown := DisplayPredicate(chain[i], "");
        JoinStep(ds, i, "\n\n");
        result := result + shown;
        if !(i == |chain| - 1) {
          result := result + "\n\n";
        }
      }
      assert ds[..|chain|] == ds;
    }

    /** to_json(). */
    function ToJson(): (j: JsonBreakpoint)
      reads this
      ensures j == BreakpointJson(id, chain, paused)
    {
      JsonBreakpoint(id, ChildrenToJson(chain), Some(paused), None)
    }
  }

  /** breakpoint_from_json: a missing "paused" falls back to the constructor's default, false. */
  method BreakpointFromJson(j: JsonBreakpoint) returns (b: BreakPoint)
    ensures fresh(b) && b.id == j.id && b.chain == ChildrenFromJson(j.chain)
    ensures b.paused == (j.paused == Some(true)) && b.color == "secondary"
  {
    var predicates: seq<Pred> := [];
    for i := 0 to |j.chain|
      invariant predicates == ChildrenFromJson(j.chain[..i])
    {
      assert j.chain[..i + 1] == j.chain[..i] + [j.chain[i]];
      ChildrenFromJsonSnoc(j.chain[..i], j.chain[i]);
      predicates := predicates + [PredicateFromJson(j.chain[i])];
    }
    assert j.chain[..|j.chain|] == j.chain;
    var paused := if j.paused.Some? then j.paused.value else false;
    b := new BreakPoint(j.id, predicates, paused);
  }

  lemma ChildrenFromJsonSnoc(js: seq<JsonPredicate>, j: JsonPredicate)
    ensures ChildrenFromJson(js + [j]) == ChildrenFromJson(js) + [PredicateFromJson(j)]
  {
    assert forall i | 0 <= i < |js| :: (js + [j])[i] == js[i];
  }

  // ===========================================================================
  // Builders

  /** {name, kind}: one predicate the editor offers. */
  datatype Mapping = Mapping(name: string, kind: string)

  /** predicate_kind: the kind of the first mapping with this name, or "" when none has it. */
  function PredicateKind(possible: seq<Mapping>, name: string): (kind: string)
    ensures (forall i | 0 <= i < |possible| :: possible[i].name != name) ==> kind == ""
    ensures forall i | 0 <= i < |possible| && possible[i].name == name ::
      (forall j | 0 <= j < i :: possible[j].name != name) ==> kind == possible[i].kind
  {
    if possible == [] then ""
    else if possible[0].name == name then possible[0].kind
    else PredicateKind(possible[1..], name)
  }

  /** What a fresh builder filled from p builds: the name decides the class. */
  function Rebuilt(possible: seq<Mapping>, p: Pred): Pred
    decreases p, 1
  {
    if PredicateKind(possible, p.name) == "compound" then
      match p
      case Flat(n, _) => Compound(n, [])
      case Compound(n, cs) => Compound(n, RebuiltAll(possible, cs))
    else
      match p
      case Flat(n, c) => Flat(n, c)
      case Compound(n, _) => Flat(n, "")
  }

  function RebuiltAll(possible: seq<Mapping>, cs: seq<Pred>): (rs: seq<Pred>)
    ensures |rs| == |cs| && forall i | 0 <= i < |cs| :: rs[i] == Rebuilt(possible, cs[i])
    decreases cs, 0
  {
    if cs == [] then [] else [Rebuilt(possible, cs[0])] + RebuiltAll(possible, cs[1..])
  }

  lemma RebuiltShape(possible: seq<Mapping>, p: Pred)
    ensures Rebuilt(possible, p) ==
      if PredicateKind(possible, p.name) == "compound" then Compound(p.name, if p.Compound? then RebuiltAll(possible, p.children) else [])
      else Flat(p.name, if p.Flat? then p.content else "")
  {
  }

  /** The mapping names every compound predicate of p "compound" and no flat one. */
  predicate Agrees(possible: seq<Mapping>, p: Pred)
    decreases p
  {
    match p
    case Flat(n, _) => PredicateKind(possible, n) != "compound"
    case Compound(n, cs) =>
      PredicateKind(possible, n) == "compound" && forall i | 0 <= i < |cs| :: Agrees(possible, cs[i])
  }

  /** When the mapping agrees with p, filling a fresh builder from p and building gives p back. */
  lemma {:induction false} RebuiltAgrees(possible: seq<Mapping>, p: Pred)
    requires Agrees(possible, p)
    ensures Rebuilt(possible, p) == p
    decreases p
  {
    if p.Compound? {
      forall i | 0 <= i < |p.children|
        ensures RebuiltAll(possible, p.children)[i] == p.children[i]
      {
        RebuiltAgrees(possible, p.children[i]);
      }
    }
  }

  /** A flat predicate whose name the mapping calls compound comes back as an empty compound one. */
  lemma RebuiltMismatch(possible: seq<Mapping>, n: string, c: string)
    requires PredicateKind(possible, n) == "compound"
    ensures Rebuilt(possible, Flat(n, c)) == Compound(n, [])
  {
  }

  /** indexOf: the first position of b, or -1. */
  function IndexOf(s: seq<PredicateBuilder>, b: PredicateBuilder): (i: int)
    ensures -1 <= i < |s|
    ensures i == -1 <==> b !in s
    ensures 0 <= i ==> s[i] == b && b !in s[..i]
  {
    if s == [] then -1
    else if s[0] == b then 0
    else
      var k := IndexOf(s[1..], b);
      if k == -1 then -1 else (assert s[1..][..k] == s[1..k + 1]; k + 1)
  }

  class PredicateBuilder {
    const possible: seq<Mapping>
    var builders: seq<PredicateBuilder>
    var name: string
    var value: string
    ghost var Repr: set<object>

    ghost predicate Valid()
      reads this, Repr
      decreases Repr
    {
      && this in Repr
      && forall i | 0 <= i < |builders| ::
        && builders[i] in Repr
        && builders[i].Repr <= Repr
        && this !in builders[i].Repr
        && builders[i].Valid()
    }

    /** The predicate build() returns from the builder's current state. */
    ghost function Spec(): Pred
      requires Valid()
      reads this, Repr
      decreases Repr, 1
    {
      if PredicateKind(possible, name) == "compound" then Compound(name, SpecsFrom(0))
      else Flat(name, value)
    }

    ghost function SpecsFrom(k: nat): (ps: seq<Pred>)
      requires Valid() && k <= |builders|
      reads this, Repr
      ensures |ps| == |builders| - k
      ensures forall i | 0 <= i < |ps| :: ps[i] == builders[k + i].Spec()
      decreases Repr, 0, |builders| - k
    {
      if k == |builders| then [] else [builders[k].Spec()] + SpecsFrom(k + 1)
    }

    constructor (possible: seq<Mapping>)
      ensures Valid() && fresh(Repr)
      ensures this.possible == possible && builders == [] && name == "" && value == ""
    {
      this.possible := possible;
      builders := [];
      name := "";
      value := "";
      Repr := {this};
    }

    /** build(): a compound predicate with the children built in order when the kind is "compound", else a flat one. */
    method Build() returns (p: Pred)
      requires Valid()
      ensures p == Spec()
      decreases Repr
    {
      if PredicateKind(possible, name) == "compound" {
        var built: seq<Pred> := [];
        for i := 0 to |builders|
          invariant |built| == i && forall k | 0 <= k < i :: built[k] == builders[k].Spec()
        {
          var sub := builders[i].Build();
          built := built + [sub];
        }
        assert built == SpecsFrom(0);
        p := Compound(name, built);
      } else {
        p := Flat(name, value);
      }
    }

    /** add_predicate_builder: appends a new, empty builder. */
    method AddPredicateBuilder()
      requires Valid()
      modifies this
      ensures Valid() && fresh(Repr - old(Repr))
      ensures |builders| == |old(builders)| + 1 && builders[..|old(builders)|] == old(builders)
      ensures var b := builders[|builders| - 1];
        fresh(b) && b.possible == possible && b.builders == [] && b.name == "" && b.value == ""
      ensures name == old(name) && value == old(value)
    {
      var b := new PredicateBuilder(possible);
      builders := builders + [b];
      Repr := Repr + b.Repr;
    }

    /** remove_predicate_builder: drops the first occurrence of b; false, and nothing changes, when b is not there. */
    method RemovePredicateBuilder(b: PredicateBuilder) returns (removed: bool)
      requires Valid()
      modifies this
      ensures Valid() && Repr == old(Repr)
      ensures removed <==> b in old(builders)
      ensures !removed ==> builders == old(builders)
      ensures removed ==>
        var k := IndexOf(old(builders), b);
        builders == old(builders)[..k] + old(builders)[k + 1..]
      ensures name == old(name) && value == old(value)
    {
      var index := IndexOf(builders, b);
      if index == -1 {
        return false;
      }
      ghost var before := builders;
      builders := builders[..index] + builders[index + 1..];
      assert forall i | 0 <= i < |builders| :: builders[i] == before[if i < index then i else i + 1];
      return true;
    }

    /**
     * fill_from_predicate: takes p's name, and either p's content or one new
     * builder per child, filled from that child and appended in order.
     */
    method FillFromPredicate(p: Pred)
      requires Valid()
      modifies this
      ensures Valid() && fresh(Repr - old(Repr))
      ensures name == p.name && value == (if p.Flat? then p.content else old(value))
      ensures p.Flat? ==> builders == old(builders)
      ensures p.Compound? ==>
        && |builders| == |old(builders)| + |p.children|
        && builders[..|old(builders)|] == old(builders)
        && forall k | 0 <= k < |p.children| ::
          fresh(builders[|old(builders)| + k]) && builders[|old(builders)| + k].Spec() == Rebuilt(possible, p.children[k])
      ensures old(builders) == [] && old(value) == "" ==> Spec() == Rebuilt(possible, p)
      decreases p, 3
    {
      match p
      case Compound(_, _) =>
        FillCompound(p);
      case Flat(_, content) =>
        name, value := p.name, content;
        if builders == [] {
          FilledSpec(p);
        }
    }

    /** fill_from_predicate for a compound predicate: the name, then one filled builder per child. */
    method FillCompound(p: Pred)
      requires Valid() && p.Compound?
      modifies this
      ensures Valid() && fresh(Repr - old(Repr))
      ensures name == p.name && value == old(value)
      ensures |builders| == |old(builders)| + |p.children| && builders[..|old(builders)|] == old(builders)
      ensures forall k | 0 <= k < |p.children| ::
        fresh(builders[|old(builders)| + k]) && builders[|old(builders)| + k].Spec() == Rebuilt(possible, p.children[k])
      ensures old(builders) == [] && old(value) == "" ==> Spec() == Rebuilt(possible, p)
      decreases p, 2
    {
      name := p.name;
      var subs, reprs := FillEach(possible, p, p.children);
      ghost var n0 := |builders|;
      Attach(subs, reprs);
      assert forall k | 0 <= k < |p.children| :: builders[n0 + k] == subs[k];
      if n0 == 0 && old(value) == "" {
        assert builders == subs;
        FilledSpec(p);
      }
    }

    /** Appends builders that are valid on their own and do not contain this one. */
    method Attach(subs: seq<PredicateBuilder>, ghost reprs: set<object>)
      requires Valid() && this !in reprs
      requires forall k | 0 <= k < |subs| :: subs[k].Valid() && subs[k] in subs[k].Repr && subs[k].Repr <= reprs
      modifies this
      ensures Valid() && Repr == old(Repr) + reprs
      ensures builders == old(builders) + subs && name == old(name) && value == old(value)
      ensures forall k | 0 <= k < |subs| :: subs[k].Spec() == old(subs[k].Spec())
    {
      ghost var n0 := |builders|;
      builders := builders + subs;
      Repr := Repr + reprs;
      forall k | 0 <= k < |builders|
        ensures builders[k] in Repr && builders[k].Repr <= Repr && this !in builders[k].Repr && builders[k].Valid()
      {
        if k < n0 {
          assert builders[k] == old(builders)[k];
        } else {
          assert builders[k] == subs[k - n0];
        }
      }
    }

    /** A builder holding p's name and content, or builders for p's children, builds what filling a fresh one from p builds. */
    lemma FilledSpec(p: Pred)
      requires Valid() && name == p.name
      requires p.Flat? ==> builders == [] && value == p.content
      requires p.Compound? ==>
        && value == "" && |builders| == |p.children|
        && forall k | 0 <= k < |p.children| :: builders[k].Spec() == Rebuilt(possible, p.children[k])
      ensures Spec() == Rebuilt(possible, p)
    {
      ghost var specs := SpecsFrom(0);
      if p.Compound? {
        forall i | 0 <= i < |p.children|
          ensures specs[i] == RebuiltAll(possible, p.children)[i]
        {
          assert specs[i] == builders[i].Spec();
        }
        assert specs == RebuiltAll(possible, p.children);
      } else {
        assert specs == [];
      }
      RebuiltShape(possible, p);
    }
  }

  /**
   * The loop of fill_from_predicate over a compound predicate's children: one
   * new builder per child, filled from it, in order. `reprs` gathers their
   * footprints. Written as a recursion over the children: each builder is
   * new, so filling the later ones leaves the earlier ones as they were.
   */
  method FillEach(possible: seq<Mapping>, ghost p: Pred, children: seq<Pred>)
    returns (subs: seq<PredicateBuilder>, ghost reprs: set<object>)
    requires p.Compound? && forall c | c in children :: c in p.children
    ensures fresh(reprs) && |subs| == |children|
    ensures forall k | 0 <= k < |children| ::
      && subs[k].Valid() && subs[k] in subs[k].Repr && subs[k].Repr <= reprs
      && subs[k].Spec() == Rebuilt(possible, children[k])
    decreases p, 1, |children|
  {
    if children == [] {
      return [], {};
    }
    var first := FilledBuilder(possible, p, children[0]);
    var rest, restReprs := FillEach(possible, p, children[1..]);
    subs := [first] + rest;
    reprs := first.Repr + restReprs;
    forall k | 0 <= k < |children|
      ensures subs[k].Valid() && subs[k] in subs[k].Repr && subs[k].Repr <= reprs
      ensures subs[k].Spec() == Rebuilt(possible, children[k])
    {
      if k > 0 {
        assert subs[k] == rest[k - 1] && children[k] == children[1..][k - 1];
      }
    }
  }

  /** One step of that loop: a new builder, filled from the child c of p. */
  method FilledBuilder(possible: seq<Mapping>, ghost p: Pred, c: Pred) returns (sub: PredicateBuilder)
    requires p.Compound? && c in p.children
    ensures fresh(sub) && fresh(sub.Repr) && sub.Valid() && sub in sub.Repr
    ensures sub.possible == possible && sub.Spec() == Rebuilt(possible, c)
    decreases p, 0
  {
    sub := new PredicateBuilder(possible);
    sub.FillFromPredicate(c);
  }

  /**
   * Editing a predicate: a fresh builder filled from p builds what Rebuilt
   * says, which is p itself when the mapping's kinds agree with p's classes.
   */
  method FillThenBuild(possible: seq<Mapping>, p: Pred) returns (q: Pred)
    ensures q == Rebuilt(possible, p)
    ensures Agrees(possible, p) ==> q == p
  {
    var b := new PredicateBuilder(possible);
    b.FillFromPredicate(p);
    q := b.Build();
    if Agrees(possible, p) {
      RebuiltAgrees(possible, p);
    }
  }

  class BreakPointBuilder {
    const possible: seq<Mapping>
    var builders: seq<PredicateBuilder>
    ghost var Repr: set<object>

    ghost predicate Valid()
      reads this, Repr
    {
      && this in Repr
      && forall i | 0 <= i < |builders| ::
        && builders[i] in Repr
        && builders[i].Repr <= Repr
        && this !in builders[i].Repr
        && builders[i].Valid()
    }

    constructor (possible: seq<Mapping>)
      ensures Valid() && fresh(Repr) && this.possible == possible && builders == []
    {
      this.possible := possible;
      builders := [];
      Repr := {this};
    }

    /** add_predicate_builder: appends a new, empty builder and returns it. */
    method AddPredicateBuilder() returns (b: PredicateBuilder)
      requires Valid()
      modifies this
      ensures Valid() && fresh(Repr - old(Repr))
      ensures fresh(b) && b.Valid() && fresh(b.Repr) && builders == old(builders) + [b]
      ensures b.possible == possible && b.builders == [] && b.name == "" && b.value == ""
    {
      b := new PredicateBuilder(possible);
      builders := builders + [b];
      Repr := Repr + b.Repr;
    }

    /** remove_predicate_builder: drops the first occurrence of b; false, and nothing changes, when b is not there. */
    method RemovePredicateBuilder(b: PredicateBuilder) returns (removed: bool)
      requires Valid()
      modifies this
      ensures Valid() && Repr == old(Repr)
      ensures removed <==> b in old(builders)
      ensures !removed ==> builders == old(builders)
      ensures removed ==>
        var k := IndexOf(old(builders), b);
        builders == old(builders)[..k] + old(builders)[k + 1..]
    {
      var index := IndexOf(builders, b);
      if index == -1 {
        return false;
      }
      ghost var before := builders;
      builders := builders[..index] + builders[index + 1..];
      assert forall i | 0 <= i < |builders| :: builders[i] == before[if i < index then i else i + 1];
      return true;
    }

    /**
     * fill_from_breakpoint: one new builder per predicate of the chain, filled
     * from it, appended in order. The builders are filled first and appended
     * together, which leaves the same state as appending each before filling it.
     */
    method FillFromBreakpoint(bp: BreakPoint)
      requires Valid()
      modifies this
      ensures Valid() && fresh(Repr - old(Repr))
      ensures |builders| == |old(builders)| + |bp.chain| && builders[..|old(builders)|] == old(builders)
      ensures forall k | |old(builders)| <= k < |builders| ::
        builders[k].Spec() == Rebuilt(possible, bp.chain[k - |old(builders)|])
    {
      // The chain, seen as the children of one compound predicate, is what FillEach fills.
      var subs, reprs := FillEach(possible, Compound("", bp.chain), bp.chain);
      Attach(subs, reprs);
      ghost var n0 := |old(builders)|;
      forall k | n0 <= k < |builders|
        ensures builders[k].Spec() == Rebuilt(possible, bp.chain[k - n0])
      {
        assert builders[k] == subs[k - n0];
      }
    }

    /** Appends builders that are already filled; each keeps building what it built. */
    method Attach(subs: seq<PredicateBuilder>, ghost reprs: set<object>)
      requires Valid() && this !in reprs
      requires forall k | 0 <= k < |subs| :: subs[k].Valid() && subs[k] in subs[k].Repr && subs[k].Repr <= reprs
      modifies this
      ensures Valid() && Repr == old(Repr) + reprs && builders == old(builders) + subs
      ensures forall k | 0 <= k < |subs| :: subs[k].Spec() == old(subs[k].Spec())
    {
      ghost var n0 := |builders|;
      builders := builders + subs;
      Repr := Repr + reprs;
      forall k | 0 <= k < |builders|
        ensures builders[k] in Repr && builders[k].Repr <= Repr && this !in builders[k].Repr && builders[k].Valid()
      {
        if k < n0 {
          assert builders[k] == old(builders)[k];
        } else {
          assert builders[k] == subs[k - n0];
        }
      }
    }

    /** build(): a breakpoint whose chain is every builder's build(), in order; the id is given (a random uuid in the editor). */
    method Build(id: string) returns (bp: BreakPoint)
      requires Valid()
      ensures fresh(bp) && bp.id == id && !bp.paused && bp.color == "secondary"
      ensures |bp.chain| == |builders| && forall i | 0 <= i < |builders| :: bp.chain[i] == builders[i].Spec()
    {
      var built: seq<Pred> := [];
      for i := 0 to |builders|
        invariant |built| == i && forall k | 0 <= k < i :: built[k] == builders[k].Spec()
      {
        var p := builders[i].Build();
        built := built + [p];
      }
      bp := new BreakPoint(id, built, false);
    }
  }

  /**
   * Editing a breakpoint: a fresh breakpoint builder filled from bp builds a
   * breakpoint with the given id whose chain rebuilds bp's chain predicate by
   * predicate, so it is bp's chain when the mapping agrees with every predicate.
   */
  method EditBreakpoint(possible: seq<Mapping>, bp: BreakPoint, id: string) returns (edited: BreakPoint)
    ensures fresh(edited) && edited.id == id && !edited.paused
    ensures edited.chain == RebuiltAll(possible, bp.chain)
    ensures (forall i | 0 <= i < |bp.chain| :: Agrees(possible, bp.chain[i])) ==> edited.chain == bp.chain
  {
    var chain := bp.chain;
    ghost var rebuilt := RebuiltAll(possible, chain);
    var builder := new BreakPointBuilder(possible);
    assert |builder.builders| == 0;
    builder.FillFromBreakpoint(bp);
    edited := builder.Build(id);
    forall k | 0 <= k < |chain|
      ensures edited.chain[k] == rebuilt[k]
    {
      assert edited.chain[k] == builder.builders[k].Spec();
      assert builder.builders[k].Spec() == Rebuilt(possible, chain[k]);
    }
    assert edited.chain == rebuilt;
    forall i | 0 <= i < |chain| && Agrees(possible, chain[i])
      ensures rebuilt[i] == chain[i]
    {
      RebuiltAgrees(possible, chain[i]);
    }
  }
}
