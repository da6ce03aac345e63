/**
 Which macros reach a marked macro: the two ways the engine grows the set until it is
 stable, and why they agree.
 */
module MacroClosures {

  /** One `#define`: the identifiers of its replacement list, of which its own
      parameters do not count. */
  datatype Def = Def(name: string, params: set<string>, idents: set<string>)

  ghost predicate Reaches(d: Def, marked: set<string>) { (d.idents - d.params) * marked != {} }

  /** `all` holds the base and every definition that names a member. */
  ghost predicate ClosedOver(defs: seq<Def>, base: set<string>, all: set<string>) {
    base <= all && forall d :: d in defs && Reaches(d, all) ==> d.name in all
  }

  ghost predicate LeastClosed(defs: seq<Def>, base: set<string>, all: set<string>) {
    ClosedOver(defs, base, all) && forall other :: ClosedOver(defs, base, other) ==> all <= other
  }

  /** The base: a definition that is a seed or mentions one. */
  ghost predicate Seeded(d: Def, seeds: set<string>) { d.name in seeds || d.idents * seeds != {} }

  ghost function Base(defs: seq<Def>, seeds: set<string>): set<string> {
    set d | d in defs && Seeded(d, seeds) :: d.name
  }

  ghost function Names(defs: seq<Def>): set<string> {
    set d | d in defs :: d.name
  }

  /** A new member is in every closed set that holds the old ones. */
  lemma ForcedIn(defs: seq<Def>, base: set<string>, d: Def, all: set<string>, other: set<string>)
    requires d in defs && Reaches(d, all) && all <= other && ClosedOver(defs, base, other)
    ensures d.name in other
  {
    var x :| x in (d.idents - d.params) * all;
    assert x in (d.idents - d.params) * other;
  }

  /** No closed set over the base lacks a member. */
  ghost predicate Forced(defs: seq<Def>, base: set<string>, all: set<string>) {
    forall other :: ClosedOver(defs, base, other) ==> all <= other
  }

  lemma ForcedToo(defs: seq<Def>, base: set<string>, all: set<string>, d: Def)
    requires Forced(defs, base, all) && d in defs && Reaches(d, all)
    ensures Forced(defs, base, all + {d.name})
  {
    forall other | ClosedOver(defs, base, other)
      ensures d.name in other
    {
      ForcedIn(defs, base, d, all, other);
    }
  }

  lemma BaseNext(defs: seq<Def>, i: nat, seeds: set<string>)
    requires i < |defs|
    ensures Base(defs[..i + 1], seeds) ==
            Base(defs[..i], seeds) + (if Seeded(defs[i], seeds) then {defs[i].name} else {})
  {
    assert defs[..i + 1] == defs[..i] + [defs[i]];
  }

  lemma BaseBounds(defs: seq<Def>, seeds: set<string>)
    ensures Base(defs[..0], seeds) == {} && Base(defs[..|defs|], seeds) == Base(defs, seeds) <= Names(defs)
  {
    assert defs[..|defs|] == defs;
  }

  /** Growing within the pass: each definition sees what the ones before it added. */
  method GrowInPass(defs: seq<Def>, seeds: set<string>) returns (asm: set<string>)
    ensures LeastClosed(defs, Base(defs, seeds), asm)
  {
    hide Base, ClosedOver;
    asm := {};
    BaseBounds(defs, seeds);
    for i := 0 to |defs|
      invariant asm == Base(defs[..i], seeds)
    {
      BaseNext(defs, i, seeds);
      var d := defs[i];
      if d.name in seeds || d.idents * seeds != {} { asm := asm + {d.name}; }
    }
    ghost var base := Base(defs, seeds);
    BaseForced(defs, base);
    var grew := true;
    while grew
      invariant base <= asm <= Names(defs) && Forced(defs, base, asm)
      invariant !grew ==> forall d :: d in defs && Reaches(d, asm) ==> d.name in asm
      decreases Names(defs) - asm, grew
    {
      grew := false;
      ghost var before := asm;
      for i := 0 to |defs|
        invariant before <= asm <= Names(defs) && Forced(defs, base, asm)
        invariant grew <==> asm != before
        invariant !grew ==> forall d :: d in defs[..i] && Reaches(d, asm) ==> d.name in asm
      {
        var d := defs[i];
        assert defs[..i + 1] == defs[..i] + [d];
        if d.name !in asm && (d.idents - d.params) * asm != {} {
          ForcedToo(defs, base, asm, d);
          assert d.name !in before;
          asm := asm + {d.name};
          grew := true;
        }
      }
      assert defs[..|defs|] == defs;
    }
    ClosedAndForced(defs, base, asm);
  }

  lemma BaseForced(defs: seq<Def>, base: set<string>)
    ensures Forced(defs, base, base)
  {
  }

  lemma ClosedAndForced(defs: seq<Def>, base: set<string>, all: set<string>)
    requires base <= all && Forced(defs, base, all)
    requires forall d :: d in defs && Reaches(d, all) ==> d.name in all
    ensures LeastClosed(defs, base, all)
  {
  }

  /** Alias edges, the definitions of one name merged. */
  ghost predicate Merged(defs: seq<Def>, bodies: map<string, set<string>>) {
    && bodies.Keys == Names(defs)
    && forall n :: n in bodies ==> bodies[n] == set d, x | d in defs && d.name == n && x in d.idents - d.params :: x
  }

  method MergeAliases(defs: seq<Def>) returns (bodies: map<string, set<string>>)
    ensures Merged(defs, bodies)
  {
    bodies := map[];
    for i := 0 to |defs|
      invariant Merged(defs[..i], bodies)
    {
      var d := defs[i];
      assert defs[..i + 1] == defs[..i] + [d];
      var known := if d.name in bodies then bodies[d.name] else {};
      bodies := bodies[d.name := known + (d.idents - d.params)];
    }
    assert defs[..|defs|] == defs;
  }

  /** Growing round by round: each round looks at what the last one left. */
  method GrowByRounds(ghost defs: seq<Def>, bodies: map<string, set<string>>, base: set<string>)
    returns (marked: set<string>)
    requires Merged(defs, bodies)
    ensures LeastClosed(defs, base, marked)
  {
    marked := base;
    while true
      invariant base <= marked <= base + bodies.Keys
      invariant Forced(defs, base, marked)
      decreases base + bodies.Keys - marked
    {
      var reached := set name | name in bodies && bodies[name] * marked != {};
      ReachedByAliases(defs, bodies, marked);
      if reached <= marked { break; }
      forall other | ClosedOver(defs, base, other)
        ensures reached <= other
      {
        forall name | name in reached
          ensures name in other
        {
          var d :| d in defs && d.name == name && Reaches(d, marked);
          ForcedIn(defs, base, d, marked, other);
        }
      }
      marked := marked + reached;
    }
  }

  /** A name reaches through its merged edges what one of its definitions reaches. */
  lemma ReachedByAliases(defs: seq<Def>, bodies: map<string, set<string>>, marked: set<string>)
    requires Merged(defs, bodies)
    ensures forall name :: name in bodies && bodies[name] * marked != {} <==>
              exists d :: d in defs && d.name == name && Reaches(d, marked)
  {
    forall name
      ensures name in bodies && bodies[name] * marked != {} <==>
                exists d :: d in defs && d.name == name && Reaches(d, marked)
    {
      if name in bodies && bodies[name] * marked != {} {
        var x :| x in bodies[name] * marked;
        var d :| d in defs && d.name == name && x in d.idents - d.params;
        assert x in (d.idents - d.params) * marked;
      }
      if exists d :: d in defs && d.name == name && Reaches(d, marked) {
        var d :| d in defs && d.name == name && Reaches(d, marked);
        var x :| x in (d.idents - d.params) * marked;
        assert d.name in Names(defs) && x in bodies[name] * marked;
      }
    }
  }

  /** A step up: a definition of `name` mentions `x`, which is none of its own parameters. */
  ghost predicate Mentions(defs: seq<Def>, name: string, x: string) {
    exists d :: d in defs && d.name == name && x in d.idents && x !in d.params
  }

  /** Names, each of which mentions the next one. */
  ghost predicate Chain(defs: seq<Def>, names: seq<string>) {
    names != [] && forall i :: 0 < i < |names| ==> Mentions(defs, names[i - 1], names[i])
  }

  /** Some chain leads from the name into the base. */
  ghost predicate Leads(defs: seq<Def>, base: set<string>, name: string) {
    exists names :: Chain(defs, names) && names[0] == name && names[|names| - 1] in base
  }

  /** What the closures come to: exactly the names from which a chain of definitions leads into
      the base. */
  lemma ClosureIsTheChains(defs: seq<Def>, base: set<string>, all: set<string>, name: string)
    requires LeastClosed(defs, base, all)
    ensures name in all <==> Leads(defs, base, name)
  {
    hide LeastClosed;
    LeastIsClosed(defs, base, all);
    var led := set n | n in all && Leads(defs, base, n);
    LedIsClosed(defs, base, all, led);
    if Leads(defs, base, name) {
      var names :| Chain(defs, names) && names[0] == name && names[|names| - 1] in base;
      ChainIsClosed(defs, base, all, names);
    }
  }

  lemma LeastIsClosed(defs: seq<Def>, base: set<string>, all: set<string>)
    requires LeastClosed(defs, base, all)
    ensures ClosedOver(defs, base, all) && forall other :: ClosedOver(defs, base, other) ==> all <= other
  {
  }

  lemma {:induction false} ChainIsClosed(defs: seq<Def>, base: set<string>, all: set<string>, names: seq<string>)
    requires ClosedOver(defs, base, all) && Chain(defs, names) && names[|names| - 1] in base
    ensures names[0] in all
    decreases |names|
  {
    if |names| > 1 {
      var rest := names[1..];
      forall i | 0 < i < |rest|
        ensures Mentions(defs, rest[i - 1], rest[i])
      {
        assert Mentions(defs, names[(i + 1) - 1], names[i + 1]);
      }
      ChainIsClosed(defs, base, all, rest);
      assert Mentions(defs, names[1 - 1], names[1]);
      var d :| d in defs && d.name == names[0] && names[1] in d.idents && names[1] !in d.params;
      assert names[1] in (d.idents - d.params) * all;
    }
  }

  lemma LedIsClosed(defs: seq<Def>, base: set<string>, all: set<string>, led: set<string>)
    requires ClosedOver(defs, base, all) && forall n :: n in led <==> n in all && Leads(defs, base, n)
    ensures ClosedOver(defs, base, led)
  {
    hide Leads;
    forall n | n in base
      ensures n in led
    {
      BaseLeads(defs, base, n);
    }
    forall d | d in defs && Reaches(d, led)
      ensures d.name in led
    {
      var x :| x in (d.idents - d.params) * led;
      assert x in (d.idents - d.params) * all;
      OneMoreLeads(defs, base, d, x);
    }
  }

  lemma BaseLeads(defs: seq<Def>, base: set<string>, name: string)
    requires name in base
    ensures Leads(defs, base, name)
  {
    assert Chain(defs, [name]) && [name][0] == name;
  }

  lemma OneMoreLeads(defs: seq<Def>, base: set<string>, d: Def, x: string)
    requires d in defs && x in d.idents - d.params && Leads(defs, base, x)
    ensures Leads(defs, base, d.name)
  {
    var names :| Chain(defs, names) && names[0] == x && names[|names| - 1] in base;
    var more := [d.name] + names;
    assert Mentions(defs, d.name, x);
    forall i | 0 < i < |more|
      ensures Mentions(defs, more[i - 1], more[i])
    {
      if i > 1 { assert Mentions(defs, names[(i - 1) - 1], names[i - 1]); }
    }
    assert Chain(defs, more) && more[|more| - 1] in base;
  }

  /** The base, name by name: a definition of it is a seed or mentions one. */
  lemma BaseIs(defs: seq<Def>, seeds: set<string>, name: string)
    ensures name in Base(defs, seeds) <==>
      exists d :: d in defs && d.name == name && (name in seeds || exists x :: x in d.idents && x in seeds)
  {
    if name in Base(defs, seeds) {
      var d :| d in defs && Seeded(d, seeds) && d.name == name;
      if d.idents * seeds != {} { var x :| x in d.idents * seeds; }
    }
    if d :| d in defs && d.name == name && (name in seeds || exists x :: x in d.idents && x in seeds) {
      if x :| x in d.idents && x in seeds { assert x in d.idents * seeds; }
      assert Seeded(d, seeds);
    }
  }

  /** There is only one least closed set, so the two ways agree, and the order of the
      definitions does not matter. */
  lemma OrderAndMethodAreIrrelevant(a: seq<Def>, b: seq<Def>, base: set<string>, x: set<string>, y: set<string>)
    requires forall d :: d in a <==> d in b
    requires LeastClosed(a, base, x) && LeastClosed(b, base, y)
    ensures x == y
  {
    assert ClosedOver(b, base, x) && ClosedOver(a, base, y);
  }
}
