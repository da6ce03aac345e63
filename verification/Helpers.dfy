/**
 The helpers whose text counts as a function's own: those it reaches through its body,
 directly or through other helpers.
 */
module Helpers {
  import opened Prelude
  import opened Sorting

  /** A half-open range of source offsets. */
  type Span = (nat, nat)

  /** Everything the text at `s` refers to, the function itself aside, is in `all`. */
  ghost predicate Covered(refs: Span -> set<string>, func: string, s: Span, all: set<string>) {
    forall h :: h in refs(s) && h != func ==> h in all
  }

  /** `all` holds the helpers of the text and of every definition of its own members. */
  ghost predicate ClosedOver(refs: Span -> set<string>, defs: map<string, seq<Span>>, func: string, span: Span,
                             all: set<string>) {
    && Covered(refs, func, span, all)
    && forall h, d :: h in all && h in defs && d in defs[h] ==> Covered(refs, func, d, all)
  }

  ghost predicate LeastClosed(refs: Span -> set<string>, defs: map<string, seq<Span>>, func: string, span: Span,
                              all: set<string>) {
    && ClosedOver(refs, defs, func, span, all)
    && forall other :: ClosedOver(refs, defs, func, span, other) ==> all <= other
  }

  /** A text in reach: the function's own, or a definition of a helper seen. */
  ghost predicate InReach(defs: map<string, seq<Span>>, span: Span, seen: set<string>, s: Span) {
    s == span || exists h :: h in seen && h in defs && s in defs[h]
  }

  /** Every text in reach is still to do, or is the one at hand, or is done with. */
  ghost predicate Pending(refs: Span -> set<string>, defs: map<string, seq<Span>>, func: string, span: Span,
                          seen: set<string>, todo: seq<Span>, atHand: Option<Span>) {
    forall s: Span :: InReach(defs, span, seen, s) ==> s in todo || atHand == Some(s) || Covered(refs, func, s, seen)
  }

  /** The worklist, over any reference relation whatever, cyclic ones included. */
  method Reached(refs: Span -> set<string>, defs: map<string, seq<Span>>, func: string, span: Span)
    returns (seen: set<string>)
    requires forall s: Span :: refs(s) <= defs.Keys
    ensures func !in seen && seen <= defs.Keys
    ensures LeastClosed(refs, defs, func, span, seen)
  {
    seen := {};
    var todo := [span];
    while todo != []
      invariant seen <= defs.Keys && func !in seen
      invariant Pending(refs, defs, func, span, seen, todo, None)
      invariant forall s :: s in todo ==> InReach(defs, span, seen, s)
      invariant forall other :: ClosedOver(refs, defs, func, span, other) ==> seen <= other
      decreases defs.Keys - seen, |todo|
    {
      var s := todo[|todo| - 1];
      ghost var before := seen;
      TakeOne(refs, defs, func, span, seen, todo);
      todo := todo[..|todo| - 1];
      ghost var rest := todo;
      var names := refs(s);
      while names != {}
        invariant names <= refs(s)
        invariant before <= seen <= defs.Keys && func !in seen
        invariant InReach(defs, span, seen, s)
        invariant Covered(refs, func, s, seen + names)
        invariant Pending(refs, defs, func, span, seen, todo, Some(s))
        invariant forall d :: d in todo ==> InReach(defs, span, seen, d)
        invariant forall other :: ClosedOver(refs, defs, func, span, other) ==> seen <= other
        invariant seen == before ==> todo == rest
        decreases names
      {
        var name :| name in names;
        if name != func && name !in seen {
          SeeOne(refs, defs, func, span, seen, todo, s, name);
          seen := seen + {name};
          todo := todo + defs[name];
        }
        names := names - {name};
      }
    }
  }

  lemma TakeOne(refs: Span -> set<string>, defs: map<string, seq<Span>>, func: string, span: Span,
                seen: set<string>, todo: seq<Span>)
    requires todo != [] && Pending(refs, defs, func, span, seen, todo, None)
    ensures Pending(refs, defs, func, span, seen, todo[..|todo| - 1], Some(todo[|todo| - 1]))
  {
    assert todo == todo[..|todo| - 1] + [todo[|todo| - 1]];
  }

  /** Taking in a helper referred to in reach of what is seen. */
  lemma SeeOne(refs: Span -> set<string>, defs: map<string, seq<Span>>, func: string, span: Span,
               seen: set<string>, todo: seq<Span>, s: Span, name: string)
    requires InReach(defs, span, seen, s) && name in refs(s) && name != func && name in defs
    requires Pending(refs, defs, func, span, seen, todo, Some(s))
    requires forall d :: d in todo ==> InReach(defs, span, seen, d)
    ensures var (more, next) := (seen + {name}, todo + defs[name]);
            && InReach(defs, span, more, s)
            && Pending(refs, defs, func, span, more, next, Some(s))
            && (forall d :: d in next ==> InReach(defs, span, more, d))
    ensures forall other :: ClosedOver(refs, defs, func, span, other) && seen <= other ==> name in other
  {
    var (more, next) := (seen + {name}, todo + defs[name]);
    forall d: Span | InReach(defs, span, more, d)
      ensures d in next || d == s || Covered(refs, func, d, more)
    {
      if d !in defs[name] {
        assert InReach(defs, span, seen, d);
        assert Covered(refs, func, d, seen) ==> Covered(refs, func, d, more);
      }
    }
    forall other | ClosedOver(refs, defs, func, span, other) && seen <= other
      ensures name in other
    {
      assert Covered(refs, func, s, other);
    }
  }

  /** The text at `s` refers to `h`, and `h` is not the function itself. */
  ghost predicate Refers(refs: Span -> set<string>, func: string, s: Span, h: string) {
    h in refs(s) && h != func
  }

  /** Helpers one after the other: the function's text refers to the first, and some definition of
      each to the next. */
  ghost predicate Chain(refs: Span -> set<string>, defs: map<string, seq<Span>>, func: string, span: Span,
                        names: seq<string>) {
    && names != [] && Refers(refs, func, span, names[0])
    && forall i :: 0 < i < |names| ==> Passes(refs, defs, func, names[i - 1], names[i])
  }

  ghost predicate Passes(refs: Span -> set<string>, defs: map<string, seq<Span>>, func: string, n: string, h: string) {
    n in defs && exists d :: d in defs[n] && Refers(refs, func, d, h)
  }

  ghost predicate Led(refs: Span -> set<string>, defs: map<string, seq<Span>>, func: string, span: Span, h: string) {
    exists names :: Chain(refs, defs, func, span, names) && names[|names| - 1] == h
  }

  /** The helpers reached are exactly those at the end of such a chain. */
  lemma ReachedByAChain(refs: Span -> set<string>, defs: map<string, seq<Span>>, func: string, span: Span,
                        all: set<string>, h: string)
    requires LeastClosed(refs, defs, func, span, all)
    ensures h in all <==> Led(refs, defs, func, span, h)
  {
    hide LeastClosed, ClosedOver, Led;
    LeastIsClosed(refs, defs, func, span, all);
    var led := set n | n in all && Led(refs, defs, func, span, n);
    LedIsClosed(refs, defs, func, span, all, led);
    if Led(refs, defs, func, span, h) { LedIsReached(refs, defs, func, span, all, h); }
  }

  lemma LedIsReached(refs: Span -> set<string>, defs: map<string, seq<Span>>, func: string, span: Span,
                     all: set<string>, h: string)
    requires ClosedOver(refs, defs, func, span, all) && Led(refs, defs, func, span, h)
    ensures h in all
  {
    hide ClosedOver;
    var names :| Chain(refs, defs, func, span, names) && names[|names| - 1] == h;
    ChainIsReached(refs, defs, func, span, all, names, |names| - 1);
  }

  lemma LeastIsClosed(refs: Span -> set<string>, defs: map<string, seq<Span>>, func: string, span: Span,
                      all: set<string>)
    requires LeastClosed(refs, defs, func, span, all)
    ensures ClosedOver(refs, defs, func, span, all)
    ensures forall other :: ClosedOver(refs, defs, func, span, other) ==> all <= other
  {
  }

  lemma {:induction false} ChainIsReached(refs: Span -> set<string>, defs: map<string, seq<Span>>, func: string,
                                          span: Span, all: set<string>, names: seq<string>, i: nat)
    requires ClosedOver(refs, defs, func, span, all) && Chain(refs, defs, func, span, names) && i < |names|
    ensures names[i] in all
  {
    if i > 0 {
      ChainIsReached(refs, defs, func, span, all, names, i - 1);
      assert Passes(refs, defs, func, names[i - 1], names[i]);
      var d :| d in defs[names[i - 1]] && Refers(refs, func, d, names[i]);
      assert Covered(refs, func, d, all);
    }
  }

  lemma LedIsClosed(refs: Span -> set<string>, defs: map<string, seq<Span>>, func: string, span: Span,
                    all: set<string>, led: set<string>)
    requires ClosedOver(refs, defs, func, span, all)
    requires forall n :: n in led <==> n in all && Led(refs, defs, func, span, n)
    ensures ClosedOver(refs, defs, func, span, led)
  {
    hide Led;
    forall h | h in refs(span) && h != func
      ensures h in led
    {
      FirstIsLed(refs, defs, func, span, h);
    }
    forall n, d | n in led && n in defs && d in defs[n]
      ensures Covered(refs, func, d, led)
    {
      assert Covered(refs, func, d, all);
      forall h | h in refs(d) && h != func
        ensures h in led
      {
        NextIsLed(refs, defs, func, span, n, d, h);
      }
    }
  }

  lemma FirstIsLed(refs: Span -> set<string>, defs: map<string, seq<Span>>, func: string, span: Span, h: string)
    requires Refers(refs, func, span, h)
    ensures Led(refs, defs, func, span, h)
  {
    assert Chain(refs, defs, func, span, [h]) && [h][|[h]| - 1] == h;
  }

  lemma NextIsLed(refs: Span -> set<string>, defs: map<string, seq<Span>>, func: string, span: Span,
                  n: string, d: Span, h: string)
    requires Led(refs, defs, func, span, n) && n in defs && d in defs[n] && Refers(refs, func, d, h)
    ensures Led(refs, defs, func, span, h)
  {
    var names :| Chain(refs, defs, func, span, names) && names[|names| - 1] == n;
    var more := names + [h];
    assert Passes(refs, defs, func, n, h);
    forall i | 0 < i < |more|
      ensures Passes(refs, defs, func, more[i - 1], more[i])
    {
      if i < |names| { assert Passes(refs, defs, func, names[i - 1], names[i]); }
    }
    assert Chain(refs, defs, func, span, more) && more[|more| - 1] == h;
  }

  // ----- In file order -----

  function Place(defs: map<string, seq<Span>>, h: string): Span {
    if h in defs && defs[h] != [] then defs[h][0] else (0, 0)
  }

  /** By where the first definition stands. */
  function ByPlace(defs: map<string, seq<Span>>): (string, string) -> bool {
    (a, b) =>
      var (s, t) := (Place(defs, a), Place(defs, b));
      s.0 < t.0 || (s.0 == t.0 && s.1 <= t.1)
  }

  /** The first definition of `a` starts before that of `b`, or where it does and ends no later. */
  ghost predicate StandsFirst(defs: map<string, seq<Span>>, a: string, b: string) {
    a in defs && b in defs && |defs[a]| > 0 && |defs[b]| > 0 ==>
      defs[a][0].0 < defs[b][0].0 || (defs[a][0].0 == defs[b][0].0 && defs[a][0].1 <= defs[b][0].1)
  }

  lemma PlacesStand(defs: map<string, seq<Span>>, helpers: seq<string>)
    requires Sorted(helpers, ByPlace(defs))
    ensures forall i, j :: 0 <= i < j < |helpers| ==> StandsFirst(defs, helpers[i], helpers[j])
  {
    forall i, j | 0 <= i < j < |helpers|
      ensures StandsFirst(defs, helpers[i], helpers[j])
    {
      assert ByPlace(defs)(helpers[i], helpers[j]);
    }
  }

  ghost function Members(helpers: seq<string>): set<string> {
    set h | h in helpers
  }

  /** The helpers reached, each once, in the order of their first definitions. */
  ghost predicate InFileOrder(refs: Span -> set<string>, defs: map<string, seq<Span>>, func: string, span: Span,
                              helpers: seq<string>) {
    && LeastClosed(refs, defs, func, span, Members(helpers)) && Members(helpers) <= defs.Keys - {func}
    && Distinct(helpers)
    && forall i, j :: 0 <= i < j < |helpers| ==> StandsFirst(defs, helpers[i], helpers[j])
  }

  method InlineHelpers(refs: Span -> set<string>, defs: map<string, seq<Span>>, func: string, span: Span)
    returns (helpers: seq<string>)
    requires forall s: Span :: refs(s) <= defs.Keys
    ensures InFileOrder(refs, defs, func, span, helpers)
  {
    hide LeastClosed, Sorted, Sort, Distinct, ByPlace, StandsFirst;
    var seen := Reached(refs, defs, func, span);
    var list := InAnyOrder(seen);
    PlacesAreOrdered(defs);
    SortPermutes(list, ByPlace(defs));
    SortHolds(list, ByPlace(defs));
    SortSorts(list, ByPlace(defs));
    PermutationKeepsDistinct(list, Sort(list, ByPlace(defs)));
    helpers := Sort(list, ByPlace(defs));
    PlacesStand(defs, helpers);
    assert Members(helpers) == seen;
  }

  lemma PlacesAreOrdered(defs: map<string, seq<Span>>)
    ensures Total(ByPlace(defs))
  {
  }

  method InAnyOrder(all: set<string>) returns (list: seq<string>)
    ensures Distinct(list) && forall h :: h in list <==> h in all
  {
    list := [];
    var left := all;
    while left != {}
      invariant left <= all && Distinct(list)
      invariant forall h :: h in list <==> h in all - left
      decreases left
    {
      var h :| h in left;
      assert h !in list;
      list := list + [h];
      left := left - {h};
    }
  }

  // ----- Counting what stands in reach -----

  datatype Spans = Ambiguous | Attributed(spans: seq<(string, Span)>)

  /** None of them has two definitions, or none. */
  ghost predicate Single(defs: map<string, seq<Span>>, all: set<string>)
    requires all <= defs.Keys
  {
    forall h :: h in all ==> |defs[h]| == 1
  }

  /** The offset lies in the function's definition or in a helper's. */
  ghost predicate InText(defs: map<string, seq<Span>>, span: Span, all: set<string>, offset: nat)
    requires all <= defs.Keys && Single(defs, all)
  {
    span.0 <= offset < span.1 || exists h :: h in all && defs[h][0].0 <= offset < defs[h][0].1
  }

  /** The function's definition and then each helper's, with their names. */
  function NamedSpans(defs: map<string, seq<Span>>, func: string, span: Span, helpers: seq<string>)
    : seq<(string, Span)>
  {
    [(func, span)] + seq(|helpers|, k requires 0 <= k < |helpers| => (helpers[k], Place(defs, helpers[k])))
  }

  /** The function's definition and then each reached helper's, in file order; an ambiguous
      one is an error, no definition at all is an empty list. */
  method AttributedSpans(refs: Span -> set<string>, defs: map<string, seq<Span>>, func: string,
                         candidates: seq<Span>) returns (r: Spans)
    requires forall s: Span :: refs(s) <= defs.Keys
    ensures |candidates| == 0 ==> r == Attributed([])
    ensures |candidates| > 1 ==> r == Ambiguous
    ensures |candidates| == 1 ==> exists helpers :: Attributes(refs, defs, func, candidates[0], helpers, r)
  {
    hide LeastClosed, Sorted, Distinct;
    if |candidates| > 1 { return Ambiguous; }
    if |candidates| == 0 { return Attributed([]); }
    var span := candidates[0];
    var helpers := InlineHelpers(refs, defs, func, span);
    var spans := [(func, span)];
    forall h | h in helpers
      ensures h in defs
    {
      assert h in Members(helpers);
    }
    for k := 0 to |helpers|
      invariant spans == NamedSpans(defs, func, span, helpers[..k])
      invariant forall j :: 0 <= j < k ==> |defs[helpers[j]]| == 1
    {
      var h := helpers[k];
      if |defs[h]| != 1 {
        r := Ambiguous;
        assert Attributes(refs, defs, func, span, helpers, r);
        return;
      }
      assert helpers[..k + 1] == helpers[..k] + [h];
      spans := spans + [(h, defs[h][0])];
    }
    assert helpers[..|helpers|] == helpers;
    r := Attributed(spans);
    assert Attributes(refs, defs, func, span, helpers, r);
  }

  /** The function with its own span, then each helper with its first definition. */
  ghost predicate Names(defs: map<string, seq<Span>>, func: string, span: Span, helpers: seq<string>,
                        spans: seq<(string, Span)>) {
    && |spans| == |helpers| + 1 && spans[0] == (func, span)
    && forall k :: 0 <= k < |helpers| && helpers[k] in defs && |defs[helpers[k]]| > 0 ==>
         spans[k + 1] == (helpers[k], defs[helpers[k]][0])
  }

  /** What attribution makes of the helpers reached. */
  ghost predicate Attributes(refs: Span -> set<string>, defs: map<string, seq<Span>>, func: string, span: Span,
                             helpers: seq<string>, r: Spans) {
    && InFileOrder(refs, defs, func, span, helpers)
    && (if Single(defs, Members(helpers)) then r.Attributed? && Names(defs, func, span, helpers, r.spans)
        else r == Ambiguous)
  }

  predicate Holds(s: Span, offset: nat) { s.0 <= offset < s.1 }

  ghost predicate InSome(spans: seq<(string, Span)>, offset: nat) {
    exists k :: 0 <= k < |spans| && Holds(spans[k].1, offset)
  }

  /** The strip spans that start in the function's definition or in a helper's. */
  ghost function HitsIn(defs: map<string, seq<Span>>, span: Span, all: set<string>, starts: seq<nat>): set<nat>
    requires all <= defs.Keys && Single(defs, all)
  {
    set k: nat | k < |starts| && InText(defs, span, all, starts[k])
  }

  ghost function HitsAmong(spans: seq<(string, Span)>, starts: seq<nat>): set<nat> {
    set k: nat | k < |starts| && InSome(spans, starts[k])
  }

  /** A construct in a reached helper is counted: the count is never zero then. */
  lemma HelperHitsCount(defs: map<string, seq<Span>>, span: Span, all: set<string>, starts: seq<nat>,
                        h: string, k: nat)
    requires all <= defs.Keys && Single(defs, all)
    requires h in all && k < |starts| && defs[h][0].0 <= starts[k] < defs[h][0].1
    ensures |HitsIn(defs, span, all, starts)| >= 1
  {
    var hits := HitsIn(defs, span, all, starts);
    assert k in hits;
    assert hits != {};
  }

  /** How many strip spans start in the function's definition or in a reached helper's,
      plus the volatile count when there is one; -1 when the function is ambiguous. A
      function with no C body counts 1 when an asm block supplies it, else -1. */
  method CheatCount(refs: Span -> set<string>, defs: map<string, seq<Span>>, func: string,
                    candidates: seq<Span>, suppliedByAsm: bool, starts: seq<nat>, volatileCount: int)
    returns (count: int, ghost reached: set<string>)
    requires forall s: Span :: refs(s) <= defs.Keys
    ensures |candidates| == 0 ==> count == if suppliedByAsm then 1 else -1
    ensures |candidates| > 1 ==> count == -1
    ensures |candidates| == 1 ==> LeastClosed(refs, defs, func, candidates[0], reached) && reached <= defs.Keys
    ensures |candidates| == 1 && !Single(defs, reached) ==> count == -1
    ensures |candidates| == 1 && Single(defs, reached) ==>
      count == |HitsIn(defs, candidates[0], reached, starts)| + (if volatileCount > 0 then volatileCount else 0)
  {
    reached := {};
    var attributed := AttributedSpans(refs, defs, func, candidates);
    ghost var helpers: seq<string> := [];
    if |candidates| == 1 {
      helpers :| Attributes(refs, defs, func, candidates[0], helpers, attributed);
      reached := Members(helpers);
    }
    if attributed.Ambiguous? { return -1, reached; }
    if attributed.spans == [] { return if suppliedByAsm then 1 else -1, reached; }
    var hits := CountHits(attributed.spans, starts);
    count := hits + (if volatileCount > 0 then volatileCount else 0);
    if |candidates| == 1 {
      forall k | 0 <= k < |starts|
        ensures InSome(attributed.spans, starts[k]) <==> InText(defs, candidates[0], reached, starts[k])
      {
        HitsAreInReach(defs, func, candidates[0], helpers, attributed.spans, starts[k]);
      }
      assert HitsAmong(attributed.spans, starts) == HitsIn(defs, candidates[0], reached, starts);
    }
  }

  lemma HitsAreInReach(defs: map<string, seq<Span>>, func: string, span: Span, helpers: seq<string>,
                       spans: seq<(string, Span)>, offset: nat)
    requires Members(helpers) <= defs.Keys && Single(defs, Members(helpers))
    requires Names(defs, func, span, helpers, spans)
    ensures InSome(spans, offset) <==> InText(defs, span, Members(helpers), offset)
  {
    assert spans[0].1 == span;
    forall k | 0 <= k < |helpers|
      ensures helpers[k] in Members(helpers) && spans[k + 1].1 == defs[helpers[k]][0]
    {
      assert helpers[k] in helpers;
    }
    if InSome(spans, offset) {
      var k :| 0 <= k < |spans| && Holds(spans[k].1, offset);
      if k > 0 { assert spans[(k - 1) + 1] == spans[k] && helpers[k - 1] in Members(helpers); }
    }
    if h :| h in Members(helpers) && defs[h][0].0 <= offset < defs[h][0].1 {
      var k :| 0 <= k < |helpers| && helpers[k] == h;
      assert Holds(spans[k + 1].1, offset);
    }
  }

  method CountHits(spans: seq<(string, Span)>, starts: seq<nat>) returns (hits: nat)
    ensures hits == |HitsAmong(spans, starts)|
  {
    hits := 0;
    ghost var found: set<nat> := {};
    for i := 0 to |starts|
      invariant found == set k: nat | k < i && InSome(spans, starts[k])
      invariant hits == |found|
    {
      var any := false;
      for k := 0 to |spans|
        invariant any <==> InSome(spans[..k], starts[i])
      {
        assert spans[..k + 1] == spans[..k] + [spans[k]];
        InSomeSnoc(spans[..k], spans[k], starts[i]);
        if Holds(spans[k].1, starts[i]) { any := true; }
      }
      assert spans[..|spans|] == spans;
      if any {
        hits := hits + 1;
        found := found + {i};
      }
    }
    assert found == HitsAmong(spans, starts);
  }

  lemma InSomeSnoc(spans: seq<(string, Span)>, s: (string, Span), offset: nat)
    ensures InSome(spans + [s], offset) <==> InSome(spans, offset) || Holds(s.1, offset)
  {
    var all := spans + [s];
    assert all[|spans|] == s;
    forall k | 0 <= k < |spans| ensures all[k] == spans[k] {}
  }
}
