/**
 Fairness of the rotation over runs: how often the drained queue may pass an item over.
 */
module RotationRuns {
  import opened Prelude
  import opened Sorting
  import opened Rotation

  /* ---- Runs, whatever the order among equal stamps ---- */

  /** The step brings the oldest item back because the active list was empty. */
  ghost predicate Drains(m: State, e: Event) {
    match e
    case Return(sig) => Empty(BouncedAll(m, sig))
    case Next(sig) => !Any(m, Active) && Empty(BouncedAll(m, Unmeasured(sig)))
    case _ => false
  }

  ghost predicate Empty(b: State) {
    !Any(b, Active) && Any(b, Rotated)
  }

  ghost predicate Waits(m: State, x: Name) {
    x in m && m[x].status == Rotated
  }

  /** The items that may come back before `x`: put away no later. */
  ghost function Ahead(m: State, x: Name): set<Name>
    requires x in m
  {
    set g | g in m && g != x && PutAway(m[g]) && m[g].stamp <= m[x].stamp
  }

  /** The event neither puts `x` away again, nor removes it, nor lets a regeneration drop it. */
  predicate Spares(e: Event, x: Name) {
    match e
    case Rotate(f, _) => f != x
    case Complete(f) => f != x
    case Regenerate(sticky) => x in sticky
    case _ => true
  }

  /** Whatever the event puts away, it stamps later than `s`. */
  predicate StampsLater(e: Event, s: nat) {
    e.Rotate? ==> e.stamp > s
  }

  /** `x` is active in `n`, or waits on behind no more items than before: fewer after a drain. */
  ghost predicate Nearer(m: State, e: Event, n: State, x: Name)
    requires x in m
  {
    && x in n
    && (n[x].status == Active ||
        (Carried(m[x], n[x]) && Ahead(n, x) <= Ahead(m, x) && (Drains(m, e) ==> Ahead(n, x) < Ahead(m, x))))
  }

  lemma BouncedNearer(m: State, sig: Signals, x: Name)
    requires Waits(m, x)
    ensures var b := BouncedAll(m, sig);
      x in b && (b[x].status == Active || (b[x] == m[x] && Ahead(b, x) <= Ahead(m, x)))
  {
  }

  lemma DrainedNearer(b: State, n: State, x: Name)
    requires Waits(b, x) && Drained(b, n) && !Any(b, Legacy)
    ensures x in n
    ensures n[x].status == Active || (n[x] == b[x] && Ahead(n, x) <= Ahead(b, x))
    ensures n[x].status != Active && Empty(b) ==> Ahead(n, x) < Ahead(b, x)
  {
    if Empty(b) {
      var f :| Oldest(b, f) && n == b[f := Back(b[f])];
      if f != x { assert f in Ahead(b, x) && f !in Ahead(n, x); }
    }
  }

  lemma NoLegacyLeft(m: State, sig: Signals)
    ensures !Any(BouncedAll(m, sig), Legacy)
  {
  }

  lemma ActiveStays(b: State, n: State, x: Name)
    requires x in b && b[x].status == Active && Drained(b, n)
    ensures x in n && n[x].status == Active
  {
  }

  lemma ReturnedNearer(m: State, sig: Signals, n: State, x: Name)
    requires Waits(m, x) && Returned(m, sig, n)
    ensures x in n
    ensures n[x].status == Active || (n[x] == m[x] && Ahead(n, x) <= Ahead(m, x))
    ensures n[x].status != Active && Empty(BouncedAll(m, sig)) ==> Ahead(n, x) < Ahead(m, x)
  {
    hide BouncedAll, Drained, Ahead, Any;
    var b := BouncedAll(m, sig);
    BouncedNearer(m, sig, x);
    NoLegacyLeft(m, sig);
    if b[x].status == Active { ActiveStays(b, n, x); } else { DrainedNearer(b, n, x); }
  }

  lemma StepNearer(m: State, e: Event, n: State, x: Name)
    requires Step(m, e, n) && Waits(m, x) && Spares(e, x) && StampsLater(e, m[x].stamp)
    ensures Nearer(m, e, n, x)
  {
    match e
    case Return(sig) =>
      hide Returned, Ahead, BouncedAll, Empty;
      ReturnedNearer(m, sig, n, x);
    case Next(sig) =>
      hide Returned, Ahead, BouncedAll, Empty;
      if !Any(m, Active) { ReturnedNearer(m, Unmeasured(sig), n, x); }
    case Rotate(_, _) =>
    case Unpark(_) =>
    case Complete(_) =>
    case Open(_, _) =>
    case Regenerate(_) =>
  }

  ghost predicate Run(states: seq<State>, events: seq<Event>) {
    |states| == |events| + 1 && forall i :: 0 <= i < |events| ==> Step(states[i], events[i], states[i + 1])
  }

  /** Nothing in the run touches `x` or is put away no later than it was. */
  predicate RunSpares(events: seq<Event>, x: Name, s: nat) {
    forall e :: e in events ==> Spares(e, x) && StampsLater(e, s)
  }

  ghost function DrainCount(states: seq<State>, events: seq<Event>): nat
    requires |states| == |events| + 1
  {
    if events == [] then 0
    else (if Drains(states[0], events[0]) then 1 else 0) + DrainCount(states[1..], events[1..])
  }

  ghost predicate ActiveIn(m: State, x: Name) {
    x in m && m[x].status == Active
  }

  lemma FewerAhead(a: set<Name>, b: set<Name>)
    requires a <= b
    ensures |a| <= |b| && (a != b ==> |a| < |b|)
  {
    assert b == a + (b - a);
    assert a != b ==> b - a != {};
  }

  /** When nothing is put away in the meantime with a stamp no later than its own, an item
      behind k others, put away no later, is active by the (k+1)-th drain, however equal stamps
      are ordered and whatever a regeneration or a change of the rule debt does to the list. */
  lemma {:induction false} ComesBackWhateverTheTies(states: seq<State>, events: seq<Event>, x: Name)
    requires Run(states, events) && Waits(states[0], x) && RunSpares(events, x, states[0][x].stamp)
    requires DrainCount(states, events) > |Ahead(states[0], x)|
    ensures exists i :: 0 <= i < |states| && ActiveIn(states[i], x)
    decreases |events|
  {
    hide Step, Drains, Ahead, Spares, StampsLater;
    assert Step(states[0], events[0], states[1]) && Spares(events[0], x);
    assert StampsLater(events[0], states[0][x].stamp);
    StepNearer(states[0], events[0], states[1], x);
    if ActiveIn(states[1], x) { return; }
    FewerAhead(Ahead(states[1], x), Ahead(states[0], x));
    RunTail(states, events, x, states[0][x].stamp);
    ComesBackWhateverTheTies(states[1..], events[1..], x);
    var i :| 0 <= i < |states[1..]| && ActiveIn(states[1..][i], x);
    assert states[i + 1] == states[1..][i];
  }

  lemma RunTail(states: seq<State>, events: seq<Event>, x: Name, s: nat)
    requires Run(states, events) && events != [] && RunSpares(events, x, s)
    ensures Run(states[1..], events[1..]) && RunSpares(events[1..], x, s)
  {
    hide Step, Spares, StampsLater;
    forall i | 0 <= i < |events[1..]|
      ensures Step(states[1..][i], events[1..][i], states[1..][i + 1])
    {
      assert events[1..][i] == events[i + 1] && states[1..][i] == states[i + 1] && states[1..][i + 1] == states[i + 2];
    }
  }

  /* ---- Runs of lists ---- */

  /** `debts[i]` is the rule debt the list is sorted by at step `i`. */
  ghost predicate ListRun(states: seq<seq<Item>>, events: seq<Event>, debts: seq<set<Name>>) {
    && |states| == |events| + 1 && |debts| == |events|
    && (forall i :: 0 <= i < |states| ==> OnePerFunction(states[i]))
    && forall i :: 0 <= i < |events| ==> ListStep(states[i], events[i], debts[i], states[i + 1])
  }

  /** Of two items put away, the first comes back first: put away earlier or, at equal stamps,
      earlier in the list. */
  ghost predicate Precedes(s: seq<Item>, i: nat, k: nat) {
    i < |s| && k < |s| && PutAway(s[i]) && (s[i].stamp < s[k].stamp || (s[i].stamp == s[k].stamp && i < k))
  }

  ghost predicate InFront(s: seq<Item>, g: Name, x: Name) {
    exists i: nat, k: nat :: Precedes(s, i, k) && s[i].func == g && s[k].func == x
  }

  ghost function Front(s: seq<Item>, x: Name): set<Name> {
    set it | it in s && InFront(s, it.func, x) :: it.func
  }

  lemma FrontIs(s: seq<Item>, x: Name)
    ensures forall g :: g in Front(s, x) <==> InFront(s, g, x)
  {
    forall g | InFront(s, g, x)
      ensures g in Front(s, x)
    {
      var i: nat, k: nat :| Precedes(s, i, k) && s[i].func == g && s[k].func == x;
      assert s[i] in s;
    }
  }

  /** How often something overtakes `x`: is in front of it after a step and was not before. */
  ghost function Overtakings(states: seq<seq<Item>>, x: Name): nat {
    if |states| <= 1 then 0
    else |Front(states[1], x) - Front(states[0], x)| + Overtakings(states[1..], x)
  }

  ghost function ListDrains(states: seq<seq<Item>>, events: seq<Event>): nat
    requires |states| == |events| + 1 && forall i :: 0 <= i < |states| ==> OnePerFunction(states[i])
  {
    if events == [] then 0
    else (if Drains(View(states[0]), events[0]) then 1 else 0) + ListDrains(states[1..], events[1..])
  }

  /** Unless it is put away again or removed, a waiting item goes on waiting or is active. */
  lemma WaitsOn(m: State, e: Event, n: State, x: Name)
    requires Step(m, e, n) && Waits(m, x) && Spares(e, x)
    ensures x in n && (n[x].status == Active || (Waits(n, x) && n[x].stamp == m[x].stamp))
  {
    match e
    case Return(sig) =>
      hide Returned, Ahead, BouncedAll, Empty;
      ReturnedNearer(m, sig, n, x);
    case Next(sig) =>
      hide Returned, Ahead, BouncedAll, Empty;
      if !Any(m, Active) { ReturnedNearer(m, Unmeasured(sig), n, x); }
    case Rotate(_, _) =>
    case Unpark(_) =>
    case Complete(_) =>
    case Open(_, _) =>
    case Regenerate(_) =>
  }

  lemma AfterPut(it: Item, sig: Signals)
    requires After(it, sig).status == Rotated
    ensures PutAway(it) && it.stamp <= After(it, sig).stamp && (it.status == Rotated ==> After(it, sig) == it)
  {
  }

  lemma PlaceIn(s: seq<Item>, x: Name) returns (k: nat)
    requires OnePerFunction(s) && x in View(s)
    ensures k < |s| && s[k].func == x && s[k] == View(s)[x]
  {
    k :| 0 <= k < |s| && s[k] == View(s)[x];
  }

  lemma ViewAt(s: seq<Item>, k: nat)
    requires OnePerFunction(s) && k < |s|
    ensures s[k].func in View(s) && View(s)[s[k].func] == s[k]
  {
  }

  lemma RefilledFirst(b: seq<Item>, full: seq<Item>) returns (k: nat)
    requires OnePerFunction(b) && Refilled(b, full) && Empty(View(b))
    ensures FirstOldest(b, k) && full == b[k := Back(b[k])]
  {
    hide View, OnePerFunction;
    AnyInView(b, Active);
    AnyInView(b, Rotated);
    k :| FirstOldest(b, k) && full == b[k := Back(b[k])];
  }

  /** The item an automatic return brings back when the list has drained. */
  lemma Refill(s: seq<Item>, sig: Signals, keyed: set<Name>, t: seq<Item>) returns (k: nat)
    requires OnePerFunction(s) && OnePerFunction(t) && ListReturned(s, sig, keyed, t)
    requires Empty(BouncedAll(View(s), sig))
    ensures FirstOldest(AfterAll(s, sig), k) && k < |s| && ActiveIn(View(t), s[k].func)
  {
    hide View, After, BouncedAll, Refilled, Sorted, FirstOldest, ByKey, OnePerFunction, Empty, ActiveIn;
    var b := AfterAll(s, sig);
    ListMapsView(s, b, sig);
    var full :| Refilled(b, full) && (t == Sort(full, ByKey(keyed)) || t == full == s);
    k := RefilledFirst(b, full);
    FirstIsThere(b, k);
    NameKept(s[k], sig);
    ViewOfUpdate(b, k, Back(b[k]));
    SortKeepsView(full, keyed);
    BackIsActive(View(b), b[k]);
  }

  lemma FirstIsThere(b: seq<Item>, k: nat)
    requires FirstOldest(b, k)
    ensures k < |b|
  {
  }

  lemma NameKept(it: Item, sig: Signals)
    ensures After(it, sig).func == it.func
  {
  }

  lemma BackIsActive(m: State, it: Item)
    ensures ActiveIn(m[it.func := Back(it)], it.func)
  {
  }

  /** It stood in front of every item that goes on waiting. */
  lemma FirstIsInFront(s: seq<Item>, sig: Signals, k: nat, x: Name)
    requires OnePerFunction(s) && Waits(View(s), x)
    requires FirstOldest(AfterAll(s, sig), k) && k < |s| && s[k].func != x
    requires !Any(BouncedAll(View(s), sig), Active)
    ensures InFront(s, s[k].func, x)
  {
    hide View, After, BouncedAll, OnePerFunction;
    var kx := PlaceIn(s, x);
    StillWaits(s, sig, kx, x);
    AfterPut(s[kx], sig);
    AfterPut(s[k], sig);
    var b := AfterAll(s, sig);
    assert b[k].stamp <= b[kx].stamp && (kx < k ==> b[k].stamp < b[kx].stamp);
    assert Precedes(s, k, kx);
  }

  lemma StillWaits(s: seq<Item>, sig: Signals, kx: nat, x: Name)
    requires OnePerFunction(s) && Waits(View(s), x) && !Any(BouncedAll(View(s), sig), Active)
    requires kx < |s| && s[kx] == View(s)[x]
    ensures s[kx].status == Rotated && After(s[kx], sig).status == Rotated
  {
    hide View, After;
    var b := BouncedAll(View(s), sig);
    WaitingAfter(s[kx], sig);
    assert x in b && b[x] == After(s[kx], sig);
  }

  lemma WaitingAfter(it: Item, sig: Signals)
    requires it.status == Rotated
    ensures After(it, sig).status == Active || After(it, sig).status == Rotated
  {
  }

  /** A drain takes away one of those in front of an item that goes on waiting. */
  lemma DrainTakesOne(s: seq<Item>, e: Event, keyed: set<Name>, t: seq<Item>, x: Name) returns (f: Name)
    requires ListStep(s, e, keyed, t) && Waits(View(s), x) && !ActiveIn(View(t), x) && Drains(View(s), e)
    ensures InFront(s, f, x) && !InFront(t, f, x)
  {
    hide View, OnePerFunction, Step, ListReturned, BouncedAll, Sorted, FirstOldest, After, InFront;
    var sig := if e.Return? then e.sig else Unmeasured(e.sig);
    var k := Refill(s, sig, keyed, t);
    f := s[k].func;
    FirstIsInFront(s, sig, k, x);
    ActiveIsNotInFront(t, f, x);
  }

  lemma ActiveIsNotInFront(t: seq<Item>, f: Name, x: Name)
    requires OnePerFunction(t) && ActiveIn(View(t), f)
    ensures !InFront(t, f, x)
  {
    forall i: nat, k: nat | Precedes(t, i, k)
      ensures t[i].func != f
    {
      ViewAt(t, i);
    }
  }

  lemma CountFront(a: set<Name>, b: set<Name>, drained: bool)
    requires drained ==> exists f :: f in a && f !in b
    ensures |b| + (if drained then 1 else 0) <= |a| + |b - a|
  {
    assert b == (b * a) + (b - a);
    assert |b * a| + |b - a| == |b|;
    if drained {
      var f :| f in a && f !in b;
      FewerAhead(b * a, a);
    } else {
      FewerAhead(b * a, a);
    }
  }

  lemma FrontAfter(s: seq<Item>, e: Event, keyed: set<Name>, t: seq<Item>, x: Name)
    requires ListStep(s, e, keyed, t) && Waits(View(s), x) && !ActiveIn(View(t), x)
    ensures |Front(t, x)| + (if Drains(View(s), e) then 1 else 0) <= |Front(s, x)| + |Front(t, x) - Front(s, x)|
  {
    hide View, OnePerFunction, Step, ListReturned, Sorted, Drains, InFront, Front;
    FrontIs(s, x);
    FrontIs(t, x);
    if Drains(View(s), e) { var f := DrainTakesOne(s, e, keyed, t, x); }
    CountFront(Front(s, x), Front(t, x), Drains(View(s), e));
  }

  /** Nobody waits for ever: over any run, whatever stamps are given, an item neither put away
      again nor removed is active before the queue has drained more often than there were items
      in front of it and than it was overtaken since, taken together. */
  lemma {:induction false} EveryItemComesBack(states: seq<seq<Item>>, events: seq<Event>,
                                              debts: seq<set<Name>>, x: Name)
    requires ListRun(states, events, debts)
    requires Waits(View(states[0]), x) && forall e :: e in events ==> Spares(e, x)
    requires ListDrains(states, events) > |Front(states[0], x)| + Overtakings(states, x)
    ensures exists i :: 0 <= i < |states| && ActiveIn(View(states[i]), x)
    decreases |events|
  {
    hide View, OnePerFunction, ListStep, Drains, Front, Spares, ActiveIn, Waits;
    assert ListStep(states[0], events[0], debts[0], states[1]) && Spares(events[0], x);
    if ActiveIn(View(states[1]), x) { return; }
    NextWaits(states[0], events[0], debts[0], states[1], x);
    FrontAfter(states[0], events[0], debts[0], states[1], x);
    ListRunTail(states, events, debts);
    EveryItemComesBack(states[1..], events[1..], debts[1..], x);
    var i :| 0 <= i < |states[1..]| && ActiveIn(View(states[1..][i]), x);
    assert states[i + 1] == states[1..][i];
  }

  lemma NextWaits(s: seq<Item>, e: Event, keyed: set<Name>, t: seq<Item>, x: Name)
    requires ListStep(s, e, keyed, t) && Waits(View(s), x) && Spares(e, x) && !ActiveIn(View(t), x)
    ensures Waits(View(t), x)
  {
    hide View, OnePerFunction, Step, ListReturned, Spares;
    WaitsOn(View(s), e, View(t), x);
  }

  lemma ListRunTail(states: seq<seq<Item>>, events: seq<Event>, debts: seq<set<Name>>)
    requires ListRun(states, events, debts) && events != []
    ensures ListRun(states[1..], events[1..], debts[1..])
  {
    hide ListStep;
    forall i | 0 <= i < |events[1..]|
      ensures ListStep(states[1..][i], events[1..][i], debts[1..][i], states[1..][i + 1])
    {
      assert states[1..][i] == states[i + 1] && states[1..][i + 1] == states[i + 2] && events[1..][i] == events[i + 1];
      assert debts[1..][i] == debts[i + 1];
    }
  }

  /* ---- Who can overtake ---- */

  /** `g` comes back before `x` by stamp and, at equal stamps, by the key. */
  ghost predicate KeyInFront(m: State, g: Name, x: Name, keyed: set<Name>) {
    g in m && x in m && g != x && PutAway(m[g])
    && (m[g].stamp < m[x].stamp || (m[g].stamp == m[x].stamp && Before(m[g], m[x], keyed)))
  }

  lemma OneWay(a: Item, b: Item, keyed: set<Name>)
    requires Before(a, b, keyed) && Before(b, a, keyed)
    ensures a.func == b.func
  {
  }

  /** In a sorted list the place is the key. */
  lemma PlaceIsKey(s: seq<Item>, g: Name, x: Name, keyed: set<Name>)
    requires OnePerFunction(s) && Sorted(s, ByKey(keyed)) && x in View(s)
    ensures InFront(s, g, x) <==> KeyInFront(View(s), g, x, keyed)
  {
    hide View, Before;
    if InFront(s, g, x) {
      var i: nat, k: nat :| Precedes(s, i, k) && s[i].func == g && s[k].func == x;
      ViewAt(s, i);
      ViewAt(s, k);
      if i < k { assert ByKey(keyed)(s[i], s[k]); }
    }
    if KeyInFront(View(s), g, x, keyed) {
      var i := PlaceIn(s, g);
      var k := PlaceIn(s, x);
      if k < i {
        assert ByKey(keyed)(s[k], s[i]);
        if Before(s[i], s[k], keyed) { OneWay(s[i], s[k], keyed); }
      }
      assert Precedes(s, i, k);
    }
  }

  /** What an automatic return leaves put away was put away before, no later, and has its key. */
  lemma LeftAway(m: State, sig: Signals, n: State, g: Name)
    requires Returned(m, sig, n) && g in n && PutAway(n[g])
    ensures g in m && PutAway(m[g]) && m[g].stamp <= n[g].stamp
    ensures n[g].(status := m[g].status, stamp := m[g].stamp) == m[g]
  {
    var b := BouncedAll(m, sig);
    assert g in b && n[g] == b[g] == After(m[g], sig);
  }

  lemma LeftBehind(m: State, sig: Signals, n: State, g: Name, x: Name, keyed: set<Name>)
    requires Returned(m, sig, n) && Waits(m, x) && Waits(n, x) && !KeyInFront(m, g, x, keyed)
    ensures !KeyInFront(n, g, x, keyed)
  {
    hide Returned;
    LeftAway(m, sig, n, x);
    if g in n && PutAway(n[g]) { LeftAway(m, sig, n, g); }
    assert n[x].stamp == m[x].stamp by { WaitedFor(m, sig, n, x); }
  }

  lemma WaitedFor(m: State, sig: Signals, n: State, x: Name)
    requires Returned(m, sig, n) && Waits(m, x) && Waits(n, x)
    ensures n[x] == m[x]
  {
    hide Ahead;
    ReturnedNearer(m, sig, n, x);
  }

  /** The event puts another item away with a smaller stamp than that of `x`, or with an equal
      one and a smaller key. */
  ghost predicate Overtakes(m: State, e: Event, x: Name, keyed: set<Name>)
    requires x in m
  {
    e.Rotate? && e.f in m && e.f != x &&
    (e.stamp < m[x].stamp ||
      (e.stamp == m[x].stamp && Before(m[e.f].(status := Rotated, stamp := e.stamp), m[x], keyed)))
  }

  lemma WhoOvertakesOnMaps(m: State, e: Event, n: State, g: Name, x: Name, keyed: set<Name>)
    requires Step(m, e, n) && !e.Regenerate? && Waits(m, x) && Waits(n, x) && Spares(e, x)
    requires !KeyInFront(m, g, x, keyed)
    ensures KeyInFront(n, g, x, keyed) <==> Overtakes(m, e, x, keyed) && e.f == g
  {
    hide Before;
    match e
    case Return(sig) =>
      hide Returned, KeyInFront;
      LeftBehind(m, sig, n, g, x, keyed);
    case Next(sig) =>
      hide Returned, KeyInFront;
      if !Any(m, Active) { LeftBehind(m, Unmeasured(sig), n, g, x, keyed); }
    case Rotate(_, _) =>
    case Unpark(_) =>
    case Complete(_) =>
    case Open(_, _) =>
    case Regenerate(_) =>
  }

  /** While the rule debt stays what the list is sorted by: an operation other than a
      regeneration lets an item overtake `x` exactly by putting it away with a smaller stamp, or
      with an equal one and a smaller key. */
  lemma WhoOvertakes(s: seq<Item>, e: Event, keyed: set<Name>, t: seq<Item>, g: Name, x: Name)
    requires ListStep(s, e, keyed, t) && Sorted(s, ByKey(keyed)) && !e.Regenerate? && Spares(e, x)
    requires Waits(View(s), x) && Waits(View(t), x) && !InFront(s, g, x)
    ensures InFront(t, g, x) <==> Overtakes(View(s), e, x, keyed) && e.f == g
  {
    hide View, OnePerFunction, Step, ListReturned, InFront, KeyInFront, Overtakes, Sorted, ByKey, Spares;
    PlaceIsKey(s, g, x, keyed);
    PlaceIsKey(t, g, x, keyed);
    WhoOvertakesOnMaps(View(s), e, View(t), g, x, keyed);
  }

  /** One rule debt throughout, no regeneration, and no event that overtakes `x` while it waits. */
  ghost predicate InTurn(states: seq<seq<Item>>, events: seq<Event>, debts: seq<set<Name>>, x: Name, keyed: set<Name>) {
    ListRun(states, events, debts) && Sorted(states[0], ByKey(keyed)) &&
    forall i :: 0 <= i < |events| ==> debts[i] == keyed && FairTo(states[i], events[i], x, keyed)
  }

  ghost predicate FairTo(s: seq<Item>, e: Event, x: Name, keyed: set<Name>)
    requires OnePerFunction(s)
  {
    !e.Regenerate? && Spares(e, x) && (Waits(View(s), x) ==> !Overtakes(View(s), e, x, keyed))
  }

  lemma NoneOvertakes(s: seq<Item>, e: Event, keyed: set<Name>, t: seq<Item>, x: Name)
    requires ListStep(s, e, keyed, t) && Sorted(s, ByKey(keyed)) && FairTo(s, e, x, keyed)
    requires Waits(View(s), x) && Waits(View(t), x)
    ensures |Front(t, x) - Front(s, x)| == 0
  {
    hide View, OnePerFunction, Step, ListReturned, Sorted, Overtakes, Spares, InFront, Front;
    FrontIs(s, x);
    FrontIs(t, x);
    forall g | InFront(t, g, x)
      ensures InFront(s, g, x)
    {
      if !InFront(s, g, x) { WhoOvertakes(s, e, keyed, t, g, x); }
    }
    assert Front(t, x) - Front(s, x) == {};
  }

  lemma {:induction false} NeverOvertaken(states: seq<seq<Item>>, events: seq<Event>, debts: seq<set<Name>>,
                                          x: Name, keyed: set<Name>)
    requires InTurn(states, events, debts, x, keyed) && Waits(View(states[0]), x)
    requires forall i :: 0 <= i < |states| ==> !ActiveIn(View(states[i]), x)
    ensures Overtakings(states, x) == 0
    decreases |events|
  {
    hide View, OnePerFunction, ListStep, Sorted, FairTo, Front, ActiveIn, Waits;
    if events != [] {
      assert ListStep(states[0], events[0], debts[0], states[1]) && FairTo(states[0], events[0], x, keyed);
      StillInTurn(states[0], events[0], keyed, states[1], x);
      ListRunTail(states, events, debts);
      forall i | 0 <= i < |events[1..]|
        ensures debts[1..][i] == keyed && FairTo(states[1..][i], events[1..][i], x, keyed)
      {
        assert states[1..][i] == states[i + 1] && events[1..][i] == events[i + 1] && debts[1..][i] == debts[i + 1];
      }
      forall i | 0 <= i < |states[1..]|
        ensures !ActiveIn(View(states[1..][i]), x)
      {
        assert states[1..][i] == states[i + 1];
      }
      NeverOvertaken(states[1..], events[1..], debts[1..], x, keyed);
    }
  }

  lemma StillInTurn(s: seq<Item>, e: Event, keyed: set<Name>, t: seq<Item>, x: Name)
    requires ListStep(s, e, keyed, t) && Sorted(s, ByKey(keyed)) && FairTo(s, e, x, keyed)
    requires Waits(View(s), x) && !ActiveIn(View(t), x)
    ensures Sorted(t, ByKey(keyed)) && Waits(View(t), x) && |Front(t, x) - Front(s, x)| == 0
  {
    hide View, OnePerFunction, Step, ListReturned, Sorted, Overtakes, Spares, Front;
    NextWaits(s, e, keyed, t, x);
    NoneOvertakes(s, e, keyed, t, x);
  }

  /** So an item behind k others is active by the (k+1)-th drain, as long as nothing is put away
      with a smaller stamp than its own, or with an equal one and a smaller key. */
  lemma ComesBackInTurn(states: seq<seq<Item>>, events: seq<Event>, debts: seq<set<Name>>, x: Name, keyed: set<Name>)
    requires InTurn(states, events, debts, x, keyed) && Waits(View(states[0]), x)
    requires ListDrains(states, events) > |Front(states[0], x)|
    ensures exists i :: 0 <= i < |states| && ActiveIn(View(states[i]), x)
  {
    hide View, OnePerFunction, ListStep, Sorted, Front, ActiveIn, Waits, Overtakings;
    if forall i :: 0 <= i < |states| ==> !ActiveIn(View(states[i]), x) {
      NeverOvertaken(states, events, debts, x, keyed);
      forall e | e in events
        ensures Spares(e, x)
      {
        var i :| 0 <= i < |events| && events[i] == e;
        assert FairTo(states[i], events[i], x, keyed);
      }
      EveryItemComesBack(states, events, debts, x);
    }
  }

  /* ---- Being overtaken is what starves ---- */

  const NOTHING := Signals({}, map[], map[], 0)

  lemma TurnInPlaceOnMaps(m: State, a: Name)
    requires Oldest(m, a) && !Any(m, Active) && !Any(m, Legacy)
    ensures Step(m, Return(NOTHING), m[a := Back(m[a])]) && Drains(m, Return(NOTHING))
    ensures Step(m[a := Back(m[a])], Rotate(a, m[a].stamp), m)
  {
    assert BouncedAll(m, NOTHING) == m;
    assert Any(m, Rotated);
    var n := m[a := Back(m[a])];
    assert n[a := n[a].(status := Rotated, stamp := m[a].stamp)] == m;
  }

  lemma FirstIsOldest(s: seq<Item>, k: nat)
    requires OnePerFunction(s) && FirstOldest(s, k)
    ensures Oldest(View(s), s[k].func) && View(s)[s[k].func] == s[k]
  {
    hide OnePerFunction;
    ViewAt(s, k);
    forall g | g in View(s) && View(s)[g].status == Rotated
      ensures s[k].stamp <= View(s)[g].stamp
    {
      var j := PlaceIn(s, g);
    }
  }

  ghost predicate AllRotated(s: seq<Item>) {
    forall it :: it in s ==> it.status != Active && it.status != Legacy
  }

  lemma NothingMoves(s: seq<Item>)
    requires AllRotated(s)
    ensures AfterAll(s, NOTHING) == s
  {
    forall k | 0 <= k < |s|
      ensures After(s[k], NOTHING) == s[k]
    {
      assert s[k] in s;
    }
  }

  lemma ReturnsFirst(s: seq<Item>, k: nat, keyed: set<Name>)
    requires AllRotated(s) && FirstOldest(s, k)
    ensures ListReturned(s, NOTHING, keyed, Sort(s[k := Back(s[k])], ByKey(keyed)))
  {
    hide Sort, ByKey;
    NothingMoves(s);
    assert s[k] in s;
    assert Refilled(s, s[k := Back(s[k])]);
  }

  /** For every sorted list: the first of the oldest items is the one that comes back, and putting
      it away again with the stamp it had restores the list. */
  lemma TurnInPlace(s: seq<Item>, k: nat, keyed: set<Name>)
    requires OnePerFunction(s) && Sorted(s, ByKey(keyed)) && AllRotated(s) && FirstOldest(s, k)
    ensures var t := Sort(s[k := Back(s[k])], ByKey(keyed));
      && ListStep(s, Return(NOTHING), keyed, t) && Drains(View(s), Return(NOTHING))
      && ListStep(t, Rotate(s[k].func, s[k].stamp), keyed, s)
      && View(t) == View(s)[s[k].func := Back(s[k])]
  {
    var full := s[k := Back(s[k])];
    NoneActive(s);
    FirstIsOldest(s, k);
    TurnInPlaceOnMaps(View(s), s[k].func);
    ViewOfUpdate(s, k, Back(s[k]));
    SortKeepsView(full, keyed);
    ReturnsFirst(s, k, keyed);
    hide View, OnePerFunction, Step, ListReturned, Sorted, Sort, ByKey, Drains, FirstOldest, AllRotated;
  }

  lemma NoneActive(s: seq<Item>)
    requires OnePerFunction(s) && AllRotated(s)
    ensures !Any(View(s), Active) && !Any(View(s), Legacy)
  {
    AnyInView(s, Active);
    AnyInView(s, Legacy);
  }

  lemma OthersWait(s: seq<Item>, t: seq<Item>, k: nat, x: Name)
    requires OnePerFunction(s) && OnePerFunction(t) && k < |s| && s[k].func != x && Waits(View(s), x)
    requires View(t) == View(s)[s[k].func := Back(s[k])]
    ensures !ActiveIn(View(s), x) && !ActiveIn(View(t), x)
  {
  }

  /** The bound is met: from any sorted list with nothing active, for every n there is a run of n
      drains in which `x` is never active. The item in front comes back, and is put away again
      with the stamp it had. */
  lemma {:induction false} StarvesOtherwise(s: seq<Item>, k: nat, keyed: set<Name>, x: Name, n: nat)
    returns (states: seq<seq<Item>>, events: seq<Event>, debts: seq<set<Name>>)
    requires OnePerFunction(s) && Sorted(s, ByKey(keyed)) && AllRotated(s) && FirstOldest(s, k)
    requires Waits(View(s), x) && x != s[k].func
    ensures ListRun(states, events, debts) && states[0] == s && ListDrains(states, events) == n
    ensures forall e :: e in events ==> e == Return(NOTHING) || e == Rotate(s[k].func, s[k].stamp)
    ensures forall i :: 0 <= i < |states| ==> !ActiveIn(View(states[i]), x)
    ensures forall i :: 0 <= i < |debts| ==> debts[i] == keyed
  {
    hide View, OnePerFunction, ListStep, Sorted, Sort, ByKey, Drains, AllRotated, ActiveIn;
    var t := Sort(s[k := Back(s[k])], ByKey(keyed));
    FirstIsThere(s, k);
    TurnInPlace(s, k, keyed);
    SteppedOnePer(s, Return(NOTHING), keyed, t);
    OthersWait(s, t, k, x);
    if n == 0 {
      states, events, debts := [s], [], [];
    } else {
      var more, later, same := StarvesOtherwise(s, k, keyed, x, n - 1);
      var two := [Return(NOTHING), Rotate(s[k].func, s[k].stamp)];
      states, events, debts := [s, t] + more, two + later, [keyed, keyed] + same;
      TurnFirst(s, t, keyed, more, two, later, same);
    }
  }

  lemma SteppedOnePer(s: seq<Item>, e: Event, keyed: set<Name>, t: seq<Item>)
    requires ListStep(s, e, keyed, t)
    ensures OnePerFunction(t)
  {
    hide OnePerFunction, Step, View, Sorted, ListReturned;
  }

  lemma TurnFirst(s: seq<Item>, t: seq<Item>, keyed: set<Name>, more: seq<seq<Item>>, two: seq<Event>,
                  later: seq<Event>, same: seq<set<Name>>)
    requires ListRun(more, later, same) && more[0] == s && |two| == 2 && OnePerFunction(s) && OnePerFunction(t)
    requires ListStep(s, two[0], keyed, t) && Drains(View(s), two[0])
    requires ListStep(t, two[1], keyed, s) && two[1].Rotate?
    ensures ListRun([s, t] + more, two + later, [keyed, keyed] + same)
    ensures ListDrains([s, t] + more, two + later) == 1 + ListDrains(more, later)
  {
    hide ListStep, View, OnePerFunction;
    var states, events, debts := [s, t] + more, two + later, [keyed, keyed] + same;
    forall i | 0 <= i < |events|
      ensures ListStep(states[i], events[i], debts[i], states[i + 1])
    {
      if i >= 2 {
        assert states[i] == more[i - 2] && events[i] == later[i - 2] && states[i + 1] == more[i - 2 + 1];
        assert debts[i] == same[i - 2];
      }
    }
    assert states[1..] == [t] + more && events[1..] == [two[1]] + later;
    assert states[1..][1..] == more && events[1..][1..] == later;
    assert ListDrains(states[1..], events[1..]) == ListDrains(more, later);
  }
}
