/**
 The work queue's rotation: what is worked on next, what is put back, and when what is put
 back cannot wait for ever.

 Names of functions and files are numbers in the order of their names. Stamps are the times
 of `rotated_at`, 0 when there is none. Which coupled sibling has moved, what a re-measure
 gives and what a regeneration finds are arbitrary inputs.
 */
module Rotation {
  import opened Prelude
  import opened Sorting

  type Name = nat

  /** `Legacy` is any of the retired ways of putting an item away. */
  datatype Status = Active | Authorize | Rotated | Legacy

  datatype Item = Item(func: Name, file: Name, distance: int, status: Status, stamp: nat)

  /* ---- The order of the list ---- */

  function Rank(s: Status): nat {
    match s
    case Active => 0
    case Authorize => 1
    case Rotated => 2
    case Legacy => 2
  }

  /** The sort key, compared: rank, rule debt first, distance, file, function. */
  predicate Before(a: Item, b: Item, keyed: set<Name>) {
    var x, y := Rank(a.status), Rank(b.status);
    var c, d := if a.func in keyed then 0 else 1, if b.func in keyed then 0 else 1;
    x < y || (x == y &&
    (c < d || (c == d &&
    (a.distance < b.distance || (a.distance == b.distance &&
    (a.file < b.file || (a.file == b.file && a.func <= b.func)))))))
  }

  function ByKey(keyed: set<Name>): (Item, Item) -> bool {
    (a, b) => Before(a, b, keyed)
  }

  function ByStamp(): (Item, Item) -> bool {
    (a: Item, b: Item) => a.stamp <= b.stamp
  }

  lemma ByKeyIsTotal(keyed: set<Name>)
    ensures Total(ByKey(keyed))
  {
  }

  /** What the order of the list means: active items first, those put away last; within these, rule
      debt first, then the smaller distance, then the earlier file and function. */
  lemma ListOrder(s: seq<Item>, keyed: set<Name>, i: nat, j: nat)
    requires Sorted(s, ByKey(keyed)) && i < j < |s|
    ensures s[j].status == Active ==> s[i].status == Active
    ensures s[j].status == Authorize ==> s[i].status == Active || s[i].status == Authorize
    ensures s[i].status == s[j].status && s[j].func in keyed ==> s[i].func in keyed
    ensures s[i].status == s[j].status && (s[i].func in keyed <==> s[j].func in keyed) ==>
      s[i].distance < s[j].distance || (s[i].distance == s[j].distance &&
        (s[i].file < s[j].file || (s[i].file == s[j].file && s[i].func <= s[j].func)))
  {
    assert ByKey(keyed)(s[i], s[j]);
  }

  /* ---- A list as a map from functions to items ---- */

  ghost predicate OnePerFunction(s: seq<Item>) {
    forall i, j :: 0 <= i < j < |s| ==> s[i].func != s[j].func
  }

  function Functions(s: seq<Item>): set<Name> {
    set it | it in s :: it.func
  }

  function ItemOf(s: seq<Item>, f: Name): (it: Item)
    requires f in Functions(s)
    ensures it in s && it.func == f
  {
    if s[0].func == f then s[0] else
      assert s == [s[0]] + s[1..];
      ItemOf(s[1..], f)
  }

  ghost function View(s: seq<Item>): map<Name, Item>
    requires OnePerFunction(s)
  {
    map f | f in Functions(s) :: ItemOf(s, f)
  }

  /** Every item is the item of its function. */
  lemma ViewIs(s: seq<Item>)
    requires OnePerFunction(s)
    ensures forall it :: it in s ==> it.func in View(s) && View(s)[it.func] == it
    ensures forall f :: f in View(s) ==> View(s)[f] in s && View(s)[f].func == f
  {
  }

  /** And a map that says so is the view. */
  lemma ViewBy(s: seq<Item>, m: map<Name, Item>)
    requires OnePerFunction(s)
    requires forall it :: it in s ==> it.func in m && m[it.func] == it
    requires forall f :: f in m ==> m[f] in s && m[f].func == f
    ensures View(s) == m
  {
    hide View;
    ViewIs(s);
    forall f | f in m
      ensures f in View(s) && View(s)[f] == m[f]
    {
      assert m[f] in s;
    }
  }

  /** Sorting changes neither the set of functions nor what is known of each. */
  lemma PermutationKeepsView(a: seq<Item>, b: seq<Item>)
    requires OnePerFunction(a) && multiset(a) == multiset(b)
    ensures OnePerFunction(b) && View(b) == View(a)
  {
    assert forall it :: it in b <==> it in multiset(b);
    assert forall it :: it in a <==> it in multiset(a);
    PermutationKeepsDistinct(a, b);
    forall i, j | 0 <= i < j < |b|
      ensures b[i].func != b[j].func
    {
      assert b[i] in a && b[j] in a && b[i] != b[j];
    }
    hide View;
    ViewIs(a);
    ViewBy(b, View(a));
  }

  lemma SortKeepsView(s: seq<Item>, keyed: set<Name>)
    requires OnePerFunction(s)
    ensures OnePerFunction(Sort(s, ByKey(keyed))) && View(Sort(s, ByKey(keyed))) == View(s)
    ensures Sorted(Sort(s, ByKey(keyed)), ByKey(keyed))
  {
    hide View, ByKey;
    ByKeyIsTotal(keyed);
    SortPermutes(s, ByKey(keyed));
    SortSorts(s, ByKey(keyed));
    PermutationKeepsView(s, Sort(s, ByKey(keyed)));
  }

  lemma OneMore(s: seq<Item>, it: Item)
    requires OnePerFunction(s) && it.func !in View(s)
    ensures OnePerFunction(s + [it]) && View(s + [it]) == View(s)[it.func := it]
  {
    hide View;
    ViewIs(s);
    var more := s + [it];
    assert forall x :: x in more <==> x in s || x == it;
    forall k | 0 <= k < |s|
      ensures s[k].func != it.func
    {
      assert s[k] in s;
    }
    ViewBy(more, View(s)[it.func := it]);
  }

  lemma ViewOfUpdate(s: seq<Item>, i: nat, it: Item)
    requires OnePerFunction(s) && i < |s| && it.func == s[i].func
    ensures OnePerFunction(s[i := it]) && View(s[i := it]) == View(s)[it.func := it]
  {
    var t := s[i := it];
    forall x | x in t
      ensures x == it || (x in s && x.func != it.func)
    {
      var k :| 0 <= k < |t| && t[k] == x;
    }
    forall x | x in s
      ensures x.func == it.func || x in t
    {
      var k :| 0 <= k < |s| && s[k] == x;
      assert t[k] == if k == i then it else x;
    }
    assert t[i] == it;
    hide View;
    ViewIs(s);
    ViewBy(t, View(s)[it.func := it]);
  }

  /* ---- The steps, on maps ---- */

  type State = map<Name, Item>

  ghost predicate Any(m: State, s: Status) {
    exists f :: f in m && m[f].status == s
  }

  /** What an automatic return goes by: coupled siblings that moved, re-measured floors, the
      last floors on record, and the time. */
  datatype Signals = Signals(moved: set<Name>, measured: map<Name, int>, ledger: map<Name, int>, now: nat)

  /** An item back in the active list. */
  function Back(it: Item): Item {
    it.(status := Active)
  }

  /** A legacy item is read as rotated, since now if nothing says since when. */
  function Normal(it: Item, now: nat): Item {
    if it.status != Legacy then it
    else it.(status := Rotated, stamp := if it.stamp == 0 then now else it.stamp)
  }

  /** The floor the item was put away at: the last on record, else its distance. */
  function Floor(it: Item, ledger: map<Name, int>): int {
    if it.func in ledger then ledger[it.func] else it.distance
  }

  /** A rotated item whose sibling or floor moved comes back, with the new floor. */
  function Bounced(it: Item, sig: Signals): Item {
    if it.status != Rotated then it
    else if it.func in sig.moved then Back(it)
    else if it.func in sig.measured && sig.measured[it.func] != Floor(it, sig.ledger) then
      Back(it.(distance := sig.measured[it.func]))
    else it
  }

  function After(it: Item, sig: Signals): Item {
    Bounced(Normal(it, sig.now), sig)
  }

  ghost function BouncedAll(m: State, sig: Signals): State {
    map f | f in m :: After(m[f], sig)
  }

  ghost predicate Oldest(m: State, f: Name) {
    f in m && m[f].status == Rotated && forall g :: g in m && m[g].status == Rotated ==> m[f].stamp <= m[g].stamp
  }

  /** When nothing is active, one oldest rotated item comes back. */
  ghost predicate Drained(b: State, n: State) {
    if Any(b, Active) || !Any(b, Rotated) then n == b
    else exists f :: Oldest(b, f) && n == b[f := Back(b[f])]
  }

  /** What one automatic return may leave: every mover is back, then the drained list refilled. */
  ghost predicate Returned(m: State, sig: Signals, n: State) {
    Drained(BouncedAll(m, sig), n)
  }

  /** `next` does not re-measure. */
  function Unmeasured(sig: Signals): Signals {
    sig.(measured := map[])
  }

  datatype Event =
    | Rotate(f: Name, stamp: nat)
    | Unpark(f: Name)
    | Complete(f: Name)
    | Open(f: Name, file: Name)
    | Return(sig: Signals)
    | Next(sig: Signals)
    | Regenerate(sticky: set<Name>)

  predicate PutAway(it: Item) {
    it.status == Rotated || it.status == Legacy
  }

  /** What each operation may do to the map, refusals included. A regeneration drops and adds
      functions and measures them again; what it carries over stays put away since when it
      was, and nothing else is put away by it. */
  ghost predicate Step(m: State, e: Event, n: State) {
    match e
    case Rotate(f, stamp) => n == if f in m then m[f := m[f].(status := Rotated, stamp := stamp)] else m
    case Unpark(f) => n == if f in m && PutAway(m[f]) then m[f := Back(m[f])] else m
    case Complete(f) => n == m || n == m - {f}
    case Open(f, file) => n == m || (f !in m && n == m[f := Item(f, file, 0, Active, 0)])
    case Return(sig) => Returned(m, sig, n)
    case Next(sig) => if Any(m, Active) then n == m else Returned(m, Unmeasured(sig), n)
    case Regenerate(sticky) =>
      && (forall f :: f in sticky ==> f in m && f in n && Carried(m[f], n[f]))
      && (forall f :: f in n && f !in sticky ==> !PutAway(n[f]))
  }

  /** Carried over: status and stamp are the same. */
  predicate Carried(a: Item, b: Item) {
    b.status == a.status && b.stamp == a.stamp
  }

  /* ---- The steps, on lists ---- */

  function AfterAll(s: seq<Item>, sig: Signals): seq<Item> {
    seq(|s|, k requires 0 <= k < |s| => After(s[k], sig))
  }

  /** Of the rotated items with the least stamp, the first in the list. */
  ghost predicate FirstOldest(s: seq<Item>, k: nat) {
    && k < |s| && s[k].status == Rotated
    && (forall j :: 0 <= j < |s| && s[j].status == Rotated ==> s[k].stamp <= s[j].stamp)
    && (forall j :: 0 <= j < k && s[j].status == Rotated ==> s[k].stamp < s[j].stamp)
  }

  ghost predicate Refilled(b: seq<Item>, full: seq<Item>) {
    if (exists it :: it in b && it.status == Active) || (forall it :: it in b ==> it.status != Rotated) then full == b
    else exists k: nat :: FirstOldest(b, k) && full == b[k := Back(b[k])]
  }

  /** Sorted again, unless nothing changed. */
  ghost predicate ListReturned(s: seq<Item>, sig: Signals, keyed: set<Name>, t: seq<Item>) {
    exists full :: Refilled(AfterAll(s, sig), full) && (t == Sort(full, ByKey(keyed)) || t == full == s)
  }

  /** The step on the map; the list is sorted again when anything changed, by the rule debt of
      the moment; and an automatic return brings back the first of the oldest. */
  ghost predicate ListStep(s: seq<Item>, e: Event, keyed: set<Name>, t: seq<Item>) {
    && OnePerFunction(s) && OnePerFunction(t) && Step(View(s), e, View(t))
    && (t == s || Sorted(t, ByKey(keyed)))
    && (e.Return? ==> ListReturned(s, e.sig, keyed, t))
    && (e.Next? && !Any(View(s), Active) ==> ListReturned(s, Unmeasured(e.sig), keyed, t))
  }

  /* ---- The operations ---- */

  class Queue {
    var items: seq<Item>

    ghost predicate Valid()
      reads this
    {
      OnePerFunction(items)
    }

    /** Where the item of a function is; the list's length when it is not there. */
    method Position(f: Name) returns (i: nat)
      requires Valid()
      ensures i <= |items| && (i < |items| <==> f in View(items))
      ensures i < |items| ==> items[i].func == f && items[i] == View(items)[f]
    {
      i := 0;
      while i < |items| && items[i].func != f
        invariant i <= |items| && forall k :: 0 <= k < i ==> items[k].func != f
      {
        i := i + 1;
      }
    }

    /** Put an item away, stamped now; putting away twice stamps it again. */
    method MarkRotated(f: Name, now: nat, keyed: set<Name>) returns (ok: bool)
      requires Valid()
      modifies this
      ensures Valid() && ok == (f in View(old(items)))
      ensures ListStep(old(items), Rotate(f, now), keyed, items)
      ensures ok ==> View(items) == View(old(items))[f := View(old(items))[f].(status := Rotated, stamp := now)]
      ensures if ok then Sorted(items, ByKey(keyed)) else items == old(items)
    {
      hide View, Before, ByKey, Sorted;
      var i := Position(f);
      if i == |items| { return false; }
      var it := items[i].(status := Rotated, stamp := now);
      ViewOfUpdate(items, i, it);
      SortKeepsView(items[i := it], keyed);
      items := Sort(items[i := it], ByKey(keyed));
      ok := true;
    }

    /** A ruling brings an item back that was put away. */
    method MarkUnparked(f: Name, keyed: set<Name>) returns (ok: bool)
      requires Valid()
      modifies this
      ensures Valid() && ok ==
        (f in View(old(items)) && View(old(items))[f].status != Active && View(old(items))[f].status != Authorize)
      ensures ListStep(old(items), Unpark(f), keyed, items)
      ensures ok ==> View(items) == View(old(items))[f := View(old(items))[f].(status := Active)]
      ensures if ok then Sorted(items, ByKey(keyed)) else items == old(items)
    {
      hide View, Before, ByKey, Sorted;
      var i := Position(f);
      if i == |items| || !PutAway(items[i]) { return false; }
      var it := Back(items[i]);
      ViewOfUpdate(items, i, it);
      SortKeepsView(items[i := it], keyed);
      items := Sort(items[i := it], ByKey(keyed));
      ok := true;
    }

    /** A completed function is wanted again; refused without an address. */
    method Reopen(f: Name, file: Name, hasAddr: bool, keyed: set<Name>) returns (ok: bool)
      requires Valid()
      modifies this
      ensures Valid() && ok == (f !in View(old(items)) && hasAddr)
      ensures ListStep(old(items), Open(f, file), keyed, items)
      ensures ok ==> View(items) == View(old(items))[f := Item(f, file, 0, Active, 0)]
      ensures if ok then Sorted(items, ByKey(keyed)) else items == old(items)
    {
      hide View, Before, ByKey, Sorted;
      var i := Position(f);
      if i < |items| || !hasAddr { return false; }
      var more := items + [Item(f, file, 0, Active, 0)];
      OneMore(items, Item(f, file, 0, Active, 0));
      SortKeepsView(more, keyed);
      items := Sort(more, ByKey(keyed));
      ok := true;
    }

    /** The list without one function. */
    method Without(f: Name) returns (rest: seq<Item>)
      requires Valid()
      ensures OnePerFunction(rest) && View(rest) == View(items) - {f}
    {
      hide View;
      rest := [];
      var i := 0;
      while i < |items|
        invariant 0 <= i <= |items| && OnePerFunction(rest)
        invariant forall x :: x in rest <==> x in items[..i] && x.func != f
      {
        assert items[..i + 1] == items[..i] + [items[i]];
        if items[i].func != f {
          assert forall k :: 0 <= k < |rest| ==> rest[k] in items[..i];
          rest := rest + [items[i]];
        }
        i := i + 1;
      }
      assert items[..i] == items;
      ViewIs(items);
      ViewBy(rest, View(items) - {f});
    }

    /** What completion leaves, once every gate has passed. */
    method Drop(f: Name, keyed: set<Name>)
      requires Valid()
      modifies this
      ensures Valid() && View(items) == View(old(items)) - {f} && Sorted(items, ByKey(keyed))
      ensures ListStep(old(items), Complete(f), keyed, items)
    {
      hide View, Before, ByKey, Sorted;
      var rest := Without(f);
      SortKeepsView(rest, keyed);
      items := Sort(rest, ByKey(keyed));
    }

    /** Legacy items are read as rotated; the rotated items whose sibling or floor moved come
        back; should nothing be active then, so does the oldest rotated item. `rewrite` is set
        when the stored toolchain fingerprint makes the queue be written even so. */
    method AutoReturn(sig: Signals, rewrite: bool, keyed: set<Name>) returns (returned: bool, changed: bool)
      requires Valid()
      modifies this
      ensures Valid() && ListStep(old(items), Return(sig), keyed, items)
      ensures !returned && !changed ==> View(items) == View(old(items))
      ensures !Any(View(old(items)), Active) ==> (returned <==> Any(View(items), Active))
      ensures changed <==> Any(View(old(items)), Legacy)
      ensures Returns(View(old(items)), View(items), sig)
      ensures if returned || changed || rewrite then Sorted(items, ByKey(keyed)) else items == old(items)
    {
      hide View, Before, ByKey, Sorted, Bounced, Normal, BouncedAll, Drained, Any, Refilled, ListStep, Returns;
      ghost var before := items;
      var normal, some: bool;
      normal, changed := Normalize(items, sig.now);
      var list: seq<Item>;
      list, some := Bounce(normal, sig);
      assert forall k :: 0 <= k < |list| ==> list[k] == After(items[k], sig);
      ListMapsView(items, list, sig);
      SignalsSeen(items, normal, list, sig);
      AnyInView(items, Legacy);
      var full, one := Refill(list);
      RefillSeen(items, list, full, one, some);
      returned := some || one;
      if returned || changed || rewrite {
        SortKeepsView(full, keyed);
        items := Sort(full, ByKey(keyed));
      }
      ReturnIsStep(before, list, full, sig, keyed, items);
      AllReturn(before, sig, keyed, items);
    }

    /** The loop that reads legacy items as rotated. */
    method Normalize(list: seq<Item>, now: nat) returns (normal: seq<Item>, changed: bool)
      ensures |normal| == |list| && forall k :: 0 <= k < |list| ==> normal[k] == Normal(list[k], now)
      ensures changed <==> exists it :: it in list && it.status == Legacy
      ensures !changed ==> normal == list
    {
      normal, changed := list, false;
      var i := 0;
      while i < |list|
        invariant 0 <= i <= |list| == |normal|
        invariant forall k :: 0 <= k < i ==> normal[k] == Normal(list[k], now)
        invariant forall k :: i <= k < |list| ==> normal[k] == list[k]
        invariant changed <==> exists k :: 0 <= k < i && list[k].status == Legacy
        invariant !changed ==> normal == list
      {
        if normal[i].status == Legacy {
          var stamp := if normal[i].stamp == 0 then now else normal[i].stamp;
          normal, changed := normal[i := normal[i].(status := Rotated, stamp := stamp)], true;
        }
        i := i + 1;
      }
    }

    /** The loop over the rotated items. */
    method Bounce(list: seq<Item>, sig: Signals) returns (moved: seq<Item>, some: bool)
      ensures |moved| == |list| && forall k :: 0 <= k < |list| ==> moved[k] == Bounced(list[k], sig)
      ensures some <==> moved != list
    {
      moved, some := list, false;
      var i := 0;
      while i < |list|
        invariant 0 <= i <= |moved| == |list|
        invariant forall k :: 0 <= k < i ==> moved[k] == Bounced(list[k], sig)
        invariant forall k :: i <= k < |moved| ==> moved[k] == list[k]
        invariant some <==> moved != list
      {
        var it := moved[i];
        if it.status == Rotated {
          if it.func in sig.moved {
            moved, some := moved[i := Back(it)], true;
            assert moved[i] != list[i];
          } else if it.func in sig.measured {
            var floor := if it.func in sig.ledger then sig.ledger[it.func] else it.distance;
            if sig.measured[it.func] != floor {
              moved, some := moved[i := Back(it.(distance := sig.measured[it.func]))], true;
              assert moved[i] != list[i];
            }
          }
        }
        i := i + 1;
      }
    }

    /** When nothing is active, the oldest rotated item is. */
    method Refill(list: seq<Item>) returns (full: seq<Item>, one: bool)
      requires OnePerFunction(list)
      ensures OnePerFunction(full) && Drained(View(list), View(full)) && Refilled(list, full)
      ensures !one ==> full == list
      ensures one <==> !Any(View(list), Active) && Any(View(list), Rotated)
    {
      hide View, Sorted, OnePerFunction, Any, Oldest;
      AnyInView(list, Active);
      AnyInView(list, Rotated);
      HeadIsOldest(list);
      full, one := list, false;
      if exists it :: it in list && it.status == Active { return; }
      var still := Sort(Put(list), ByStamp());
      if still != [] {
        ghost var k := FirstComesBack(list);
        var i := 0;
        while list[i] != still[0]
          invariant 0 <= i <= k && forall k :: 0 <= k < i ==> list[k] != still[0]
          decreases |list| - i
        {
          i := i + 1;
        }
        SameFunction(list, i, k);
        ViewOfUpdate(list, i, Back(list[i]));
        full, one := list[i := Back(list[i])], true;
      }
    }

    /** What to work on now: the first active item, after an automatic return when there is
        none. There is none then either exactly when nothing is active or put away. */
    method NextItem(sig: Signals, rewrite: bool, keyed: set<Name>) returns (next: Option<Item>)
      requires Valid()
      modifies this
      ensures Valid()
      ensures Any(View(old(items)), Active) ==> items == old(items)
      ensures ListStep(old(items), Next(sig), keyed, items)
      ensures next.Some? <==>
        Any(View(old(items)), Active) || Any(View(old(items)), Rotated) || Any(View(old(items)), Legacy)
      ensures next.Some? ==> next.value in items && next.value.status == Active
      ensures next.Some? && Sorted(items, ByKey(keyed)) ==>
        forall it :: it in items && it.status == Active ==> Before(next.value, it, keyed)
    {
      hide View, Before, Drained, BouncedAll, Returns;
      next := FirstActive(keyed);
      AnyInView(items, Active);
      if next.Some? { return; }
      var before := items;
      var returned, changed := AutoReturn(Unmeasured(sig), rewrite, keyed);
      ReturnGivesWork(View(before), Unmeasured(sig), View(items));
      AnyInView(items, Active);
      if returned {
        next := FirstActive(keyed);
      }
    }

    method FirstActive(keyed: set<Name>) returns (first: Option<Item>)
      ensures first.None? <==> forall it :: it in items ==> it.status != Active
      ensures first.Some? ==> first.value in items && first.value.status == Active
      ensures first.Some? && Sorted(items, ByKey(keyed)) ==>
        forall it :: it in items && it.status == Active ==> Before(first.value, it, keyed)
    {
      var i := 0;
      while i < |items| && items[i].status != Active
        invariant i <= |items| && forall k :: 0 <= k < i ==> items[k].status != Active
      {
        i := i + 1;
      }
      if i == |items| { return None; }
      first := Some(items[i]);
      assert Before(items[i], items[i], keyed);
    }
  }

  /* ---- Lists and maps, for the operations ---- */

  function Put(s: seq<Item>): seq<Item> {
    if s == [] then [] else (if s[0].status == Rotated then [s[0]] else []) + Put(s[1..])
  }

  lemma {:induction false} PutHolds(s: seq<Item>, it: Item)
    ensures it in Put(s) <==> it in s && it.status == Rotated
  {
    if s != [] { PutHolds(s[1..], it); }
  }

  lemma AnyInView(s: seq<Item>, status: Status)
    requires OnePerFunction(s)
    ensures Any(View(s), status) <==> exists it :: it in s && it.status == status
  {
    if it :| it in s && it.status == status { assert View(s)[it.func] == it; }
  }

  lemma StillItself(it: Item, sig: Signals)
    ensures After(it, sig).func == it.func
  {
  }

  /** The two loops together do to the list what `BouncedAll` does to the map. */
  lemma ListMapsView(s: seq<Item>, u: seq<Item>, sig: Signals)
    requires OnePerFunction(s) && |u| == |s| && forall k :: 0 <= k < |s| ==> u[k] == After(s[k], sig)
    ensures OnePerFunction(u) && View(u) == BouncedAll(View(s), sig)
  {
    hide View, After;
    ViewIs(s);
    forall it
      ensures After(it, sig).func == it.func
    {
      StillItself(it, sig);
    }
    forall k | 0 <= k < |u|
      ensures u[k].func == s[k].func && s[k] in s
    {
      assert u[k] == After(s[k], sig);
    }
    forall f | f in View(s)
      ensures After(View(s)[f], sig) in u
    {
      var k :| 0 <= k < |s| && s[k] == View(s)[f];
      assert u[k] in u;
    }
    ViewBy(u, BouncedAll(View(s), sig));
  }

  /** The loop over the rotated items changes something exactly by making it active. */
  lemma SignalsSeen(s: seq<Item>, t: seq<Item>, u: seq<Item>, sig: Signals)
    requires OnePerFunction(s) && OnePerFunction(u)
    requires |t| == |s| && forall k :: 0 <= k < |s| ==> t[k] == Normal(s[k], sig.now)
    requires |u| == |t| && forall k :: 0 <= k < |t| ==> u[k] == Bounced(t[k], sig)
    ensures !Any(View(s), Active) ==> (u != t <==> Any(View(u), Active))
  {
    hide View, Any, OnePerFunction;
    AnyInView(s, Active);
    AnyInView(u, Active);
    if it :| it in u && it.status == Active {
      var k :| 0 <= k < |u| && u[k] == it;
      assert s[k] in s;
    }
    if u != t {
      var k :| 0 <= k < |u| && u[k] != t[k];
      assert u[k] in u && u[k].status == Active;
    }
  }

  /** What one automatic return does to an item: it comes back when a sibling has moved, or when
      its measured floor is another than the last on record (or, with none, than its distance),
      then with that floor; else it comes back at most to refill the drained list. */
  ghost predicate ComesOut(it: Item, to: Item, sig: Signals) {
    var put := it.status == Rotated || it.status == Legacy;
    var floor := if it.func in sig.ledger then sig.ledger[it.func] else it.distance;
    var moved := it.func in sig.moved;
    var measured := it.func !in sig.moved && it.func in sig.measured && sig.measured[it.func] != floor;
    && to.func == it.func && to.file == it.file
    && to.stamp == (if it.status == Legacy && it.stamp == 0 then sig.now else it.stamp)
    && to.distance == (if put && measured then sig.measured[it.func] else it.distance)
    && (!put ==> to.status == it.status)
    && (put && (moved || measured) ==> to.status == Active)
    && (put && !moved && !measured ==> to.status == Rotated || to.status == Active)
  }

  /** `f` comes back for no reason of its own: nothing of its siblings or its floor has moved. */
  ghost predicate Refills(m: State, n: State, sig: Signals, f: Name) {
    && f in m && f in n && (m[f].status == Rotated || m[f].status == Legacy) && n[f].status == Active
    && f !in sig.moved
    && !(f in sig.measured && sig.measured[f] != if f in sig.ledger then sig.ledger[f] else m[f].distance)
  }

  /** What it does to all of them; one that comes back for no reason of its own is then the only
      active one. */
  ghost predicate Returns(m: State, n: State, sig: Signals) {
    && n.Keys == m.Keys && (forall f :: f in m ==> m[f].func == f && ComesOut(m[f], n[f], sig))
    && forall f, g :: Refills(m, n, sig, f) && g in n && g != f ==> n[g].status != Active
  }

  lemma WhatReturns(m: State, sig: Signals, n: State, f: Name)
    requires Returned(m, sig, n) && f in m && m[f].func == f
    ensures f in n && ComesOut(m[f], n[f], sig)
  {
    var b := BouncedAll(m, sig);
    assert f in b && b[f] == After(m[f], sig);
    if !Any(b, Active) && Any(b, Rotated) {
      var g :| Oldest(b, g) && n == b[g := Back(b[g])];
    }
  }

  /** The list is refilled with one item, and only when nothing else is active. */
  lemma OneRefills(m: State, sig: Signals, n: State, f: Name, g: Name)
    requires Returned(m, sig, n) && f in m && m[f].func == f && Refills(m, n, sig, f) && f != g && g in n
    ensures n[g].status != Active
  {
    var b := BouncedAll(m, sig);
    assert f in b && b[f] == After(m[f], sig) && b[f].status == Rotated;
    if !Any(b, Active) {
      var h :| Oldest(b, h) && n == b[h := Back(b[h])];
    }
  }

  lemma AllReturn(s: seq<Item>, sig: Signals, keyed: set<Name>, t: seq<Item>)
    requires ListStep(s, Return(sig), keyed, t)
    ensures Returns(View(s), View(t), sig)
  {
    hide View, Returned, OnePerFunction, ListReturned, Sorted, Refills, ComesOut;
    ViewIs(s);
    ReturnKeeps(View(s), sig, View(t));
    forall f | f in View(s)
      ensures f in View(t) && ComesOut(View(s)[f], View(t)[f], sig)
    {
      WhatReturns(View(s), sig, View(t), f);
    }
    forall f, g | f != g && Refills(View(s), View(t), sig, f) && g in View(t)
      ensures View(t)[g].status != Active
    {
      RefillsThere(View(s), View(t), sig, f);
      OneRefills(View(s), sig, View(t), f, g);
    }
  }

  lemma RefillsThere(m: State, n: State, sig: Signals, f: Name)
    requires Refills(m, n, sig, f)
    ensures f in m
  {
  }

  lemma ReturnIsStep(s: seq<Item>, list: seq<Item>, full: seq<Item>, sig: Signals, keyed: set<Name>, t: seq<Item>)
    requires OnePerFunction(s) && OnePerFunction(list) && OnePerFunction(full) && OnePerFunction(t)
    requires |list| == |s| && forall k :: 0 <= k < |s| ==> list[k] == After(s[k], sig)
    requires View(list) == BouncedAll(View(s), sig) && Drained(View(list), View(full)) && Refilled(list, full)
    requires View(t) == View(full) && ((t == Sort(full, ByKey(keyed)) && Sorted(t, ByKey(keyed))) || t == full == s)
    ensures ListStep(s, Return(sig), keyed, t)
  {
    hide View, Sorted, After, BouncedAll, Drained, Refilled, Sort, ByKey;
    assert list == AfterAll(s, sig);
    assert ListReturned(s, sig, keyed, t);
  }

  lemma RefillSeen(s: seq<Item>, list: seq<Item>, full: seq<Item>, one: bool, some: bool)
    requires OnePerFunction(s) && OnePerFunction(list) && OnePerFunction(full)
    requires Drained(View(list), View(full)) && (!one ==> full == list)
    requires one <==> !Any(View(list), Active) && Any(View(list), Rotated)
    requires !Any(View(s), Active) ==> (some <==> Any(View(list), Active))
    ensures !Any(View(s), Active) ==> (some || one <==> Any(View(full), Active))
  {
    hide View, OnePerFunction;
    if one {
      var f :| Oldest(View(list), f) && View(full) == View(list)[f := Back(View(list)[f])];
      assert View(full)[f].status == Active;
    }
  }

  lemma HeadIsOldest(s: seq<Item>)
    requires OnePerFunction(s)
    ensures Sort(Put(s), ByStamp()) == [] <==> !Any(View(s), Rotated)
    ensures var still := Sort(Put(s), ByStamp());
      still != [] ==> still[0] in s && View(s)[still[0].func] == still[0] && Oldest(View(s), still[0].func)
  {
    hide Put, ByStamp, Any;
    var still := Sort(Put(s), ByStamp());
    StillHolds(s);
    AnyInView(s, Rotated);
    if still != [] {
      assert still[0] in still;
      forall g | g in View(s) && View(s)[g].status == Rotated
        ensures still[0].stamp <= View(s)[g].stamp
      {
        assert View(s)[g] in still;
      }
    }
  }

  /** For every list, the stable sort by stamp puts the first of the oldest items first. */
  lemma {:induction false} FirstComesBack(s: seq<Item>) returns (k: nat)
    requires Sort(Put(s), ByStamp()) != []
    ensures FirstOldest(s, k) && k < |s| && Sort(Put(s), ByStamp())[0] == s[k]
  {
    hide Put, Sort, ByStamp, FirstOldest;
    NothingPut();
    var later := Sort(Put(s[1..]), ByStamp());
    SortPutStep(s);
    StillHolds(s[1..]);
    if s[0].status == Rotated && (later == [] || s[0].stamp <= later[0].stamp) {
      k := 0;
      HeadIsFirst(s, later);
    } else {
      var l := FirstComesBack(s[1..]);
      k := l + 1;
      assert s[1..][l] == s[k];
      LaterIsFirst(s, l);
    }
  }

  lemma NothingPut()
    ensures Sort(Put([]), ByStamp()) == []
  {
  }

  lemma SortPutStep(s: seq<Item>)
    requires s != []
    ensures var later := Sort(Put(s[1..]), ByStamp());
      var first := if later == [] || s[0].stamp <= later[0].stamp then s[0] else later[0];
      if s[0].status != Rotated then Sort(Put(s), ByStamp()) == later
      else Sort(Put(s), ByStamp()) != [] && Sort(Put(s), ByStamp())[0] == first
  {
    hide Sort, Insert;
    if s[0].status == Rotated {
      SortOneMore(s[0], Put(s[1..]), ByStamp());
      InsertHead(s[0], Sort(Put(s[1..]), ByStamp()), ByStamp());
    } else {
      assert Put(s) == Put(s[1..]);
    }
  }

  lemma HeadIsFirst(s: seq<Item>, later: seq<Item>)
    requires s != [] && s[0].status == Rotated && (later == [] || s[0].stamp <= later[0].stamp)
    requires forall it :: it in later <==> it in s[1..] && it.status == Rotated
    requires forall it :: it in later ==> later[0].stamp <= it.stamp
    ensures FirstOldest(s, 0)
  {
    forall j | 0 < j < |s| && s[j].status == Rotated
      ensures s[0].stamp <= s[j].stamp
    {
      assert s[1..][j - 1] in later;
    }
  }

  lemma LaterIsFirst(s: seq<Item>, l: nat)
    requires s != [] && FirstOldest(s[1..], l)
    requires s[0].status == Rotated ==> s[1..][l].stamp < s[0].stamp
    ensures FirstOldest(s, l + 1)
  {
    forall j | 0 < j < |s|
      ensures s[1..][j - 1] == s[j]
    {
    }
  }

  lemma SameFunction(s: seq<Item>, i: nat, k: nat)
    requires OnePerFunction(s) && i < |s| && k < |s| && s[i].func == s[k].func
    ensures i == k
  {
  }

  lemma StillHolds(s: seq<Item>)
    ensures forall it :: it in Sort(Put(s), ByStamp()) <==> it in s && it.status == Rotated
    ensures var still := Sort(Put(s), ByStamp()); forall it :: it in still ==> still[0].stamp <= it.stamp
  {
    var still := Sort(Put(s), ByStamp());
    SortHolds(Put(s), ByStamp());
    SortSorts(Put(s), ByStamp());
    forall it
      ensures it in still <==> it in s && it.status == Rotated
    {
      PutHolds(s, it);
    }
    forall k | 0 <= k < |still|
      ensures still[0].stamp <= still[k].stamp
    {
      assert k > 0 ==> ByStamp()(still[0], still[k]);
    }
  }

  lemma ReturnGivesWork(m: State, sig: Signals, n: State)
    requires Returned(m, sig, n)
    ensures Any(n, Active) <==> Any(m, Active) || Any(m, Rotated) || Any(m, Legacy)
  {
    var b := BouncedAll(m, sig);
    if f :| f in m && (m[f].status == Active || PutAway(m[f])) {
      assert b[f].status == Active || b[f].status == Rotated;
    }
    if f :| f in b && b[f].status != Authorize { assert m[f].status != Authorize; }
    if !Any(b, Active) && Any(b, Rotated) {
      var f :| Oldest(b, f) && n == b[f := Back(b[f])];
      assert n[f].status == Active;
    }
  }

  /** No operation but a completion or a regeneration takes a function out of the queue, and a
      completion takes its own. */
  lemma OnlyCompletionRemoves(m: State, e: Event, n: State, f: Name)
    requires Step(m, e, n) && f in m && f !in n
    ensures e == Complete(f) || e.Regenerate?
  {
    if e.Return? { ReturnKeeps(m, e.sig, n); }
    if e.Next? && !Any(m, Active) { ReturnKeeps(m, Unmeasured(e.sig), n); }
  }

  lemma ReturnKeeps(m: State, sig: Signals, n: State)
    requires Returned(m, sig, n)
    ensures n.Keys == m.Keys
  {
    var b := BouncedAll(m, sig);
    assert b.Keys == m.Keys;
    if !Any(b, Active) && Any(b, Rotated) { var f :| Oldest(b, f) && n == b[f := Back(b[f])]; }
  }
}
