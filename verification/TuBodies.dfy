/**
 What acceptance by the translation-unit index means: however the preprocessor drops
 all but at most one arm of every conditional, every kept character stands at the
 depth the one walk over the whole file gave it, and the outermost brace pairs of what
 is kept are the walk's own.
 */
module TuBodies {
  import opened Prelude
  import opened Preprocessor
  import opened TuIndex
  import opened TuGroups

  // ----- The theorems about accepted files -----

  ghost predicate Accepted(t: Text) {
    !Refused(Run(Step, INITIAL, Flat(t)))
  }

  /** Whatever the choices, a kept character stands at the walk's depth, the kept braces
      balance, and no body of the walk is cut in two. */
  lemma KeptDepthIsTheWalks(t: Text, c: Config)
    requires Accepted(t)
    ensures var items := Flat(t);
            var kept := Kept(t, 0, c);
            && (forall p :: p in kept ==> p < |items| && BraceDepth(items, kept, p) == StateAt(items, p).depth)
            && BraceDepth(items, kept, |items|) == 0
            && WholeBodies(kept, Run(Step, INITIAL, items))
  {
    hide Step, Kept, Flat, LiveAt, BraceDepth;
    var items := Flat(t);
    RunTextIsRun(Step, t, INITIAL);
    TextFacts(t, INITIAL);
    assert items[..|items|] == items;
    KeptInside(t, 0, c);
    StartLives(t, c);
    LiveText(items, Kept(t, 0, c), t, INITIAL, c);
  }

  lemma StartLives(t: Text, c: Config)
    ensures LiveAt(Flat(t), Kept(t, 0, c), t, INITIAL, c)
  {
    hide Step, Kept, Flat;
    assert Flat(t)[..0] == [];
    assert Run(Step, INITIAL, []) == INITIAL;
    KeptInside(t, 0, c);
  }

  /** An outermost brace pair of the walk. */
  ghost predicate WalkPair(items: seq<Item>, o: nat, c: nat) {
    && o < c < |items| && items[o] == Code(Open) && items[c] == Code(Close)
    && StateAt(items, o).depth == 0 && StateAt(items, c).depth == 1
    && InBody(items, o, c)
  }

  ghost predicate InBody(items: seq<Item>, o: nat, c: nat)
    requires c <= |items|
  {
    forall p :: o < p <= c ==> StateAt(items, p).depth > 0
  }

  /** An outermost brace pair of what is kept. */
  ghost predicate Outermost(items: seq<Item>, kept: set<nat>, o: nat, c: nat) {
    && o < c < |items| && o in kept && c in kept
    && items[o] == Code(Open) && items[c] == Code(Close)
    && BraceDepth(items, kept, o) == 0 && BraceDepth(items, kept, c) == 1
    && forall p :: o < p <= c ==> BraceDepth(items, kept, p) > 0
  }

  lemma BalancedBefore(items: seq<Item>, i: nat)
    requires i <= |items| && !StateAt(items, |items|).unbalanced
    ensures !StateAt(items, i).unbalanced && StateAt(items, i).at == i
  {
    assert items[..|items|] == items && items == items[..i] + items[i..];
    RunConcat(Step, INITIAL, items[..i], items[i..]);
    RunFacts(StateAt(items, i), items[i..]);
    RunFacts(INITIAL, items[..i]);
  }

  /** What the walk has recorded in front of offset `i`. */
  ghost predicate Recorded(items: seq<Item>, i: nat)
    requires i <= |items|
  {
    var s := StateAt(items, i);
    && (s.depth == 0 <==> s.open.None?)
    && (s.open.Some? ==>
          s.open.value < i && items[s.open.value] == Code(Open)
          && StateAt(items, s.open.value).depth == 0 && InBody(items, s.open.value, i))
    && (forall o: nat, c: nat :: (o, c) in s.bodies <==> c < i && WalkPair(items, o, c))
  }

  lemma {:induction false} WalkRecordsPairs(items: seq<Item>, i: nat)
    requires i <= |items| && !StateAt(items, |items|).unbalanced
    ensures Recorded(items, i)
  {
    if i == 0 {
      assert items[..0] == [];
    } else {
      WalkRecordsPairs(items, i - 1);
      BalancedBefore(items, i - 1);
      BalancedBefore(items, i);
      RunNext(Step, INITIAL, items, i - 1);
      RecordedNext(items, i - 1);
    }
  }

  lemma RecordedNext(items: seq<Item>, i: nat)
    requires i < |items| && Recorded(items, i)
    requires !StateAt(items, i + 1).unbalanced && StateAt(items, i).at == i
    requires StateAt(items, i + 1) == Step(StateAt(items, i), items[i])
    ensures Recorded(items, i + 1)
  {
    hide StateAt;
    var s, t := StateAt(items, i), StateAt(items, i + 1);
    if items[i] == Code(Close) && s.depth == 1 {
      assert t.bodies == s.bodies + [(s.open.value, i)];
      forall o: nat | WalkPair(items, o, i)
        ensures o == s.open.value
      {
        var here, there := StateAt(items, o), StateAt(items, s.open.value);
      }
      assert WalkPair(items, s.open.value, i);
    } else {
      assert t.bodies == s.bodies;
      assert forall o: nat :: !WalkPair(items, o, i);
    }
  }

  /** A body once opened is open or closed ever after. */
  lemma {:induction false} OpenedBodyCloses(items: seq<Item>, o: nat, i: nat)
    requires o < i <= |items| && !StateAt(items, |items|).unbalanced
    requires items[o] == Code(Open) && StateAt(items, o).depth == 0
    ensures StateAt(items, i).open == Some(o) || exists c: nat :: (o, c) in StateAt(items, i).bodies
  {
    BalancedBefore(items, i - 1);
    BalancedBefore(items, i);
    RunNext(Step, INITIAL, items, i - 1);
    var s, t := StateAt(items, i - 1), StateAt(items, i);
    if o < i - 1 {
      OpenedBodyCloses(items, o, i - 1);
      WalkRecordsPairs(items, i - 1);
      if c: nat :| (o, c) in s.bodies { assert (o, c) in t.bodies; }
      else if items[i - 1] == Code(Close) && s.depth == 1 { assert t.bodies[|s.bodies|] == (o, i - 1); }
    }
  }

  ghost predicate Faithful(items: seq<Item>, kept: set<nat>) {
    && !StateAt(items, |items|).unbalanced
    && (forall p :: p in kept ==> p < |items| && BraceDepth(items, kept, p) == StateAt(items, p).depth)
    && (forall p :: p in kept && p < |items| ==> items[p].Code?)
  }

  lemma DepthAfterKept(items: seq<Item>, kept: set<nat>, q: nat)
    requires Faithful(items, kept) && q in kept
    ensures BraceDepth(items, kept, q + 1) == StateAt(items, q + 1).depth
  {
    hide Step;
    BalancedBefore(items, q);
    BalancedBefore(items, q + 1);
    RunNext(Step, INITIAL, items, q);
    BalancedStep(StateAt(items, q), items[q].mark);
  }

  /** A character that is not complained about moves the depth by its weight. */
  lemma BalancedStep(s: State, m: Mark)
    requires !Step(s, Code(m)).unbalanced
    ensures Step(s, Code(m)).depth == s.depth + Delta(m)
  {
  }

  /** Up to the next kept character the depth is the one after the last. */
  lemma {:induction false} DepthSinceKept(items: seq<Item>, kept: set<nat>, o: nat, p: nat) returns (q: nat)
    requires Faithful(items, kept) && o in kept && o < p <= |items|
    ensures o <= q < p && BraceDepth(items, kept, p) == StateAt(items, q + 1).depth
  {
    hide StateAt, Faithful;
    if p - 1 in kept {
      q := p - 1;
      DepthAfterKept(items, kept, q);
    } else {
      q := DepthSinceKept(items, kept, o, p - 1);
    }
  }

  lemma PairIsOutermost(items: seq<Item>, kept: set<nat>, o: nat, c: nat)
    requires Faithful(items, kept) && o in kept && c in kept && WalkPair(items, o, c)
    ensures Outermost(items, kept, o, c)
  {
    hide StateAt;
    forall p | o < p <= c
      ensures BraceDepth(items, kept, p) > 0
    {
      var q := DepthSinceKept(items, kept, o, p);
    }
  }

  lemma PairsMeet(items: seq<Item>, kept: set<nat>, o: nat, c: nat, c': nat)
    requires Faithful(items, kept) && Outermost(items, kept, o, c)
    requires WalkPair(items, o, c') && c' in kept
    ensures c == c'
  {
    DepthAfterKept(items, kept, c');
    DepthAfterKept(items, kept, c);
    BalancedBefore(items, c);
    BalancedBefore(items, c');
    RunNext(Step, INITIAL, items, c');
    RunNext(Step, INITIAL, items, c);
    hide StateAt;
  }

  lemma PlacedChar(items: seq<Item>, at: nat, m: Mark, r: Text)
    requires Placed(items, at, Flat(Char(m, r)))
    ensures at < |items| && items[at] == Code(m) && Placed(items, at + 1, Flat(r))
  {
    PlacedParts(items, at, [Code(m)], Flat(r));
    assert items[at + 0] == [Code(m)][0];
  }

  /** What is kept is code, never a directive. */
  lemma {:induction false} KeptIsCode(t: Text, items: seq<Item>, at: nat, c: Config)
    requires Placed(items, at, Flat(t))
    ensures forall p :: p in Kept(t, at, c) ==> p < |items| && items[p].Code?
    decreases t, 1
  {
    hide Placed, Flat, FlatArms;
    match t
    case End =>
    case Char(m, r) =>
      PlacedChar(items, at, m, r);
      KeptIsCode(r, items, at + 1, c);
    case Cond(_, b, o, r) =>
      PlacedCond(items, at, t);
      var c' := Explicit(c);
      ExplicitKeeps(t, at, c);
      KeptCond(t, at, c');
      if c'.arm == 0 { KeptIsCode(b, items, at + 1, c'.inside); }
      if c'.arm > 0 { KeptArmIsCode(o, items, at + 1 + Len(b), c'.arm - 1, c'.inside); }
      KeptIsCode(r, items, at + 1 + Len(b) + LenArms(o), c'.next);
  }

  lemma {:induction false} KeptArmIsCode(o: Arms, items: seq<Item>, at: nat, arm: nat, c: Config)
    requires Placed(items, at, FlatArms(o))
    ensures forall p :: p in KeptArm(o, at, arm, c) ==> p < |items| && items[p].Code?
    decreases o, 1
  {
    if !o.NoMore? {
      PlacedArm(items, at, o);
      KeptArmStep(o, at, arm, c);
      if arm == 0 { KeptIsCode(o.body, items, at + 1, c); }
      else { KeptArmIsCode(o.others, items, at + 1 + Len(o.body), arm - 1, c); }
    }
  }

  /** The outermost brace pairs of any configuration are exactly the walk's own pairs
      whose opening brace is kept. */
  lemma OutermostPairsAreTheWalks(t: Text, c: Config, o: nat, e: nat)
    requires Accepted(t)
    ensures var items := Flat(t);
            var kept := Kept(t, 0, c);
            Outermost(items, kept, o, e) <==> o in kept && (o, e) in Run(Step, INITIAL, items).bodies
  {
    var items := Flat(t);
    var kept := Kept(t, 0, c);
    KeptDepthIsTheWalks(t, c);
    assert items[..|items|] == items;
    WalkRecordsPairs(items, |items|);
    KeptIsCode(t, items, 0, c);
    assert Faithful(items, kept);
    var bodies := Run(Step, INITIAL, items).bodies;
    hide StateAt, Kept, Flat, Accepted;
    if o in kept && (o, e) in bodies {
      PairIsOutermost(items, kept, o, e);
    }
    if Outermost(items, kept, o, e) {
      OpenedBodyCloses(items, o, |items|);
      var e': nat :| (o, e') in bodies;
      PairsMeet(items, kept, o, e, e');
    }
  }
}
