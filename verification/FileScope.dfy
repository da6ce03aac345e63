/**
 What the file-scope token finder guarantees for every way the preprocessor can
 resolve the file: the tokens it returns stand at brace depth zero, it misses none
 before the point where it gives up, and it gives up exactly on files whose
 configurations do not agree about the brace depth.
 */
module FileScope {
  import opened Prelude
  import opened Preprocessor
  import opened ScopeTokens
  import opened ScopeGroups

  // ----- The theorems about the finder -----

  /** In every possible configuration, a kept offset is returned exactly when it is an
      identifier character at brace depth zero and lies before the limit; the limit is
      the end of the file unless some conditional's exits do not join, and then it is
      the offset of that conditional. */
  lemma TokensAreFileScope(t: Text, c: Config)
    requires Possible(t, c)
    ensures var items := Flat(t);
            var kept := Kept(t, 0, c);
            var e := Run(Step, INITIAL, items);
            && (forall p :: p in kept ==> (p in e.walk.found <==> AtFileScope(items, kept, p) && p < Limit(e)))
            && (e.walk.Walking? ==> Limit(e) == |items|)
            && (e.walk.Stopped? ==> e.walk.cut < |items| && items[e.walk.cut].If?)
  {
    var items := Flat(t);
    var kept := Kept(t, 0, c);
    RunTextIsRun(Step, t, INITIAL);
    KeptInside(t, 0, c);
    LiveText(items, kept, t, INITIAL, c);
    TextMoves(t, INITIAL);
    CutIsAnIf(items, |items|);
    assert items[..|items|] == items;
  }

  // ----- Some configuration keeps each token -----

  /** Choices that are always possible: the first arm that is not literally zero. */
  function Default(t: Text): (c: Config)
    ensures Possible(t, c)
  {
    match t
    case End => Rest
    case Char(_, r) => Default(r)
    case Cond(z, b, o, r) =>
      if !z then Choose(0, Default(b), Default(r))
      else match DefaultArm(o) { case (arm, inside) => Choose(if arm < 0 then arm else arm + 1, inside, Default(r)) }
  }

  function DefaultArm(o: Arms): (choice: (int, Config))
    ensures if choice.0 < 0 then !HasElse(o) else PossibleArm(o, choice.0, choice.1)
  {
    match o
    case NoMore => (-1, Rest)
    case ElifArm(z, b, more) =>
      if !z then (0, Default(b))
      else match DefaultArm(more) { case (arm, inside) => (if arm < 0 then arm else arm + 1, inside) }
    case ElseArm(b, _) => (0, Default(b))
  }

  /** Nothing is returned that no configuration keeps. */
  lemma {:induction false} FoundIsKept(t: Text, s: State, p: nat) returns (c: Config)
    requires s.active && FoundSoFar(s) && p !in s.walk.found && p in RunText(Step, t, s).walk.found
    ensures Possible(t, c) && p in Kept(t, s.at, c)
    decreases t, 1
  {
    match t
    case End => c := Rest;
    case Char(m, r) =>
      var u := Step(s, Code(m));
      if p in u.walk.found { c := Default(r); } else { c := FoundIsKept(r, u, p); }
    case Cond(z, b, o, r) => c := FoundInCond(t, s, p);
  }

  lemma {:induction false} FoundInCond(t: Text, s: State, p: nat) returns (c: Config)
    requires t.Cond? && s.active && FoundSoFar(s) && p !in s.walk.found && p in RunText(Step, t, s).walk.found
    ensures Possible(t, c) && p in Kept(t, s.at, c)
    decreases t, 0
  {
    hide Moves, Inside, Step, FoundSoFar, Kept, KeptArm, Flat, FlatArms;
    EnterGroup(s, t.zero);
    var u := Step(s, If(t.zero));
    StepAt(s, If(t.zero));
    BasicFacts(s, u);
    TextMoves(t.body, u);
    var v := RunText(Step, t.body, u);
    ThroughArm(s, u, v);
    ArmsMove(t.others, s, v);
    var w := RunArms(Step, t.others, v);
    if p !in w.walk.found {
      MovesFacts(s, w);
      MovesActive(s, w);
      var next := FoundIsKept(t.rest, w, p);
      var any := Default(t);
      c := Choose(any.arm, any.inside, next);
    } else if p !in v.walk.found {
      var arm, inside := FoundInArms(t.others, s, v, p);
      c := Choose(arm + 1, inside, Default(t.rest));
    } else {
      EnteredActive(s, t.zero);
      DeadFindsNothing(u, v, p);
      var inside := FoundIsKept(t.body, u, p);
      c := Choose(0, inside, Default(t.rest));
    }
    KeptCond(t, s.at, c);
  }

  lemma MovesActive(s: State, t: State)
    requires Moves(s, t)
    ensures t.active == s.active
  {
  }

  lemma EnteredActive(s: State, zero: bool)
    ensures Step(s, If(zero)).active == (s.active && !zero)
    ensures Step(s, If(zero)).walk.found == s.walk.found
  {
  }

  lemma DeadFindsNothing(s: State, t: State, p: nat)
    requires Moves(s, t) && p in t.walk.found && p !in s.walk.found
    ensures s.active
  {
  }

  lemma {:induction false} FoundInArms(o: Arms, g: State, s: State, p: nat) returns (arm: nat, c: Config)
    requires g.active && Inside(g, s) && p !in s.walk.found && p in RunArms(Step, o, s).walk.found
    ensures PossibleArm(o, arm, c) && p in KeptArm(o, s.at, arm, c)
    decreases o, 1
  {
    hide Moves, Inside, Step, FoundSoFar, Kept, KeptArm, Flat, FlatArms;
    arm, c := 0, Rest;
    if o.NoMore? {
      EndifFindsNothing(s, p);
      assert false;
    } else {
      var head := if o.ElifArm? then Elif(o.zero) else Else;
      var u := Step(s, head);
      var v := RunText(Step, o.body, u);
      NextArmInside(g, s, head);
      NextArmActive(g, s, head);
      StepAt(s, head);
      BasicFacts(g, u);
      ArmMoves(head, o.body, o.others, g, s);
      TextMoves(o.body, u);
      if p in v.walk.found {
        DeadFindsNothing(u, v, p);
        c := FoundIsKept(o.body, u, p);
      } else {
        arm, c := FoundInArms(o.others, g, v, p);
        arm := arm + 1;
      }
      KeptArmStep(o, s.at, arm, c);
    }
  }

  lemma EndifFindsNothing(s: State, p: nat)
    ensures p in Step(s, Endif).walk.found ==> p in s.walk.found
  {
  }

  lemma NextArmActive(g: State, s: State, head: Item)
    requires Inside(g, s) && (head.Elif? || head.Else?)
    ensures Step(s, head).active == (g.active && (head.Elif? ==> !head.zero))
    ensures Step(s, head).walk.found == s.walk.found
  {
  }

  lemma TokensAreKept(t: Text, p: nat)
    requires p in Run(Step, INITIAL, Flat(t)).walk.found
    ensures exists c: Config :: Possible(t, c) && p in Kept(t, 0, c)
  {
    RunTextIsRun(Step, t, INITIAL);
    var c := FoundIsKept(t, INITIAL, p);
  }

  // ----- When the finder gives up -----

  /** Braces opened minus braces closed in what a configuration keeps. */
  function Net(t: Text, c: Config): int
    decreases t, 1
  {
    match t
    case End => 0
    case Char(m, r) => Delta(m) + Net(r, c)
    case Cond(_, b, o, r) =>
      if c.Rest? then Net(r, Rest) else GroupNet(t, c.arm, c.inside) + Net(r, c.next)
  }

  function GroupNet(t: Text, arm: int, inside: Config): int
    requires t.Cond?
    decreases t, 0
  {
    if arm == 0 then Net(t.body, inside)
    else if arm > 0 then ArmNet(t.others, arm - 1, inside)
    else 0
  }

  function ArmNet(o: Arms, arm: nat, c: Config): int
    decreases o, 1
  {
    match o
    case NoMore => 0
    case ElifArm(_, b, more) => if arm == 0 then Net(b, c) else ArmNet(more, arm - 1, c)
    case ElseArm(b, more) => if arm == 0 then Net(b, c) else ArmNet(more, arm - 1, c)
  }

  lemma {:induction false} DepthIsNet(items: seq<Item>, kept: set<nat>, t: Text, at: nat, c: Config)
    requires Placed(items, at, Flat(t)) && Possible(t, c)
    requires KeptIs(kept, at, at + Len(t), Kept(t, at, c))
    ensures BraceDepth(items, kept, at + Len(t)) == BraceDepth(items, kept, at) + Net(t, c)
    decreases t, 1
  {
    match t
    case End =>
    case Char(m, r) =>
      CharWeighs(items, kept, m, r, at, c);
      DepthIsNet(items, kept, r, at + 1, c);
    case Cond(z, b, o, r) => CondDepthIsNet(items, kept, t, at, c);
  }

  lemma CharWeighs(items: seq<Item>, kept: set<nat>, m: Mark, r: Text, at: nat, c: Config)
    requires Placed(items, at, Flat(Char(m, r)))
    requires KeptIs(kept, at, at + Len(Char(m, r)), Kept(Char(m, r), at, c))
    ensures at < |items| && Weight(items, kept, at) == Delta(m) && Placed(items, at + 1, Flat(r))
    ensures KeptIs(kept, at + 1, at + 1 + Len(r), Kept(r, at + 1, c))
  {
    PlacedParts(items, at, [Code(m)], Flat(r));
    assert items[at] == [Code(m)][0];
    KeptInside(r, at + 1, c);
  }

  lemma {:induction false} CondDepthIsNet(items: seq<Item>, kept: set<nat>, t: Text, at: nat, c: Config)
    requires t.Cond? && Placed(items, at, Flat(t)) && Possible(t, c)
    requires KeptIs(kept, at, at + Len(t), Kept(t, at, c))
    ensures BraceDepth(items, kept, at + Len(t)) == BraceDepth(items, kept, at) + Net(t, c)
    decreases t, 0
  {
    hide Kept, KeptArm, Flat, FlatArms, Placed, BraceDepth;
    PlacedCond(items, at, t);
    KeptGroup(kept, t, at, c);
    LenCond(t);
    var arms, after := at + 1 + Len(t.body), at + 1 + Len(t.body) + LenArms(t.others);
    DepthOverDropped(items, kept, at, at + 1);
    DepthIsNet(items, kept, t.rest, after, c.next);
    if c.arm == 0 {
      DepthIsNet(items, kept, t.body, at + 1, c.inside);
    } else {
      DepthOverDropped(items, kept, at + 1, arms);
    }
    if c.arm > 0 {
      ArmDepthIsNet(items, kept, t.others, arms, c.arm - 1, c.inside);
    } else {
      DepthOverDropped(items, kept, arms, after);
    }
  }

  lemma {:induction false} ArmDepthIsNet(items: seq<Item>, kept: set<nat>, o: Arms, at: nat, arm: nat, c: Config)
    requires Placed(items, at, FlatArms(o)) && PossibleArm(o, arm, c)
    requires KeptIs(kept, at, at + LenArms(o), KeptArm(o, at, arm, c))
    ensures BraceDepth(items, kept, at + LenArms(o)) == BraceDepth(items, kept, at) + ArmNet(o, arm, c)
    decreases o, 1
  {
    hide Kept, KeptArm, Flat, FlatArms, Placed, BraceDepth;
    PlacedArm(items, at, o);
    KeptArms(kept, o, at, arm, c);
    LenArm(o);
    var inner, next := at + 1, at + 1 + Len(o.body);
    DepthOverDropped(items, kept, at, inner);
    if arm == 0 {
      DepthIsNet(items, kept, o.body, inner, c);
      DepthOverDropped(items, kept, next, at + LenArms(o));
    } else {
      DepthOverDropped(items, kept, inner, next);
      ArmDepthIsNet(items, kept, o.others, next, arm - 1, c);
    }
  }

  predicate PossibleChoice(t: Text, arm: int, inside: Config)
    requires t.Cond?
  {
    if arm == 0 then !t.zero && Possible(t.body, inside)
    else if arm > 0 then PossibleArm(t.others, arm - 1, inside)
    else !HasElse(t.others)
  }

  /** Some choice changes the depth by `d` across the conditional. */
  ghost predicate Reach(t: Text, d: int)
    requires t.Cond?
  {
    exists arm: int, inside: Config :: PossibleChoice(t, arm, inside) && GroupNet(t, arm, inside) == d
  }

  /** Two choices change the depth differently. */
  ghost predicate Torn(t: Text)
    requires t.Cond?
  {
    exists x: int, y: int :: x != y && Reach(t, x) && Reach(t, y)
  }

  /** `o` is what is left of `all` after `k` arms. */
  ghost predicate Suffix(all: Arms, k: nat, o: Arms) {
    if k == 0 then all == o else !all.NoMore? && Suffix(all.others, k - 1, o)
  }

  lemma {:induction false} SuffixArm(all: Arms, k: nat, o: Arms, c: Config)
    requires Suffix(all, k, o) && !o.NoMore?
    ensures PossibleArm(all, k, c) == PossibleArm(o, 0, c) && ArmNet(all, k, c) == ArmNet(o, 0, c)
    ensures Suffix(all, k + 1, o.others)
  {
    if k > 0 { SuffixArm(all.others, k - 1, o, c); } else { assert Suffix(all.others, 0, o.others); }
  }

  /** Every exit noted so far is one that a possible choice takes. */
  ghost predicate Explained(t: Text, o: Arms, s: State)
    requires t.Cond?
  {
    && (s.walk.Stopped? ==> Torn(t))
    && (s.walk.Walking? && s.walk.branches != [] ==>
          var f := Last(s.walk.branches);
          && (forall i :: 0 <= i < |f.exits| ==> Reach(t, f.exits[i] - f.entry))
          && (s.active ==> Reach(t, s.walk.depth - f.entry))
          && ((f.hasElse || HasElse(o)) <==> HasElse(t.others))
          && (f.hasElse ==> f.exits != [] || s.active))
  }

  lemma LeaveExplained(t: Text, g: State, s: State)
    requires t.Cond? && Inside(g, s) && g.active && g.walk.Walking? && Explained(t, NoMore, s)
    ensures var w := Step(s, Endif);
            && (w.walk.Walking? ==> Reach(t, w.walk.depth - g.walk.depth))
            && (w.walk.Stopped? ==> Torn(t))
  {
    if s.walk.Walking? {
      var f := Last(s.walk.branches);
      var exits := Exits(f, s.active, s.walk.depth);
      if !f.hasElse { assert PossibleChoice(t, -1, Rest) && GroupNet(t, -1, Rest) == 0; }
      assert forall i :: 0 <= i < |exits| ==> Reach(t, exits[i] - f.entry);
      assert exits != [];
      if !AllEqual(exits) {
        var i :| 0 <= i < |exits| && exits[i] != exits[0];
        assert exits[i] - f.entry != exits[0] - f.entry;
      }
    }
  }

  lemma EnterExplained(t: Text, s: State)
    requires t.Cond? && s.active && s.walk.Walking?
    ensures var u := Step(s, If(t.zero));
            && u.walk.Walking? && u.walk.depth == s.walk.depth && u.walk.branches != []
            && Last(u.walk.branches) == Frame(s.walk.depth, [], false, true, s.at)
  {
  }

  lemma {:induction false} ExplainText(t: Text, s: State) returns (c: Config, d: Config)
    requires s.active && s.walk.Walking? && FoundSoFar(s)
    ensures Possible(t, c) && Possible(t, d)
    ensures RunText(Step, t, s).walk.Walking? ==> RunText(Step, t, s).walk.depth == s.walk.depth + Net(t, c)
    ensures RunText(Step, t, s).walk.Stopped? ==> Net(t, c) != Net(t, d)
    decreases t, 1
  {
    match t
    case End => c, d := Rest, Rest;
    case Char(m, r) => c, d := ExplainText(r, Step(s, Code(m)));
    case Cond(z, b, o, r) => c, d := ExplainCond(t, s);
  }

  lemma {:induction false} ExplainCond(t: Text, s: State) returns (c: Config, d: Config)
    requires t.Cond? && s.active && s.walk.Walking? && FoundSoFar(s)
    ensures Possible(t, c) && Possible(t, d)
    ensures RunText(Step, t, s).walk.Walking? ==> RunText(Step, t, s).walk.depth == s.walk.depth + Net(t, c)
    ensures RunText(Step, t, s).walk.Stopped? ==> Net(t, c) != Net(t, d)
    decreases t, 0
  {
    hide Moves, Inside, Step, FoundSoFar;
    ExplainGroup(t, s);
    var w := RunArms(Step, t.others, RunText(Step, t.body, Step(s, If(t.zero))));
    MovesFacts(s, w);
    MovesActive(s, w);
    TextMoves(t.rest, w);
    if w.walk.Walking? {
      var arm: int, inside: Config :|
        PossibleChoice(t, arm, inside) && GroupNet(t, arm, inside) == w.walk.depth - s.walk.depth;
      c, d := ExplainText(t.rest, w);
      c, d := Choose(arm, inside, c), Choose(arm, inside, d);
    } else {
      var x: int, y: int :| x != y && Reach(t, x) && Reach(t, y);
      var arm: int, inside: Config :| PossibleChoice(t, arm, inside) && GroupNet(t, arm, inside) == x;
      var arm': int, inside': Config :| PossibleChoice(t, arm', inside') && GroupNet(t, arm', inside') == y;
      c, d := Choose(arm, inside, Default(t.rest)), Choose(arm', inside', Default(t.rest));
      StaysStopped(w, RunText(Step, t.rest, w));
    }
  }

  lemma StaysStopped(s: State, t: State)
    requires Moves(s, t) && s.walk.Stopped?
    ensures t.walk.Stopped?
  {
  }

  lemma {:induction false} ExplainGroup(t: Text, s: State)
    requires t.Cond? && s.active && s.walk.Walking? && FoundSoFar(s)
    ensures var w := RunArms(Step, t.others, RunText(Step, t.body, Step(s, If(t.zero))));
            && Moves(s, w)
            && (w.walk.Walking? ==> Reach(t, w.walk.depth - s.walk.depth))
            && (w.walk.Stopped? ==> Torn(t))
    decreases t, 0, 0
  {
    hide Inside, Step, FoundSoFar;
    var u := Step(s, If(t.zero));
    var v := RunText(Step, t.body, u);
    EnterGroup(s, t.zero);
    EnterExplained(t, s);
    EnteredActive(s, t.zero);
    BasicFacts(s, u);
    TextMoves(t.body, u);
    ThroughArm(s, u, v);
    ArmsMove(t.others, s, v);
    if u.active {
      var b, b' := ExplainText(t.body, u);
      assert PossibleChoice(t, 0, b) && PossibleChoice(t, 0, b');
      assert GroupNet(t, 0, b) == Net(t.body, b) && GroupNet(t, 0, b') == Net(t.body, b');
      assert Reach(t, Net(t.body, b)) && Reach(t, Net(t.body, b'));
    }
    assert Explained(t, t.others, v);
    ExplainArms(t, 0, t.others, s, v);
  }

  lemma {:induction false} ExplainArms(t: Text, k: nat, o: Arms, g: State, s: State)
    requires t.Cond? && Suffix(t.others, k, o)
    requires Inside(g, s) && g.active && g.walk.Walking? && Explained(t, o, s)
    ensures var w := RunArms(Step, o, s);
            && (w.walk.Walking? ==> Reach(t, w.walk.depth - g.walk.depth))
            && (w.walk.Stopped? ==> Torn(t))
    decreases o, 1
  {
    hide Moves, Inside, Step, FoundSoFar, Explained, Reach, Torn;
    if o.NoMore? {
      LeaveExplained(t, g, s);
    } else {
      var head := if o.ElifArm? then Elif(o.zero) else Else;
      var u := Step(s, head);
      ArmMoves(head, o.body, o.others, g, s);
      ExplainArm(t, k, o, head, g, s);
      SuffixArm(t.others, k, o, Rest);
      ExplainArms(t, k + 1, o.others, g, RunText(Step, o.body, u));
    }
  }

  lemma {:induction false} ExplainArm(t: Text, k: nat, o: Arms, head: Item, g: State, s: State)
    requires t.Cond? && Suffix(t.others, k, o)
    requires !o.NoMore? && head == if o.ElifArm? then Elif(o.zero) else Else
    requires Inside(g, s) && g.active && g.walk.Walking? && Explained(t, o, s)
    ensures Explained(t, o.others, RunText(Step, o.body, Step(s, head)))
    decreases o.body, 2
  {
    hide Inside, Step, FoundSoFar, Reach, Torn;
    var u := Step(s, head);
    var v := RunText(Step, o.body, u);
    NextArmInside(g, s, head);
    NextArmActive(g, s, head);
    NextArmExplained(t, o, head, g, s);
    BasicFacts(g, u);
    TextMoves(o.body, u);
    if u.active && u.walk.Walking? {
      var b, b' := ExplainText(o.body, u);
      ArmReaches(t, k, o, b);
      ArmReaches(t, k, o, b');
      if v.walk.Stopped? { TornBy(t, Net(o.body, b), Net(o.body, b')); }
    }
  }

  lemma TornBy(t: Text, x: int, y: int)
    requires t.Cond? && Reach(t, x) && Reach(t, y) && x != y
    ensures Torn(t)
  {
  }

  lemma ArmReaches(t: Text, k: nat, o: Arms, c: Config)
    requires t.Cond? && Suffix(t.others, k, o) && !o.NoMore?
    requires Possible(o.body, c) && (o.ElifArm? ==> !o.zero)
    ensures Reach(t, Net(o.body, c))
  {
    SuffixArm(t.others, k, o, c);
    assert PossibleChoice(t, k + 1, c) && GroupNet(t, k + 1, c) == Net(o.body, c);
  }

  /** The directive starts the next arm with the exit of the last one noted. */
  lemma NextArmExplained(t: Text, o: Arms, head: Item, g: State, s: State)
    requires t.Cond? && !o.NoMore? && head == if o.ElifArm? then Elif(o.zero) else Else
    requires Inside(g, s) && g.active && g.walk.Walking? && Explained(t, o, s)
    ensures var u := Step(s, head);
            && (u.walk.Stopped? ==> Torn(t))
            && (u.walk.Walking? ==>
                  && u.walk.branches != []
                  && var f := Last(u.walk.branches);
                     && u.walk.depth == f.entry
                     && (forall i :: 0 <= i < |f.exits| ==> Reach(t, f.exits[i] - f.entry))
                     && ((f.hasElse || HasElse(o.others)) <==> HasElse(t.others))
                     && (f.hasElse ==> f.exits != [] || u.active))
  {
    hide Reach, Torn;
    if s.walk.Walking? {
      var f := Last(s.walk.branches);
      assert Init(s.walk.branches) + [NextArm(f, s.active, s.walk.depth, head.Else?)] == Step(s, head).walk.branches;
    }
  }

  /** The brace depth at the end of the file, in one configuration. */
  ghost function EndDepth(t: Text, c: Config): int {
    BraceDepth(Flat(t), Kept(t, 0, c), Len(t))
  }

  lemma EndDepthIsNet(t: Text, c: Config)
    requires Possible(t, c)
    ensures EndDepth(t, c) == Net(t, c)
  {
    DepthIsNet(Flat(t), Kept(t, 0, c), t, 0, c);
  }

  lemma EndDepthIsWalked(t: Text, c: Config)
    requires Possible(t, c) && RunText(Step, t, INITIAL).walk.Walking?
    ensures EndDepth(t, c) == RunText(Step, t, INITIAL).walk.depth
  {
    hide Step, Kept, Flat, LiveAt, BraceDepth, Moves, Right;
    StartLives(t, c);
    LiveText(Flat(t), Kept(t, 0, c), t, INITIAL, c);
    RunTextIsRun(Step, t, INITIAL);
    RunAt(INITIAL, Flat(t));
  }

  lemma StartLives(t: Text, c: Config)
    requires Possible(t, c)
    ensures LiveAt(Flat(t), Kept(t, 0, c), t, INITIAL, c)
  {
    hide Step, Kept, Flat;
  }

  /** The finder gives up exactly on files in which two possible configurations end at
      different brace depths. */
  lemma GivesUpIffConfigurationsDisagree(t: Text)
    ensures Run(Step, INITIAL, Flat(t)).walk.Stopped? <==>
      exists c: Config, d: Config :: Possible(t, c) && Possible(t, d) && EndDepth(t, c) != EndDepth(t, d)
  {
    hide Step, EndDepth, Kept;
    RunTextIsRun(Step, t, INITIAL);
    if RunText(Step, t, INITIAL).walk.Stopped? {
      var c, d := ExplainText(t, INITIAL);
      EndDepthIsNet(t, c);
      EndDepthIsNet(t, d);
    } else {
      forall c: Config | Possible(t, c)
        ensures EndDepth(t, c) == RunText(Step, t, INITIAL).walk.depth
      {
        EndDepthIsWalked(t, c);
      }
    }
  }
}
