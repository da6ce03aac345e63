/**
 The file-scope token finder and one conditional: what the two passes make of a group,
 and what any configuration keeps of it.

 The argument follows the tree of the file. Text leaves the bookkeeping of both passes
 as it found it (`Moves`); within a conditional the innermost frame remembers the state
 it was met in (`Inside`). Over live text a configuration keeps, the tokens found are
 exactly those at depth zero (`Right`) and the walk's depth is the depth of what is kept
 (`OnTrack`); over dropped arms nothing kept is touched, and the exits that are noted
 join at the `#endif` or the walk stops there (`Settled`).
 */
module ScopeGroups {
  import opened Prelude
  import opened Preprocessor
  import opened ScopeTokens

  // ----- A stretch of text leaves the bookkeeping as it found it -----

  ghost predicate FoundSoFar(s: State) {
    forall p :: p in s.walk.found ==> p < s.at
  }

  /** From `s` to a later `t`: only tokens in between are added, and a walk that gives
      up in between keeps what it had found before the cut. */
  ghost predicate FoundBetween(s: State, t: State) {
    && s.walk.found <= t.walk.found
    && (forall p :: p in t.walk.found ==> p in s.walk.found || s.at <= p < Limit(t))
  }

  /** Everything before the limit has been looked at. */
  function Limit(t: State): nat {
    if t.walk.Stopped? then t.walk.cut else t.at
  }

  /** `t` comes after `s` at the same nesting. */
  ghost predicate Moves(s: State, t: State) {
    && s.at <= t.at && t.active == s.active && t.conds == s.conds
    && FoundSoFar(s) && FoundBetween(s, t)
    && (s.walk.Stopped? ==> t.walk == s.walk)
    && (s.walk.Walking? ==>
          && (!s.active ==> t.walk == s.walk)
          && (t.walk.Walking? ==> t.walk.branches == s.walk.branches)
          && (t.walk.Stopped? ==> s.at <= t.walk.cut < t.at))
  }

  lemma MovesOn(r: State, s: State, t: State)
    requires Moves(r, s) && Moves(s, t)
    ensures Moves(r, t)
  {
  }

  /** `s` lies within a conditional that was met in state `g`. */
  ghost predicate Inside(g: State, s: State) {
    && g.at < s.at && s.conds == g.conds + [g.active] && (s.active ==> g.active)
    && FoundSoFar(g) && FoundSoFar(s) && FoundBetween(g, s)
    && (g.walk.Stopped? ==> s.walk == g.walk)
    && (g.walk.Walking? ==>
          && (!g.active ==> s.walk.Walking? && s.walk.found == g.walk.found && s.walk.depth == g.walk.depth)
          && (s.walk.Walking? ==> InsideFrame(g, s))
          && (s.walk.Stopped? ==> g.at <= s.walk.cut < s.at))
  }

  ghost predicate InsideFrame(g: State, s: State)
    requires g.walk.Walking? && s.walk.Walking?
  {
    && s.walk.branches != [] && Init(s.walk.branches) == g.walk.branches
    && var f := Last(s.walk.branches);
       f.parent == g.active && f.start == g.at && f.entry == g.walk.depth && (!g.active ==> f.exits == [])
  }

  lemma EnterGroup(g: State, zero: bool)
    requires FoundSoFar(g)
    ensures Inside(g, Step(g, If(zero)))
  {
  }

  lemma NextArmInside(g: State, s: State, head: Item)
    requires Inside(g, s) && (head.Elif? || head.Else?)
    ensures Inside(g, Step(s, head))
  {
  }

  lemma ThroughArm(g: State, s: State, t: State)
    requires Inside(g, s) && Moves(s, t)
    ensures Inside(g, t)
  {
  }

  lemma LeaveGroup(g: State, s: State)
    requires Inside(g, s)
    ensures Moves(g, Step(s, Endif))
  {
    if g.walk.Walking? && s.walk.Walking? {
      var f := Last(s.walk.branches);
      if !g.active { assert Exits(f, s.active, s.walk.depth) == []; }
    }
  }

  lemma {:induction false} TextMoves(t: Text, s: State)
    requires FoundSoFar(s)
    ensures Moves(s, RunText(Step, t, s)) && RunText(Step, t, s).at == s.at + Len(t)
    decreases t, 1
  {
    match t
    case End =>
    case Char(m, r) =>
      TextMoves(r, Step(s, Code(m)));
      MovesOn(s, Step(s, Code(m)), RunText(Step, t, s));
    case Cond(z, b, o, r) => CondMoves(z, b, o, r, s);
  }

  lemma {:induction false} CondMoves(z: bool, b: Text, o: Arms, r: Text, s: State)
    requires FoundSoFar(s)
    ensures Moves(s, RunText(Step, Cond(z, b, o, r), s))
    ensures RunText(Step, Cond(z, b, o, r), s).at == s.at + Len(Cond(z, b, o, r))
    decreases Cond(z, b, o, r), 0
  {
    hide Moves, Inside, Step, FoundSoFar;
    var s1 := Step(s, If(z));
    EnterGroup(s, z);
    BasicFacts(s, s1);
    TextMoves(b, s1);
    var s2 := RunText(Step, b, s1);
    ThroughArm(s, s1, s2);
    ArmsMove(o, s, s2);
    var s3 := RunArms(Step, o, s2);
    MovesFacts(s, s3);
    TextMoves(r, s3);
    MovesOn(s, s3, RunText(Step, r, s3));
    StepAt(s, If(z));
  }

  lemma BasicFacts(g: State, s: State)
    requires Inside(g, s)
    ensures FoundSoFar(s)
  {
  }

  lemma MovesFacts(s: State, t: State)
    requires Moves(s, t)
    ensures FoundSoFar(t)
  {
  }

  lemma StepAt(s: State, item: Item)
    ensures Step(s, item).at == s.at + 1
  {
  }

  lemma {:induction false} ArmsMove(o: Arms, g: State, s: State)
    requires Inside(g, s)
    ensures Moves(g, RunArms(Step, o, s)) && RunArms(Step, o, s).at == s.at + LenArms(o)
    decreases o, 1
  {
    hide Moves, Inside, Step, FoundSoFar;
    match o
    case NoMore =>
      LeaveGroup(g, s);
      StepAt(s, Endif);
    case ElifArm(z, b, more) => ArmMoves(Elif(z), b, more, g, s); ArmsMove(more, g, RunText(Step, b, Step(s, Elif(z))));
    case ElseArm(b, more) => ArmMoves(Else, b, more, g, s); ArmsMove(more, g, RunText(Step, b, Step(s, Else)));
  }

  lemma {:induction false} ArmMoves(head: Item, b: Text, more: Arms, g: State, s: State)
    requires Inside(g, s) && (head.Elif? || head.Else?)
    ensures Inside(g, RunText(Step, b, Step(s, head)))
    ensures RunText(Step, b, Step(s, head)).at == s.at + 1 + Len(b)
    decreases b, 2
  {
    hide Moves, Inside, Step, FoundSoFar;
    NextArmInside(g, s, head);
    BasicFacts(g, Step(s, head));
    TextMoves(b, Step(s, head));
    ThroughArm(g, Step(s, head), RunText(Step, b, Step(s, head)));
    StepAt(s, head);
  }

  // ----- Live text: the walk is at the configuration's own depth -----

  /** A kept identifier character at brace depth zero. */
  ghost predicate AtFileScope(items: seq<Item>, kept: set<nat>, p: nat) {
    p < |items| && p in kept && items[p] == Code(Letter) && BraceDepth(items, kept, p) == 0
  }

  /** From `lo` on, the tokens found so far are the kept ones at file scope, up to the
      limit. */
  ghost predicate Right(items: seq<Item>, kept: set<nat>, lo: nat, t: State) {
    forall p :: lo <= p < t.at && p in kept ==>
      (p in t.walk.found <==> AtFileScope(items, kept, p) && p < Limit(t))
  }

  ghost predicate OnTrack(items: seq<Item>, kept: set<nat>, t: State) {
    t.walk.Walking? ==> t.at <= |items| && t.walk.depth == BraceDepth(items, kept, t.at)
  }

  lemma RightOn(items: seq<Item>, kept: set<nat>, lo: nat, s: State, t: State)
    requires Right(items, kept, lo, s) && Moves(s, t) && Right(items, kept, s.at, t)
    ensures Right(items, kept, lo, t)
  {
  }

  lemma RightOverDropped(items: seq<Item>, kept: set<nat>, lo: nat, s: State, t: State)
    requires Right(items, kept, lo, s) && Moves(s, t) && Dropped(kept, s.at, t.at)
    ensures Right(items, kept, lo, t)
  {
  }

  lemma RightOverDirective(items: seq<Item>, kept: set<nat>, lo: nat, g: State, s: State, head: Item)
    requires Inside(g, s) && Right(items, kept, lo, s) && s.at !in kept && (head.Elif? || head.Else?)
    ensures Right(items, kept, lo, Step(s, head))
  {
  }

  lemma RightAfterLeaving(items: seq<Item>, kept: set<nat>, g: State, s: State)
    requires Inside(g, s) && g.walk.Walking? && Right(items, kept, g.at, s) && s.at !in kept
    ensures Right(items, kept, g.at, Step(s, Endif))
  {
  }

  /** The depth the configuration has after the conditional is among its exits: left by
      an arm already finished, by the live arm just ending, or by there being no arm. */
  ghost predicate Settled(o: Arms, s: State, depth: int) {
    s.walk.Walking? && s.walk.branches != [] ==>
      var f := Last(s.walk.branches);
      || depth in f.exits
      || (s.active && s.walk.depth == depth)
      || (f.parent && !f.hasElse && !HasElse(o) && depth == f.entry)
  }

  lemma SettledNext(o: Arms, g: State, s: State, depth: int)
    requires !o.NoMore? && Inside(g, s) && Settled(o, s, depth)
    ensures var t := Step(s, if o.ElifArm? then Elif(o.zero) else Else);
            t.walk.Walking? && s.walk.Walking? ==>
              && t.walk.branches != []
              && (var f := Last(t.walk.branches);
                  depth in f.exits || (f.parent && !f.hasElse && !HasElse(o.others) && depth == f.entry))
  {
    if s.walk.Walking? && g.walk.Walking? {
      var f := Last(s.walk.branches);
      var n := NextArm(f, s.active, s.walk.depth, o.ElseArm?);
      assert depth in f.exits ==> depth in n.exits;
      assert s.active && s.walk.depth == depth ==> n.exits[|n.exits| - 1] == depth;
    }
  }

  lemma SettledLeaves(g: State, s: State, depth: int)
    requires Inside(g, s) && g.walk.Walking? && Settled(NoMore, s, depth)
    ensures var t := Step(s, Endif);
            t.walk.Walking? ==> s.walk.Walking? && t.walk.depth == depth
  {
    if s.walk.Walking? {
      var f := Last(s.walk.branches);
      var exits := Exits(f, s.active, s.walk.depth);
      assert depth in exits by {
        assert depth in f.exits ==> depth in exits;
        if s.active && s.walk.depth == depth { assert exits[|f.exits|] == depth; }
        if f.parent && !f.hasElse && depth == f.entry { assert exits[|exits| - 1] == depth; }
      }
    }
  }

  lemma {:induction false} ArmsSettled(items: seq<Item>, kept: set<nat>, o: Arms, g: State, s: State, depth: int)
    requires Inside(g, s) && g.active && g.walk.Walking?
    requires Right(items, kept, g.at, s) && Dropped(kept, s.at, s.at + LenArms(o))
    requires Settled(o, s, depth)
    ensures Right(items, kept, g.at, RunArms(Step, o, s))
    ensures RunArms(Step, o, s).walk.Walking? ==> RunArms(Step, o, s).walk.depth == depth
    decreases o
  {
    hide Moves, Inside, Step, FoundSoFar, Right, Settled;
    match o
    case NoMore =>
      RightAfterLeaving(items, kept, g, s);
      SettledLeaves(g, s, depth);
    case ElifArm(z, b, more) => ArmSettled(items, kept, o, Elif(z), g, s, depth);
      ArmsSettled(items, kept, more, g, RunText(Step, b, Step(s, Elif(z))), depth);
    case ElseArm(b, more) => ArmSettled(items, kept, o, Else, g, s, depth);
      ArmsSettled(items, kept, more, g, RunText(Step, b, Step(s, Else)), depth);
  }

  /** An arm that is not the chosen one changes nothing of this. */
  lemma ArmSettled(items: seq<Item>, kept: set<nat>, o: Arms, head: Item, g: State, s: State, depth: int)
    requires !o.NoMore? && head == if o.ElifArm? then Elif(o.zero) else Else
    requires Inside(g, s) && g.active && g.walk.Walking?
    requires Right(items, kept, g.at, s) && Dropped(kept, s.at, s.at + LenArms(o))
    requires Settled(o, s, depth)
    ensures var t := RunText(Step, o.body, Step(s, head));
            && Inside(g, t) && Right(items, kept, g.at, t) && Settled(o.others, t, depth)
            && t.at == s.at + 1 + Len(o.body)
  {
    ArmDropped(items, kept, o.body, o.others, head, g, s);
    NextArmInside(g, s, head);
    TextMoves(o.body, Step(s, head));
    SettledNext(o, g, s, depth);
  }

  lemma ArmDropped(items: seq<Item>, kept: set<nat>, b: Text, more: Arms, head: Item, g: State, s: State)
    requires (head.Elif? || head.Else?) && Inside(g, s)
    requires Right(items, kept, g.at, s) && Dropped(kept, s.at, s.at + 1 + Len(b))
    ensures var t := RunText(Step, b, Step(s, head));
            Inside(g, t) && Right(items, kept, g.at, t) && t.at == s.at + 1 + Len(b)
  {
    hide Inside, Moves, Right, Step;
    var u := Step(s, head);
    ArmMoves(head, b, more, g, s);
    NextArmInside(g, s, head);
    BasicFacts(g, u);
    StepAt(s, head);
    TextMoves(b, u);
    RightOverDirective(items, kept, g.at, g, s, head);
    RightOverDropped(items, kept, g.at, u, RunText(Step, b, u));
  }

  /** The hypotheses of the main induction: live text, met at the configuration's own
      depth, of which the configuration keeps what its choices say. */
  ghost predicate LiveAt(items: seq<Item>, kept: set<nat>, t: Text, s: State, c: Config) {
    && s.active && s.walk.Walking? && FoundSoFar(s)
    && Placed(items, s.at, Flat(t)) && Possible(t, c)
    && KeptIs(kept, s.at, s.at + Len(t), Kept(t, s.at, c))
    && OnTrack(items, kept, s)
  }

  lemma {:induction false} LiveText(items: seq<Item>, kept: set<nat>, t: Text, s: State, c: Config)
    requires LiveAt(items, kept, t, s, c)
    ensures Right(items, kept, s.at, RunText(Step, t, s)) && OnTrack(items, kept, RunText(Step, t, s))
    decreases t, 1
  {
    match t
    case End =>
    case Char(m, r) =>
      var u := Step(s, Code(m));
      LiveChar(items, kept, m, r, s, c);
      LiveText(items, kept, r, u, c);
      TextMoves(r, u);
      RightOn(items, kept, s.at, u, RunText(Step, r, u));
    case Cond(z, b, o, r) => LiveCond(items, kept, z, b, o, r, s, c);
  }

  lemma LiveChar(items: seq<Item>, kept: set<nat>, m: Mark, r: Text, s: State, c: Config)
    requires LiveAt(items, kept, Char(m, r), s, c)
    ensures LiveAt(items, kept, r, Step(s, Code(m)), c)
    ensures Right(items, kept, s.at, Step(s, Code(m)))
  {
    PlacedParts(items, s.at, [Code(m)], Flat(r));
    assert items[s.at] == [Code(m)][0];
    KeptInside(r, s.at + 1, c);
    assert s.at in kept && Weight(items, kept, s.at) == Delta(m);
  }

  lemma {:induction false} LiveCond(items: seq<Item>, kept: set<nat>, z: bool, b: Text, o: Arms, r: Text,
                                    s: State, c: Config)
    requires LiveAt(items, kept, Cond(z, b, o, r), s, c)
    ensures var e := RunText(Step, Cond(z, b, o, r), s);
            Right(items, kept, s.at, e) && OnTrack(items, kept, e)
    decreases Cond(z, b, o, r), 0
  {
    hide Inside, Moves, Right, Step;
    LiveGroup(items, kept, z, b, o, r, s, c);
    var e := RunArms(Step, o, RunText(Step, b, Step(s, If(z))));
    MovesFacts(s, e);
    TextMoves(r, e);
    if e.walk.Walking? {
      GroupThenRest(items, kept, z, b, o, r, s, e, c);
      LiveText(items, kept, r, e, c.next);
    } else {
      CutBefore(s, e);
      NothingAfterStopping(items, kept, e, RunText(Step, r, e));
    }
    RightOn(items, kept, s.at, e, RunText(Step, r, e));
  }

  lemma GroupThenRest(items: seq<Item>, kept: set<nat>, z: bool, b: Text, o: Arms, r: Text,
                      s: State, e: State, c: Config)
    requires LiveAt(items, kept, Cond(z, b, o, r), s, c)
    requires e.at == s.at + 1 + Len(b) + LenArms(o) && Moves(s, e) && OnTrack(items, kept, e) && e.walk.Walking?
    ensures LiveAt(items, kept, r, e, c.next)
  {
    hide Kept, KeptArm, KeptIs, Dropped, Placed, Flat, FlatArms, BraceDepth;
    PlacedCond(items, s.at, Cond(z, b, o, r));
    KeptGroup(kept, Cond(z, b, o, r), s.at, c);
  }

  lemma CutBefore(s: State, t: State)
    requires Moves(s, t) && s.walk.Walking? && t.walk.Stopped?
    ensures t.walk.cut < t.at
  {
  }

  lemma NothingAfterStopping(items: seq<Item>, kept: set<nat>, s: State, t: State)
    requires s.walk.Stopped? && s.walk.cut < s.at && FoundSoFar(s) && Moves(s, t)
    ensures Right(items, kept, s.at, t)
  {
  }

  /** A live conditional, from the `#if` through the `#endif`. */
  lemma {:induction false} LiveGroup(items: seq<Item>, kept: set<nat>, z: bool, b: Text, o: Arms, r: Text,
                                     s: State, c: Config)
    requires LiveAt(items, kept, Cond(z, b, o, r), s, c)
    ensures var e := RunArms(Step, o, RunText(Step, b, Step(s, If(z))));
            && e.at == s.at + 1 + Len(b) + LenArms(o) && Moves(s, e)
            && Right(items, kept, s.at, e) && OnTrack(items, kept, e)
    decreases Cond(z, b, o, r), 0, 0
  {
    hide Inside, Moves, Right, Step, FoundSoFar, Settled, LiveAt, Flat, FlatArms, Kept, KeptArm, KeptIs,
      Placed, BraceDepth;
    var t := Cond(z, b, o, r);
    var u := Step(s, If(z));
    FirstArm(items, kept, t, s, c);
    TextMoves(b, u);
    var v := RunText(Step, b, u);
    ThroughArm(s, u, v);
    ArmsMove(o, s, v);
    if c.arm == 0 {
      LiveText(items, kept, b, u, c.inside);
      RightOn(items, kept, s.at, u, v);
      FirstArmSettled(items, kept, o, s, u, v);
      ArmsSettled(items, kept, o, s, v, BraceDepth(items, kept, v.at));
      DepthOverDropped(items, kept, v.at, v.at + LenArms(o));
    } else {
      RightOverDropped(items, kept, s.at, u, v);
      DepthOverDropped(items, kept, s.at, v.at);
      if c.arm > 0 {
        ArmsPending(items, kept, o, s, v, c.arm - 1, c.inside);
      } else {
        NoArmSettled(items, kept, o, s, u, v);
        ArmsSettled(items, kept, o, s, v, BraceDepth(items, kept, v.at));
        DepthOverDropped(items, kept, v.at, v.at + LenArms(o));
      }
    }
  }

  /** Entering a live conditional. */
  lemma FirstArm(items: seq<Item>, kept: set<nat>, t: Text, s: State, c: Config)
    requires t.Cond? && LiveAt(items, kept, t, s, c)
    ensures var u := Step(s, If(t.zero));
            && c.Choose? && s.active && s.walk.Walking? && OnTrack(items, kept, s)
            && Inside(s, u) && FoundSoFar(u) && u.at == s.at + 1
            && Right(items, kept, s.at, u)
            && (c.arm == 0 ==> u.active && LiveAt(items, kept, t.body, u, c.inside))
    ensures var arms := s.at + 1 + Len(t.body);
            && arms + LenArms(t.others) <= |items|
            && Placed(items, arms, FlatArms(t.others))
            && (c.arm != 0 ==> Dropped(kept, s.at, arms))
            && (if c.arm > 0 then
                  && PossibleArm(t.others, c.arm - 1, c.inside)
                  && KeptIs(kept, arms, arms + LenArms(t.others), KeptArm(t.others, arms, c.arm - 1, c.inside))
                else Dropped(kept, arms, arms + LenArms(t.others)))
            && (c.arm < 0 ==> !HasElse(t.others))
  {
    hide LiveAt, Step, Right, Inside, FoundSoFar, OnTrack, Placed, KeptIs, KeptArm, Dropped, PossibleArm, FlatArms;
    FirstArmText(items, kept, t, s, c);
    FirstArmRest(items, kept, t, s, c);
  }

  lemma FirstArmText(items: seq<Item>, kept: set<nat>, t: Text, s: State, c: Config)
    requires t.Cond? && LiveAt(items, kept, t, s, c)
    ensures c.Choose?
    ensures var u := Step(s, If(t.zero));
            && s.active && s.walk.Walking? && OnTrack(items, kept, s)
            && Inside(s, u) && FoundSoFar(u) && u.at == s.at + 1
            && Right(items, kept, s.at, u)
            && (c.arm == 0 ==> u.active && LiveAt(items, kept, t.body, u, c.inside))
  {
    hide Placed, KeptIs, Kept, KeptArm, Dropped, PossibleArm, Flat, FlatArms, BraceDepth, Inside, FoundBetween;
    KeptGroup(kept, t, s.at, c);
    EnterGroup(s, t.zero);
    BodyLives(items, kept, t, s, c);
    IfDropped(items, kept, s, t);
  }

  lemma IfDropped(items: seq<Item>, kept: set<nat>, s: State, t: Text)
    requires t.Cond? && s.walk.Walking? && s.at !in kept && s.at < |items| && OnTrack(items, kept, s)
    ensures Step(s, If(t.zero)).at == s.at + 1 && Step(s, If(t.zero)).walk.Walking?
    ensures OnTrack(items, kept, Step(s, If(t.zero))) && Right(items, kept, s.at, Step(s, If(t.zero)))
  {
    hide BraceDepth;
    DepthOverDropped(items, kept, s.at, s.at + 1);
  }

  lemma BodyLives(items: seq<Item>, kept: set<nat>, t: Text, s: State, c: Config)
    requires t.Cond? && LiveAt(items, kept, t, s, c) && c.Choose?
    ensures s.at < |items|
    ensures c.arm == 0 ==> Step(s, If(t.zero)).active
    ensures c.arm == 0 ==> Placed(items, s.at + 1, Flat(t.body)) && Possible(t.body, c.inside)
    ensures c.arm == 0 ==> KeptIs(kept, s.at + 1, s.at + 1 + Len(t.body), Kept(t.body, s.at + 1, c.inside))
  {
    hide Kept, KeptArm, Flat, FlatArms, KeptIs, Placed, FoundSoFar, OnTrack;
    PlacedCond(items, s.at, t);
    KeptGroup(kept, t, s.at, c);
  }

  lemma FirstArmRest(items: seq<Item>, kept: set<nat>, t: Text, s: State, c: Config)
    requires t.Cond? && LiveAt(items, kept, t, s, c)
    ensures c.Choose?
    ensures var arms := s.at + 1 + Len(t.body);
            && arms + LenArms(t.others) <= |items|
            && Placed(items, arms, FlatArms(t.others))
            && (c.arm != 0 ==> Dropped(kept, s.at, arms))
            && (if c.arm > 0 then
                  && PossibleArm(t.others, c.arm - 1, c.inside)
                  && KeptIs(kept, arms, arms + LenArms(t.others), KeptArm(t.others, arms, c.arm - 1, c.inside))
                else Dropped(kept, arms, arms + LenArms(t.others)))
            && (c.arm < 0 ==> !HasElse(t.others))
  {
    PlacedCond(items, s.at, t);
    KeptGroup(kept, t, s.at, c);
  }

  /** At the end of the chosen arm its own depth is the one that settles. */
  lemma FirstArmSettled(items: seq<Item>, kept: set<nat>, o: Arms, g: State, u: State, v: State)
    requires u.active && Moves(u, v) && OnTrack(items, kept, v) && v.at <= |items|
    ensures Settled(o, v, BraceDepth(items, kept, v.at))
  {
  }

  /** With no `#else`, no arm need be live, and then the depth is the one on entry. */
  lemma NoArmSettled(items: seq<Item>, kept: set<nat>, o: Arms, g: State, u: State, v: State)
    requires g.active && g.walk.Walking? && !HasElse(o) && OnTrack(items, kept, g)
    requires (exists z :: u == Step(g, If(z))) && Moves(u, v)
    requires v.at <= |items| && BraceDepth(items, kept, v.at) == BraceDepth(items, kept, g.at)
    ensures Settled(o, v, BraceDepth(items, kept, v.at))
  {
  }

  /** The chosen arm is still to come. */
  lemma {:induction false} ArmsPending(items: seq<Item>, kept: set<nat>, o: Arms, g: State, s: State,
                                       arm: nat, c: Config)
    requires Inside(g, s) && g.active && g.walk.Walking?
    requires Right(items, kept, g.at, s)
    requires Placed(items, s.at, FlatArms(o)) && PossibleArm(o, arm, c)
    requires KeptIs(kept, s.at, s.at + LenArms(o), KeptArm(o, s.at, arm, c))
    requires s.at <= |items| && BraceDepth(items, kept, s.at) == g.walk.depth
    ensures Right(items, kept, g.at, RunArms(Step, o, s)) && OnTrack(items, kept, RunArms(Step, o, s))
    decreases o, 0
  {
    hide Inside, Moves, Right, Step, FoundSoFar, Settled, LiveAt, Flat, FlatArms, Kept, KeptArm, KeptIs,
      Placed, BraceDepth;
    if s.walk.Stopped? {
      StoppedInside(items, kept, o, g, s);
    } else {
      var head := if o.ElifArm? then Elif(o.zero) else Else;
      var u := Step(s, head);
      var v := RunText(Step, o.body, u);
      PendingArm(items, kept, o, head, g, s, arm, c);
      ArmMoves(head, o.body, o.others, g, s);
      NextArmInside(g, s, head);
      BasicFacts(g, u);
      StepAt(s, head);
      TextMoves(o.body, u);
      ArmsMove(o.others, g, v);
      RightOverDirective(items, kept, g.at, g, s, head);
      if arm == 0 {
        LiveText(items, kept, o.body, u, c);
        RightOn(items, kept, g.at, u, v);
        FirstArmSettled(items, kept, o.others, g, u, v);
        ArmsSettled(items, kept, o.others, g, v, BraceDepth(items, kept, v.at));
        DepthOverDropped(items, kept, v.at, v.at + LenArms(o.others));
      } else {
        RightOverDropped(items, kept, g.at, u, v);
        DepthOverDropped(items, kept, s.at, v.at);
        ArmsPending(items, kept, o.others, g, v, arm - 1, c);
      }
    }
  }

  lemma StoppedInside(items: seq<Item>, kept: set<nat>, o: Arms, g: State, s: State)
    requires Inside(g, s) && g.walk.Walking? && s.walk.Stopped? && Right(items, kept, g.at, s)
    ensures Right(items, kept, g.at, RunArms(Step, o, s)) && RunArms(Step, o, s).walk.Stopped?
  {
    RunArmsIsRun(Step, o, s);
    StoppedRun(s, FlatArms(o));
    ArmsMove(o, g, s);
  }

  /** One arm further. */
  lemma PendingArm(items: seq<Item>, kept: set<nat>, o: Arms, head: Item, g: State, s: State, arm: nat, c: Config)
    requires Inside(g, s) && g.active && g.walk.Walking? && s.walk.Walking?
    requires Placed(items, s.at, FlatArms(o)) && PossibleArm(o, arm, c)
    requires KeptIs(kept, s.at, s.at + LenArms(o), KeptArm(o, s.at, arm, c))
    requires s.at <= |items| && BraceDepth(items, kept, s.at) == g.walk.depth
    requires !o.NoMore? && head == if o.ElifArm? then Elif(o.zero) else Else
    ensures var u := Step(s, head);
            var arms := s.at + 1 + Len(o.body);
            && s.at !in kept
            && arms + LenArms(o.others) <= |items| && Placed(items, arms, FlatArms(o.others))
            && (if arm == 0 then
                  u.active && LiveAt(items, kept, o.body, u, c) && Dropped(kept, arms, arms + LenArms(o.others))
                else
                  && Dropped(kept, s.at, arms) && PossibleArm(o.others, arm - 1, c)
                  && KeptIs(kept, arms, arms + LenArms(o.others), KeptArm(o.others, arms, arm - 1, c)))
  {
    hide Inside, Step, FoundSoFar, Flat, FlatArms, Kept, KeptArm, KeptIs, Placed, PossibleArm, BraceDepth;
    PlacedArm(items, s.at, o);
    LenArm(o);
    KeptArms(kept, o, s.at, arm, c);
    PossibleNext(o, arm, c);
    if arm == 0 { LiveArmStarts(items, kept, o, head, g, s); }
  }

  lemma PossibleNext(o: Arms, arm: nat, c: Config)
    requires !o.NoMore? && PossibleArm(o, arm, c)
    ensures if arm == 0 then Possible(o.body, c) && !(o.ElifArm? && o.zero) else PossibleArm(o.others, arm - 1, c)
  {
  }

  lemma LiveArmStarts(items: seq<Item>, kept: set<nat>, o: Arms, head: Item, g: State, s: State)
    requires Inside(g, s) && g.active && g.walk.Walking? && s.walk.Walking?
    requires s.at < |items| && BraceDepth(items, kept, s.at) == g.walk.depth && s.at !in kept
    requires head == Elif(false) || head == Else
    ensures var u := Step(s, head);
            u.at == s.at + 1 && u.active && u.walk.Walking? && FoundSoFar(u) && OnTrack(items, kept, u)
  {
  }

  /** Every open conditional, and the cut, is the offset of an `#if`. */
  ghost predicate StartsAtIfs(items: seq<Item>, s: State) {
    match s.walk
    case Stopped(_, cut) => cut < |items| && items[cut].If?
    case Walking(_, branches, _) =>
      forall k :: 0 <= k < |branches| ==> branches[k].start < |items| && items[branches[k].start].If?
  }

  lemma {:induction false} CutIsAnIf(items: seq<Item>, i: nat)
    requires i <= |items|
    ensures StartsAtIfs(items, Run(Step, INITIAL, items[..i]))
  {
    if i > 0 {
      CutIsAnIf(items, i - 1);
      RunNext(Step, INITIAL, items, i - 1);
      RunAt(INITIAL, items[..i - 1]);
    }
  }
}
