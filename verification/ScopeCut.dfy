/**
 Where the file-scope token finder gives up: at the first conditional whose exits do not join.
 */
module ScopeCut {
  import opened Prelude
  import opened Preprocessor
  import opened ScopeTokens
  import opened ScopeGroups
  import opened FileScope

  /** The offset of the first conditional, in the order of their `#endif`s, that lies in an arm no
      literal zero turns off and that two possible choices leave at different brace depths. */
  ghost function FirstTorn(t: Text, at: nat): Option<nat>
    decreases t
  {
    match t
    case End => None
    case Char(_, r) => FirstTorn(r, at + 1)
    case Cond(_, b, o, r) =>
      var here := TornGroup(t, at);
      if here.Some? then here else FirstTorn(r, at + 1 + Len(b) + LenArms(o))
  }

  /** The same of one conditional, those in its arms first. */
  ghost function TornGroup(t: Text, at: nat): Option<nat>
    requires t.Cond?
    decreases t, 0
  {
    var first := if t.zero then None else FirstTorn(t.body, at + 1);
    var later := TornArm(t.others, at + 1 + Len(t.body));
    if first.Some? then first else if later.Some? then later else if Torn(t) then Some(at) else None
  }

  ghost function TornArm(o: Arms, at: nat): Option<nat>
    decreases o
  {
    match o
    case NoMore => None
    case ElifArm(z, b, more) =>
      var here := if z then None else FirstTorn(b, at + 1);
      if here.Some? then here else TornArm(more, at + 1 + Len(b))
    case ElseArm(b, more) =>
      var here := FirstTorn(b, at + 1);
      if here.Some? then here else TornArm(more, at + 1 + Len(b))
  }

  /** Whatever is chosen, the walk is at that depth after the conditional. */
  ghost predicate Joined(t: Text, g: State, w: State)
    requires t.Cond? && g.walk.Walking? && w.walk.Walking?
  {
    forall arm: int, inside: Config :: PossibleChoice(t, arm, inside) ==>
      w.walk.depth == g.walk.depth + GroupNet(t, arm, inside)
  }

  /** The walk stops exactly when something is torn, there; else it is at every choice's depth. */
  ghost predicate StopsAt(first: Option<nat>, e: State) {
    match first
    case None => e.walk.Walking?
    case Some(p) => e.walk.Stopped? && e.walk.cut == p
  }

  lemma {:induction false} TextStops(t: Text, s: State)
    requires s.active && s.walk.Walking? && FoundSoFar(s)
    ensures StopsAt(FirstTorn(t, s.at), RunText(Step, t, s))
    ensures RunText(Step, t, s).walk.Walking? ==>
      forall c :: Possible(t, c) ==> RunText(Step, t, s).walk.depth == s.walk.depth + Net(t, c)
    decreases t, 1
  {
    match t
    case End =>
    case Char(m, r) => TextStops(r, Step(s, Code(m)));
    case Cond(z, b, o, r) => CondStops(t, s);
  }

  lemma {:induction false} CondStops(t: Text, s: State)
    requires t.Cond? && s.active && s.walk.Walking? && FoundSoFar(s)
    ensures StopsAt(FirstTorn(t, s.at), RunText(Step, t, s))
    ensures RunText(Step, t, s).walk.Walking? ==>
      forall c :: Possible(t, c) ==> RunText(Step, t, s).walk.depth == s.walk.depth + Net(t, c)
    decreases t, 0
  {
    hide Moves, Inside, Step, FoundSoFar, TornGroup, GroupNet;
    GroupStops(t, s);
    var w := RunArms(Step, t.others, RunText(Step, t.body, Step(s, If(t.zero))));
    MovesFacts(s, w);
    MovesActive(s, w);
    TextMoves(t.rest, w);
    if w.walk.Walking? {
      TextStops(t.rest, w);
      forall c | Possible(t, c) && RunText(Step, t.rest, w).walk.Walking?
        ensures RunText(Step, t.rest, w).walk.depth == s.walk.depth + Net(t, c)
      {
        ChoiceOf(t, c);
      }
    } else {
      StaysStoppedThere(w, RunText(Step, t.rest, w));
    }
  }

  lemma ChoiceOf(t: Text, c: Config)
    requires t.Cond? && Possible(t, c)
    ensures c.Choose? && PossibleChoice(t, c.arm, c.inside) && Possible(t.rest, c.next)
    ensures Net(t, c) == GroupNet(t, c.arm, c.inside) + Net(t.rest, c.next)
  {
  }

  lemma StaysStoppedThere(s: State, t: State)
    requires Moves(s, t) && s.walk.Stopped?
    ensures t.walk == s.walk
  {
  }

  lemma {:induction false} GroupStops(t: Text, s: State)
    requires t.Cond? && s.active && s.walk.Walking? && FoundSoFar(s)
    ensures var w := RunArms(Step, t.others, RunText(Step, t.body, Step(s, If(t.zero))));
      && Moves(s, w) && StopsAt(TornGroup(t, s.at), w) && w.at == s.at + 1 + Len(t.body) + LenArms(t.others)
      && (w.walk.Walking? ==> Joined(t, s, w))
    decreases t, 0, 0
  {
    hide Inside, Step, FoundSoFar, Moves, Torn, Joined, Settled;
    var u := Step(s, If(t.zero));
    var v := RunText(Step, t.body, u);
    var w := RunArms(Step, t.others, v);
    EnterGroup(s, t.zero);
    EnterExplained(t, s);
    EnteredActive(s, t.zero);
    StepAt(s, If(t.zero));
    BasicFacts(s, u);
    TextMoves(t.body, u);
    ThroughArm(s, u, v);
    ArmsMove(t.others, s, v);
    ExplainGroup(t, s);
    if u.active { TextStops(t.body, u); } else { DeadStays(u, v); }
    if v.walk.Stopped? {
      ArmsStayStopped(t.others, v);
      NothingBefore(t, s.at);
    } else {
      assert Suffix(t.others, 0, t.others);
      BodySettled(t, s, u, v);
      ArmsStop(t, 0, t.others, s, v);
    }
  }

  lemma DeadStays(u: State, v: State)
    requires Moves(u, v) && !u.active && u.walk.Walking?
    ensures v.walk == u.walk
  {
  }

  lemma ArmsStayStopped(o: Arms, s: State)
    requires s.walk.Stopped?
    ensures RunArms(Step, o, s).walk == s.walk
  {
    RunArmsIsRun(Step, o, s);
    StoppedRun(s, FlatArms(o));
  }

  lemma NothingBefore(t: Text, at: nat)
    requires t.Cond?
    ensures !t.zero && FirstTorn(t.body, at + 1).Some? ==> TornGroup(t, at) == FirstTorn(t.body, at + 1)
  {
    hide FirstTorn, TornArm, Torn;
  }

  /** The choices of the arms read so far, and of no arm at all, are among the exits. */
  ghost predicate SettledSoFar(t: Text, k: nat, o: Arms, g: State, s: State)
    requires t.Cond? && g.walk.Walking?
  {
    forall arm: int, inside: Config :: PossibleChoice(t, arm, inside) && arm <= k ==>
      Settled(o, s, g.walk.depth + GroupNet(t, arm, inside))
  }

  lemma BodySettled(t: Text, s: State, u: State, v: State)
    requires t.Cond? && s.active && s.walk.Walking? && u == Step(s, If(t.zero)) && Inside(s, v) && Moves(u, v)
    requires v.walk.Walking?
    requires u.active ==> forall c :: Possible(t.body, c) ==> v.walk.depth == u.walk.depth + Net(t.body, c)
    ensures SettledSoFar(t, 0, t.others, s, v)
  {
    EnterExplained(t, s);
    EnteredActive(s, t.zero);
    assert v.walk.branches == u.walk.branches;
    forall arm: int, inside: Config | PossibleChoice(t, arm, inside) && arm <= 0
      ensures Settled(t.others, v, s.walk.depth + GroupNet(t, arm, inside))
    {
      if arm == 0 { assert v.active; }
    }
  }

  lemma {:induction false} ArmsStop(t: Text, k: nat, o: Arms, g: State, s: State)
    requires t.Cond? && Suffix(t.others, k, o)
    requires Inside(g, s) && g.active && g.walk.Walking? && s.walk.Walking?
    requires SettledSoFar(t, k, o, g, s)
    requires RunArms(Step, o, s).walk.Stopped? ==> Torn(t)
    ensures var w := RunArms(Step, o, s);
      && StopsAt(if TornArm(o, s.at).Some? then TornArm(o, s.at) else if Torn(t) then Some(g.at) else None, w)
      && (w.walk.Walking? ==> Joined(t, g, w))
    decreases o, 1
  {
    hide Moves, Inside, Step, FoundSoFar, Torn, Joined, Settled, SettledSoFar;
    if o.NoMore? {
      EndifStops(t, k, g, s);
    } else {
      var head := if o.ElifArm? then Elif(o.zero) else Else;
      var u := Step(s, head);
      var v := RunText(Step, o.body, u);
      NextArmInside(g, s, head);
      NextArmActive(g, s, head);
      StepAt(s, head);
      BasicFacts(g, u);
      TextMoves(o.body, u);
      ArmMoves(head, o.body, o.others, g, s);
      HeadWalks(s, head);
      if u.active { TextStops(o.body, u); } else { DeadStays(u, v); }
      if v.walk.Stopped? {
        ArmsStayStopped(o.others, v);
      } else {
        SuffixArm(t.others, k, o, Rest);
        ArmSettles(t, k, o, head, g, s, u, v);
        ArmsStop(t, k + 1, o.others, g, v);
      }
    }
  }

  lemma HeadWalks(s: State, head: Item)
    requires s.walk.Walking? && (head.Elif? || head.Else?)
    ensures Step(s, head).walk.Walking?
  {
  }

  lemma EndifStops(t: Text, k: nat, g: State, s: State)
    requires t.Cond? && Suffix(t.others, k, NoMore)
    requires Inside(g, s) && g.active && g.walk.Walking? && s.walk.Walking?
    requires SettledSoFar(t, k, NoMore, g, s)
    requires Step(s, Endif).walk.Stopped? ==> Torn(t)
    ensures var w := Step(s, Endif);
      StopsAt(if Torn(t) then Some(g.at) else None, w) && (w.walk.Walking? ==> Joined(t, g, w))
  {
    hide Settled, Torn, Step, Inside;
    var w := Step(s, Endif);
    if w.walk.Walking? {
      forall arm: int, inside: Config | PossibleChoice(t, arm, inside)
        ensures w.walk.depth == g.walk.depth + GroupNet(t, arm, inside)
      {
        if arm > k { NoSuchArm(t.others, k, arm - 1, inside); }
        SettledLeaves(g, s, g.walk.depth + GroupNet(t, arm, inside));
      }
      JoinedIsNotTorn(t, g, w);
    } else {
      CutIsStart(g, s);
    }
  }

  lemma JoinedIsNotTorn(t: Text, g: State, w: State)
    requires t.Cond? && g.walk.Walking? && w.walk.Walking? && Joined(t, g, w)
    ensures !Torn(t)
  {
  }

  lemma CutIsStart(g: State, s: State)
    requires Inside(g, s) && g.walk.Walking? && s.walk.Walking? && Step(s, Endif).walk.Stopped?
    ensures Step(s, Endif).walk.cut == g.at
  {
  }

  lemma {:induction false} NoSuchArm(all: Arms, k: nat, arm: nat, c: Config)
    requires Suffix(all, k, NoMore) && arm >= k
    ensures !PossibleArm(all, arm, c)
  {
    if k > 0 { NoSuchArm(all.others, k - 1, arm - 1, c); }
  }

  lemma ArmSettles(t: Text, k: nat, o: Arms, head: Item, g: State, s: State, u: State, v: State)
    requires t.Cond? && Suffix(t.others, k, o) && !o.NoMore?
    requires head == (if o.ElifArm? then Elif(o.zero) else Else) && u == Step(s, head)
    requires Inside(g, s) && Inside(g, u) && Moves(u, v) && g.active && g.walk.Walking?
    requires s.walk.Walking? && u.walk.Walking? && v.walk.Walking? && SettledSoFar(t, k, o, g, s)
    requires u.active <==> !(o.ElifArm? && o.zero)
    requires u.active ==> forall c :: Possible(o.body, c) ==> v.walk.depth == u.walk.depth + Net(o.body, c)
    ensures SettledSoFar(t, k + 1, o.others, g, v)
  {
    hide Step, Inside, Suffix;
    forall arm: int, inside: Config | PossibleChoice(t, arm, inside) && arm <= k + 1
      ensures Settled(o.others, v, g.walk.depth + GroupNet(t, arm, inside))
    {
      if arm <= k {
        SettledNext(o, g, s, g.walk.depth + GroupNet(t, arm, inside));
        SettledOn(o.others, u, v, g.walk.depth + GroupNet(t, arm, inside));
      } else {
        SuffixArm(t.others, k, o, inside);
        EntryDepth(g, s, head);
        ActiveStays(u, v);
      }
    }
  }

  lemma SettledOn(o: Arms, u: State, v: State, depth: int)
    requires Moves(u, v) && u.walk.Walking? && v.walk.Walking? && u.walk.branches != []
    requires var f := Last(u.walk.branches);
      depth in f.exits || (f.parent && !f.hasElse && !HasElse(o) && depth == f.entry)
    ensures Settled(o, v, depth)
  {
  }

  lemma EntryDepth(g: State, s: State, head: Item)
    requires Inside(g, s) && g.walk.Walking? && s.walk.Walking? && (head.Elif? || head.Else?)
    ensures Step(s, head).walk.Walking? && Step(s, head).walk.depth == g.walk.depth
  {
  }

  lemma ActiveStays(u: State, v: State)
    requires Moves(u, v)
    ensures v.active == u.active
  {
  }

  /** The finder's limit is the first torn conditional of the file, or there is none and it reads
      to the end. */
  lemma LimitIsFirstTorn(t: Text)
    ensures var e := Run(Step, INITIAL, Flat(t)).walk;
      match FirstTorn(t, 0)
      case None => e.Walking?
      case Some(p) => e.Stopped? && e.cut == p
  {
    hide Step;
    RunTextIsRun(Step, t, INITIAL);
    TextStops(t, INITIAL);
  }
}
