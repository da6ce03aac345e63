/**
 The translation-unit index and one conditional: what the walk makes of a group whose
 arms it accepts, and what any configuration keeps of it.

 The argument follows the tree of the file. An arm is read from the state its
 conditional was met in, so it ends with the same depth, the same open brace and its
 own counter at zero (`ArmOf`, `Own`); a whole group therefore leaves the walk where it
 found it (`Quiet`). Meanwhile a configuration keeps at most one arm, and the brace
 depth of what it keeps moves exactly as the walk's does over that arm and not at all
 over the others (`LiveAt`, `ArmRead`, `Good`).
 */
module TuGroups {
  import opened Prelude
  import opened Preprocessor
  import opened TuIndex

  // ----- Complaints are never withdrawn -----

  lemma {:induction false} RunFacts(s: State, items: seq<Item>)
    ensures Run(Step, s, items).at == s.at + |items|
    ensures s.unbalanced ==> Run(Step, s, items).unbalanced
    decreases |items|
  {
    if items != [] { RunFacts(Step(s, items[0]), items[1..]); }
  }

  lemma TextFacts(t: Text, s: State)
    ensures RunText(Step, t, s).at == s.at + Len(t)
    ensures s.unbalanced ==> RunText(Step, t, s).unbalanced
  {
    RunTextIsRun(Step, t, s);
    RunFacts(s, Flat(t));
  }

  lemma ArmsFacts(o: Arms, s: State)
    ensures RunArms(Step, o, s).at == s.at + LenArms(o)
    ensures s.unbalanced ==> RunArms(Step, o, s).unbalanced
  {
    RunArmsIsRun(Step, o, s);
    RunFacts(s, FlatArms(o));
  }

  // ----- A conditional accepted by the walk leaves it where it was -----

  ghost predicate Wellformed(s: State) {
    && (s.depth == 0 <==> s.open.None?)
    && (s.open.Some? ==> s.open.value < s.at)
    && (s.deltas != [] ==> Last(s.deltas) >= 0)
  }

  /** Bodies closed between `g` and `s` were also opened there. */
  ghost predicate NewBodies(g: State, s: State) {
    && g.at <= s.at && g.bodies <= s.bodies
    && (forall i :: |g.bodies| <= i < |s.bodies| ==> g.at <= s.bodies[i].0 < s.bodies[i].1 < s.at)
  }

  /** `e` is where `s` was, some text later. */
  ghost predicate Quiet(s: State, e: State) {
    && e.depth == s.depth && e.open == s.open && e.deltas == s.deltas
    && NewBodies(s, e) && (s.depth > 0 ==> e.bodies == s.bodies)
  }

  /** `s` is in the text of an arm that began in state `a`. */
  ghost predicate Own(a: State, s: State) {
    && a.deltas != [] && Last(a.deltas) == 0 && s.deltas != []
    && Init(s.deltas) == Init(a.deltas) && s.depth == a.depth + Last(s.deltas)
    && Wellformed(s) && NewBodies(a, s)
    && (a.depth > 0 ==> s.open == a.open && s.bodies == a.bodies)
    && (a.depth == 0 && s.depth > 0 ==> a.at <= s.open.value)
  }

  lemma OwnChar(a: State, s: State, m: Mark)
    requires Own(a, s) && !Step(s, Code(m)).unbalanced
    ensures Own(a, Step(s, Code(m)))
  {
  }

  lemma WellformedChar(s: State, m: Mark)
    requires Wellformed(s) && !Step(s, Code(m)).unbalanced
    ensures Wellformed(Step(s, Code(m)))
  {
  }

  lemma OwnQuiet(a: State, s: State, e: State)
    requires Own(a, s) && Quiet(s, e)
    ensures Own(a, e)
  {
  }

  lemma {:induction false} TextOwn(t: Text, a: State, s: State)
    requires Own(a, s) && !RunText(Step, t, s).unbalanced
    ensures Own(a, RunText(Step, t, s))
    decreases t, 1
  {
    hide Own, Quiet, Step;
    match t
    case End =>
    case Char(m, r) =>
      TextFacts(r, Step(s, Code(m)));
      OwnChar(a, s, m);
      TextOwn(r, a, Step(s, Code(m)));
    case Cond(z, b, o, r) =>
      var e := RunArms(Step, o, RunText(Step, b, Step(s, If(z))));
      TextFacts(r, e);
      OwnWellformed(a, s);
      GroupQuiet(t, s);
      OwnQuiet(a, s, e);
      TextOwn(r, a, e);
  }

  lemma OwnWellformed(a: State, s: State)
    requires Own(a, s)
    ensures Wellformed(s)
  {
  }

  lemma {:induction false} GroupQuiet(t: Text, s: State)
    requires t.Cond? && Wellformed(s)
    requires !RunArms(Step, t.others, RunText(Step, t.body, Step(s, If(t.zero)))).unbalanced
    ensures Quiet(s, RunArms(Step, t.others, RunText(Step, t.body, Step(s, If(t.zero)))))
    decreases t, 0
  {
    hide Own, Quiet, Step;
    var u := Step(s, If(t.zero));
    var v := RunText(Step, t.body, u);
    ArmsFacts(t.others, v);
    TextFacts(t.body, u);
    ArmStarts(s, s, If(t.zero));
    TextOwn(t.body, u, u);
    ArmsQuiet(t.others, s, u, v);
  }

  /** In state `v` an arm of the conditional met in `g` has just been read; it began in
      state `u`, where the walk stood as it did in `g`. */
  ghost predicate ArmOf(g: State, u: State) {
    && u.deltas == g.deltas + [0] && u.depth == g.depth && u.open == g.open && g.at < u.at
    && Wellformed(g) && NewBodies(g, u) && (g.depth > 0 ==> u.bodies == g.bodies)
  }

  lemma ArmStarts(g: State, s: State, head: Item)
    requires head.If? && s == g && Wellformed(g)
    ensures var u := Step(s, head); ArmOf(g, u) && Own(u, u) && u.at == s.at + 1 && u.bodies == s.bodies
  {
  }

  /** The next directive finds the arm closed. */
  lemma ArmEnds(g: State, u: State, v: State, head: Item)
    requires ArmOf(g, u) && Own(u, v) && !head.Code? && !head.If? && !Step(v, head).unbalanced
    ensures Last(v.deltas) == 0 && v.depth == g.depth && v.open == g.open && g.at < v.at
    ensures Step(v, head).at == v.at + 1 && Step(v, head).bodies == v.bodies
    ensures head.Endif? ==> Quiet(g, Step(v, head))
    ensures !head.Endif? ==> ArmOf(g, Step(v, head)) && Own(Step(v, head), Step(v, head))
  {
  }

  lemma {:induction false} ArmsQuiet(o: Arms, g: State, u: State, v: State)
    requires ArmOf(g, u) && Own(u, v) && !RunArms(Step, o, v).unbalanced
    ensures Quiet(g, RunArms(Step, o, v))
    decreases o, 1
  {
    hide Own, Quiet, Step, ArmOf;
    match o
    case NoMore => ArmEnds(g, u, v, Endif);
    case ElifArm(z, b, more) => ArmQuiet(o, Elif(z), g, u, v);
    case ElseArm(b, more) => ArmQuiet(o, Else, g, u, v);
  }

  lemma {:induction false} ArmQuiet(o: Arms, head: Item, g: State, u: State, v: State)
    requires !o.NoMore? && head == if o.ElifArm? then Elif(o.zero) else Else
    requires ArmOf(g, u) && Own(u, v) && !RunArms(Step, o, v).unbalanced
    ensures Quiet(g, RunArms(Step, o, v))
    decreases o, 0
  {
    hide Own, Quiet, Step, ArmOf;
    var u' := Step(v, head);
    var v' := RunText(Step, o.body, u');
    ArmsFacts(o.others, v');
    TextFacts(o.body, u');
    ArmEnds(g, u, v, head);
    TextOwn(o.body, u', u');
    ArmsQuiet(o.others, g, u', v');
  }

  // ----- Every configuration sees the walk's depth -----

  /** Where the walk stands in front of offset `p`. */
  function StateAt(items: seq<Item>, p: nat): State
    requires p <= |items|
  {
    Run(Step, INITIAL, items[..p])
  }

  lemma StateAfter(items: seq<Item>, s: State, piece: seq<Item>)
    requires Placed(items, s.at, piece) && s == StateAt(items, s.at)
    ensures Run(Step, s, piece) == StateAt(items, s.at + |piece|)
  {
    assert items[..s.at + |piece|] == items[..s.at] + piece;
    RunConcat(Step, INITIAL, items[..s.at], piece);
  }

  /** Kept characters stand at the walk's depth. */
  ghost predicate SameDepth(items: seq<Item>, kept: set<nat>, lo: nat, hi: nat)
    requires hi <= |items|
  {
    forall p :: lo <= p < hi && p in kept ==> BraceDepth(items, kept, p) == StateAt(items, p).depth
  }

  /** Each body is kept at both ends or at neither. */
  ghost predicate WholeBodies(kept: set<nat>, s: State) {
    forall i :: 0 <= i < |s.bodies| ==> (s.bodies[i].0 in kept <==> s.bodies[i].1 in kept)
  }

  ghost predicate OpenKept(kept: set<nat>, s: State) {
    s.open.Some? ==> s.open.value in kept
  }

  ghost predicate LiveAt(items: seq<Item>, kept: set<nat>, t: Text, s: State, c: Config) {
    && Wellformed(s) && Placed(items, s.at, Flat(t)) && s == StateAt(items, s.at)
    && KeptIs(kept, s.at, s.at + Len(t), Kept(t, s.at, c))
    && BraceDepth(items, kept, s.at) == s.depth && OpenKept(kept, s) && WholeBodies(kept, s)
  }

  /** What holds after live text. */
  ghost predicate Good(items: seq<Item>, kept: set<nat>, lo: nat, e: State) {
    && e.at <= |items| && lo <= e.at && e == StateAt(items, e.at)
    && SameDepth(items, kept, lo, e.at)
    && BraceDepth(items, kept, e.at) == e.depth && OpenKept(kept, e) && WholeBodies(kept, e)
  }

  lemma LiveChar(items: seq<Item>, kept: set<nat>, m: Mark, r: Text, s: State, c: Config)
    requires LiveAt(items, kept, Char(m, r), s, c) && !Step(s, Code(m)).unbalanced
    ensures LiveAt(items, kept, r, Step(s, Code(m)), c)
    ensures Good(items, kept, s.at, Step(s, Code(m)))
  {
    hide Step, BraceDepth, Kept, Placed, KeptIs, WholeBodies, OpenKept, SameDepth;
    LiveCharKept(items, kept, m, r, s, c);
    GoodChar(items, kept, m, s);
  }

  lemma GoodChar(items: seq<Item>, kept: set<nat>, m: Mark, s: State)
    requires Wellformed(s) && s.at < |items| && s == StateAt(items, s.at) && items[s.at] == Code(m)
    requires BraceDepth(items, kept, s.at) == s.depth && OpenKept(kept, s) && WholeBodies(kept, s)
    requires s.at in kept && Weight(items, kept, s.at) == Delta(m) && !Step(s, Code(m)).unbalanced
    ensures Good(items, kept, s.at, Step(s, Code(m))) && Wellformed(Step(s, Code(m)))
    ensures Step(s, Code(m)).at == s.at + 1
  {
    hide Wellformed, OpenKept, WholeBodies;
    RunNext(Step, INITIAL, items, s.at);
    WellformedChar(s, m);
    CharBodies(kept, m, s);
  }

  lemma CharBodies(kept: set<nat>, m: Mark, s: State)
    requires Wellformed(s) && OpenKept(kept, s) && WholeBodies(kept, s) && s.at in kept
    requires !Step(s, Code(m)).unbalanced
    ensures OpenKept(kept, Step(s, Code(m))) && WholeBodies(kept, Step(s, Code(m)))
  {
  }

  lemma LiveCharKept(items: seq<Item>, kept: set<nat>, m: Mark, r: Text, s: State, c: Config)
    requires LiveAt(items, kept, Char(m, r), s, c)
    ensures s.at < |items| && items[s.at] == Code(m) && s.at in kept && Weight(items, kept, s.at) == Delta(m)
    ensures Placed(items, s.at + 1, Flat(r)) && KeptIs(kept, s.at + 1, s.at + 1 + Len(r), Kept(r, s.at + 1, c))
  {
    PlacedParts(items, s.at, [Code(m)], Flat(r));
    assert items[s.at] == [Code(m)][0];
    KeptInside(r, s.at + 1, c);
  }

  lemma {:induction false} LiveText(items: seq<Item>, kept: set<nat>, t: Text, s: State, c: Config)
    requires LiveAt(items, kept, t, s, c) && !RunText(Step, t, s).unbalanced
    ensures Good(items, kept, s.at, RunText(Step, t, s))
    decreases t, 1
  {
    hide Step, LiveAt, Good, Kept, KeptArm, Flat, FlatArms;
    match t
    case End => LiveEnd(items, kept, s, c);
    case Char(m, r) =>
      TextFacts(r, Step(s, Code(m)));
      LiveChar(items, kept, m, r, s, c);
      LiveText(items, kept, r, Step(s, Code(m)), c);
      GoodOn(items, kept, s.at, Step(s, Code(m)), RunText(Step, r, Step(s, Code(m))));
    case Cond(z, b, o, r) => LiveCond(items, kept, t, s, c);
  }

  lemma LiveEnd(items: seq<Item>, kept: set<nat>, s: State, c: Config)
    requires LiveAt(items, kept, End, s, c)
    ensures Good(items, kept, s.at, s)
  {
  }

  /** Choosing no more is choosing no arm, again and again. */
  function Explicit(c: Config): Config {
    if c.Rest? then Choose(-1, Rest, Rest) else c
  }

  lemma ExplicitKeeps(t: Text, at: nat, c: Config)
    requires t.Cond?
    ensures Kept(t, at, c) == Kept(t, at, Explicit(c))
  {
  }

  lemma {:induction false} LiveCond(items: seq<Item>, kept: set<nat>, t: Text, s: State, c: Config)
    requires t.Cond? && LiveAt(items, kept, t, s, c) && !RunText(Step, t, s).unbalanced
    ensures Good(items, kept, s.at, RunText(Step, t, s))
    decreases t, 0
  {
    hide Step, Quiet, Good, LiveAt, Kept, KeptArm, Placed, Flat, FlatArms;
    var c' := Explicit(c);
    var w := RunArms(Step, t.others, RunText(Step, t.body, Step(s, If(t.zero))));
    TextFacts(t.rest, w);
    ExplicitLive(items, kept, t, s, c);
    LiveGroup(items, kept, t, s, c');
    RestLives(items, kept, t, s, w, c');
    LiveText(items, kept, t.rest, w, c'.next);
    GoodOn(items, kept, s.at, w, RunText(Step, t.rest, w));
  }

  lemma ExplicitLive(items: seq<Item>, kept: set<nat>, t: Text, s: State, c: Config)
    requires t.Cond? && LiveAt(items, kept, t, s, c)
    ensures LiveAt(items, kept, t, s, Explicit(c)) && Wellformed(s)
  {
    ExplicitKeeps(t, s.at, c);
  }

  lemma GoodOn(items: seq<Item>, kept: set<nat>, lo: nat, s: State, e: State)
    requires Good(items, kept, lo, s) && Good(items, kept, s.at, e)
    ensures Good(items, kept, lo, e)
  {
  }

  lemma RestLives(items: seq<Item>, kept: set<nat>, t: Text, s: State, w: State, c: Config)
    requires t.Cond? && c.Choose? && LiveAt(items, kept, t, s, c) && Quiet(s, w) && Good(items, kept, s.at, w)
    requires w.at == s.at + 1 + Len(t.body) + LenArms(t.others)
    ensures LiveAt(items, kept, t.rest, w, c.next)
  {
    hide Step, BraceDepth, SameDepth, OpenKept, WholeBodies;
    PlacedCond(items, s.at, t);
    KeptGroup(kept, t, s.at, c);
    LenCond(t);
  }

  lemma {:induction false} LiveGroup(items: seq<Item>, kept: set<nat>, t: Text, s: State, c: Config)
    requires t.Cond? && c.Choose? && LiveAt(items, kept, t, s, c)
    requires !RunArms(Step, t.others, RunText(Step, t.body, Step(s, If(t.zero)))).unbalanced
    ensures var w := RunArms(Step, t.others, RunText(Step, t.body, Step(s, If(t.zero))));
            && Quiet(s, w) && Good(items, kept, s.at, w)
            && w.at == s.at + 1 + Len(t.body) + LenArms(t.others)
    decreases t, 0, 0
  {
    hide Step, Quiet, Good, Kept, KeptArm, KeptIs, Dropped, Placed, Flat, FlatArms, Own, ArmOf, ArmRead, BraceDepth;
    var u := Step(s, If(t.zero));
    var v := RunText(Step, t.body, u);
    ArmsFacts(t.others, v);
    TextFacts(t.body, u);
    LiveHere(items, kept, t, s, c);
    FirstArmText(items, kept, t, s.at, c);
    FirstArm(items, kept, t, s, c);
    ArmBody(items, kept, t.body, s, u, c.arm == 0, c.inside);
    LiveArms(items, kept, t.others, s, u, v, c.arm - 1, c.inside);
    GroupQuiet(t, s);
  }

  lemma LiveHere(items: seq<Item>, kept: set<nat>, t: Text, s: State, c: Config)
    requires LiveAt(items, kept, t, s, c)
    ensures Placed(items, s.at, Flat(t)) && KeptIs(kept, s.at, s.at + Len(t), Kept(t, s.at, c))
  {
  }

  /** The walk when it enters the first arm. */
  lemma FirstArm(items: seq<Item>, kept: set<nat>, t: Text, s: State, c: Config)
    requires t.Cond? && c.Choose? && LiveAt(items, kept, t, s, c) && s.at !in kept
    requires s.at < |items| && items[s.at] == If(t.zero)
    ensures var u := Step(s, If(t.zero));
            && u.at == s.at + 1 && Wellformed(s) && ArmOf(s, u) && Own(u, u) && u == StateAt(items, u.at)
            && WholeBodies(kept, u) && OpenKept(kept, s) && SameDepth(items, kept, s.at, u.at)
            && BraceDepth(items, kept, u.at) == s.depth
  {
    hide Kept, KeptArm, KeptIs, Placed, Flat, FlatArms, Step, Own, ArmOf, BraceDepth, Wellformed;
    ArmStarts(s, s, If(t.zero));
    RunNext(Step, INITIAL, items, s.at);
    DepthOverDropped(items, kept, s.at, s.at + 1);
  }

  /** The text of the first arm and of the others, and what is kept of them. */
  lemma FirstArmText(items: seq<Item>, kept: set<nat>, t: Text, at: nat, c: Config)
    requires t.Cond? && c.Choose? && Placed(items, at, Flat(t)) && KeptIs(kept, at, at + Len(t), Kept(t, at, c))
    ensures var (inner, arms) := (at + 1, at + 1 + Len(t.body));
            && at < |items| && items[at] == If(t.zero) && at !in kept
            && arms + LenArms(t.others) <= |items|
            && Placed(items, inner, Flat(t.body)) && Placed(items, arms, FlatArms(t.others))
            && (if c.arm == 0 then KeptIs(kept, inner, arms, Kept(t.body, inner, c.inside))
                else Dropped(kept, inner, arms))
            && KeptIs(kept, arms, arms + LenArms(t.others), KeptIn(t.others, arms, c.arm - 1, c.inside))
  {
    hide Kept, KeptArm;
    PlacedCond(items, at, t);
    KeptGroup(kept, t, at, c);
    assert items[at + 0] == Flat(t)[0];
  }

  /** A negative arm is one that has already been passed, or no arm at all. */
  function KeptIn(o: Arms, at: nat, arm: int, c: Config): set<nat> {
    if arm < 0 then {} else KeptArm(o, at, arm, c)
  }

  /** State `v`: an arm of the conditional met in `g`, begun in `u`, has been read. */
  ghost predicate ArmRead(items: seq<Item>, kept: set<nat>, g: State, u: State, v: State) {
    && ArmOf(g, u) && Own(u, v) && v.at <= |items| && v == StateAt(items, v.at)
    && SameDepth(items, kept, g.at, v.at) && WholeBodies(kept, v) && OpenKept(kept, g)
    && (BraceDepth(items, kept, v.at) == g.depth || BraceDepth(items, kept, v.at) == v.depth)
  }

  lemma {:induction false} ArmBody(items: seq<Item>, kept: set<nat>, b: Text, g: State, u: State,
                                   live: bool, c: Config)
    requires ArmOf(g, u) && Own(u, u) && u.at <= |items| && u == StateAt(items, u.at) && Placed(items, u.at, Flat(b))
    requires WholeBodies(kept, u) && OpenKept(kept, g)
    requires BraceDepth(items, kept, u.at) == g.depth
    requires g.at <= u.at <= |items| && SameDepth(items, kept, g.at, u.at)
    requires if live then KeptIs(kept, u.at, u.at + Len(b), Kept(b, u.at, c)) else Dropped(kept, u.at, u.at + Len(b))
    requires !RunText(Step, b, u).unbalanced
    ensures ArmRead(items, kept, g, u, RunText(Step, b, u))
    decreases b, 2
  {
    hide Step, Kept, KeptArm, BraceDepth, KeptIs, StateAt;
    var v := RunText(Step, b, u);
    TextOwn(b, u, u);
    TextFacts(b, u);
    RunTextIsRun(Step, b, u);
    StateAfter(items, u, Flat(b));
    if live {
      LiveText(items, kept, b, u, c);
    } else {
      DepthOverDropped(items, kept, u.at, v.at);
    }
  }

  lemma {:induction false} LiveArms(items: seq<Item>, kept: set<nat>, o: Arms, g: State, u: State, v: State,
                                    arm: int, c: Config)
    requires ArmRead(items, kept, g, u, v) && Placed(items, v.at, FlatArms(o))
    requires KeptIs(kept, v.at, v.at + LenArms(o), KeptIn(o, v.at, arm, c))
    requires !RunArms(Step, o, v).unbalanced
    ensures Good(items, kept, g.at, RunArms(Step, o, v))
    decreases o, 1
  {
    hide Step, Quiet, Good, Kept, KeptArm, KeptIs, Dropped, Placed, Flat, FlatArms, Own, ArmOf, ArmRead, BraceDepth;
    if o.NoMore? {
      LastArm(items, kept, g, u, v, arm, c);
    } else {
      var head := if o.ElifArm? then Elif(o.zero) else Else;
      var u' := Step(v, head);
      var v' := RunText(Step, o.body, u');
      ArmsFacts(o.others, v');
      TextFacts(o.body, u');
      NextArmText(items, kept, o, v.at, arm, c);
      NextArm(items, kept, head, g, u, v);
      ArmBody(items, kept, o.body, g, u', arm == 0, c);
      LiveArms(items, kept, o.others, g, u', v', arm - 1, c);
    }
  }

  lemma LastArm(items: seq<Item>, kept: set<nat>, g: State, u: State, v: State, arm: int, c: Config)
    requires ArmRead(items, kept, g, u, v) && Placed(items, v.at, FlatArms(NoMore))
    requires KeptIs(kept, v.at, v.at + LenArms(NoMore), KeptIn(NoMore, v.at, arm, c))
    requires !Step(v, Endif).unbalanced
    ensures Good(items, kept, g.at, Step(v, Endif))
  {
    hide Own, ArmOf, Step, BraceDepth, Placed, KeptIs, KeptIn;
    LastArmText(items, kept, v.at, arm, c);
    ArmEnds(g, u, v, Endif);
    RunNext(Step, INITIAL, items, v.at);
    DepthOverDropped(items, kept, v.at, v.at + 1);
  }

  lemma LastArmText(items: seq<Item>, kept: set<nat>, at: nat, arm: int, c: Config)
    requires Placed(items, at, FlatArms(NoMore))
    requires KeptIs(kept, at, at + LenArms(NoMore), KeptIn(NoMore, at, arm, c))
    ensures at < |items| && items[at] == Endif && at !in kept
  {
    assert items[at + 0] == FlatArms(NoMore)[0];
  }

  /** The same for a later arm. */
  lemma NextArm(items: seq<Item>, kept: set<nat>, head: Item, g: State, u: State, v: State)
    requires head.Elif? || head.Else?
    requires ArmRead(items, kept, g, u, v) && v.at !in kept && v.at < |items| && items[v.at] == head
    requires !Step(v, head).unbalanced
    ensures var u' := Step(v, head);
            && u'.at == v.at + 1 && ArmOf(g, u') && Own(u', u') && u' == StateAt(items, u'.at)
            && WholeBodies(kept, u') && OpenKept(kept, g)
            && g.at <= u'.at && SameDepth(items, kept, g.at, u'.at)
            && BraceDepth(items, kept, u'.at) == g.depth
  {
    hide Own, ArmOf, Step, BraceDepth, OpenKept;
    ArmEnds(g, u, v, head);
    RunNext(Step, INITIAL, items, v.at);
    DepthOverDropped(items, kept, v.at, v.at + 1);
  }

  lemma NextArmText(items: seq<Item>, kept: set<nat>, o: Arms, at: nat, arm: int, c: Config)
    requires !o.NoMore? && Placed(items, at, FlatArms(o))
    requires KeptIs(kept, at, at + LenArms(o), KeptIn(o, at, arm, c))
    ensures var (inner, arms) := (at + 1, at + 1 + Len(o.body));
            && at < |items| && items[at] == (if o.ElifArm? then Elif(o.zero) else Else) && at !in kept
            && arms <= |items|
            && Placed(items, inner, Flat(o.body)) && Placed(items, arms, FlatArms(o.others))
            && (if arm == 0 then KeptIs(kept, inner, arms, Kept(o.body, inner, c)) else Dropped(kept, inner, arms))
            && KeptIs(kept, arms, arms + LenArms(o.others), KeptIn(o.others, arms, arm - 1, c))
  {
    hide Kept, KeptArm;
    PlacedArm(items, at, o);
    LenArm(o);
    if arm >= 0 { KeptArms(kept, o, at, arm, c); }
    assert items[at + 0] == FlatArms(o)[0];
  }
}
