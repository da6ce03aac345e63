/**
 C text with conditional directives, and what is left of it when the preprocessor has
 chosen (conditional inclusion, section 6.8.1 of ISO/IEC 9899:1990).

 A file is a sequence of items, one per character of code and one per directive line;
 the offset of an item is its index. Well-nested files are exactly the flattened
 trees below.

 A configuration says of every conditional, in order, which arm is taken, if any. The
 characters it keeps are a set of offsets into the file, so that what two configurations
 make of one character can be compared; directive lines are never kept.
 */
module Preprocessor {

  datatype Mark = Open | Close | Letter | OpenParen | CloseParen | Blank

  /** `zero` marks a literal `#if 0` or `#elif 0`. */
  datatype Item = Code(mark: Mark) | If(zero: bool) | Elif(zero: bool) | Else | Endif

  predicate IsDirective(item: Item) { !item.Code? }

  function Delta(m: Mark): int {
    match m
    case Open => 1
    case Close => -1
    case _ => 0
  }

  // ----- Well-nested text -----

  datatype Text =
    | End
    | Char(mark: Mark, rest: Text)
    | Cond(zero: bool, body: Text, others: Arms, rest: Text)

  /** The arms after the first one, up to the `#endif`. */
  datatype Arms =
    | NoMore
    | ElifArm(zero: bool, body: Text, others: Arms)
    | ElseArm(body: Text, others: Arms)

  function Flat(t: Text): seq<Item> {
    match t
    case End => []
    case Char(m, r) => [Code(m)] + Flat(r)
    case Cond(z, b, o, r) => [If(z)] + Flat(b) + FlatArms(o) + Flat(r)
  }

  function FlatArms(o: Arms): seq<Item> {
    match o
    case NoMore => [Endif]
    case ElifArm(z, b, more) => [Elif(z)] + Flat(b) + FlatArms(more)
    case ElseArm(b, more) => [Else] + Flat(b) + FlatArms(more)
  }

  function Len(t: Text): nat { |Flat(t)| }

  function LenArms(o: Arms): nat { |FlatArms(o)| }

  predicate HasElse(o: Arms) {
    match o
    case NoMore => false
    case ElifArm(_, _, more) => HasElse(more)
    case ElseArm(_, _) => true
  }

  // ----- Configurations -----

  /** How the conditionals met in live code resolve, in the order they are met: the
      number of the live arm (0 is the `#if` arm, negative is none), the choices made
      inside that arm, and the choices made after the `#endif`. */
  datatype Config = Rest | Choose(arm: int, inside: Config, next: Config)

  /** The choices the preprocessor can make: never a literal-zero arm, and no arm at
      all only where there is no `#else`. */
  predicate Possible(t: Text, c: Config) {
    match t
    case End => c == Rest
    case Char(_, r) => Possible(r, c)
    case Cond(z, b, o, r) =>
      && c.Choose?
      && (if c.arm == 0 then !z && Possible(b, c.inside)
          else if c.arm > 0 then PossibleArm(o, c.arm - 1, c.inside)
          else !HasElse(o))
      && Possible(r, c.next)
  }

  predicate PossibleArm(o: Arms, arm: nat, c: Config) {
    match o
    case NoMore => false
    case ElifArm(z, b, more) =>
      if arm == 0 then !z && Possible(b, c) else PossibleArm(more, arm - 1, c)
    case ElseArm(b, more) =>
      if arm == 0 then Possible(b, c) else PossibleArm(more, arm - 1, c)
  }

  /** The offsets of the characters that stay when text starting at `at` is resolved by
      `c`. Defined for any choices whatever: all but at most one arm of every
      conditional is dropped. */
  function Kept(t: Text, at: nat, c: Config): set<nat> {
    match t
    case End => {}
    case Char(_, r) => {at} + Kept(r, at + 1, c)
    case Cond(_, b, o, r) =>
      var after := at + 1 + Len(b) + LenArms(o);
      if c.Rest? then Kept(r, after, Rest)
      else
        (if c.arm == 0 then Kept(b, at + 1, c.inside)
         else if c.arm > 0 then KeptArm(o, at + 1 + Len(b), c.arm - 1, c.inside)
         else {})
        + Kept(r, after, c.next)
  }

  function KeptArm(o: Arms, at: nat, arm: nat, c: Config): set<nat> {
    match o
    case NoMore => {}
    case ElifArm(_, b, more) =>
      if arm == 0 then Kept(b, at + 1, c) else KeptArm(more, at + 1 + Len(b), arm - 1, c)
    case ElseArm(b, more) =>
      if arm == 0 then Kept(b, at + 1, c) else KeptArm(more, at + 1 + Len(b), arm - 1, c)
  }

  lemma {:induction false} KeptInside(t: Text, at: nat, c: Config)
    ensures forall p :: p in Kept(t, at, c) ==> at <= p < at + Len(t)
  {
    match t
    case End =>
    case Char(_, r) => KeptInside(r, at + 1, c);
    case Cond(_, b, o, r) =>
      var after := at + 1 + Len(b) + LenArms(o);
      if c.Rest? {
        KeptInside(r, after, Rest);
      } else {
        KeptInside(r, after, c.next);
        if c.arm == 0 { KeptInside(b, at + 1, c.inside); }
        if c.arm > 0 { KeptArmInside(o, at + 1 + Len(b), c.arm - 1, c.inside); }
      }
  }

  lemma {:induction false} KeptArmInside(o: Arms, at: nat, arm: nat, c: Config)
    ensures forall p :: p in KeptArm(o, at, arm, c) ==> at <= p < at + LenArms(o)
  {
    match o
    case NoMore =>
    case ElifArm(_, b, more) =>
      if arm == 0 { KeptInside(b, at + 1, c); } else { KeptArmInside(more, at + 1 + Len(b), arm - 1, c); }
    case ElseArm(b, more) =>
      if arm == 0 { KeptInside(b, at + 1, c); } else { KeptArmInside(more, at + 1 + Len(b), arm - 1, c); }
  }

  ghost predicate KeptIs(kept: set<nat>, lo: nat, hi: nat, here: set<nat>) {
    forall p :: lo <= p < hi ==> (p in kept <==> p in here)
  }

  ghost predicate Dropped(kept: set<nat>, lo: nat, hi: nat) {
    forall p :: lo <= p < hi ==> p !in kept
  }

  lemma LenCond(t: Text)
    requires t.Cond?
    ensures Len(t) == 1 + Len(t.body) + LenArms(t.others) + Len(t.rest)
  {
  }

  lemma LenArm(o: Arms)
    requires !o.NoMore?
    ensures LenArms(o) == 1 + Len(o.body) + LenArms(o.others)
  {
  }

  lemma KeptCond(t: Text, at: nat, c: Config)
    requires t.Cond? && c.Choose?
    ensures var (arms, after) := (at + 1 + Len(t.body), at + 1 + Len(t.body) + LenArms(t.others));
            Kept(t, at, c) ==
              (if c.arm == 0 then Kept(t.body, at + 1, c.inside)
               else if c.arm > 0 then KeptArm(t.others, arms, c.arm - 1, c.inside) else {})
              + Kept(t.rest, after, c.next)
  {
  }

  /** What is kept of a conditional and of the text after it. */
  lemma KeptGroup(kept: set<nat>, t: Text, at: nat, c: Config)
    requires t.Cond? && c.Choose? && KeptIs(kept, at, at + Len(t), Kept(t, at, c))
    ensures var (inner, arms, after) := (at + 1, at + 1 + Len(t.body), at + 1 + Len(t.body) + LenArms(t.others));
            && at !in kept
            && KeptIs(kept, after, after + Len(t.rest), Kept(t.rest, after, c.next))
            && (if c.arm == 0 then KeptIs(kept, inner, arms, Kept(t.body, inner, c.inside))
                else Dropped(kept, inner, arms))
            && (if c.arm > 0 then KeptIs(kept, arms, after, KeptArm(t.others, arms, c.arm - 1, c.inside))
                else Dropped(kept, arms, after))
  {
    hide Kept, KeptArm, Flat, FlatArms;
    var (inner, arms, after) := (at + 1, at + 1 + Len(t.body), at + 1 + Len(t.body) + LenArms(t.others));
    LenCond(t);
    KeptInside(t.rest, after, c.next);
    if c.arm == 0 { KeptInside(t.body, inner, c.inside); }
    if c.arm > 0 { KeptArmInside(t.others, arms, c.arm - 1, c.inside); }
    KeptCond(t, at, c);
  }

  lemma KeptArmStep(o: Arms, at: nat, arm: nat, c: Config)
    requires !o.NoMore?
    ensures KeptArm(o, at, arm, c) ==
      if arm == 0 then Kept(o.body, at + 1, c) else KeptArm(o.others, at + 1 + Len(o.body), arm - 1, c)
  {
  }

  /** The same for the arms after the first. */
  lemma KeptArms(kept: set<nat>, o: Arms, at: nat, arm: nat, c: Config)
    requires !o.NoMore? && KeptIs(kept, at, at + LenArms(o), KeptArm(o, at, arm, c))
    ensures var (inner, arms, after) := (at + 1, at + 1 + Len(o.body), at + LenArms(o));
            && at !in kept
            && (if arm == 0 then KeptIs(kept, inner, arms, Kept(o.body, inner, c)) && Dropped(kept, arms, after)
                else Dropped(kept, inner, arms) && KeptIs(kept, arms, after, KeptArm(o.others, arms, arm - 1, c)))
  {
    hide Kept, KeptArm, Flat, FlatArms;
    var (inner, arms, after) := (at + 1, at + 1 + Len(o.body), at + LenArms(o));
    LenArm(o);
    if arm == 0 { KeptInside(o.body, inner, c); } else { KeptArmInside(o.others, arms, arm - 1, c); }
    KeptArmStep(o, at, arm, c);
  }

  // ----- A piece of a file in its place -----

  ghost predicate Placed(items: seq<Item>, at: nat, piece: seq<Item>) {
    at + |piece| <= |items| && forall k :: 0 <= k < |piece| ==> items[at + k] == piece[k]
  }

  lemma PlacedParts(items: seq<Item>, at: nat, a: seq<Item>, b: seq<Item>)
    requires Placed(items, at, a + b)
    ensures Placed(items, at, a) && Placed(items, at + |a|, b)
  {
    var c := a + b;
    forall k | 0 <= k < |a| ensures items[at + k] == a[k] { assert items[at + k] == c[k]; }
    forall k | 0 <= k < |b| ensures items[at + |a| + k] == b[k] { assert items[at + (|a| + k)] == c[|a| + k]; }
  }

  lemma PlacedCond(items: seq<Item>, at: nat, t: Text)
    requires t.Cond? && Placed(items, at, Flat(t))
    ensures var (arms, after) := (at + 1 + Len(t.body), at + 1 + Len(t.body) + LenArms(t.others));
            && after + Len(t.rest) <= |items|
            && Placed(items, at + 1, Flat(t.body)) && Placed(items, arms, FlatArms(t.others))
            && Placed(items, after, Flat(t.rest))
  {
    PlacedParts(items, at, [If(t.zero)] + Flat(t.body) + FlatArms(t.others), Flat(t.rest));
    PlacedParts(items, at, [If(t.zero)] + Flat(t.body), FlatArms(t.others));
    PlacedParts(items, at, [If(t.zero)], Flat(t.body));
  }

  lemma PlacedArm(items: seq<Item>, at: nat, o: Arms)
    requires !o.NoMore? && Placed(items, at, FlatArms(o))
    ensures at + LenArms(o) <= |items|
    ensures Placed(items, at + 1, Flat(o.body)) && Placed(items, at + 1 + Len(o.body), FlatArms(o.others))
  {
    var head := if o.ElifArm? then Elif(o.zero) else Else;
    assert FlatArms(o) == [head] + Flat(o.body) + FlatArms(o.others);
    PlacedParts(items, at, [head] + Flat(o.body), FlatArms(o.others));
    PlacedParts(items, at, [head], Flat(o.body));
  }

  // ----- Brace depth of what is kept -----

  function Weight(items: seq<Item>, kept: set<nat>, p: nat): int
    requires p < |items|
  {
    if p in kept && items[p].Code? then Delta(items[p].mark) else 0
  }

  /** Braces opened minus braces closed among the kept characters before offset `p`. */
  function BraceDepth(items: seq<Item>, kept: set<nat>, p: nat): int
    requires p <= |items|
  {
    if p == 0 then 0 else BraceDepth(items, kept, p - 1) + Weight(items, kept, p - 1)
  }

  lemma {:induction false} DepthOverDropped(items: seq<Item>, kept: set<nat>, p: nat, q: nat)
    requires p <= q <= |items|
    requires forall k :: p <= k < q ==> k !in kept
    ensures BraceDepth(items, kept, q) == BraceDepth(items, kept, p)
  {
    if p < q { DepthOverDropped(items, kept, p, q - 1); }
  }

  // ----- Walking over a file -----

  /** A walk is any transition per item. */
  function Run<S>(step: (S, Item) -> S, s: S, items: seq<Item>): S
    decreases |items|
  {
    if items == [] then s else Run(step, step(s, items[0]), items[1..])
  }

  lemma {:induction false} RunConcat<S>(step: (S, Item) -> S, s: S, a: seq<Item>, b: seq<Item>)
    ensures Run(step, s, a + b) == Run(step, Run(step, s, a), b)
    decreases |a|
  {
    if a == [] {
      assert a + b == b;
    } else {
      assert (a + b)[0] == a[0] && (a + b)[1..] == a[1..] + b;
      RunConcat(step, step(s, a[0]), a[1..], b);
    }
  }

  lemma RunNext<S>(step: (S, Item) -> S, s: S, items: seq<Item>, i: nat)
    requires i < |items|
    ensures Run(step, s, items[..i + 1]) == step(Run(step, s, items[..i]), items[i])
  {
    assert items[..i + 1] == items[..i] + [items[i]];
    RunConcat(step, s, items[..i], [items[i]]);
    assert Run(step, step(Run(step, s, items[..i]), items[i]), []) == step(Run(step, s, items[..i]), items[i]);
  }

  /** The same walk, following the tree. */
  function RunText<S>(step: (S, Item) -> S, t: Text, s: S): S {
    match t
    case End => s
    case Char(m, r) => RunText(step, r, step(s, Code(m)))
    case Cond(z, b, o, r) => RunText(step, r, RunArms(step, o, RunText(step, b, step(s, If(z)))))
  }

  function RunArms<S>(step: (S, Item) -> S, o: Arms, s: S): S {
    match o
    case NoMore => step(s, Endif)
    case ElifArm(z, b, more) => RunArms(step, more, RunText(step, b, step(s, Elif(z))))
    case ElseArm(b, more) => RunArms(step, more, RunText(step, b, step(s, Else)))
  }

  lemma {:induction false} RunTextIsRun<S>(step: (S, Item) -> S, t: Text, s: S)
    ensures RunText(step, t, s) == Run(step, s, Flat(t))
    decreases t
  {
    hide Run;
    match t
    case End => RunParts(step, s, [], [], [], []);
    case Char(m, r) =>
      RunTextIsRun(step, r, step(s, Code(m)));
      RunParts(step, s, [Code(m)], Flat(r), [], []);
    case Cond(z, b, o, r) =>
      var s1 := step(s, If(z));
      RunTextIsRun(step, b, s1);
      RunArmsIsRun(step, o, RunText(step, b, s1));
      RunTextIsRun(step, r, RunArms(step, o, RunText(step, b, s1)));
      RunParts(step, s, [If(z)], Flat(b), FlatArms(o), Flat(r));
  }

  lemma {:induction false} RunArmsIsRun<S>(step: (S, Item) -> S, o: Arms, s: S)
    ensures RunArms(step, o, s) == Run(step, s, FlatArms(o))
    decreases o
  {
    hide Run;
    match o
    case NoMore => RunParts(step, s, [Endif], [], [], []);
    case ElifArm(z, b, more) =>
      var s1 := step(s, Elif(z));
      RunTextIsRun(step, b, s1);
      RunArmsIsRun(step, more, RunText(step, b, s1));
      RunParts(step, s, [Elif(z)], Flat(b), FlatArms(more), []);
    case ElseArm(b, more) =>
      var s1 := step(s, Else);
      RunTextIsRun(step, b, s1);
      RunArmsIsRun(step, more, RunText(step, b, s1));
      RunParts(step, s, [Else], Flat(b), FlatArms(more), []);
  }

  /** A run over at most one head item and three further stretches. */
  lemma RunParts<S>(step: (S, Item) -> S, s: S, head: seq<Item>, a: seq<Item>, b: seq<Item>, c: seq<Item>)
    requires |head| <= 1
    ensures Run(step, s, []) == s
    ensures Run(step, s, head + a + b + c) ==
            Run(step, Run(step, Run(step, if head == [] then s else step(s, head[0]), a), b), c)
    ensures Run(step, s, head + a) == Run(step, if head == [] then s else step(s, head[0]), a)
    ensures Run(step, s, head + a + b) == Run(step, Run(step, if head == [] then s else step(s, head[0]), a), b)
    ensures Run(step, s, head) == if head == [] then s else step(s, head[0])
  {
    RunConcat(step, s, head + a + b, c);
    RunConcat(step, s, head + a, b);
    RunConcat(step, s, head, a);
    if head != [] { assert Run(step, step(s, head[0]), head[1..]) == step(s, head[0]); }
  }
}
