/**
 The file-scope token finder: which identifier characters of a C file stand at brace
 depth zero, whichever way the preprocessor resolves its conditionals.

 It works in two passes over the items of the file: the first finds out which arms are
 live (a literal `#if 0` or `#elif 0` arm is not), the second counts braces, restarting
 every arm at the depth its conditional was entered with.
 */
module ScopeTokens {
  import opened Prelude
  import opened Preprocessor

  // ----- The two passes as one transition per item -----

  /** An open conditional: depth on entry, depths at the ends of its live arms so far,
      whether an `#else` was seen, whether the surroundings are live, its offset. */
  datatype Frame = Frame(entry: int, exits: seq<int>, hasElse: bool, parent: bool, start: nat)

  datatype Walk =
    | Walking(depth: int, branches: seq<Frame>, found: set<nat>)
    | Stopped(found: set<nat>, cut: nat)

  /** `active` and `conds` belong to the first pass, `walk` to the second. */
  datatype State = State(at: nat, active: bool, conds: seq<bool>, walk: Walk)

  const INITIAL := State(0, true, [], Walking(0, [], {}))

  /** First pass: is code after this item live? */
  function ActiveAfter(active: bool, conds: seq<bool>, item: Item): bool {
    match item
    case Code(_) => active
    case If(zero) => active && !zero
    case Elif(zero) => if conds == [] then active else Last(conds) && !zero
    case Else => if conds == [] then active else Last(conds)
    case Endif => if conds == [] then active else Last(conds)
  }

  function CondsAfter(active: bool, conds: seq<bool>, item: Item): seq<bool> {
    match item
    case If(_) => conds + [active]
    case Endif => if conds == [] then conds else Init(conds)
    case _ => conds
  }

  predicate AllEqual(s: seq<int>) {
    forall i :: 0 <= i < |s| ==> s[i] == s[0]
  }

  /** The depths at which a conditional can be left. */
  function Exits(f: Frame, active: bool, depth: int): seq<int> {
    f.exits + (if active then [depth] else []) + (if f.parent && !f.hasElse then [f.entry] else [])
  }

  function NextArm(f: Frame, active: bool, depth: int, isElse: bool): Frame {
    f.(exits := f.exits + (if active then [depth] else []), hasElse := f.hasElse || isElse)
  }

  function Below(found: set<nat>, cut: nat): set<nat> {
    set p | p in found && p < cut
  }

  function Leave(f: Frame, active: bool, depth: int, outer: seq<Frame>, found: set<nat>): Walk {
    var exits := Exits(f, active, depth);
    if AllEqual(exits) then Walking(if exits == [] then f.entry else exits[0], outer, found)
    else Stopped(Below(found, f.start), f.start)
  }

  function WalkStep(w: Walk, at: nat, active: bool, item: Item): Walk {
    match w
    case Stopped(_, _) => w
    case Walking(depth, branches, found) =>
      match item
      case Code(m) =>
        if !active then w
        else Walking(depth + Delta(m), branches, if m == Letter && depth == 0 then found + {at} else found)
      case If(_) => Walking(depth, branches + [Frame(depth, [], false, active, at)], found)
      case Endif =>
        if branches == [] then w
        else Leave(Last(branches), active, depth, Init(branches), found)
      case _ =>
        if branches == [] then w
        else Walking(Last(branches).entry,
                     Init(branches) + [NextArm(Last(branches), active, depth, item.Else?)], found)
  }

  function Step(s: State, item: Item): State {
    State(s.at + 1, ActiveAfter(s.active, s.conds, item), CondsAfter(s.active, s.conds, item),
          WalkStep(s.walk, s.at, s.active, item))
  }

  lemma {:induction false} RunAt(s: State, items: seq<Item>)
    ensures Run(Step, s, items).at == s.at + |items|
    decreases |items|
  {
    if items != [] { RunAt(Step(s, items[0]), items[1..]); }
  }

  // What the two passes know after the first `k` items.
  ghost function LiveBefore(items: seq<Item>, k: nat): bool
    requires k <= |items|
  {
    Run(Step, INITIAL, items[..k]).active
  }

  ghost function CondsBefore(items: seq<Item>, k: nat): seq<bool>
    requires k <= |items|
  {
    Run(Step, INITIAL, items[..k]).conds
  }

  ghost function WalkBefore(items: seq<Item>, k: nat): Walk
    requires k <= |items|
  {
    Run(Step, INITIAL, items[..k]).walk
  }

  lemma LiveBeforeFirst(items: seq<Item>)
    ensures LiveBefore(items, 0) && CondsBefore(items, 0) == []
  {
    assert items[..0] == [];
  }

  lemma LiveBeforeNext(items: seq<Item>, k: nat)
    requires k < |items|
    ensures LiveBefore(items, k + 1) == ActiveAfter(LiveBefore(items, k), CondsBefore(items, k), items[k])
    ensures CondsBefore(items, k + 1) == CondsAfter(LiveBefore(items, k), CondsBefore(items, k), items[k])
  {
    RunNext(Step, INITIAL, items, k);
  }

  lemma WalkBeforeFirst(items: seq<Item>)
    ensures WalkBefore(items, 0) == INITIAL.walk
  {
    assert items[..0] == [];
  }

  lemma WalkBeforeNext(items: seq<Item>, k: nat)
    requires k < |items|
    ensures WalkBefore(items, k + 1) == WalkStep(WalkBefore(items, k), k, LiveBefore(items, k), items[k])
  {
    RunNext(Step, INITIAL, items, k);
    RunAt(INITIAL, items[..k]);
  }

  // ----- The two passes as written -----

  /** First pass: directive lines and dead code are blanked; `before` says for each
      item whether the code around it is live. */
  method DefinitionView(items: seq<Item>) returns (masked: seq<Item>, before: seq<bool>)
    ensures |masked| == |before| == |items|
    ensures forall i :: 0 <= i < |items| ==> before[i] == LiveBefore(items, i)
    ensures forall i :: 0 <= i < |items| ==>
      masked[i] == if IsDirective(items[i]) || !before[i] then Code(Blank) else items[i]
  {
    hide LiveBefore, CondsBefore;
    var code := new Item[|items|](i requires 0 <= i < |items| => items[i]);
    var active, conditions: seq<bool> := true, [];
    before := [];
    LiveBeforeFirst(items);
    for i := 0 to |items|
      invariant |before| == i
      invariant active == LiveBefore(items, i)
      invariant conditions == CondsBefore(items, i)
      invariant forall k :: i <= k < |items| ==> code[k] == items[k]
      invariant forall k :: 0 <= k < i ==> before[k] == LiveBefore(items, k)
      invariant forall k :: 0 <= k < i ==>
        code[k] == if IsDirective(items[k]) || !before[k] then Code(Blank) else items[k]
    {
      LiveBeforeNext(items, i);
      before := before + [active];
      if IsDirective(items[i]) || !active {
        code[i] := Code(Blank);
      }
      match items[i] {
        case If(zero) =>
          conditions := conditions + [active];
          active := active && !zero;
        case Elif(zero) =>
          if conditions != [] { active := Last(conditions) && !zero; }
        case Else =>
          if conditions != [] { active := Last(conditions); }
        case Endif =>
          if conditions != [] { active, conditions := Last(conditions), Init(conditions); }
        case Code(_) =>
      }
    }
    masked := code[..];
  }

  /** Second pass. */
  method FileScopeTokens(items: seq<Item>) returns (tokens: set<nat>)
    ensures tokens == Run(Step, INITIAL, items).walk.found
  {
    hide LiveBefore, WalkBefore, Run;
    var masked, before := DefinitionView(items);
    WalkBeforeFirst(items);
    var depth, branches: seq<Frame> := 0, [];
    tokens := {};
    for i := 0 to |items|
      invariant WalkBefore(items, i) == Walking(depth, branches, tokens)
    {
      WalkBeforeNext(items, i);
      match items[i] {
        case If(_) =>
          branches := branches + [Frame(depth, [], false, before[i], i)];
        case Endif =>
          if branches != [] {
            var frame := Last(branches);
            branches := Init(branches);
            var exits := Exits(frame, before[i], depth);
            if !AllEqual(exits) {
              tokens := Below(tokens, frame.start);
              StoppedForGood(items, i + 1);
              return;
            }
            depth := if exits != [] then exits[0] else frame.entry;
          }
        case Code(_) =>
          if depth == 0 && masked[i] == Code(Letter) { tokens := tokens + {i}; }
          if masked[i] == Code(Open) { depth := depth + 1; }
          else if masked[i] == Code(Close) { depth := depth - 1; }
        case _ =>
          if branches != [] {
            var frame := Last(branches);
            branches := Init(branches) + [NextArm(frame, before[i], depth, items[i].Else?)];
            depth := frame.entry;
          }
      }
    }
    WalkEnds(items);
  }

  lemma WalkEnds(items: seq<Item>)
    ensures WalkBefore(items, |items|) == Run(Step, INITIAL, items).walk
  {
    assert items[..|items|] == items;
  }

  lemma {:induction false} StoppedRun(s: State, items: seq<Item>)
    requires s.walk.Stopped?
    ensures Run(Step, s, items).walk == s.walk
    decreases |items|
  {
    if items != [] { StoppedRun(Step(s, items[0]), items[1..]); }
  }

  lemma StoppedForGood(items: seq<Item>, i: nat)
    requires i <= |items| && WalkBefore(items, i).Stopped?
    ensures Run(Step, INITIAL, items).walk == WalkBefore(items, i)
  {
    assert items == items[..i] + items[i..];
    RunConcat(Step, INITIAL, items[..i], items[i..]);
    StoppedRun(Run(Step, INITIAL, items[..i]), items[i..]);
  }
}
