/**
 The translation-unit index of a source file: one brace walk over the whole of it, all
 arms of every conditional included, that refuses the file as `unbalanced` unless every
 arm is balanced in itself.
 */
module TuIndex {
  import opened Prelude
  import opened Preprocessor

  /** `deltas` holds, innermost last, the braces opened minus closed since the current
      arm began; `open` is the offset of the outermost brace still open; `bodies` are
      the outermost brace pairs closed so far. */
  datatype State = State(at: nat, depth: nat, parens: nat, deltas: seq<int>, unbalanced: bool,
                         open: Option<nat>, bodies: seq<(nat, nat)>)

  const INITIAL := State(0, 0, 0, [], false, None, [])

  /** A brace in the innermost arm. */
  function Bump(deltas: seq<int>, change: int): seq<int> {
    if deltas == [] then deltas else Init(deltas) + [Last(deltas) + change]
  }

  /** The arm that ends at a directive must have returned to where it began. */
  function AfterDirective(deltas: seq<int>, item: Item): seq<int> {
    if item.If? then deltas + [0]
    else if deltas == [] then deltas
    else if item.Endif? then Init(deltas)
    else Init(deltas) + [0]
  }

  function Step(s: State, item: Item): State {
    var t := s.(at := s.at + 1);
    match item
    case Code(Open) =>
      t.(deltas := Bump(s.deltas, 1), depth := s.depth + 1,
         open := if s.depth == 0 then Some(s.at) else s.open,
         unbalanced := s.unbalanced || (s.depth == 0 && s.parens != 0))
    case Code(Close) =>
      var deltas := Bump(s.deltas, -1);
      var depth := if s.depth == 0 then 0 else s.depth - 1;
      t.(deltas := deltas, depth := depth,
         open := if depth == 0 then None else s.open,
         bodies := if depth == 0 && s.open.Some? then s.bodies + [(s.open.value, s.at)] else s.bodies,
         unbalanced := s.unbalanced || s.depth == 0 || (deltas != [] && Last(deltas) < 0))
    case Code(OpenParen) =>
      if s.depth == 0 then t.(parens := s.parens + 1) else t
    case Code(CloseParen) =>
      if s.depth != 0 then t
      else if s.parens == 0 then t.(unbalanced := true)
      else t.(parens := s.parens - 1)
    case Code(_) => t
    case _ =>
      t.(deltas := AfterDirective(s.deltas, item),
         unbalanced := || s.unbalanced
                       || (!item.If? && s.deltas != [] && Last(s.deltas) != 0)
                       || (s.depth == 0 && s.parens != 0))
  }

  predicate Refused(e: State) {
    e.unbalanced || e.depth != 0 || e.parens != 0 || exists i :: 0 <= i < |e.deltas| && e.deltas[i] != 0
  }

  /** The outermost pairs whose opening brace follows a function head. */
  function Headed(bodies: seq<(nat, nat)>, heads: nat -> bool): seq<(nat, nat)> {
    if bodies == [] then []
    else Headed(Init(bodies), heads) + (if heads(Last(bodies).0) then [Last(bodies)] else [])
  }

  ghost predicate Complained(complains: nat -> bool, n: nat) {
    exists k :: 0 <= k < n && complains(k)
  }

  /** The counter of the innermost arm, moved in place. */
  method Count(deltas: seq<int>, change: int) returns (moved: seq<int>, negative: bool)
    ensures moved == Bump(deltas, change) && (negative <==> moved != [] && Last(moved) < 0)
  {
    moved, negative := deltas, false;
    if deltas != [] {
      moved := deltas[|deltas| - 1 := Last(deltas) + change];
      assert moved == Init(deltas) + [Last(deltas) + change];
      negative := Last(moved) < 0;
    }
  }

  /** A conditional directive: the arm it ends must be where it began. */
  method ReadDirective(deltas: seq<int>, item: Item) returns (after: seq<int>, uneven: bool)
    requires !item.Code?
    ensures after == AfterDirective(deltas, item) && (uneven <==> !item.If? && deltas != [] && Last(deltas) != 0)
  {
    after, uneven := deltas, false;
    if item.If? {
      after := deltas + [0];
    } else if deltas != [] {
      uneven := Last(deltas) != 0;
      if item.Endif? {
        after := Init(deltas);
      } else {
        after := deltas[|deltas| - 1 := 0];
        assert after == Init(deltas) + [0];
      }
    }
  }

  /** The walk as written. Which braces follow a function head (`heads`), what else is
      complained of on the way (`complains`: an unknown head, a directive that cannot be read,
      an include inside a body) and after the walk (`afterwards`: macros that hold braces,
      names defined twice) are inputs: the file is refused for the walk's own reasons or for
      one of those, and the functions are the walk's outermost pairs that have a head. */
  method Index(items: seq<Item>, heads: nat -> bool, complains: nat -> bool, afterwards: bool)
    returns (functions: seq<(nat, nat)>, unbalanced: bool)
    ensures functions == Headed(Run(Step, INITIAL, items).bodies, heads)
    ensures unbalanced <==> Refused(Run(Step, INITIAL, items)) || Complained(complains, |items|) || afterwards
  {
    hide Run, Headed, Bump, AfterDirective, Complained;
    var depth: nat, parens: nat, open: Option<nat> := 0, 0, None;
    var deltas: seq<int> := [];
    functions, unbalanced := [], false;
    ghost var s := INITIAL;
    BeforeAll(items, heads, complains);
    for i := 0 to |items|
      invariant s == Run(Step, INITIAL, items[..i]) && s.at == i
      invariant depth == s.depth && parens == s.parens && deltas == s.deltas && open == s.open
      invariant functions == Headed(s.bodies, heads)
      invariant unbalanced <==> s.unbalanced || Complained(complains, i)
    {
      RunNext(Step, INITIAL, items, i);
      ComplainsOnce(complains, i);
      if complains(i) { unbalanced := true; }
      match items[i] {
        case Code(Open) =>
          var negative;
          deltas, negative := Count(deltas, 1);
          if depth == 0 {
            if parens != 0 { unbalanced := true; }
            open := Some(i);
          }
          depth := depth + 1;
        case Code(Close) =>
          var negative;
          deltas, negative := Count(deltas, -1);
          if negative { unbalanced := true; }
          if depth == 0 { unbalanced := true; } else { depth := depth - 1; }
          if depth == 0 {
            if open.Some? {
              OneMoreHeaded(s.bodies, (open.value, i), heads);
              if heads(open.value) { functions := functions + [(open.value, i)]; }
            }
            open := None;
          }
        case Code(OpenParen) =>
          if depth == 0 { parens := parens + 1; }
        case Code(CloseParen) =>
          if depth == 0 {
            if parens == 0 { unbalanced := true; } else { parens := parens - 1; }
          }
        case Code(_) =>
        case _ =>
          var uneven;
          deltas, uneven := ReadDirective(deltas, items[i]);
          if uneven || (depth == 0 && parens != 0) { unbalanced := true; }
      }
      s := Step(s, items[i]);
    }
    assert items[..|items|] == items;
    unbalanced := unbalanced || depth != 0 || parens != 0
                  || (exists i :: 0 <= i < |deltas| && deltas[i] != 0) || afterwards;
  }

  lemma BeforeAll(items: seq<Item>, heads: nat -> bool, complains: nat -> bool)
    ensures Run(Step, INITIAL, items[..0]) == INITIAL && Headed([], heads) == [] && !Complained(complains, 0)
  {
  }

  lemma ComplainsOnce(complains: nat -> bool, i: nat)
    ensures Complained(complains, i + 1) <==> Complained(complains, i) || complains(i)
  {
  }

  lemma OneMoreHeaded(bodies: seq<(nat, nat)>, pair: (nat, nat), heads: nat -> bool)
    ensures Headed(bodies + [pair], heads) == Headed(bodies, heads) + (if heads(pair.0) then [pair] else [])
  {
    assert Init(bodies + [pair]) == bodies;
  }

  /** The functions are exactly the pairs of the walk with a head. */
  lemma {:induction false} HeadedAre(bodies: seq<(nat, nat)>, heads: nat -> bool, pair: (nat, nat))
    ensures pair in Headed(bodies, heads) <==> pair in bodies && heads(pair.0)
  {
    if bodies != [] {
      HeadedAre(Init(bodies), heads, pair);
      assert bodies == Init(bodies) + [Last(bodies)];
    }
  }
}
