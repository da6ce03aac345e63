/**
 Which files the translation-unit index accepts, said of the text itself: the braces of every
 arm and of the whole file match by themselves, and so do the parentheses at file scope.
 */
module TuAccepts {
  import opened Prelude
  import opened Preprocessor
  import opened TuIndex
  import opened TuGroups
  import opened TuBodies

  // ----- Texts that are tidy -----

  /** The characters of a text outside its conditionals; None stands for a conditional. */
  function Spine(t: Text): seq<Option<Mark>> {
    match t
    case End => []
    case Char(m, r) => [Some(m)] + Spine(r)
    case Cond(_, _, _, r) => [None] + Spine(r)
  }

  /** Braces opened minus braces closed. */
  function Net(w: seq<Option<Mark>>): int {
    if w == [] then 0
    else Net(Init(w)) + (if Last(w) == Some(Open) then 1 else if Last(w) == Some(Close) then -1 else 0)
  }

  /** Parentheses opened minus closed, outside the braces. */
  function Parens(w: seq<Option<Mark>>): int {
    if w == [] then 0
    else
      var here := if Last(w) == Some(OpenParen) then 1 else if Last(w) == Some(CloseParen) then -1 else 0;
      Parens(Init(w)) + (if Net(Init(w)) == 0 then here else 0)
  }

  /** No brace is closed before it is opened, and none is left open. */
  ghost predicate BracesMatch(w: seq<Option<Mark>>) {
    Net(w) == 0 && forall k :: 0 <= k <= |w| ==> Net(w[..k]) >= 0
  }

  /** The same of the parentheses outside the braces; and within such parentheses no brace opens
      and no conditional stands. */
  ghost predicate ParensMatch(w: seq<Option<Mark>>) {
    && Parens(w) == 0 && (forall k :: 0 <= k <= |w| ==> Parens(w[..k]) >= 0)
    && forall k :: 0 <= k < |w| && Net(w[..k]) == 0 && (w[k] == None || w[k] == Some(Open)) ==> Parens(w[..k]) == 0
  }

  /** The text and every arm in it is balanced in itself; `scope` says that it stands outside all
      braces, where parentheses count too. */
  ghost predicate Tidy(t: Text, scope: bool)
    decreases t, 1
  {
    BracesMatch(Spine(t)) && (scope ==> ParensMatch(Spine(t))) && ArmsWithin(t, scope, 0)
  }

  /** All arms of the conditionals in the text are tidy; `net` braces are open in front of it. */
  ghost predicate ArmsWithin(t: Text, scope: bool, net: int)
    decreases t, 0
  {
    match t
    case End => true
    case Char(m, r) => ArmsWithin(r, scope, net + Delta(m))
    case Cond(_, b, o, r) =>
      Tidy(b, scope && net == 0) && ArmsTidy(o, scope && net == 0) && ArmsWithin(r, scope, net)
  }

  ghost predicate ArmsTidy(o: Arms, scope: bool)
    decreases o, 0
  {
    match o
    case NoMore => true
    case ElifArm(_, b, more) => Tidy(b, scope) && ArmsTidy(more, scope)
    case ElseArm(b, more) => Tidy(b, scope) && ArmsTidy(more, scope)
  }

  // ----- One character at a time -----

  /** What the walk asks of the next character or conditional. */
  ghost predicate Fits(pre: seq<Option<Mark>>, x: Option<Mark>, scope: bool) {
    && (x == Some(Close) ==> Net(pre) >= 1)
    && (scope && Net(pre) == 0 && (x == None || x == Some(Open)) ==> Parens(pre) == 0)
    && (scope && Net(pre) == 0 && x == Some(CloseParen) ==> Parens(pre) >= 1)
  }

  ghost predicate AllFit(w: seq<Option<Mark>>, i: nat, scope: bool) {
    forall k :: i <= k < |w| ==> Fits(w[..k], w[k], scope)
  }

  ghost predicate Closed(w: seq<Option<Mark>>, scope: bool) {
    Net(w) == 0 && (scope ==> Parens(w) == 0)
  }

  lemma NetNext(w: seq<Option<Mark>>, k: nat)
    requires k < |w|
    ensures Net(w[..k + 1]) ==
      Net(w[..k]) + (if w[k] == Some(Open) then 1 else if w[k] == Some(Close) then -1 else 0)
    ensures Parens(w[..k + 1]) == Parens(w[..k]) +
      if Net(w[..k]) != 0 then 0 else if w[k] == Some(OpenParen) then 1 else if w[k] == Some(CloseParen) then -1 else 0
  {
    assert Init(w[..k + 1]) == w[..k] && Last(w[..k + 1]) == w[k];
  }

  /** As far as `n`, nothing is closed before it is opened. */
  ghost predicate FineTo(w: seq<Option<Mark>>, n: nat, scope: bool)
    requires n <= |w|
  {
    && (forall k :: 0 <= k <= n ==> Net(w[..k]) >= 0 && (scope ==> Parens(w[..k]) >= 0))
    && forall k :: 0 <= k < n && scope && Net(w[..k]) == 0 && (w[k] == None || w[k] == Some(Open)) ==>
         Parens(w[..k]) == 0
  }

  lemma {:induction false} FitIsFine(w: seq<Option<Mark>>, n: nat, scope: bool)
    requires n <= |w|
    ensures FineTo(w, n, scope) <==> forall k :: 0 <= k < n ==> Fits(w[..k], w[k], scope)
  {
    hide Net, Parens;
    if n == 0 {
      assert w[..0] == [];
      Nothing();
    } else {
      FitIsFine(w, n - 1, scope);
      NetNext(w, n - 1);
      FineNext(w, n - 1, scope);
    }
  }

  lemma Nothing()
    ensures Net([]) == 0 && Parens([]) == 0
  {
  }

  lemma FineNext(w: seq<Option<Mark>>, n: nat, scope: bool)
    requires n < |w|
    ensures FineTo(w, n + 1, scope) <==> FineTo(w, n, scope) && Fits(w[..n], w[n], scope)
  {
    hide Net, Parens;
    NetNext(w, n);
  }

  lemma FitIsMatch(w: seq<Option<Mark>>, scope: bool)
    ensures AllFit(w, 0, scope) && Closed(w, scope) <==> BracesMatch(w) && (scope ==> ParensMatch(w))
  {
    hide Net, Parens;
    FitIsFine(w, |w|, scope);
    assert w[..|w|] == w;
  }

  // ----- The walk over a text -----

  /** Where a text is read: in an arm, over the counters of the arms around it, or in the file;
      with so many braces open around it. */
  datatype Place = Place(around: Option<seq<int>>, outer: nat)

  /** The walk has read `pre`, the beginning of the text's spine, and complained of nothing. */
  ghost predicate Reads(s: State, at: Place, pre: seq<Option<Mark>>) {
    && !s.unbalanced && Net(pre) >= 0 && s.depth == at.outer + Net(pre)
    && (if at.around.None? then s.deltas == [] && at.outer == 0 else s.deltas == at.around.value + [Net(pre)])
    && s.parens == (if at.outer == 0 then Parens(pre) else 0)
    && (s.depth > 0 ==> s.parens == 0)
  }

  lemma CharFits(s: State, m: Mark, at: Place, w: seq<Option<Mark>>, i: nat)
    requires i < |w| && w[i] == Some(m) && Reads(s, at, w[..i])
    ensures Step(s, Code(m)).unbalanced <==> !Fits(w[..i], w[i], at.outer == 0)
    ensures Fits(w[..i], w[i], at.outer == 0) ==> Reads(Step(s, Code(m)), at, w[..i + 1])
  {
    hide Net, Parens;
    NetNext(w, i);
  }

  /** A conditional is met. */
  lemma IfFits(s: State, z: bool, at: Place, w: seq<Option<Mark>>, i: nat)
    requires i < |w| && w[i] == None && Reads(s, at, w[..i])
    ensures var u := Step(s, If(z));
      && (u.unbalanced <==> !Fits(w[..i], w[i], at.outer == 0))
      && (!u.unbalanced ==> Reads(u, Place(Some(s.deltas), s.depth), []))
  {
    hide Net, Parens;
    Nothing();
  }

  /** The walk stands after the conditional as it stood before. */
  ghost predicate Back(s: State, e: State) {
    !e.unbalanced && e.depth == s.depth && e.deltas == s.deltas && e.parens == 0
  }

  lemma PastGroup(s: State, e: State, at: Place, w: seq<Option<Mark>>, i: nat)
    requires i < |w| && w[i] == None && Reads(s, at, w[..i]) && Fits(w[..i], w[i], at.outer == 0) && Back(s, e)
    ensures Reads(e, at, w[..i + 1]) && Net(w[..i + 1]) == Net(w[..i])
  {
    hide Net, Parens;
    NetNext(w, i);
  }

  /** The end of an arm: the next directive finds its counter at zero. */
  lemma ArmCloses(g: State, v: State, head: Item, pre: seq<Option<Mark>>)
    requires head.Elif? || head.Else? || head.Endif?
    requires Reads(v, Place(Some(g.deltas), g.depth), pre)
    ensures var n := Step(v, head);
      && (n.unbalanced <==> !Closed(pre, g.depth == 0))
      && (!n.unbalanced && head.Endif? ==> Back(g, n))
      && (!n.unbalanced && !head.Endif? ==> Reads(n, Place(Some(g.deltas), g.depth), []))
  {
    hide Net, Parens;
    Nothing();
    assert Last(v.deltas) == Net(pre) && Init(v.deltas) == g.deltas;
  }

  /** The rest of a text: nothing is complained of exactly when every character fits and every arm
      is tidy. */
  lemma {:induction false} TextIsRead(t: Text, s: State, at: Place, w: seq<Option<Mark>>, i: nat)
    requires i <= |w| && w[i..] == Spine(t) && Reads(s, at, w[..i])
    ensures var e := RunText(Step, t, s);
      && (!e.unbalanced <==> AllFit(w, i, at.outer == 0) && ArmsWithin(t, at.outer == 0, Net(w[..i])))
      && (!e.unbalanced ==> Reads(e, at, w))
    decreases Len(t), 1
  {
    hide Step, Fits, Net, Parens, Reads, Tidy;
    match t
    case End =>
      assert w[..i] == w;
      NotComplained(s, at, w);
    case Char(m, r) =>
      var n := Step(s, Code(m));
      assert w[i] == w[i..][0] && w[i + 1..] == w[i..][1..];
      CharFits(s, m, at, w, i);
      NetNext(w, i);
      TextFacts(r, n);
      if !n.unbalanced { TextIsRead(r, n, at, w, i + 1); }
      OneMoreFits(w, i, at.outer == 0);
    case Cond(z, b, o, r) => CondIsRead(t, s, at, w, i);
  }

  lemma OneMoreFits(w: seq<Option<Mark>>, i: nat, scope: bool)
    requires i < |w|
    ensures AllFit(w, i, scope) <==> Fits(w[..i], w[i], scope) && AllFit(w, i + 1, scope)
  {
    hide Fits;
  }

  lemma {:induction false} CondIsRead(t: Text, s: State, at: Place, w: seq<Option<Mark>>, i: nat)
    requires t.Cond? && i <= |w| && w[i..] == Spine(t) && Reads(s, at, w[..i])
    ensures var e := RunText(Step, t, s);
      && (!e.unbalanced <==> AllFit(w, i, at.outer == 0) && ArmsWithin(t, at.outer == 0, Net(w[..i])))
      && (!e.unbalanced ==> Reads(e, at, w))
    decreases Len(t), 0
  {
    hide Step, Fits, Net, Parens, Reads, Back, Tidy, AllFit, Closed, ArmsTidy;
    var u := Step(s, If(t.zero));
    var v := RunText(Step, t.body, u);
    var e := RunArms(Step, t.others, v);
    assert w[i] == w[i..][0] && w[i + 1..] == w[i..][1..];
    LenCond(t);
    IfFits(s, t.zero, at, w, i);
    OneMoreFits(w, i, at.outer == 0);
    TextFacts(t.body, u);
    ArmsFacts(t.others, v);
    TextFacts(t.rest, e);
    DepthIsOuter(s, at, w[..i]);
    if !u.unbalanced {
      ArmIsRead(t.body, t.others, s, u);
      if !e.unbalanced {
        PastGroup(s, e, at, w, i);
        TextIsRead(t.rest, e, at, w, i + 1);
      }
    }
  }

  lemma NotComplained(s: State, at: Place, pre: seq<Option<Mark>>)
    requires Reads(s, at, pre)
    ensures !s.unbalanced
  {
  }

  lemma DepthIsOuter(s: State, at: Place, pre: seq<Option<Mark>>)
    requires Reads(s, at, pre)
    ensures s.depth == 0 <==> at.outer == 0 && Net(pre) == 0
  {
  }

  /** An arm and those after it, up to the end of the conditional. */
  lemma {:induction false} ArmIsRead(b: Text, o: Arms, g: State, u: State)
    requires Reads(u, Place(Some(g.deltas), g.depth), [])
    ensures var e := RunArms(Step, o, RunText(Step, b, u));
      && (!e.unbalanced <==> Tidy(b, g.depth == 0) && ArmsTidy(o, g.depth == 0))
      && (!e.unbalanced ==> Back(g, e))
    decreases Len(b) + LenArms(o), 2
  {
    hide Step, Fits, Net, Parens, Reads, Back, AllFit, Closed, BracesMatch, ParensMatch;
    var at := Place(Some(g.deltas), g.depth);
    var w := Spine(b);
    var v := RunText(Step, b, u);
    assert w[0..] == w && w[..0] == [];
    Nothing();
    TextIsRead(b, u, at, w, 0);
    FitIsMatch(w, g.depth == 0);
    ArmsFacts(o, v);
    if !o.NoMore? { LenArm(o); }
    if !v.unbalanced {
      var head := if o.NoMore? then Endif else if o.ElifArm? then Elif(o.zero) else Else;
      ArmCloses(g, v, head, w);
      if !o.NoMore? {
        var n := Step(v, head);
        TextFacts(o.body, n);
        ArmsFacts(o.others, RunText(Step, o.body, n));
        if !n.unbalanced { ArmIsRead(o.body, o.others, g, n); }
      }
    }
  }

  /** A well-nested file is accepted exactly when it is tidy: in the whole file and in every arm
      the braces match, and at file scope so do the parentheses, with no brace opened and no
      conditional met inside them. */
  lemma AcceptedIfTidy(t: Text)
    ensures !Refused(Run(Step, INITIAL, Flat(t))) <==> Tidy(t, true)
  {
    hide Step, Fits, Net, Parens, AllFit, BracesMatch, ParensMatch;
    var w := Spine(t);
    assert w[0..] == w && w[..0] == [];
    Nothing();
    RunTextIsRun(Step, t, INITIAL);
    TextIsRead(t, INITIAL, Place(None, 0), w, 0);
    FitIsMatch(w, true);
  }

  /** The smallest definition of a function is accepted. */
  lemma AFunctionIsAccepted()
    ensures !Refused(Run(Step, INITIAL, [Code(Letter), Code(OpenParen), Code(CloseParen), Code(Open), Code(Close)]))
  {
    var t := Char(Letter, Char(OpenParen, Char(CloseParen, Char(Open, Char(Close, End)))));
    assert Flat(t) == [Code(Letter), Code(OpenParen), Code(CloseParen), Code(Open), Code(Close)];
    RunTextIsRun(Step, t, INITIAL);
  }
}
