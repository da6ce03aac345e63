/**
 The instruction score: the two-row edit-distance table of the asm scorer, and what
 its answer means.

 A `Script` is an alignment of two instruction lists, built left to right out of
 substitutions, insertions and deletions. Every cell of the table is proved to hold
 the prefix distance `Cell`, and the last cell is proved to be the cheapest script.
 */
module EditDistance {
  import opened Prelude

  function Mismatch<T(==)>(x: T, y: T): nat { if x == y then 0 else 1 }

  /** The recurrence of one table cell: the distance of the first `i` elements of `a`
      from the first `j` elements of `b`. */
  function Cell<T(==)>(a: seq<T>, b: seq<T>, i: nat, j: nat): nat
    requires i <= |a| && j <= |b|
  {
    if i == 0 then j
    else if j == 0 then i
    else Min(Min(Cell(a, b, i - 1, j) + 1, Cell(a, b, i, j - 1) + 1),
             Cell(a, b, i - 1, j - 1) + Mismatch(a[i - 1], b[j - 1]))
  }

  /** One unfolding of the recurrence. */
  lemma CellStep<T>(a: seq<T>, b: seq<T>, i: nat, j: nat)
    requires i <= |a| && j <= |b|
    ensures i == 0 ==> Cell(a, b, i, j) == j
    ensures j == 0 ==> Cell(a, b, i, j) == i
    ensures i > 0 && j > 0 ==>
      Cell(a, b, i, j) == Min(Min(Cell(a, b, i - 1, j) + 1, Cell(a, b, i, j - 1) + 1),
                              Cell(a, b, i - 1, j - 1) + Mismatch(a[i - 1], b[j - 1]))
  {
  }

  function Dist<T(==)>(a: seq<T>, b: seq<T>): nat {
    Cell(a, b, |a|, |b|)
  }

  /** The two-row table: `prev` is the finished row, `cur` the row being filled. */
  method Levenshtein<T(==)>(a: seq<T>, b: seq<T>) returns (score: nat)
    ensures score == Dist(a, b)
  {
    hide Cell;
    var m, n := |a|, |b|;
    forall j | 0 <= j <= n ensures Cell(a, b, 0, j) == j { CellStep(a, b, 0, j); }
    var prev := new nat[n + 1](j => j);
    for i := 1 to m + 1
      invariant prev.Length == n + 1
      invariant forall j :: 0 <= j <= n ==> prev[j] == Cell(a, b, i - 1, j)
    {
      var cur := new nat[n + 1](j => if j == 0 then i else 0);
      var ai := a[i - 1];
      CellStep(a, b, i, 0);
      for j := 1 to n + 1
        invariant forall k :: 0 <= k <= n ==> prev[k] == Cell(a, b, i - 1, k)
        invariant forall k :: 0 <= k < j ==> cur[k] == Cell(a, b, i, k)
      {
        CellStep(a, b, i, j);
        var cost := if ai == b[j - 1] then 0 else 1;
        cur[j] := Min(Min(prev[j] + 1, cur[j - 1] + 1), prev[j - 1] + cost);
      }
      prev := cur;
    }
    score := prev[n];
  }

  // ----- Edit scripts -----

  /** An edit script, last edit outermost. */
  datatype Script<T> =
    | Empty
    | Subst(init: Script<T>, from: T, to: T)
    | Insert(init: Script<T>, to: T)
    | Delete(init: Script<T>, from: T)

  /** The list the script reads. */
  function Source<T>(s: Script<T>): seq<T> {
    match s
    case Empty => []
    case Subst(p, x, _) => Source(p) + [x]
    case Insert(p, _) => Source(p)
    case Delete(p, x) => Source(p) + [x]
  }

  /** The list the script writes. */
  function Target<T>(s: Script<T>): seq<T> {
    match s
    case Empty => []
    case Subst(p, _, y) => Target(p) + [y]
    case Insert(p, y) => Target(p) + [y]
    case Delete(p, _) => Target(p)
  }

  /** Unit price for every edit; copying an equal element is free. */
  function Cost<T(==)>(s: Script<T>): nat {
    match s
    case Empty => 0
    case Subst(p, x, y) => Cost(p) + Mismatch(x, y)
    case Insert(p, _) => Cost(p) + 1
    case Delete(p, _) => Cost(p) + 1
  }

  predicate Turns<T(==)>(s: Script<T>, a: seq<T>, b: seq<T>) {
    Source(s) == a && Target(s) == b
  }

  /** One edit more, on the lists it reads and writes. */
  lemma OneEdit<T>(p: Script<T>, a: seq<T>, b: seq<T>, x: T, y: T)
    requires Turns(p, a, b)
    ensures Turns(Subst(p, x, y), a + [x], b + [y]) && Cost(Subst(p, x, y)) == Cost(p) + Mismatch(x, y)
    ensures Turns(Insert(p, y), a, b + [y]) && Cost(Insert(p, y)) == Cost(p) + 1
    ensures Turns(Delete(p, x), a + [x], b) && Cost(Delete(p, x)) == Cost(p) + 1
  {
  }

  lemma Nothing<T>()
    ensures Turns<T>(Empty, [], []) && Cost<T>(Empty) == 0
  {
  }

  /** A script as cheap as the cell, read off the table. */
  lemma {:induction false} CellScript<T>(a: seq<T>, b: seq<T>, i: nat, j: nat) returns (s: Script<T>)
    requires i <= |a| && j <= |b|
    ensures Turns(s, a[..i], b[..j]) && Cost(s) == Cell(a, b, i, j)
  {
    hide Cell, Turns, Cost;
    CellStep(a, b, i, j);
    assert i > 0 ==> a[..i] == a[..i - 1] + [a[i - 1]];
    assert j > 0 ==> b[..j] == b[..j - 1] + [b[j - 1]];
    if i == 0 && j == 0 {
      Nothing<T>();
      assert a[..0] == [] && b[..0] == [];
      s := Empty;
    } else if i == 0 || (j > 0 && Cell(a, b, i, j) == Cell(a, b, i, j - 1) + 1) {
      var p := CellScript(a, b, i, j - 1);
      CellStep(a, b, i, j - 1);
      OneEdit(p, a[..i], b[..j - 1], b[j - 1], b[j - 1]);
      s := Insert(p, b[j - 1]);
    } else if j == 0 || Cell(a, b, i, j) == Cell(a, b, i - 1, j) + 1 {
      var p := CellScript(a, b, i - 1, j);
      CellStep(a, b, i - 1, j);
      OneEdit(p, a[..i - 1], b[..j], a[i - 1], a[i - 1]);
      s := Delete(p, a[i - 1]);
    } else {
      var p := CellScript(a, b, i - 1, j - 1);
      OneEdit(p, a[..i - 1], b[..j - 1], a[i - 1], b[j - 1]);
      s := Subst(p, a[i - 1], b[j - 1]);
    }
  }

  /** What the last edit reads and writes. */
  lemma LastEdit<T>(s: Script<T>, a: seq<T>, b: seq<T>)
    requires !s.Empty? && Source(s) <= a && Target(s) <= b
    ensures Source(s.init) <= a && Target(s.init) <= b
    ensures |Source(s)| == |Source(s.init)| + (if s.Insert? then 0 else 1)
    ensures |Target(s)| == |Target(s.init)| + (if s.Delete? then 0 else 1)
    ensures s.Subst? ==> s.from == a[|Source(s)| - 1] && s.to == b[|Target(s)| - 1]
  {
  }

  /** No script between prefixes of `a` and `b` beats their cell. */
  lemma {:induction false} NoCheaperScript<T>(s: Script<T>, a: seq<T>, b: seq<T>)
    requires Source(s) <= a && Target(s) <= b
    ensures Cell(a, b, |Source(s)|, |Target(s)|) <= Cost(s)
  {
    hide Cell, Source, Target;
    var i, j := |Source(s)|, |Target(s)|;
    CellStep(a, b, i, j);
    if s.Empty? {
      EmptyScript<T>();
    } else {
      LastEdit(s, a, b);
      NoCheaperScript(s.init, a, b);
      CellStep(a, b, |Source(s.init)|, |Target(s.init)|);
    }
  }

  lemma EmptyScript<T>()
    ensures Source<T>(Empty) == [] && Target<T>(Empty) == []
  {
  }

  /** The score is the minimum cost over all scripts from `a` to `b`. */
  lemma ScoreIsTheCheapestScript<T>(a: seq<T>, b: seq<T>)
    ensures exists s: Script<T> :: Turns(s, a, b) && Cost(s) == Dist(a, b)
    ensures forall s: Script<T> :: Turns(s, a, b) ==> Dist(a, b) <= Cost(s)
  {
    var best := CellScript(a, b, |a|, |b|);
    assert Turns(best, a, b);
    forall s: Script<T> | Turns(s, a, b)
      ensures Dist(a, b) <= Cost(s)
    {
      NoCheaperScript(s, a, b);
    }
  }

  // ----- The score is a metric -----

  lemma {:induction false} FreeScriptCopies<T>(s: Script<T>)
    requires Cost(s) == 0
    ensures Source(s) == Target(s)
  {
    if s.Subst? { FreeScriptCopies(s.init); }
  }

  lemma {:induction false} DiagonalIsZero<T>(a: seq<T>, i: nat)
    requires i <= |a|
    ensures Cell(a, a, i, i) == 0
  {
    if i > 0 { DiagonalIsZero(a, i - 1); }
  }

  lemma ZeroIffEqual<T>(a: seq<T>, b: seq<T>)
    ensures Dist(a, b) == 0 <==> a == b
  {
    if Dist(a, b) == 0 {
      var s := CellScript(a, b, |a|, |b|);
      FreeScriptCopies(s);
    }
    if a == b { DiagonalIsZero(a, |a|); }
  }

  lemma {:induction false} SymmetricCell<T>(a: seq<T>, b: seq<T>, i: nat, j: nat)
    requires i <= |a| && j <= |b|
    ensures Cell(a, b, i, j) == Cell(b, a, j, i)
  {
    hide Cell;
    CellStep(a, b, i, j);
    CellStep(b, a, j, i);
    if i > 0 && j > 0 {
      SymmetricCell(a, b, i - 1, j);
      SymmetricCell(a, b, i, j - 1);
      SymmetricCell(a, b, i - 1, j - 1);
    }
  }

  lemma Symmetric<T>(a: seq<T>, b: seq<T>)
    ensures Dist(a, b) == Dist(b, a)
  {
    SymmetricCell(a, b, |a|, |b|);
  }

  /** Running one script after another, element by element. */
  lemma {:induction false} Compose<T>(s: Script<T>, t: Script<T>) returns (u: Script<T>)
    requires Target(s) == Source(t)
    ensures Source(u) == Source(s) && Target(u) == Target(t)
    ensures Cost(u) <= Cost(s) + Cost(t)
    decreases s, t
  {
    if t.Insert? {
      var v := Compose(s, t.init);
      u := Insert(v, t.to);
    } else if s.Delete? {
      var v := Compose(s.init, t);
      u := Delete(v, s.from);
    } else if s.Empty? || t.Empty? {
      assert |Target(s)| == |Source(t)|;
      u := Empty;
    } else {
      u := ComposeStep(s, t);
    }
  }

  /** The last edit of `s` writes exactly the element the last edit of `t` reads. */
  lemma {:induction false} ComposeStep<T>(s: Script<T>, t: Script<T>) returns (u: Script<T>)
    requires (s.Subst? || s.Insert?) && (t.Subst? || t.Delete?)
    requires Target(s) == Source(t)
    ensures Source(u) == Source(s) && Target(u) == Target(t)
    ensures Cost(u) <= Cost(s) + Cost(t)
    decreases s, t, 0
  {
    assert Target(s) == Target(s.init) + [s.to] && Source(t) == Source(t.init) + [t.from];
    assert Target(s)[|Target(s)| - 1] == s.to && Source(t)[|Source(t)| - 1] == t.from;
    assert Target(s)[..|Target(s)| - 1] == Target(s.init);
    assert Source(t)[..|Source(t)| - 1] == Source(t.init);
    var v := Compose(s.init, t.init);
    if s.Subst? {
      u := if t.Subst? then Subst(v, s.from, t.to) else Delete(v, s.from);
    } else {
      u := if t.Subst? then Insert(v, t.to) else v;
    }
  }

  lemma Triangle<T>(a: seq<T>, b: seq<T>, c: seq<T>)
    ensures Dist(a, c) <= Dist(a, b) + Dist(b, c)
  {
    var s := CellScript(a, b, |a|, |b|);
    var t := CellScript(b, c, |b|, |c|);
    var u := Compose(s, t);
    assert Turns(u, a, c);
    NoCheaperScript(u, a, c);
  }

  lemma {:induction false} CellBounds<T>(a: seq<T>, b: seq<T>, i: nat, j: nat)
    requires i <= |a| && j <= |b|
    ensures i - j <= Cell(a, b, i, j) && j - i <= Cell(a, b, i, j)
    ensures Cell(a, b, i, j) <= if i <= j then j else i
  {
    hide Cell;
    CellStep(a, b, i, j);
    if i > 0 && j > 0 {
      CellBounds(a, b, i - 1, j);
      CellBounds(a, b, i, j - 1);
      CellBounds(a, b, i - 1, j - 1);
    }
  }

  lemma Bounds<T>(a: seq<T>, b: seq<T>)
    ensures |a| - |b| <= Dist(a, b) && |b| - |a| <= Dist(a, b)
    ensures Dist(a, b) <= if |a| <= |b| then |b| else |a|
  {
    CellBounds(a, b, |a|, |b|);
  }

  // ----- Masking -----

  /** Masking rewrites each instruction by itself and never changes their number. */
  function Masked<T, U>(mask: T -> U, a: seq<T>): (m: seq<U>)
    ensures |m| == |a| && forall i :: 0 <= i < |a| ==> m[i] == mask(a[i])
  {
    seq(|a|, i requires 0 <= i < |a| => mask(a[i]))
  }

  lemma {:induction false} MaskedCell<T, U>(mask: T -> U, a: seq<T>, b: seq<T>, i: nat, j: nat)
    requires i <= |a| && j <= |b|
    ensures Cell(Masked(mask, a), Masked(mask, b), i, j) <= Cell(a, b, i, j)
  {
    hide Cell;
    CellStep(a, b, i, j);
    CellStep(Masked(mask, a), Masked(mask, b), i, j);
    if i > 0 && j > 0 {
      MaskedCell(mask, a, b, i - 1, j);
      MaskedCell(mask, a, b, i, j - 1);
      MaskedCell(mask, a, b, i - 1, j - 1);
    }
  }

  /** Whatever is masked, on both sides alike, the score never grows. */
  lemma MaskingNeverRaisesTheScore<T, U>(mask: T -> U, a: seq<T>, b: seq<T>)
    ensures Dist(Masked(mask, a), Masked(mask, b)) <= Dist(a, b)
  {
    MaskedCell(mask, a, b, |a|, |b|);
  }

  /** One instruction: mnemonic and comma-separated operands. */
  datatype Insn = Insn(mnemonic: string, operands: seq<string>)

  /** A control-flow target is masked: the last operand of a branch becomes `@`. */
  function MaskBranch(isBranch: string -> bool, insn: Insn): Insn {
    if isBranch(insn.mnemonic) && insn.operands != [] then
      insn.(operands := insn.operands[|insn.operands| - 1 := "@"])
    else insn
  }

  /** Two instructions that agree in everything but a branch's last operand. */
  ghost predicate SameButTarget(isBranch: string -> bool, x: Insn, y: Insn) {
    && x.mnemonic == y.mnemonic
    && |x.operands| == |y.operands|
    && forall k :: 0 <= k < |x.operands| ==>
         x.operands[k] == y.operands[k] || (isBranch(x.mnemonic) && k == |x.operands| - 1)
  }

  lemma MaskBranchKernel(isBranch: string -> bool, x: Insn, y: Insn)
    ensures MaskBranch(isBranch, x) == MaskBranch(isBranch, y) <==> SameButTarget(isBranch, x, y)
  {
    var u, v := MaskBranch(isBranch, x), MaskBranch(isBranch, y);
    if u == v {
      forall k | 0 <= k < |x.operands|
        ensures x.operands[k] == y.operands[k] || (isBranch(x.mnemonic) && k == |x.operands| - 1)
      {
        assert u.operands[k] == v.operands[k];
      }
    }
  }

  /** What a masked score of zero says: equally long lists whose instructions agree in
      everything but branch targets. */
  lemma MaskedZeroMeans(isBranch: string -> bool, a: seq<Insn>, b: seq<Insn>)
    ensures var mask := x => MaskBranch(isBranch, x);
            Dist(Masked(mask, a), Masked(mask, b)) == 0 <==>
              |a| == |b| && forall i :: 0 <= i < |a| ==> SameButTarget(isBranch, a[i], b[i])
  {
    var mask := x => MaskBranch(isBranch, x);
    var ma, mb := Masked(mask, a), Masked(mask, b);
    ZeroIffEqual(ma, mb);
    if |a| == |b| {
      forall i | 0 <= i < |a|
        ensures ma[i] == mb[i] <==> SameButTarget(isBranch, a[i], b[i])
      {
        MaskBranchKernel(isBranch, a[i], b[i]);
      }
    }
  }
}
