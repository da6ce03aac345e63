/**
 Recognising a run of asm statements as expansions of pinned macros: the one-sided
 unifier, and the split of a run into the fewest consecutive expansions.
 */
module Units {
  import opened Prelude

  /** An operand expression of a macro: one of its parameters, or literal text. */
  datatype Expr = Param(name: string) | Lit(text: string)

  /** A source statement; an operand is a constraint and an expression. */
  datatype Stmt = Stmt(volatile: bool, instrs: seq<string>, outputs: seq<(string, string)>,
                       inputs: seq<(string, string)>, clobbers: seq<string>)

  /** A statement of a macro's expansion. */
  datatype Spec = Spec(volatile: bool, instrs: seq<string>, outputs: seq<(string, Expr)>,
                       inputs: seq<(string, Expr)>, clobbers: seq<string>)

  datatype Macro = Macro(name: string, params: seq<string>, spec: seq<Spec>)

  /** The pinned macros in pin order, the comparison key of an instruction, and which
      instructions are coprocessor ones. */
  datatype Library = Library(macros: seq<Macro>, key: string -> string, isCop2: string -> bool)

  // ----- What a match is -----

  type Substitution = map<string, string>

  predicate Means(e: Expr, text: string, sigma: Substitution) {
    match e
    case Lit(t) => text == t
    case Param(p) => p in sigma && sigma[p] == text
  }

  predicate OperandsMatch(src: seq<(string, string)>, hdr: seq<(string, Expr)>, sigma: Substitution) {
    && |src| == |hdr|
    && forall i :: 0 <= i < |src| ==> src[i].0 == hdr[i].0 && Means(hdr[i].1, src[i].1, sigma)
  }

  predicate SameKeys(key: string -> string, a: seq<string>, b: seq<string>) {
    |a| == |b| && forall i :: 0 <= i < |a| ==> key(a[i]) == key(b[i])
  }

  predicate Rigid(key: string -> string, s: Stmt, h: Spec) {
    s.volatile && s.clobbers == h.clobbers && SameKeys(key, s.instrs, h.instrs)
  }

  predicate StatementMatches(key: string -> string, s: Stmt, h: Spec, sigma: Substitution) {
    && Rigid(key, s, h)
    && OperandsMatch(s.outputs, h.outputs, sigma) && OperandsMatch(s.inputs, h.inputs, sigma)
  }

  /** The run is the expansion under `sigma`, up to the instruction key. */
  predicate Instance(key: string -> string, run: seq<Stmt>, spec: seq<Spec>, sigma: Substitution) {
    |run| == |spec| && forall i :: 0 <= i < |run| ==> StatementMatches(key, run[i], spec[i], sigma)
  }

  /** In full: as many statements; each volatile, with the macro's clobbers and instructions of the
      same keys; each operand under the same constraint, a literal one as it is written and a
      parameter always as what it stands for. */
  lemma InstanceMeans(key: string -> string, run: seq<Stmt>, spec: seq<Spec>, sigma: Substitution)
    ensures Instance(key, run, spec, sigma) <==>
      |run| == |spec| && forall i :: 0 <= i < |run| ==>
        var (s, h) := (run[i], spec[i]);
        && s.volatile && s.clobbers == h.clobbers && |s.instrs| == |h.instrs|
        && (forall k :: 0 <= k < |s.instrs| ==> key(s.instrs[k]) == key(h.instrs[k]))
        && |s.outputs| == |h.outputs| && |s.inputs| == |h.inputs|
        && (forall k :: 0 <= k < |s.outputs| ==>
              && s.outputs[k].0 == h.outputs[k].0
              && (h.outputs[k].1.Lit? ==> s.outputs[k].1 == h.outputs[k].1.text)
              && (h.outputs[k].1.Param? ==>
                    h.outputs[k].1.name in sigma && sigma[h.outputs[k].1.name] == s.outputs[k].1))
        && (forall k :: 0 <= k < |s.inputs| ==>
              && s.inputs[k].0 == h.inputs[k].0
              && (h.inputs[k].1.Lit? ==> s.inputs[k].1 == h.inputs[k].1.text)
              && (h.inputs[k].1.Param? ==>
                    h.inputs[k].1.name in sigma && sigma[h.inputs[k].1.name] == s.inputs[k].1))
  {
    if Instance(key, run, spec, sigma) {
      assert forall i :: 0 <= i < |run| ==> StatementMatches(key, run[i], spec[i], sigma);
    }
  }

  ghost predicate Matching(key: string -> string, run: seq<Stmt>, spec: seq<Spec>) {
    exists sigma: Substitution :: Instance(key, run, spec, sigma)
  }

  ghost predicate Extends(small: Substitution, big: Substitution) {
    forall p :: p in small ==> p in big && big[p] == small[p]
  }

  // ----- The unifier -----

  /** Binds what the operands force, and nothing else. */
  method MatchOperands(src: seq<(string, string)>, hdr: seq<(string, Expr)>, binding: Substitution)
    returns (ok: bool, more: Substitution)
    ensures ok ==> Extends(binding, more) && OperandsMatch(src, hdr, more)
    ensures ok ==> forall sigma :: Extends(binding, sigma) && OperandsMatch(src, hdr, sigma) ==> Extends(more, sigma)
    ensures !ok ==> forall sigma :: Extends(binding, sigma) ==> !OperandsMatch(src, hdr, sigma)
  {
    more := binding;
    if |src| != |hdr| { return false, more; }
    for i := 0 to |src|
      invariant Extends(binding, more)
      invariant OperandsMatch(src[..i], hdr[..i], more)
      invariant forall sigma :: Extends(binding, sigma) && OperandsMatch(src, hdr, sigma) ==> Extends(more, sigma)
    {
      var (sc, se) := src[i];
      var (hc, he) := hdr[i];
      if sc != hc { return false, more; }
      match he {
        case Lit(text) =>
          if se != text { return false, more; }
        case Param(p) =>
          if p !in more { more := more[p := se]; }
          if more[p] != se { return false, more; }
      }
    }
    assert src[..|src|] == src && hdr[..|hdr|] == hdr;
    ok := true;
  }

  method Matches(key: string -> string, run: seq<Stmt>, spec: seq<Spec>) returns (ok: bool)
    ensures ok <==> Matching(key, run, spec)
  {
    if |run| != |spec| { return false; }
    var binding: Substitution := map[];
    for i := 0 to |run|
      invariant Instance(key, run[..i], spec[..i], binding)
      invariant forall sigma :: Instance(key, run, spec, sigma) ==> Extends(binding, sigma)
    {
      var s, h := run[i], spec[i];
      var same := CompareKeys(key, s.instrs, h.instrs);
      if !s.volatile || s.clobbers != h.clobbers || !same { return false; }
      ghost var before := binding;
      var ok1, b1 := MatchOperands(s.outputs, h.outputs, binding);
      if !ok1 { return false; }
      var ok2, b2 := MatchOperands(s.inputs, h.inputs, b1);
      if !ok2 { return false; }
      binding := b2;
      StatementStep(key, run, spec, i, before, b1, b2);
    }
    assert run[..|run|] == run && spec[..|spec|] == spec;
    ok := true;
  }

  method CompareKeys(key: string -> string, a: seq<string>, b: seq<string>) returns (same: bool)
    ensures same <==> SameKeys(key, a, b)
  {
    if |a| != |b| { return false; }
    for i := 0 to |a|
      invariant forall k :: 0 <= k < i ==> key(a[k]) == key(b[k])
    {
      if key(a[i]) != key(b[i]) { return false; }
    }
    same := true;
  }

  lemma {:induction false} WiderStillMatches(key: string -> string, run: seq<Stmt>, spec: seq<Spec>,
                                             small: Substitution, big: Substitution)
    requires Instance(key, run, spec, small) && Extends(small, big)
    ensures Instance(key, run, spec, big)
  {
    forall i | 0 <= i < |run|
      ensures StatementMatches(key, run[i], spec[i], big)
    {
      assert StatementMatches(key, run[i], spec[i], small);
    }
  }

  lemma StatementStep(key: string -> string, run: seq<Stmt>, spec: seq<Spec>, i: nat,
                      b0: Substitution, b1: Substitution, b2: Substitution)
    requires i < |run| == |spec| && Instance(key, run[..i], spec[..i], b0)
    requires Rigid(key, run[i], spec[i]) && Extends(b0, b1) && Extends(b1, b2)
    requires OperandsMatch(run[i].outputs, spec[i].outputs, b1) && OperandsMatch(run[i].inputs, spec[i].inputs, b2)
    ensures Instance(key, run[..i + 1], spec[..i + 1], b2)
  {
    WiderStillMatches(key, run[..i], spec[..i], b0, b2);
    var (r, s) := (run[..i + 1], spec[..i + 1]);
    forall k | 0 <= k < i + 1
      ensures StatementMatches(key, r[k], s[k], b2)
    {
      if k < i { assert r[k] == run[..i][k] && s[k] == spec[..i][k]; }
    }
  }

  // ----- Units -----

  predicate HasCop2(isCop2: string -> bool, spec: seq<Spec>) {
    exists i :: 0 <= i < |spec| && exists k :: 0 <= k < |spec[i].instrs| && isCop2(spec[i].instrs[k])
  }

  /** The `k`-th macro names the run. */
  ghost predicate Names(lib: Library, run: seq<Stmt>, k: nat) {
    && k < |lib.macros|
    && HasCop2(lib.isCop2, lib.macros[k].spec) && Matching(lib.key, run, lib.macros[k].spec)
  }

  ghost predicate IsUnit(lib: Library, run: seq<Stmt>) {
    exists k: nat :: Names(lib, run, k)
  }

  /** A unit holds a coprocessor instruction somewhere in the macro it expands. */
  lemma UnitsHaveCop2(lib: Library, run: seq<Stmt>)
    ensures IsUnit(lib, run) <==>
      exists k: nat, i: nat, j: nat :: (
        k < |lib.macros| && i < |lib.macros[k].spec| && j < |lib.macros[k].spec[i].instrs|
        && lib.isCop2(lib.macros[k].spec[i].instrs[j]) && Matching(lib.key, run, lib.macros[k].spec))
  {
    hide Matching;
    if k: nat :| Names(lib, run, k) {
      var spec := lib.macros[k].spec;
      var i: nat :| i < |spec| && exists j :: 0 <= j < |spec[i].instrs| && lib.isCop2(spec[i].instrs[j]);
      var j: nat :| j < |spec[i].instrs| && lib.isCop2(spec[i].instrs[j]);
    }
    forall k: nat, i: nat, j: nat | k < |lib.macros| && i < |lib.macros[k].spec|
        && j < |lib.macros[k].spec[i].instrs| && lib.isCop2(lib.macros[k].spec[i].instrs[j])
        && Matching(lib.key, run, lib.macros[k].spec)
      ensures IsUnit(lib, run)
    {
      assert Names(lib, run, k);
    }
  }

  ghost predicate FirstName(lib: Library, run: seq<Stmt>, name: string) {
    exists k: nat :: Names(lib, run, k) && name == lib.macros[k].name && forall j: nat :: j < k ==> !Names(lib, run, j)
  }

  /** The first pinned macro, in pin order, that the run expands. */
  method MatchUnit(lib: Library, run: seq<Stmt>) returns (name: Option<string>)
    ensures name.Some? <==> IsUnit(lib, run)
    ensures name.Some? ==> FirstName(lib, run, name.value)
  {
    for k := 0 to |lib.macros|
      invariant forall j: nat :: j < k ==> !Names(lib, run, j)
    {
      var m := lib.macros[k];
      if HasCop2(lib.isCop2, m.spec) {
        var ok := Matches(lib.key, run, m.spec);
        if ok {
          assert Names(lib, run, k);
          return Some(m.name);
        }
      }
    }
    name := None;
  }

  // ----- The split -----

  /** Consecutive units from the start of the run up to `n`, last one last. */
  ghost predicate Covers(lib: Library, run: seq<Stmt>, pieces: seq<(nat, nat)>, n: nat)
    requires n <= |run|
    decreases |pieces|
  {
    if pieces == [] then n == 0
    else
      var (i, j) := Last(pieces);
      i < j == n && IsUnit(lib, run[i..j]) && Covers(lib, run, Init(pieces), i)
  }

  function LastStart(pieces: seq<(nat, nat)>): nat {
    if pieces == [] then 0 else Last(pieces).0
  }

  ghost predicate CoversInFewest(lib: Library, run: seq<Stmt>, n: nat, count: nat)
    requires n <= |run|
  {
    && (exists pieces :: Covers(lib, run, pieces, n) && |pieces| == count)
    && (forall pieces :: Covers(lib, run, pieces, n) ==> |pieces| >= count)
  }

  ghost predicate Uncoverable(lib: Library, run: seq<Stmt>, n: nat)
    requires n <= |run|
  {
    forall pieces :: !Covers(lib, run, pieces, n)
  }

  /** Number of units, where the last one begins, its macro. */
  datatype Entry = Entry(units: nat, prev: nat, name: string)

  /** The entry for the first `n` statements is right, given the entries before it. */
  ghost predicate Right(lib: Library, run: seq<Stmt>, before: seq<Option<Entry>>, entry: Option<Entry>, n: nat)
    requires n <= |run| && n <= |before|
  {
    match entry
    case None => Uncoverable(lib, run, n)
    case Some(e) =>
      && CoversInFewest(lib, run, n, e.units)
      && (if n == 0 then e.units == 0 else Links(lib, run, before, e, n))
  }

  /** The entry's last unit continues the entry it points back to. */
  ghost predicate Links(lib: Library, run: seq<Stmt>, before: seq<Option<Entry>>, e: Entry, n: nat)
    requires n <= |run| && n <= |before|
  {
    && e.prev < n && before[e.prev].Some? && e.units == before[e.prev].value.units + 1
    && IsUnit(lib, run[e.prev..n]) && FirstName(lib, run[e.prev..n], e.name)
  }

  ghost predicate Table(lib: Library, run: seq<Stmt>, best: seq<Option<Entry>>)
    requires |best| <= |run| + 1
  {
    forall k :: 0 <= k < |best| ==> Right(lib, run, best[..k], best[k], k)
  }

  function Longest(macros: seq<Macro>): nat {
    if macros == [] then 0
    else
      var rest := Longest(Init(macros));
      if |Last(macros).spec| > rest then |Last(macros).spec| else rest
  }

  lemma {:induction false} NoSpecLonger(macros: seq<Macro>, k: nat)
    requires k < |macros|
    ensures |macros[k].spec| <= Longest(macros)
  {
    if k < |macros| - 1 { NoSpecLonger(Init(macros), k); }
  }

  /** The window loses nothing: a unit is no longer than the longest expansion. */
  lemma UnitsFitTheWindow(lib: Library, run: seq<Stmt>)
    requires IsUnit(lib, run)
    ensures |run| <= Longest(lib.macros)
  {
    var k: nat :| Names(lib, run, k);
    NoSpecLonger(lib.macros, k);
  }

  lemma CoverExtends(lib: Library, run: seq<Stmt>, pieces: seq<(nat, nat)>, i: nat, j: nat)
    requires i < j <= |run| && Covers(lib, run, pieces, i) && IsUnit(lib, run[i..j])
    ensures Covers(lib, run, pieces + [(i, j)], j)
  {
    assert Init(pieces + [(i, j)]) == pieces;
  }

  /** What the inner loop knows after trying the starts below `i`: the entry is the best
      among the covers whose last unit begins below `i`. */
  ghost predicate BestBelow(lib: Library, run: seq<Stmt>, before: seq<Option<Entry>>, entry: Option<Entry>,
                            j: nat, i: nat)
    requires 0 < j <= |before| && j <= |run|
  {
    && (entry.Some? ==> Links(lib, run, before, entry.value, j) && Coverable(lib, run, j, entry.value.units))
    && (forall pieces :: Covers(lib, run, pieces, j) && LastStart(pieces) < i ==>
          entry.Some? && entry.value.units <= |pieces|)
  }

  ghost predicate Coverable(lib: Library, run: seq<Stmt>, n: nat, count: nat)
    requires n <= |run|
  {
    exists pieces :: Covers(lib, run, pieces, n) && |pieces| == count
  }

  /** Any cover that ends with the unit from `i` has a cover of the first `i` before it. */
  lemma LastUnit(lib: Library, run: seq<Stmt>, pieces: seq<(nat, nat)>, j: nat)
    requires 0 < j <= |run| && Covers(lib, run, pieces, j)
    ensures pieces != [] && LastStart(pieces) < j && IsUnit(lib, run[LastStart(pieces)..j])
    ensures Covers(lib, run, Init(pieces), LastStart(pieces)) && |Init(pieces)| + 1 == |pieces|
  {
  }

  /** One start tried: the entry is replaced only by a strictly better one. */
  lemma TryStart(lib: Library, run: seq<Stmt>, before: seq<Option<Entry>>, entry: Option<Entry>,
                 next: Option<Entry>, j: nat, i: nat)
    requires 0 < j <= |before| && j <= |run| && i < j
    requires Right(lib, run, before[..i], before[i], i)
    requires BestBelow(lib, run, before, entry, j, i)
    requires before[i].None? || !IsUnit(lib, run[i..j]) ==> next == entry
    requires before[i].Some? && IsUnit(lib, run[i..j]) ==>
      var units := before[i].value.units + 1;
      if entry.None? || units < entry.value.units then
        next.Some? && next.value.units == units && next.value.prev == i && FirstName(lib, run[i..j], next.value.name)
      else next == entry
    ensures BestBelow(lib, run, before, next, j, i + 1)
  {
    hide Covers, IsUnit, FirstName;
    if before[i].Some? && IsUnit(lib, run[i..j]) {
      var units := before[i].value.units + 1;
      var pieces :| Covers(lib, run, pieces, i) && |pieces| == before[i].value.units;
      CoverExtends(lib, run, pieces, i, j);
      assert |pieces + [(i, j)]| == units;
      assert Coverable(lib, run, j, units);
    }
    forall pieces | Covers(lib, run, pieces, j) && LastStart(pieces) < i + 1
      ensures next.Some? && next.value.units <= |pieces|
    {
      LastUnit(lib, run, pieces, j);
      if LastStart(pieces) == i {
        assert before[i].Some? && before[i].value.units <= |Init(pieces)|;
      }
    }
  }

  /** Starts before the window give no unit. */
  lemma WindowStart(lib: Library, run: seq<Stmt>, before: seq<Option<Entry>>, j: nat, lo: nat)
    requires 0 < j <= |before| && j <= |run|
    requires lo == 0 || (lo <= j && j - lo == Longest(lib.macros))
    ensures BestBelow(lib, run, before, None, j, lo)
  {
    hide Covers, IsUnit;
    forall pieces | Covers(lib, run, pieces, j) && LastStart(pieces) < lo
      ensures false
    {
      LastUnit(lib, run, pieces, j);
      UnitsFitTheWindow(lib, run[LastStart(pieces)..j]);
    }
  }

  lemma AllStartsTried(lib: Library, run: seq<Stmt>, before: seq<Option<Entry>>, entry: Option<Entry>, j: nat)
    requires 0 < j <= |before| && j <= |run| && BestBelow(lib, run, before, entry, j, j)
    ensures Right(lib, run, before, entry, j)
  {
    hide Covers, IsUnit, FirstName;
    forall pieces | Covers(lib, run, pieces, j)
      ensures entry.Some? && entry.value.units <= |pieces|
    {
      LastUnit(lib, run, pieces, j);
    }
  }

  lemma NoStatements(lib: Library, run: seq<Stmt>)
    ensures Table(lib, run, [Some(Entry(0, 0, ""))])
  {
    var table: seq<Option<Entry>> := [Some(Entry(0, 0, ""))];
    assert Covers(lib, run, [], 0);
    assert Right(lib, run, table[..0], table[0], 0);
  }

  function Spans(units: seq<((nat, nat), string)>): (spans: seq<(nat, nat)>)
    ensures |spans| == |units|
  {
    seq(|units|, k requires 0 <= k < |units| => units[k].0)
  }

  /** A cover of the whole run, in run order, each unit with its macro. */
  ghost predicate Split(lib: Library, run: seq<Stmt>, units: seq<((nat, nat), string)>) {
    && Covers(lib, run, Spans(units), |run|)
    && Named(lib, run, units)
  }

  ghost predicate Named(lib: Library, run: seq<Stmt>, units: seq<((nat, nat), string)>) {
    forall k :: 0 <= k < |units| ==>
      var ((i, j), name) := units[k];
      i <= j <= |run| && FirstName(lib, run[i..j], name)
  }

  /** The dynamic program: the fewest consecutive units that cover every statement, or
      nothing when some statement is left over. The library is not empty. */
  method SplitUnits(lib: Library, run: seq<Stmt>) returns (units: seq<((nat, nat), string)>)
    requires lib.macros != []
    ensures Uncoverable(lib, run, |run|) ==> units == []
    ensures !Uncoverable(lib, run, |run|) ==> Split(lib, run, units) && CoversInFewest(lib, run, |run|, |units|)
  {
    hide Right, Uncoverable, CoversInFewest, Table, Split, BestBelow;
    var longest := Longest(lib.macros);
    var n := |run|;
    var best := new Option<Entry>[n + 1](_ => None);
    best[0] := Some(Entry(0, 0, ""));
    NoStatements(lib, run);
    assert best[..1] == [Some(Entry(0, 0, ""))];
    for j := 1 to n + 1
      invariant Table(lib, run, best[..j])
    {
      best[j] := BestEntry(lib, run, best[..j], j, longest);
      TableGrows(lib, run, best[..j], best[j]);
      assert best[..j + 1] == best[..j] + [best[j]];
    }
    assert best[..n + 1] == best[..];
    TableAt(lib, run, best[..], n);
    if best[n].None? { return []; }
    units := ReadBack(lib, run, best[..]);
  }

  /** The inner loop: the entry for the first `j` statements, from those before it. */
  method BestEntry(lib: Library, run: seq<Stmt>, before: seq<Option<Entry>>, j: nat, longest: nat)
    returns (entry: Option<Entry>)
    requires 0 < j == |before| <= |run| && Table(lib, run, before) && longest == Longest(lib.macros)
    ensures Right(lib, run, before, entry, j)
  {
    hide Right, BestBelow, Table, IsUnit, FirstName;
    entry := None;
    var lo := if j > longest then j - longest else 0;
    WindowStart(lib, run, before, j, lo);
    for i := lo to j
      invariant BestBelow(lib, run, before, entry, j, i)
    {
      ghost var last := entry;
      TableAt(lib, run, before, i);
      if before[i].Some? {
        var name := MatchUnit(lib, run[i..j]);
        if name.Some? && (entry.None? || before[i].value.units + 1 < entry.value.units) {
          entry := Some(Entry(before[i].value.units + 1, i, name.value));
        }
      }
      TryStart(lib, run, before, last, entry, j, i);
    }
    AllStartsTried(lib, run, before, entry, j);
  }

  lemma TableAt(lib: Library, run: seq<Stmt>, best: seq<Option<Entry>>, k: nat)
    requires |best| <= |run| + 1 && Table(lib, run, best) && k < |best|
    ensures Right(lib, run, best[..k], best[k], k)
    ensures best[k].None? ==> Uncoverable(lib, run, k)
    ensures best[k].Some? ==> !Uncoverable(lib, run, k) && CoversInFewest(lib, run, k, best[k].value.units)
  {
  }

  lemma TableGrows(lib: Library, run: seq<Stmt>, before: seq<Option<Entry>>, entry: Option<Entry>)
    requires |before| <= |run| && Table(lib, run, before) && Right(lib, run, before, entry, |before|)
    ensures Table(lib, run, before + [entry])
  {
    hide Right;
    var all := before + [entry];
    forall k | 0 <= k < |all|
      ensures Right(lib, run, all[..k], all[k], k)
    {
      if k < |before| { assert all[..k] == before[..k]; } else { assert all[..k] == before; }
    }
  }

  /** Following the entries back from the end. */
  method ReadBack(lib: Library, run: seq<Stmt>, best: seq<Option<Entry>>) returns (units: seq<((nat, nat), string)>)
    requires |best| == |run| + 1 && Table(lib, run, best) && best[|run|].Some?
    ensures Split(lib, run, units) && CoversInFewest(lib, run, |run|, |units|)
  {
    hide Table, Right, CoversInFewest, Covers, IsUnit, FirstName;
    units := [];
    var j: nat := |run|;
    TableAt(lib, run, best, j);
    forall pieces ensures pieces + Spans(units) == pieces {}
    while j > 0
      invariant j <= |run| && best[j].Some? && Named(lib, run, units)
      invariant best[j].value.units + |units| == best[|run|].value.units
      invariant forall pieces :: Covers(lib, run, pieces, j) ==> Covers(lib, run, pieces + Spans(units), |run|)
      decreases j
    {
      EntryLinks(lib, run, best, j);
      var e := best[j].value;
      var more := [((e.prev, j), e.name)] + units;
      forall pieces | Covers(lib, run, pieces, e.prev)
        ensures Covers(lib, run, pieces + Spans(more), |run|)
      {
        CoverExtends(lib, run, pieces, e.prev, j);
        assert pieces + [(e.prev, j)] + Spans(units) == pieces + Spans(more);
      }
      units := more;
      j := e.prev;
    }
    NothingToCover(lib, run, best);
    assert [] + Spans(units) == Spans(units);
  }

  lemma EntryLinks(lib: Library, run: seq<Stmt>, best: seq<Option<Entry>>, j: nat)
    requires |best| == |run| + 1 && Table(lib, run, best) && 0 < j <= |run| && best[j].Some?
    ensures var e := best[j].value;
            && e.prev < j && best[e.prev].Some? && e.units == best[e.prev].value.units + 1
            && IsUnit(lib, run[e.prev..j]) && FirstName(lib, run[e.prev..j], e.name)
  {
    hide IsUnit, FirstName, CoversInFewest;
    assert Right(lib, run, best[..j], best[j], j);
  }

  lemma NothingToCover(lib: Library, run: seq<Stmt>, best: seq<Option<Entry>>)
    requires |best| == |run| + 1 && Table(lib, run, best) && best[0].Some?
    ensures best[0].value.units == 0 && Covers(lib, run, [], 0)
  {
    assert Right(lib, run, best[..0], best[0], 0);
  }

  // ----- Composites -----

  /** One piece of a macro body: a statement with raw operands, or a call of an earlier
      macro with raw arguments. */
  datatype Part = Own(stmt: Stmt) | Call(callee: string, args: seq<string>)

  /** A name is a parameter of the macro being parsed, or literal text. */
  function Classify(params: seq<string>, e: string): Expr {
    if e in params then Param(e) else Lit(e)
  }

  function ClassifyAll(params: seq<string>, ops: seq<(string, string)>): (r: seq<(string, Expr)>)
    ensures |r| == |ops|
  {
    seq(|ops|, i requires 0 <= i < |ops| => (ops[i].0, Classify(params, ops[i].1)))
  }

  function Bind(params: seq<string>, s: Stmt): Spec {
    Spec(s.volatile, s.instrs, ClassifyAll(params, s.outputs), ClassifyAll(params, s.inputs), s.clobbers)
  }

  /** Callee parameters to caller expressions; of a repeated parameter the last counts. */
  function Arguments(params: seq<string>, calleeParams: seq<string>, args: seq<string>): map<string, Expr>
    requires |calleeParams| == |args|
  {
    if args == [] then map[]
    else Arguments(params, Init(calleeParams), Init(args))[Last(calleeParams) := Classify(params, Last(args))]
  }

  function RebindExpr(sub: map<string, Expr>, e: Expr): Expr {
    if e.Param? && e.name in sub then sub[e.name] else e
  }

  function RebindAll(sub: map<string, Expr>, ops: seq<(string, Expr)>): (r: seq<(string, Expr)>)
    ensures |r| == |ops|
  {
    seq(|ops|, i requires 0 <= i < |ops| => (ops[i].0, RebindExpr(sub, ops[i].1)))
  }

  function Rebind(sub: map<string, Expr>, h: Spec): Spec {
    Spec(h.volatile, h.instrs, RebindAll(sub, h.outputs), RebindAll(sub, h.inputs), h.clobbers)
  }

  function RebindSpec(sub: map<string, Expr>, spec: seq<Spec>): (r: seq<Spec>)
    ensures |r| == |spec|
  {
    seq(|spec|, i requires 0 <= i < |spec| => Rebind(sub, spec[i]))
  }

  /** A call is to a known macro with as many arguments as it has parameters. */
  predicate PartOk(known: map<string, Macro>, p: Part) {
    p.Call? ==> p.callee in known && |known[p.callee].params| == |p.args|
  }

  function ExpandPart(known: map<string, Macro>, params: seq<string>, p: Part): seq<Spec>
    requires PartOk(known, p)
  {
    match p
    case Own(s) => [Bind(params, s)]
    case Call(callee, args) =>
      RebindSpec(Arguments(params, known[callee].params, args), known[callee].spec)
  }

  function Expand(known: map<string, Macro>, params: seq<string>, parts: seq<Part>): seq<Spec>
    requires forall p :: p in parts ==> PartOk(known, p)
  {
    if parts == [] then []
    else
      assert Last(parts) in parts;
      Expand(known, params, Init(parts)) + ExpandPart(known, params, Last(parts))
  }

  /** The expansion loop: unknown callees and wrong arities are errors. */
  method ParseMacro(known: map<string, Macro>, params: seq<string>, parts: seq<Part>)
    returns (spec: Option<seq<Spec>>)
    ensures spec.None? <==> exists k :: 0 <= k < |parts| && !PartOk(known, parts[k])
    ensures spec.Some? ==> (forall p :: p in parts ==> PartOk(known, p)) && spec.value == Expand(known, params, parts)
  {
    hide Bind, RebindSpec, Arguments;
    var stmts: seq<Spec> := [];
    for i := 0 to |parts|
      invariant forall p :: p in parts[..i] ==> PartOk(known, p)
      invariant stmts == Expand(known, params, parts[..i])
    {
      assert Init(parts[..i + 1]) == parts[..i] && Last(parts[..i + 1]) == parts[i];
      assert parts[..i + 1] == parts[..i] + [parts[i]];
      match parts[i] {
        case Own(s) =>
          stmts := stmts + [Bind(params, s)];
        case Call(callee, args) =>
          if callee !in known || |known[callee].params| != |args| { return None; }
          stmts := stmts + RebindSpec(Arguments(params, known[callee].params, args), known[callee].spec);
      }
    }
    assert parts[..|parts|] == parts;
    spec := Some(stmts);
  }

  /** What a callee's parameters stand for when the caller's stand for `sigma`. */
  function Through(sub: map<string, Expr>, sigma: Substitution): Substitution {
    map p | p in sub && (sub[p].Lit? || sub[p].name in sigma) ::
      match sub[p] { case Lit(t) => t case Param(q) => sigma[q] }
  }

  /** Every parameter used is declared. */
  predicate ClosedExpr(params: seq<string>, e: Expr) { e.Param? ==> e.name in params }

  predicate ClosedSpec(params: seq<string>, spec: seq<Spec>) {
    forall i :: 0 <= i < |spec| ==>
      && (forall k :: 0 <= k < |spec[i].outputs| ==> ClosedExpr(params, spec[i].outputs[k].1))
      && (forall k :: 0 <= k < |spec[i].inputs| ==> ClosedExpr(params, spec[i].inputs[k].1))
  }

  predicate ClosedSub(params: seq<string>, sub: map<string, Expr>) {
    forall p :: p in sub ==> ClosedExpr(params, sub[p])
  }

  lemma {:induction false} ArgumentsCover(params: seq<string>, calleeParams: seq<string>, args: seq<string>)
    requires |calleeParams| == |args|
    ensures forall p :: p in calleeParams ==> p in Arguments(params, calleeParams, args)
    ensures ClosedSub(params, Arguments(params, calleeParams, args))
  {
    if args != [] {
      ArgumentsCover(params, Init(calleeParams), Init(args));
      assert calleeParams == Init(calleeParams) + [Last(calleeParams)];
      var sub := Arguments(params, Init(calleeParams), Init(args));
      var e := Classify(params, Last(args));
      assert Arguments(params, calleeParams, args) == sub[Last(calleeParams) := e];
      assert ClosedExpr(params, e);
    }
  }

  /** An expansion uses only the macro's own parameters, if its callees do. */
  lemma {:induction false} ExpansionIsClosed(known: map<string, Macro>, params: seq<string>, parts: seq<Part>)
    requires forall p :: p in parts ==> PartOk(known, p)
    requires forall m :: m in known ==> ClosedSpec(known[m].params, known[m].spec)
    ensures ClosedSpec(params, Expand(known, params, parts))
  {
    if parts != [] {
      assert Last(parts) in parts;
      ExpansionIsClosed(known, params, Init(parts));
      PartIsClosed(known, params, Last(parts));
    }
  }

  lemma PartIsClosed(known: map<string, Macro>, params: seq<string>, p: Part)
    requires PartOk(known, p)
    requires forall m :: m in known ==> ClosedSpec(known[m].params, known[m].spec)
    ensures ClosedSpec(params, ExpandPart(known, params, p))
  {
    if p.Call? {
      var m := known[p.callee];
      ArgumentsCover(params, m.params, p.args);
      RebindIsClosed(params, m.params, m.spec, Arguments(params, m.params, p.args));
    }
  }

  lemma RebindIsClosed(params: seq<string>, calleeParams: seq<string>, spec: seq<Spec>, sub: map<string, Expr>)
    requires ClosedSpec(calleeParams, spec)
    requires forall p :: p in calleeParams ==> p in sub
    requires ClosedSub(params, sub)
    ensures ClosedSpec(params, RebindSpec(sub, spec))
  {
    forall i | 0 <= i < |spec|
      ensures forall k :: 0 <= k < |spec[i].outputs| ==> ClosedExpr(params, RebindAll(sub, spec[i].outputs)[k].1)
      ensures forall k :: 0 <= k < |spec[i].inputs| ==> ClosedExpr(params, RebindAll(sub, spec[i].inputs)[k].1)
    {
      forall k | 0 <= k < |spec[i].outputs|
        ensures ClosedExpr(params, RebindAll(sub, spec[i].outputs)[k].1)
      {
        assert ClosedExpr(calleeParams, spec[i].outputs[k].1);
      }
      forall k | 0 <= k < |spec[i].inputs|
        ensures ClosedExpr(params, RebindAll(sub, spec[i].inputs)[k].1)
      {
        assert ClosedExpr(calleeParams, spec[i].inputs[k].1);
      }
    }
  }

  lemma MeansThrough(sub: map<string, Expr>, e: Expr, text: string, sigma: Substitution)
    requires e.Param? ==> e.name in sub
    ensures Means(RebindExpr(sub, e), text, sigma) <==> Means(e, text, Through(sub, sigma))
  {
  }

  lemma OperandsThrough(sub: map<string, Expr>, src: seq<(string, string)>, hdr: seq<(string, Expr)>,
                        sigma: Substitution)
    requires forall k :: 0 <= k < |hdr| && hdr[k].1.Param? ==> hdr[k].1.name in sub
    ensures OperandsMatch(src, RebindAll(sub, hdr), sigma) <==> OperandsMatch(src, hdr, Through(sub, sigma))
  {
    hide Means, RebindExpr, Through;
    if |src| == |hdr| {
      forall i | 0 <= i < |src|
        ensures Means(RebindAll(sub, hdr)[i].1, src[i].1, sigma) <==> Means(hdr[i].1, src[i].1, Through(sub, sigma))
      {
        MeansThrough(sub, hdr[i].1, src[i].1, sigma);
      }
    }
  }

  /** Matching a rebound expansion is matching the callee's own under the composed
      substitution. */
  lemma InstanceThrough(key: string -> string, run: seq<Stmt>, params: seq<string>, spec: seq<Spec>,
                        sub: map<string, Expr>, sigma: Substitution)
    requires ClosedSpec(params, spec) && forall p :: p in params ==> p in sub
    ensures Instance(key, run, RebindSpec(sub, spec), sigma) <==> Instance(key, run, spec, Through(sub, sigma))
  {
    hide OperandsMatch, SameKeys, Through;
    if |run| == |spec| {
      forall i | 0 <= i < |run|
        ensures StatementMatches(key, run[i], RebindSpec(sub, spec)[i], sigma)
           <==> StatementMatches(key, run[i], spec[i], Through(sub, sigma))
      {
        OperandsThrough(sub, run[i].outputs, spec[i].outputs, sigma);
        OperandsThrough(sub, run[i].inputs, spec[i].inputs, sigma);
      }
    }
  }

  lemma InstanceConcat(key: string -> string, run: seq<Stmt>, a: seq<Spec>, b: seq<Spec>, sigma: Substitution)
    ensures Instance(key, run, a + b, sigma)
       <==> |run| == |a| + |b| && Instance(key, run[..|a|], a, sigma) && Instance(key, run[|a|..], b, sigma)
  {
    hide StatementMatches;
    if |run| == |a| + |b| {
      if Instance(key, run[..|a|], a, sigma) && Instance(key, run[|a|..], b, sigma) {
        forall i | 0 <= i < |run|
          ensures StatementMatches(key, run[i], (a + b)[i], sigma)
        {
          if i < |a| { assert run[..|a|][i] == run[i]; } else { assert run[|a|..][i - |a|] == run[i]; }
        }
      }
      if Instance(key, run, a + b, sigma) {
        forall i | 0 <= i < |a|
          ensures StatementMatches(key, run[..|a|][i], a[i], sigma)
        {
          assert (a + b)[i] == a[i];
        }
        forall i | 0 <= i < |b|
          ensures StatementMatches(key, run[|a|..][i], b[i], sigma)
        {
          assert (a + b)[|a| + i] == b[i];
        }
      }
    }
  }

  /** In the macro's text a parameter stands for what it is given, any other operand for itself. */
  predicate Says(params: seq<string>, e: string, text: string, sigma: Substitution) {
    if e in params then e in sigma && sigma[e] == text else text == e
  }

  predicate OperandsSay(params: seq<string>, raw: seq<(string, string)>, src: seq<(string, string)>,
                        sigma: Substitution)
  {
    && |src| == |raw|
    && forall i :: 0 <= i < |src| ==> src[i].0 == raw[i].0 && Says(params, raw[i].1, src[i].1, sigma)
  }

  /** Each parameter of the callee is given what the argument in its place says to the caller; of
      a repeated parameter the last place counts. */
  ghost predicate Passes(params: seq<string>, calleeParams: seq<string>, args: seq<string>,
                         sigma: Substitution, tau: Substitution)
    requires |calleeParams| == |args|
  {
    forall i :: 0 <= i < |args| && calleeParams[i] in tau && LastPlace(calleeParams, i) ==>
      Says(params, args[i], tau[calleeParams[i]], sigma)
  }

  predicate LastPlace(calleeParams: seq<string>, i: nat)
    requires i < |calleeParams|
  {
    forall j :: i < j < |calleeParams| ==> calleeParams[j] != calleeParams[i]
  }

  /** A part is matched by a stretch of the run: an own statement by one that says the same, a call
      by an expansion of its callee for the arguments passed. */
  ghost predicate PartMatches(key: string -> string, known: map<string, Macro>, params: seq<string>, p: Part,
                              run: seq<Stmt>, sigma: Substitution)
    requires PartOk(known, p)
  {
    match p
    case Own(s) =>
      && |run| == 1 && run[0].volatile && run[0].clobbers == s.clobbers && SameKeys(key, run[0].instrs, s.instrs)
      && OperandsSay(params, s.outputs, run[0].outputs, sigma) && OperandsSay(params, s.inputs, run[0].inputs, sigma)
    case Call(callee, args) =>
      exists tau ::
        Passes(params, known[callee].params, args, sigma, tau) && Instance(key, run, known[callee].spec, tau)
  }

  /** The run is cut into consecutive stretches, one per part, `cuts` being their ends. */
  ghost predicate PartwiseMatches(key: string -> string, known: map<string, Macro>, params: seq<string>,
                                  parts: seq<Part>, run: seq<Stmt>, cuts: seq<nat>, sigma: Substitution)
    requires forall p :: p in parts ==> PartOk(known, p)
  {
    |cuts| == |parts| &&
    if parts == [] then run == []
    else
      assert Last(parts) in parts;
      var from := if |cuts| == 1 then 0 else cuts[|cuts| - 2];
      && Last(cuts) == |run| && from <= |run|
      && PartMatches(key, known, params, Last(parts), run[from..], sigma)
      && PartwiseMatches(key, known, params, Init(parts), run[..from], Init(cuts), sigma)
  }

  lemma PartInstance(key: string -> string, known: map<string, Macro>, params: seq<string>, p: Part,
                     run: seq<Stmt>, sigma: Substitution)
    requires PartOk(known, p) && forall m :: m in known ==> ClosedSpec(known[m].params, known[m].spec)
    ensures Instance(key, run, ExpandPart(known, params, p), sigma) <==> PartMatches(key, known, params, p, run, sigma)
  {
    match p
    case Own(s) =>
      hide Means, Says, SameKeys;
      SaysIsMeans(params, sigma);
      if |run| == 1 {
        var same := StatementMatches(key, run[0], Bind(params, s), sigma);
        assert same <==> PartMatches(key, known, params, p, run, sigma);
      }
    case Call(callee, args) =>
      hide Instance, Through, RebindSpec, Passes, ClosedSpec;
      var m := known[callee];
      var sub := Arguments(params, m.params, args);
      ArgumentsCover(params, m.params, args);
      InstanceThrough(key, run, m.params, m.spec, sub, sigma);
      PassedThrough(params, m.params, args, sigma);
      forall tau | Passes(params, m.params, args, sigma, tau) && Instance(key, run, m.spec, tau)
        ensures Instance(key, run, m.spec, Through(sub, sigma))
      {
        PassedIsThrough(params, m.params, args, sigma, tau);
        OnlyParamsCount(key, run, m.params, m.spec, tau, Through(sub, sigma));
      }
  }

  lemma SaysIsMeans(params: seq<string>, sigma: Substitution)
    ensures forall e, text :: Says(params, e, text, sigma) <==> Means(Classify(params, e), text, sigma)
  {
  }

  /** Argument by argument: what each parameter of the callee is bound to. */
  lemma {:induction false} ArgumentsAre(params: seq<string>, calleeParams: seq<string>, args: seq<string>, i: nat)
    requires |calleeParams| == |args| && i < |args|
    requires forall j :: i < j < |args| ==> calleeParams[j] != calleeParams[i]
    ensures calleeParams[i] in Arguments(params, calleeParams, args)
    ensures Arguments(params, calleeParams, args)[calleeParams[i]] ==
      if args[i] in params then Param(args[i]) else Lit(args[i])
    decreases |args|
  {
    if i < |args| - 1 {
      ArgumentsAre(params, Init(calleeParams), Init(args), i);
      assert calleeParams[|args| - 1] != calleeParams[i];
    }
  }

  /** An own statement of a macro keeps its text, its operands marked as parameters or literal. */
  lemma OwnStatementIs(params: seq<string>, s: Stmt)
    ensures var h := Bind(params, s);
      && h.instrs == s.instrs && h.clobbers == s.clobbers && h.volatile == s.volatile
      && |h.outputs| == |s.outputs| && |h.inputs| == |s.inputs|
      && (forall i :: 0 <= i < |s.outputs| ==>
            var e := s.outputs[i].1;
            h.outputs[i] == (s.outputs[i].0, if e in params then Param(e) else Lit(e)))
      && (forall i :: 0 <= i < |s.inputs| ==>
            var e := s.inputs[i].1;
            h.inputs[i] == (s.inputs[i].0, if e in params then Param(e) else Lit(e)))
  {
  }

  lemma {:induction false} LastPlaceOf(calleeParams: seq<string>, p: string) returns (i: nat)
    requires p in calleeParams
    ensures i < |calleeParams| && calleeParams[i] == p && LastPlace(calleeParams, i)
  {
    if Last(calleeParams) == p {
      i := |calleeParams| - 1;
    } else {
      assert calleeParams == Init(calleeParams) + [Last(calleeParams)];
      i := LastPlaceOf(Init(calleeParams), p);
    }
  }

  lemma {:induction false} ArgumentsKeys(params: seq<string>, calleeParams: seq<string>, args: seq<string>)
    requires |calleeParams| == |args|
    ensures forall p :: p in Arguments(params, calleeParams, args) ==> p in calleeParams
  {
    if args != [] {
      ArgumentsKeys(params, Init(calleeParams), Init(args));
      assert calleeParams == Init(calleeParams) + [Last(calleeParams)];
    }
  }

  lemma PassedThrough(params: seq<string>, calleeParams: seq<string>, args: seq<string>, sigma: Substitution)
    requires |calleeParams| == |args|
    ensures Passes(params, calleeParams, args, sigma, Through(Arguments(params, calleeParams, args), sigma))
  {
    hide Arguments;
    forall i | 0 <= i < |args| && LastPlace(calleeParams, i)
      ensures calleeParams[i] in Arguments(params, calleeParams, args)
      ensures Arguments(params, calleeParams, args)[calleeParams[i]] ==
        if args[i] in params then Param(args[i]) else Lit(args[i])
    {
      ArgumentsAre(params, calleeParams, args, i);
    }
  }

  lemma PassedIsThrough(params: seq<string>, calleeParams: seq<string>, args: seq<string>,
                        sigma: Substitution, tau: Substitution)
    requires |calleeParams| == |args| && Passes(params, calleeParams, args, sigma, tau)
    ensures var there := Through(Arguments(params, calleeParams, args), sigma);
      forall p :: p in calleeParams && p in tau ==> p in there && there[p] == tau[p]
  {
    hide Arguments;
    forall p | p in calleeParams && p in tau
      ensures p in Through(Arguments(params, calleeParams, args), sigma)
      ensures Through(Arguments(params, calleeParams, args), sigma)[p] == tau[p]
    {
      var i := LastPlaceOf(calleeParams, p);
      ArgumentsAre(params, calleeParams, args, i);
    }
  }

  /** Only what the parameters stand for matters. */
  lemma OnlyParamsCount(key: string -> string, run: seq<Stmt>, params: seq<string>, spec: seq<Spec>,
                        sigma: Substitution, tau: Substitution)
    requires ClosedSpec(params, spec) && Instance(key, run, spec, sigma)
    requires forall p :: p in params && p in sigma ==> p in tau && tau[p] == sigma[p]
    ensures Instance(key, run, spec, tau)
  {
    hide SameKeys;
    forall i | 0 <= i < |run|
      ensures StatementMatches(key, run[i], spec[i], tau)
    {
      assert StatementMatches(key, run[i], spec[i], sigma);
      forall k | 0 <= k < |spec[i].outputs|
        ensures Means(spec[i].outputs[k].1, run[i].outputs[k].1, tau)
      {
        assert ClosedExpr(params, spec[i].outputs[k].1);
      }
      forall k | 0 <= k < |spec[i].inputs|
        ensures Means(spec[i].inputs[k].1, run[i].inputs[k].1, tau)
      {
        assert ClosedExpr(params, spec[i].inputs[k].1);
      }
    }
  }

  lemma InstanceLength(key: string -> string, run: seq<Stmt>, spec: seq<Spec>, sigma: Substitution)
    requires Instance(key, run, spec, sigma)
    ensures |run| == |spec|
  {
  }

  /** A run that expands the composite, cut into the stretches of its parts. */
  lemma {:induction false} CutComposite(key: string -> string, known: map<string, Macro>, params: seq<string>,
                                        parts: seq<Part>, run: seq<Stmt>, sigma: Substitution)
    returns (cuts: seq<nat>)
    requires forall p :: p in parts ==> PartOk(known, p)
    requires forall m :: m in known ==> ClosedSpec(known[m].params, known[m].spec)
    requires Instance(key, run, Expand(known, params, parts), sigma)
    ensures PartwiseMatches(key, known, params, parts, run, cuts, sigma)
  {
    hide Instance, PartMatches, ExpandPart;
    InstanceLength(key, run, Expand(known, params, parts), sigma);
    if parts == [] {
      cuts := [];
    } else {
      assert Last(parts) in parts;
      var before := Expand(known, params, Init(parts));
      var own := ExpandPart(known, params, Last(parts));
      var from := |before|;
      InstanceConcat(key, run, before, own, sigma);
      PartInstance(key, known, params, Last(parts), run[from..], sigma);
      var earlier := CutComposite(key, known, params, Init(parts), run[..from], sigma);
      cuts := earlier + [|run|];
      PartwiseSnoc(key, known, params, parts, run, from, earlier, sigma);
    }
  }

  lemma PartwiseSnoc(key: string -> string, known: map<string, Macro>, params: seq<string>,
                     parts: seq<Part>, run: seq<Stmt>, from: nat, cuts: seq<nat>, sigma: Substitution)
    requires parts != [] && forall p :: p in parts ==> PartOk(known, p)
    requires from <= |run| && PartwiseMatches(key, known, params, Init(parts), run[..from], cuts, sigma)
    requires Last(parts) in parts && PartMatches(key, known, params, Last(parts), run[from..], sigma)
    ensures PartwiseMatches(key, known, params, parts, run, cuts + [|run|], sigma)
  {
    hide PartMatches;
    var all := cuts + [|run|];
    assert Init(all) == cuts;
    assert |run[..from]| == if |cuts| == 0 then 0 else Last(cuts);
    assert (if |all| == 1 then 0 else all[|all| - 2]) == from;
  }

  /** The converse: stretches that match the parts make up an expansion. */
  lemma {:induction false} JoinComposite(key: string -> string, known: map<string, Macro>, params: seq<string>,
                                         parts: seq<Part>, run: seq<Stmt>, cuts: seq<nat>, sigma: Substitution)
    requires forall p :: p in parts ==> PartOk(known, p)
    requires forall m :: m in known ==> ClosedSpec(known[m].params, known[m].spec)
    requires PartwiseMatches(key, known, params, parts, run, cuts, sigma)
    ensures Instance(key, run, Expand(known, params, parts), sigma)
    decreases |parts|
  {
    if parts != [] {
      hide Instance, PartMatches, ExpandPart;
      assert Last(parts) in parts;
      var from := if |cuts| == 1 then 0 else cuts[|cuts| - 2];
      JoinComposite(key, known, params, Init(parts), run[..from], Init(cuts), sigma);
      PartInstance(key, known, params, Last(parts), run[from..], sigma);
      var before := Expand(known, params, Init(parts));
      InstanceLength(key, run[..from], before, sigma);
      InstanceLength(key, run[from..], ExpandPart(known, params, Last(parts)), sigma);
      InstanceConcat(key, run, before, ExpandPart(known, params, Last(parts)), sigma);
    }
  }

  /** A composite's expansion is matched exactly by runs that can be cut into stretches
      matching its parts, each callee under the composed substitution. */
  lemma CompositeIsItsParts(key: string -> string, known: map<string, Macro>, params: seq<string>,
                            parts: seq<Part>, run: seq<Stmt>, sigma: Substitution)
    requires forall p :: p in parts ==> PartOk(known, p)
    requires forall m :: m in known ==> ClosedSpec(known[m].params, known[m].spec)
    ensures Instance(key, run, Expand(known, params, parts), sigma)
       <==> exists cuts :: PartwiseMatches(key, known, params, parts, run, cuts, sigma)
  {
    if Instance(key, run, Expand(known, params, parts), sigma) {
      var cuts := CutComposite(key, known, params, parts, run, sigma);
    }
    if exists cuts :: PartwiseMatches(key, known, params, parts, run, cuts, sigma) {
      var cuts :| PartwiseMatches(key, known, params, parts, run, cuts, sigma);
      JoinComposite(key, known, params, parts, run, cuts, sigma);
    }
  }

  /** A part that calls a macro of the library which is itself a unit. */
  ghost predicate UnitCall(lib: Library, known: map<string, Macro>, p: Part) {
    && p.Call? && p.callee in known
    && known[p.callee] in lib.macros && HasCop2(lib.isCop2, known[p.callee].spec)
  }

  /** Where every callee is itself a unit, a run that matches the composite is covered by
      its callees, one unit a call. */
  lemma {:induction false} CompositeCovers(lib: Library, known: map<string, Macro>, params: seq<string>,
                                           parts: seq<Part>, all: seq<Stmt>, run: seq<Stmt>, cuts: seq<nat>,
                                           sigma: Substitution) returns (pieces: seq<(nat, nat)>)
    requires forall p :: p in parts ==> PartOk(known, p) && UnitCall(lib, known, p)
    requires |run| <= |all| && run == all[..|run|]
    requires PartwiseMatches(lib.key, known, params, parts, run, cuts, sigma)
    ensures Covers(lib, all, pieces, |run|) && |pieces| == |parts|
    decreases |parts|
  {
    hide PartMatches, IsUnit;
    if parts == [] {
      pieces := [];
    } else {
      assert Last(parts) in parts;
      var from: nat := if |cuts| == 1 then 0 else cuts[|cuts| - 2];
      var before := CompositeCovers(lib, known, params, Init(parts), all, run[..from], Init(cuts), sigma);
      CallIsUnit(lib, known, params, Last(parts), run[from..], sigma);
      assert run[from..] == all[from..|run|];
      CoverExtends(lib, all, before, from, |run|);
      pieces := before + [(from, |run|)];
    }
  }

  lemma CallIsUnit(lib: Library, known: map<string, Macro>, params: seq<string>, p: Part, run: seq<Stmt>,
                   sigma: Substitution)
    requires PartOk(known, p) && UnitCall(lib, known, p) && PartMatches(lib.key, known, params, p, run, sigma)
    ensures IsUnit(lib, run) && run != []
  {
    var m := known[p.callee];
    var k :| 0 <= k < |lib.macros| && lib.macros[k] == m;
    assert Matching(lib.key, run, m.spec);
    assert Names(lib, run, k);
  }

  /** A run that is one unit as a whole is split into just that one, however many units
      its parts would make: the whole composite wins over its callees. */
  lemma WholeUnitWins(lib: Library, run: seq<Stmt>, count: nat)
    requires run != [] && IsUnit(lib, run) && CoversInFewest(lib, run, |run|, count)
    ensures count == 1
  {
    hide IsUnit;
    assert run[0..|run|] == run && Covers(lib, run, [], 0);
    hide Covers;
    CoverExtends(lib, run, [], 0, |run|);
    assert [] + [(0, |run|)] == [(0, |run|)];
    var pieces :| Covers(lib, run, pieces, |run|) && |pieces| == count;
  }
}
