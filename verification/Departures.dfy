/**
 The departures audit: over a commit graph, every address that any audited version of the
 queue listed and the working tree does not is given the newest point at which it left, and
 is a violation unless the record made last on the body it left with is a PASS.

 A version is the items of one committed queue, by address, as far as the addresses can be
 told. What the sources at a commit give is an arbitrary function (`Sources`).
 */
module Departures {
  import opened Prelude
  import opened Sorting
  import opened ReviewLog
  import opened ReviewMerge

  type Commit = nat

  type Name = nat

  /** An item recovered from a version that cannot be parsed has no name. */
  datatype Item = Item(func: Option<Name>, file: Option<Name>)

  /** `full`: it lists something, and gives every item its address. `faulty`: it gives no
      address at all, or holds an item that no file of its commit gives an address. */
  datatype Version = Version(items: map<Addr, Item>, full: bool, faulty: bool)

  /** The log, newest first; the parents of each commit; its version, None when it has none. */
  datatype History = History(log: seq<Commit>, parents: map<Commit, seq<Commit>>, blob: map<Commit, Option<Version>>)

  /** A commit comes before its parents, and everything is an ancestor of the first. */
  ghost predicate Valid(h: History) {
    && Distinct(h.log)
    && (forall c :: c in h.log ==> c in h.parents && c in h.blob)
    && (forall i :: 0 <= i < |h.log| ==> ParentsLater(h, i))
    && (forall i :: 0 < i < |h.log| ==> HasChild(h, i))
  }

  ghost predicate ParentsLater(h: History, i: nat)
    requires i < |h.log| && h.log[i] in h.parents
  {
    forall p :: p in h.parents[h.log[i]] ==> p in h.log[i + 1..]
  }

  ghost predicate HasChild(h: History, i: nat)
    requires i < |h.log| && forall c :: c in h.log ==> c in h.parents
  {
    exists j :: 0 <= j < i && h.log[i] in h.parents[h.log[j]]
  }

  function ItemsOf(v: Option<Version>): map<Addr, Item> {
    match v
    case None => map[]
    case Some(version) => version.items
  }

  /** What the queue lists at a commit. */
  function At(h: History, c: Commit): map<Addr, Item> {
    if c in h.blob then ItemsOf(h.blob[c]) else map[]
  }

  /* ---- The raw log: one line per parent whose version differs ---- */

  datatype Diff = Diff(c: Commit, src: Option<Version>, dst: Option<Version>)

  function ParentDiffs(h: History, c: Commit, ps: seq<Commit>): seq<Diff>
    requires c in h.blob && forall p :: p in ps ==> p in h.blob
  {
    if ps == [] then [] else
    var d := Diff(c, h.blob[Last(ps)], h.blob[c]);
    ParentDiffs(h, c, Init(ps)) + (if d.src == d.dst then [] else [d])
  }

  function CommitDiffs(h: History, c: Commit): seq<Diff>
    requires c in h.parents && c in h.blob && forall p :: p in h.parents[c] ==> p in h.blob
  {
    if h.parents[c] == [] then if h.blob[c].None? then [] else [Diff(c, None, h.blob[c])]
    else ParentDiffs(h, c, h.parents[c])
  }

  function Diffs(h: History, n: nat): seq<Diff>
    requires Valid(h) && n <= |h.log|
  {
    if n == 0 then []
    else
      ParentsInLog(h, n - 1);
      Diffs(h, n - 1) + CommitDiffs(h, h.log[n - 1])
  }

  lemma ParentsInLog(h: History, i: nat)
    requires Valid(h) && i < |h.log|
    ensures forall p :: p in h.parents[h.log[i]] ==> p in h.log && p in h.blob
  {
    assert ParentsLater(h, i);
  }

  /** A line of the log: a parent's version, or none for a root, against the commit's own. */
  ghost predicate Line(h: History, d: Diff) {
    && d.c in h.log && d.c in h.parents && d.c in h.blob && d.dst == h.blob[d.c] && d.src != d.dst
    && (if h.parents[d.c] == [] then d.src == None
        else exists p :: p in h.parents[d.c] && p in h.blob && d.src == h.blob[p])
  }

  lemma {:induction false} ParentDiffsAre(h: History, c: Commit, ps: seq<Commit>, d: Diff)
    requires c in h.blob && forall p :: p in ps ==> p in h.blob
    ensures d in ParentDiffs(h, c, ps) <==>
      d.c == c && d.dst == h.blob[c] && d.src != d.dst && exists p :: p in ps && d.src == h.blob[p]
  {
    if ps != [] {
      ParentDiffsAre(h, c, Init(ps), d);
      assert ps == Init(ps) + [Last(ps)];
    }
  }

  lemma {:induction false} DiffsAre(h: History, n: nat, d: Diff)
    requires Valid(h) && n <= |h.log|
    ensures d in Diffs(h, n) <==> Line(h, d) && d.c in h.log[..n]
  {
    hide Valid, Line, CommitDiffs;
    if n > 0 {
      ValidUnfolds(h);
      ParentsInLog(h, n - 1);
      DiffsAre(h, n - 1, d);
      var c := h.log[n - 1];
      CommitDiffsAre(h, c, d);
      assert h.log[..n] == h.log[..n - 1] + [c];
    }
  }

  lemma CommitDiffsAre(h: History, c: Commit, d: Diff)
    requires c in h.log && c in h.parents && c in h.blob && forall p :: p in h.parents[c] ==> p in h.blob
    ensures d in CommitDiffs(h, c) <==> Line(h, d) && d.c == c
  {
    ParentDiffsAre(h, c, h.parents[c], d);
  }

  lemma ValidUnfolds(h: History)
    requires Valid(h)
    ensures Distinct(h.log) && forall c :: c in h.log ==> c in h.parents && c in h.blob
  {
  }

  /** The lines come in the order of the log. */
  lemma {:induction false} DiffsOrdered(h: History, n: nat, i: nat, j: nat)
    requires Valid(h) && n <= |h.log| && i < j < |Diffs(h, n)| && Diffs(h, n)[i].c != Diffs(h, n)[j].c
    ensures exists x, y :: 0 <= x < y < n && h.log[x] == Diffs(h, n)[i].c && h.log[y] == Diffs(h, n)[j].c
  {
    hide Valid, Line, CommitDiffs, Distinct;
    if n > 0 {
      ValidUnfolds(h);
      ParentsInLog(h, n - 1);
      var fewer, last := Diffs(h, n - 1), CommitDiffs(h, h.log[n - 1]);
      if j < |fewer| {
        DiffsOrdered(h, n - 1, i, j);
      } else {
        assert Diffs(h, n)[j] == last[j - |fewer|];
        CommitDiffsAre(h, h.log[n - 1], Diffs(h, n)[j]);
        if i < |fewer| {
          LoggedBefore(h, n - 1, i);
        } else {
          assert Diffs(h, n)[i] == last[i - |fewer|];
          CommitDiffsAre(h, h.log[n - 1], Diffs(h, n)[i]);
        }
      }
    }
  }

  lemma LoggedBefore(h: History, n: nat, i: nat)
    requires Valid(h) && n <= |h.log| && i < |Diffs(h, n)|
    ensures exists x :: 0 <= x < n && h.log[x] == Diffs(h, n)[i].c
  {
    DiffsAre(h, n, Diffs(h, n)[i]);
    var x :| 0 <= x < |h.log[..n]| && h.log[..n][x] == Diffs(h, n)[i].c;
  }

  /* ---- Ancestry ---- */

  /** Each commit of the path is a parent of the next. */
  ghost predicate Path(h: History, path: seq<Commit>) {
    && path != [] && (forall c :: c in path ==> c in h.log && c in h.parents)
    && forall i :: 0 <= i < |path| - 1 ==> path[i] in h.parents[path[i + 1]]
  }

  /** The anchor, and what descends from it. */
  ghost predicate Audited(h: History, anchor: Commit, c: Commit) {
    exists path: seq<Commit> :: Path(h, path) && path[0] == anchor && Last(path) == c
  }

  lemma AnchorIsAudited(h: History, anchor: Commit)
    requires Valid(h) && anchor in h.log
    ensures Audited(h, anchor, anchor)
  {
    assert Path(h, [anchor]);
  }

  lemma ChildIsAudited(h: History, anchor: Commit, p: Commit, c: Commit)
    requires Valid(h) && Audited(h, anchor, p) && c in h.log && p in h.parents[c]
    ensures Audited(h, anchor, c)
  {
    var path: seq<Commit> :| Path(h, path) && path[0] == anchor && Last(path) == p;
    assert Path(h, path + [c]);
  }

  lemma AuditedHasParent(h: History, anchor: Commit, c: Commit)
    requires Valid(h) && Audited(h, anchor, c) && c != anchor
    ensures exists p :: p in h.parents[c] && Audited(h, anchor, p)
  {
    var path: seq<Commit> :| Path(h, path) && path[0] == anchor && Last(path) == c;
    assert |path| > 1;
    assert Path(h, Init(path)) && path[|path| - 2] in h.parents[path[|path| - 1]];
    assert Audited(h, anchor, Last(Init(path)));
  }

  lemma AuditedInLog(h: History, anchor: Commit, c: Commit)
    requires Audited(h, anchor, c)
    ensures c in h.log
  {
  }

  /** Anything closed under children that holds the anchor holds every audited commit. */
  lemma {:induction false} ClosedHoldsPath(h: History, s: set<Commit>, path: seq<Commit>)
    requires Path(h, path) && path[0] in s
    requires forall p, c :: p in s && c in h.log && c in h.parents && p in h.parents[c] ==> c in s
    ensures Last(path) in s
    decreases |path|
  {
    if |path| > 1 {
      assert Path(h, Init(path));
      ClosedHoldsPath(h, s, Init(path));
      assert path[|path| - 2] in h.parents[path[|path| - 1]];
    }
  }

  function Children(children: map<Commit, seq<Commit>>, p: Commit): seq<Commit> {
    if p in children then children[p] else []
  }

  lemma NoChildren()
    ensures forall p :: Children(map[], p) == []
  {
  }

  lemma ChildAdded(children: map<Commit, seq<Commit>>, p: Commit, c: Commit)
    ensures var n := children[p := Children(children, p) + [c]];
      forall q, x :: x in Children(n, q) <==> x in Children(children, q) || (q == p && x == c)
  {
  }

  method ChildrenOf(h: History) returns (children: map<Commit, seq<Commit>>)
    requires Valid(h)
    ensures forall p, c :: c in Children(children, p) <==> c in h.log && p in h.parents[c]
  {
    hide Distinct, ParentsLater, HasChild, Children;
    NoChildren();
    children := map[];
    var i := 0;
    while i < |h.log|
      invariant 0 <= i <= |h.log|
      invariant forall p, c :: c in Children(children, p) <==> c in h.log[..i] && p in h.parents[c]
    {
      var c, k := h.log[i], 0;
      var ps := h.parents[c];
      while k < |ps|
        invariant 0 <= k <= |ps|
        invariant forall p, x :: x in Children(children, p) <==>
          (x in h.log[..i] && p in h.parents[x]) || (x == c && p in ps[..k])
      {
        ChildAdded(children, ps[k], c);
        children := children[ps[k] := Children(children, ps[k]) + [c]];
        assert ps[..k + 1] == ps[..k] + [ps[k]];
        k := k + 1;
      }
      assert ps[..k] == ps && h.log[..i + 1] == h.log[..i] + [c];
      i := i + 1;
    }
    assert h.log[..i] == h.log;
  }

  /** Everything met is audited, and the children of what is done are met. */
  ghost predicate Frontier(h: History, children: map<Commit, seq<Commit>>, anchor: Commit,
                           done: set<Commit>, stack: seq<Commit>) {
    && (forall c :: c in done || c in stack ==> Audited(h, anchor, c))
    && (anchor in done || anchor in stack)
    && (forall p, c :: p in done && c in Children(children, p) ==> c in done || c in stack)
  }

  lemma FrontierMoves(h: History, children: map<Commit, seq<Commit>>, anchor: Commit,
                      done: set<Commit>, rest: seq<Commit>, c: Commit)
    requires Valid(h) && Frontier(h, children, anchor, done, rest + [c])
    requires forall p, x :: x in Children(children, p) <==> x in h.log && p in h.parents[x]
    ensures c in h.log
    ensures c in done ==> Frontier(h, children, anchor, done, rest)
    ensures Frontier(h, children, anchor, done + {c}, rest + Children(children, c))
  {
    hide Valid, Audited, Children;
    assert c in rest + [c];
    AuditedInLog(h, anchor, c);
    ChildrenAudited(h, anchor, c);
  }

  /** The worklist from the anchor. */
  method AuditedCommits(h: History, anchor: Commit) returns (audited: set<Commit>)
    requires Valid(h) && anchor in h.log
    ensures forall c :: c in audited <==> Audited(h, anchor, c)
  {
    hide Valid, Audited, Children, Frontier;
    var children := ChildrenOf(h);
    audited := {};
    var stack := [anchor];
    FrontierStarts(h, children, anchor);
    ghost var all := set c | c in h.log;
    while stack != []
      invariant Frontier(h, children, anchor, audited, stack)
      decreases |all - audited|, |stack|
    {
      var c, rest := Last(stack), Init(stack);
      assert stack == rest + [c];
      FrontierMoves(h, children, anchor, audited, rest, c);
      stack := rest;
      if c !in audited {
        FewerLeft(all, audited, c);
        audited, stack := audited + {c}, rest + Children(children, c);
      }
    }
    FrontierEnds(h, children, anchor, audited);
  }

  lemma FrontierStarts(h: History, children: map<Commit, seq<Commit>>, anchor: Commit)
    requires Valid(h) && anchor in h.log
    ensures Frontier(h, children, anchor, {}, [anchor])
  {
    AnchorIsAudited(h, anchor);
  }

  lemma FrontierEnds(h: History, children: map<Commit, seq<Commit>>, anchor: Commit, done: set<Commit>)
    requires Valid(h) && Frontier(h, children, anchor, done, [])
    requires forall p, x :: x in Children(children, p) <==> x in h.log && p in h.parents[x]
    ensures forall c :: c in done <==> Audited(h, anchor, c)
  {
    hide Valid, Audited, Children;
    forall c | Audited(h, anchor, c)
      ensures c in done
    {
      ClosedHoldsAll(h, anchor, done, c);
    }
  }

  lemma ChildrenAudited(h: History, anchor: Commit, p: Commit)
    requires Valid(h) && Audited(h, anchor, p)
    ensures forall c :: c in h.log && p in h.parents[c] ==> Audited(h, anchor, c)
  {
    forall c | c in h.log && p in h.parents[c]
      ensures Audited(h, anchor, c)
    {
      ChildIsAudited(h, anchor, p, c);
    }
  }

  lemma FewerLeft(all: set<Commit>, done: set<Commit>, c: Commit)
    requires c in all && c !in done
    ensures |all - (done + {c})| < |all - done|
  {
    assert all - done == (all - (done + {c})) + {c};
  }

  lemma ClosedHoldsAll(h: History, anchor: Commit, s: set<Commit>, c: Commit)
    requires Valid(h) && Audited(h, anchor, c) && anchor in s
    requires forall p, x :: p in s && x in h.log && p in h.parents[x] ==> x in s
    ensures c in s
  {
    var path: seq<Commit> :| Path(h, path) && path[0] == anchor && Last(path) == c;
    ClosedHoldsPath(h, s, path);
  }

  /* ---- The anchor ---- */

  predicate Full(v: Option<Version>) {
    v.Some? && v.value.full
  }

  /** `c` comes before `d` in the log: it is the newer one. */
  ghost predicate Newer(h: History, c: Commit, d: Commit) {
    exists x, y :: 0 <= x < y < |h.log| && h.log[x] == c && h.log[y] == d
  }

  /** The oldest logged change that gives a full version. */
  ghost predicate IsAnchor(h: History, c: Commit) {
    && (exists d :: Line(h, d) && d.c == c && Full(d.dst))
    && (forall d :: Line(h, d) && Full(d.dst) && d.c != c ==> Newer(h, d.c, c))
  }

  method FindAnchor(h: History) returns (anchor: Option<Commit>)
    requires Valid(h)
    ensures anchor.None? <==> forall d :: Line(h, d) ==> !Full(d.dst)
    ensures anchor.Some? ==> IsAnchor(h, anchor.value)
  {
    hide Valid, Diffs, Line;
    var diffs := Diffs(h, |h.log|);
    DiffsAreLines(h);
    anchor := None;
    ghost var k := 0;
    var i := 0;
    while i < |diffs|
      invariant 0 <= i <= |diffs|
      invariant anchor.None? ==> forall j :: 0 <= j < i ==> !Full(diffs[j].dst)
      invariant anchor.Some? ==> 0 <= k < i && anchor.value == diffs[k].c && Full(diffs[k].dst)
      invariant anchor.Some? ==> forall j :: k < j < i ==> !Full(diffs[j].dst)
    {
      if Full(diffs[i].dst) {
        anchor := Some(diffs[i].c);
        k := i;
      }
      i := i + 1;
    }
    if anchor.Some? { LastFullIsAnchor(h, k); }
  }

  lemma DiffsAreLines(h: History)
    requires Valid(h)
    ensures forall d :: d in Diffs(h, |h.log|) <==> Line(h, d)
  {
    assert h.log[..|h.log|] == h.log;
    forall d
      ensures d in Diffs(h, |h.log|) <==> Line(h, d)
    {
      DiffsAre(h, |h.log|, d);
    }
  }

  lemma LastFullIsAnchor(h: History, k: nat)
    requires Valid(h) && k < |Diffs(h, |h.log|)| && Full(Diffs(h, |h.log|)[k].dst)
    requires forall j :: k < j < |Diffs(h, |h.log|)| ==> !Full(Diffs(h, |h.log|)[j].dst)
    ensures IsAnchor(h, Diffs(h, |h.log|)[k].c)
  {
    hide Valid, Diffs, Line;
    var diffs := Diffs(h, |h.log|);
    DiffsAreLines(h);
    forall d | Line(h, d) && Full(d.dst) && d.c != diffs[k].c
      ensures Newer(h, d.c, diffs[k].c)
    {
      var j :| 0 <= j < |diffs| && diffs[j] == d;
      DiffsOrdered(h, |h.log|, j, k);
    }
    assert diffs[k] in diffs;
  }

  /* ---- What was listed, and where it left ---- */

  ghost predicate Listed(h: History, anchor: Commit, a: Addr) {
    exists c :: Audited(h, anchor, c) && a in At(h, c)
  }

  /** `a` leaves the queue at `c`: a parent lists it, the commit does not. */
  ghost predicate LeavesAt(h: History, anchor: Commit, a: Addr, c: Commit) {
    && Audited(h, anchor, c) && c in h.parents && a !in At(h, c)
    && exists p :: p in h.parents[c] && a in At(h, p)
  }

  predicate Adds(d: Diff, audited: set<Commit>, a: Addr) {
    d.c in audited && d.dst.Some? && a in ItemsOf(d.dst)
  }

  predicate Drops(d: Diff, audited: set<Commit>, a: Addr) {
    d.c in audited && d.src.Some? && a in ItemsOf(d.src) && a !in ItemsOf(d.dst)
  }

  lemma ParentIsOlder(h: History, i: nat, p: Commit) returns (j: nat)
    requires Valid(h) && i < |h.log| && p in h.parents[h.log[i]]
    ensures i < j < |h.log| && h.log[j] == p
  {
    assert ParentsLater(h, i);
    var k :| 0 <= k < |h.log[i + 1..]| && h.log[i + 1..][k] == p;
    j := i + 1 + k;
  }

  /** Reading only the changes misses no address of any audited version. */
  lemma {:induction false} SomeChangeLists(h: History, anchor: Commit, a: Addr, i: nat)
    requires Valid(h) && IsAnchor(h, anchor) && i < |h.log|
    requires Audited(h, anchor, h.log[i]) && a in At(h, h.log[i])
    ensures exists d :: Line(h, d) && Audited(h, anchor, d.c) && d.dst.Some? && a in ItemsOf(d.dst)
    decreases |h.log| - i
  {
    hide Valid, Audited;
    var c := h.log[i];
    ValidUnfolds(h);
    if c == anchor {
      var d :| Line(h, d) && d.c == anchor && Full(d.dst);
    } else {
      AuditedHasParent(h, anchor, c);
      var p :| p in h.parents[c] && Audited(h, anchor, p);
      var j := ParentIsOlder(h, i, p);
      if h.blob[p] == h.blob[c] {
        SomeChangeLists(h, anchor, a, j);
      } else {
        assert Line(h, Diff(c, h.blob[p], h.blob[c]));
      }
    }
  }

  /** Whatever an audited version listed and the newest does not left at some audited commit. */
  lemma {:induction false} SomewhereItLeft(h: History, anchor: Commit, a: Addr, i: nat)
    requires Valid(h) && i < |h.log| && Audited(h, anchor, h.log[i])
    requires a in At(h, h.log[i]) && a !in At(h, h.log[0])
    ensures exists c :: LeavesAt(h, anchor, a, c)
    decreases i
  {
    hide Audited;
    assert HasChild(h, i);
    var j :| 0 <= j < i && h.log[i] in h.parents[h.log[j]];
    ChildIsAudited(h, anchor, h.log[i], h.log[j]);
    if a in At(h, h.log[j]) {
      SomewhereItLeft(h, anchor, a, j);
    } else {
      assert LeavesAt(h, anchor, a, h.log[j]);
    }
  }

  /** No departed address is without a departure point. */
  lemma EveryDepartureHasAPoint(h: History, anchor: Commit, a: Addr)
    requires Valid(h) && Listed(h, anchor, a)
    ensures h.log != []
    ensures a in At(h, h.log[0]) || exists c :: LeavesAt(h, anchor, a, c)
  {
    hide Valid, Audited;
    var c :| Audited(h, anchor, c) && a in At(h, c);
    AuditedInLog(h, anchor, c);
    var i :| 0 <= i < |h.log| && h.log[i] == c;
    if a !in At(h, h.log[0]) { SomewhereItLeft(h, anchor, a, i); }
  }

  lemma ListedIsAdded(h: History, anchor: Commit, audited: set<Commit>, a: Addr)
    requires Valid(h) && IsAnchor(h, anchor) && forall c :: c in audited <==> Audited(h, anchor, c)
    ensures Listed(h, anchor, a) <==> exists d :: Line(h, d) && Adds(d, audited, a)
  {
    hide Valid, Audited, IsAnchor;
    if Listed(h, anchor, a) {
      var c :| Audited(h, anchor, c) && a in At(h, c);
      AuditedInLog(h, anchor, c);
      var i :| 0 <= i < |h.log| && h.log[i] == c;
      SomeChangeLists(h, anchor, a, i);
    }
    if d :| Line(h, d) && Adds(d, audited, a) { assert Audited(h, anchor, d.c) && a in At(h, d.c); }
  }

  lemma LeavingIsDropped(h: History, anchor: Commit, audited: set<Commit>, a: Addr, c: Commit)
    requires Valid(h) && forall x :: x in audited <==> Audited(h, anchor, x)
    ensures LeavesAt(h, anchor, a, c) <==> exists d :: Line(h, d) && d.c == c && Drops(d, audited, a)
  {
    hide Valid, Audited;
    ValidUnfolds(h);
    if LeavesAt(h, anchor, a, c) {
      AuditedInLog(h, anchor, c);
      var p :| p in h.parents[c] && a in At(h, p);
      assert Line(h, Diff(c, h.blob[p], h.blob[c]));
      assert Drops(Diff(c, h.blob[p], h.blob[c]), audited, a);
    }
    if d :| Line(h, d) && d.c == c && Drops(d, audited, a) {
      var p :| p in h.parents[c] && p in h.blob && d.src == h.blob[p];
      assert a in At(h, p);
    }
  }

  datatype Point = InWorkTree | InCommit(c: Commit)

  /** The newest commit at which `a` left. */
  ghost predicate NewestPoint(h: History, anchor: Commit, a: Addr, c: Commit) {
    LeavesAt(h, anchor, a, c) && forall d :: LeavesAt(h, anchor, a, d) && d != c ==> Newer(h, c, d)
  }

  /** The departure point, with the item as it was just before: the working tree when the
      newest version still lists the address, else the newest commit that dropped it. */
  ghost predicate IsPoint(h: History, anchor: Commit, a: Addr, point: Point, item: Item)
    requires h.log != []
  {
    if a in At(h, h.log[0]) then point == InWorkTree && item == At(h, h.log[0])[a]
    else point.InCommit? && NewestPoint(h, anchor, a, point.c) && WasListedAs(h, a, point.c, item)
  }

  ghost predicate WasListedAs(h: History, a: Addr, c: Commit, item: Item) {
    c in h.parents && exists p :: p in h.parents[c] && a in At(h, p) && item == At(h, p)[a]
  }

  /** The addresses of all audited versions, less those queued now. The items kept with them
      serve the program only for an address without a departure point; there is none. */
  method Departed(h: History, anchor: Commit, audited: set<Commit>, current: set<Addr>) returns (departed: set<Addr>)
    requires Valid(h) && IsAnchor(h, anchor) && forall c :: c in audited <==> Audited(h, anchor, c)
    ensures forall a :: a in departed <==> a !in current && Listed(h, anchor, a)
  {
    hide Valid, Audited, IsAnchor, Diffs, Line, Listed, ItemsOf;
    var diffs := Diffs(h, |h.log|);
    DiffsAreLines(h);
    var listed: set<Addr> := {};
    var i := 0;
    while i < |diffs|
      invariant 0 <= i <= |diffs|
      invariant forall a :: a in listed <==> exists k :: 0 <= k < i && Adds(diffs[k], audited, a)
    {
      if diffs[i].c in audited && diffs[i].dst.Some? {
        listed := listed + ItemsOf(diffs[i].dst).Keys;
      }
      i := i + 1;
    }
    departed := listed - current;
    forall a
      ensures a in listed <==> Listed(h, anchor, a)
    {
      ListedIsAdded(h, anchor, audited, a);
      if d :| Line(h, d) && Adds(d, audited, a) { var k :| 0 <= k < |diffs| && diffs[k] == d; }
    }
  }

  /** A change to a version that is itself a violation. */
  ghost predicate Faulty(h: History, c: Commit) {
    exists d :: Line(h, d) && d.c == c && d.dst.Some? && d.dst.value.faulty
  }

  method Faults(h: History, audited: set<Commit>) returns (faults: set<Commit>)
    requires Valid(h)
    ensures forall c :: c in faults <==> c in audited && Faulty(h, c)
  {
    hide Valid, Diffs, Line;
    var diffs := Diffs(h, |h.log|);
    DiffsAreLines(h);
    faults := {};
    var i := 0;
    while i < |diffs|
      invariant 0 <= i <= |diffs|
      invariant forall c :: c in faults <==>
        c in audited && exists k :: 0 <= k < i && diffs[k].c == c && diffs[k].dst.Some? && diffs[k].dst.value.faulty
    {
      if diffs[i].c in audited && diffs[i].dst.Some? && diffs[i].dst.value.faulty { faults := faults + {diffs[i].c}; }
      i := i + 1;
    }
    forall c | Faulty(h, c)
      ensures exists k :: 0 <= k < |diffs| && diffs[k].c == c && diffs[k].dst.Some? && diffs[k].dst.value.faulty
    {
      var d :| Line(h, d) && d.c == c && d.dst.Some? && d.dst.value.faulty;
      var k :| 0 <= k < |diffs| && diffs[k] == d;
    }
    assert forall k :: 0 <= k < |diffs| ==> diffs[k] in diffs;
  }

  /** The first line, hence the newest change, that drops `a`. */
  ghost predicate FirstDrop(diffs: seq<Diff>, n: nat, audited: set<Commit>, a: Addr, k: nat) {
    k < n <= |diffs| && Drops(diffs[k], audited, a) && forall j :: 0 <= j < k ==> !Drops(diffs[j], audited, a)
  }

  /** What the pass over the first `n` lines has found. */
  ghost predicate Found(diffs: seq<Diff>, n: nat, audited: set<Commit>, left: map<Addr, (Point, Item)>, a: Addr)
    requires n <= |diffs|
  {
    if a in left then exists k: nat :: FoundAt(diffs, n, audited, left[a], a, k)
    else forall k :: 0 <= k < n ==> !Drops(diffs[k], audited, a)
  }

  ghost predicate FoundAt(diffs: seq<Diff>, n: nat, audited: set<Commit>, found: (Point, Item), a: Addr, k: nat) {
    FirstDrop(diffs, n, audited, a, k) && found == (InCommit(diffs[k].c), ItemsOf(diffs[k].src)[a])
  }

  lemma FoundNext(diffs: seq<Diff>, n: nat, audited: set<Commit>, left: map<Addr, (Point, Item)>, a: Addr)
    requires n < |diffs| && Found(diffs, n, audited, left, a)
    ensures a !in left && Drops(diffs[n], audited, a) ==>
      Found(diffs, n + 1, audited, left[a := (InCommit(diffs[n].c), ItemsOf(diffs[n].src)[a])], a)
    ensures a in left || !Drops(diffs[n], audited, a) ==> Found(diffs, n + 1, audited, left, a)
  {
    hide ItemsOf;
    if a in left {
      var k: nat :| FoundAt(diffs, n, audited, left[a], a, k);
      assert FoundAt(diffs, n + 1, audited, left[a], a, k);
    } else if Drops(diffs[n], audited, a) {
      assert FoundAt(diffs, n + 1, audited, (InCommit(diffs[n].c), ItemsOf(diffs[n].src)[a]), a, n);
    }
  }

  /** Found depends on nothing but what `left` says of `a`. */
  lemma FoundSame(diffs: seq<Diff>, n: nat, audited: set<Commit>,
                  s: map<Addr, (Point, Item)>, t: map<Addr, (Point, Item)>, a: Addr)
    requires n <= |diffs| && Found(diffs, n, audited, s, a)
    requires (a in s <==> a in t) && (a in s ==> s[a] == t[a])
    ensures Found(diffs, n, audited, t, a)
  {
    hide Drops, FoundAt;
  }

  /** The pass over the changes, newest first. */
  method PointsInCommits(h: History, audited: set<Commit>, wanted: set<Addr>) returns (left: map<Addr, (Point, Item)>)
    requires Valid(h)
    ensures left.Keys <= wanted
    ensures forall a :: a in wanted ==> Found(Diffs(h, |h.log|), |Diffs(h, |h.log|)|, audited, left, a)
  {
    hide Valid, Diffs, ItemsOf, Found;
    var diffs := Diffs(h, |h.log|);
    left := map[];
    assert forall a :: Found(diffs, 0, audited, left, a) by { NothingFound(diffs, audited); }
    var i := 0;
    while i < |diffs|
      invariant 0 <= i <= |diffs| && left.Keys <= wanted
      invariant forall a :: a in wanted ==> Found(diffs, i, audited, left, a)
    {
      var d := diffs[i];
      var more := map a | a in wanted && a !in left && Drops(d, audited, a) :: (InCommit(d.c), ItemsOf(d.src)[a]);
      forall a | a in wanted
        ensures Found(diffs, i + 1, audited, left + more, a)
      {
        FoundNext(diffs, i, audited, left, a);
        if a in more {
          FoundSame(diffs, i + 1, audited, left[a := more[a]], left + more, a);
        } else {
          FoundSame(diffs, i + 1, audited, left, left + more, a);
        }
      }
      left := left + more;
      i := i + 1;
    }
  }

  lemma NothingFound(diffs: seq<Diff>, audited: set<Commit>)
    ensures forall a :: Found(diffs, 0, audited, map[], a)
  {
  }

  lemma FoundIsPoint(h: History, anchor: Commit, audited: set<Commit>, left: map<Addr, (Point, Item)>, a: Addr)
    requires Valid(h) && (forall c :: c in audited <==> Audited(h, anchor, c))
    requires Listed(h, anchor, a) && Found(Diffs(h, |h.log|), |Diffs(h, |h.log|)|, audited, left, a)
    requires h.log != [] && a !in At(h, h.log[0])
    ensures a in left && IsPoint(h, anchor, a, left[a].0, left[a].1)
  {
    hide Valid, Audited, Diffs, Line, ItemsOf, LeavesAt, Listed, Newer;
    var diffs := Diffs(h, |h.log|);
    DiffsAreLines(h);
    EveryDepartureHasAPoint(h, anchor, a);
    var c :| LeavesAt(h, anchor, a, c);
    LeavingIsDropped(h, anchor, audited, a, c);
    var d :| Line(h, d) && d.c == c && Drops(d, audited, a);
    var j :| 0 <= j < |diffs| && diffs[j] == d;
    assert a in left;
    var k: nat :| FoundAt(diffs, |diffs|, audited, left[a], a, k);
    FirstDropIsNewest(h, anchor, audited, a, k);
  }

  lemma FirstDropIsNewest(h: History, anchor: Commit, audited: set<Commit>, a: Addr, k: nat)
    requires Valid(h) && (forall c :: c in audited <==> Audited(h, anchor, c))
    requires FirstDrop(Diffs(h, |h.log|), |Diffs(h, |h.log|)|, audited, a, k)
    ensures Diffs(h, |h.log|)[k].src.Some? && a in ItemsOf(Diffs(h, |h.log|)[k].src)
    ensures NewestPoint(h, anchor, a, Diffs(h, |h.log|)[k].c)
    ensures WasListedAs(h, a, Diffs(h, |h.log|)[k].c, ItemsOf(Diffs(h, |h.log|)[k].src)[a])
  {
    hide Valid, Audited, Diffs, ItemsOf, LeavesAt, Line, WasListedAs;
    var diffs := Diffs(h, |h.log|);
    DiffsAreLines(h);
    assert diffs[k] in diffs;
    LeavingIsDropped(h, anchor, audited, a, diffs[k].c);
    forall c | LeavesAt(h, anchor, a, c) && c != diffs[k].c
      ensures Newer(h, diffs[k].c, c)
    {
      LeavingIsDropped(h, anchor, audited, a, c);
      var d :| Line(h, d) && d.c == c && Drops(d, audited, a);
      var j :| 0 <= j < |diffs| && diffs[j] == d;
      DiffsOrdered(h, |h.log|, k, j);
    }
    ListedInParent(h, diffs[k], a);
  }

  lemma ListedInParent(h: History, d: Diff, a: Addr)
    requires Valid(h) && Line(h, d) && d.src.Some? && a in ItemsOf(d.src)
    ensures WasListedAs(h, a, d.c, ItemsOf(d.src)[a])
  {
    var p :| p in h.parents[d.c] && p in h.blob && d.src == h.blob[p];
    assert At(h, p) == ItemsOf(d.src);
  }

  /** Where each departed address last left. */
  method LastLeft(h: History, anchor: Commit, audited: set<Commit>, departed: set<Addr>)
    returns (left: map<Addr, (Point, Item)>)
    requires Valid(h) && h.log != [] && (forall c :: c in audited <==> Audited(h, anchor, c))
    requires forall a :: a in departed ==> Listed(h, anchor, a)
    ensures left.Keys == departed
    ensures forall a :: a in left ==> IsPoint(h, anchor, a, left[a].0, left[a].1)
  {
    hide Valid, Audited, Diffs, Listed, Found, At, LeavesAt, NewestPoint, WasListedAs;
    var head := At(h, h.log[0]);
    var fromHead := map a | a in departed && a in head :: (InWorkTree, head[a]);
    var rest := PointsInCommits(h, audited, departed - fromHead.Keys);
    forall a | a in departed && a !in fromHead
      ensures a in rest && IsPoint(h, anchor, a, rest[a].0, rest[a].1)
    {
      FoundIsPoint(h, anchor, audited, rest, a);
    }
    left := rest + fromHead;
  }

  /* ---- The verdict ---- */

  /** A body's two keys: with the helpers it reaches, and the definition alone. */
  datatype Body = Body(key: Hash, own: Hash)

  /** What the sources at a departure point give: the body of a name, looked for in the item's
      file first, and the address of a name; and what counts as older than the cutoff before
      which reviews covered the definition alone. */
  datatype Sources = Sources(
    bodyAt: (Point, Item, Name) -> Option<Body>,
    addrAt: (Point, Name) -> Option<Addr>,
    oldCommit: Commit -> bool,
    oldDate: nat -> bool)

  predicate OldPoint(src: Sources, point: Point) {
    point.InCommit? && src.oldCommit(point.c)
  }

  /** The record is on this body: its full key, or the definition's own, if both the commit and
      the record are old. */
  predicate OnBody(src: Sources, point: Point, r: Record, b: Body) {
    r.body == b.key || (OldPoint(src, point) && r.body == b.own && src.oldDate(r.date))
  }

  /** The last record about a body, in the order given. */
  function VerdictOn(src: Sources, point: Point, recs: seq<Record>, b: Body): Option<Record> {
    if recs == [] then None
    else if OnBody(src, point, Last(recs), b) then Some(Last(recs))
    else VerdictOn(src, point, Init(recs), b)
  }

  /** `r` was recorded last of all records, in any ledger, about this address and body. */
  ghost predicate LatestRecorded(w: Ledgers, a: Addr, src: Sources, point: Point, b: Body, r: Record) {
    && Holds(w, r) && r.addr == a && OnBody(src, point, r, b)
    && forall x :: Holds(w, x) && x.addr == a && OnBody(src, point, x, b) ==> x.number <= r.number
  }

  lemma {:induction false} VerdictIsLast(src: Sources, point: Point, recs: seq<Record>, b: Body)
    requires forall i, j :: 0 <= i < j < |recs| ==> recs[i].number < recs[j].number
    ensures VerdictOn(src, point, recs, b).None? <==> forall x :: x in recs ==> !OnBody(src, point, x, b)
    ensures VerdictOn(src, point, recs, b).Some? ==> var r := VerdictOn(src, point, recs, b).value;
      && r in recs && OnBody(src, point, r, b)
      && forall x :: x in recs && OnBody(src, point, x, b) ==> x.number <= r.number
  {
    hide OnBody;
    if recs != [] {
      VerdictIsLast(src, point, Init(recs), b);
      LastIsLatest(recs);
    }
  }

  lemma LastIsLatest(recs: seq<Record>)
    requires recs != [] && forall i, j :: 0 <= i < j < |recs| ==> recs[i].number < recs[j].number
    ensures forall x :: x in recs <==> x in Init(recs) || x == Last(recs)
    ensures forall x :: x in recs ==> x.number <= Last(recs).number
  {
    assert recs == Init(recs) + [Last(recs)];
  }

  lemma VerdictIsLatest(w: Ledgers, a: Addr, recs: seq<Record>, src: Sources, point: Point, b: Body)
    requires RecordingOrder(w, a, recs)
    ensures var v := VerdictOn(src, point, recs, b);
      if v.Some? then LatestRecorded(w, a, src, point, b, v.value)
      else forall x :: !LatestRecorded(w, a, src, point, b, x)
  {
    hide OnBody;
    VerdictIsLast(src, point, recs, b);
  }

  /** The record made last on the body, in any ledger, is a PASS. */
  ghost predicate Passed(w: Ledgers, a: Addr, src: Sources, point: Point, b: Option<Body>) {
    b.Some? && exists r :: LatestRecorded(w, a, src, point, b.value, r) && r.verdict == Pass
  }

  /** The body the function had where it left: that of its name there, unless the sources
      give that name another address. */
  function BodyAt(src: Sources, a: Addr, point: Point, item: Item): Option<Body> {
    if item.func.Some? && (src.addrAt(point, item.func.value).None? || src.addrAt(point, item.func.value) == Some(a))
    then src.bodyAt(point, item, item.func.value)
    else None
  }

  /** Another name the records of this address use, and the sources give this address. */
  predicate StandsIn(src: Sources, a: Addr, point: Point, item: Item, n: Name) {
    item.func != Some(n) && src.addrAt(point, n) == Some(a)
  }

  /** The record's name stands in, and the record made last on its body is a PASS. */
  ghost predicate ClearsAt(w: Ledgers, a: Addr, src: Sources, point: Point, item: Item, x: Record) {
    StandsIn(src, a, point, item, x.func) && Passed(w, a, src, point, src.bodyAt(point, item, x.func))
  }

  /** Cleared: by the record made last on the body it left with; when there is no such body, by
      the one made last on the body of a name that stands in for it. */
  ghost predicate Cleared(w: Ledgers, a: Addr, src: Sources, point: Point, item: Item) {
    var b := BodyAt(src, a, point, item);
    || Passed(w, a, src, point, b)
    || (b.None? && exists x :: Holds(w, x) && x.addr == a && ClearsAt(w, a, src, point, item, x))
  }

  /** A function that left with a body of its own is cleared exactly when, of all records about
      the address and on that body, the one made last is a PASS. A record is on the body by its
      full key or, where both commit and record are early, by the definition's own. */
  lemma ItsBodyDecides(w: Ledgers, a: Addr, src: Sources, point: Point, item: Item, n: Name, b: Body, early: bool)
    requires item.func == Some(n) && src.bodyAt(point, item, n) == Some(b)
    requires src.addrAt(point, n) == None || src.addrAt(point, n) == Some(a)
    requires early <==> point.InCommit? && src.oldCommit(point.c)
    ensures Cleared(w, a, src, point, item) <==>
      exists r: Record :: (
        Holds(w, r) && r.addr == a && r.verdict == Pass
        && (r.body == b.key || (early && r.body == b.own && src.oldDate(r.date)))
        && forall x: Record :: Holds(w, x) && x.addr == a && x.number > r.number ==>
          !(x.body == b.key || (early && x.body == b.own && src.oldDate(x.date))))
  {
    hide Holds;
    if Cleared(w, a, src, point, item) {
      var r :| LatestRecorded(w, a, src, point, b, r) && r.verdict == Pass;
    }
    forall r: Record | Holds(w, r) && r.addr == a && r.verdict == Pass && OnBody(src, point, r, b)
        && forall x: Record :: Holds(w, x) && x.addr == a && x.number > r.number ==> !OnBody(src, point, x, b)
      ensures Cleared(w, a, src, point, item)
    {
      assert LatestRecorded(w, a, src, point, b, r);
    }
  }

  /** One that left without a name, or under a name the sources have no body for or give another
      address, is cleared exactly through a record under another name: one that the sources give
      this address and a body, on which the record made last is a PASS. */
  lemma AStandInDecides(w: Ledgers, a: Addr, src: Sources, point: Point, item: Item)
    requires item.func == None
      || src.bodyAt(point, item, item.func.value) == None
      || (src.addrAt(point, item.func.value) != None && src.addrAt(point, item.func.value) != Some(a))
    ensures Cleared(w, a, src, point, item) <==>
      exists x: Record, b: Body, r: Record :: (
        Holds(w, x) && x.addr == a && item.func != Some(x.func)
        && src.addrAt(point, x.func) == Some(a) && src.bodyAt(point, item, x.func) == Some(b)
        && r.verdict == Pass && LatestRecorded(w, a, src, point, b, r))
  {
    hide Holds, LatestRecorded;
    if x :| Holds(w, x) && x.addr == a && ClearsAt(w, a, src, point, item, x) {
      var b := src.bodyAt(point, item, x.func).value;
      var r :| LatestRecorded(w, a, src, point, b, r) && r.verdict == Pass;
    }
    forall x: Record, b: Body, r: Record | Holds(w, x) && x.addr == a && item.func != Some(x.func)
        && src.addrAt(point, x.func) == Some(a) && src.bodyAt(point, item, x.func) == Some(b)
        && r.verdict == Pass && LatestRecorded(w, a, src, point, b, r)
      ensures Cleared(w, a, src, point, item)
    {
      assert ClearsAt(w, a, src, point, item, x);
    }
  }

  predicate PassOn(src: Sources, point: Point, recs: seq<Record>, b: Option<Body>) {
    b.Some? && VerdictOn(src, point, recs, b.value).Some? && VerdictOn(src, point, recs, b.value).value.verdict == Pass
  }

  method Clear(recs: seq<Record>, a: Addr, src: Sources, point: Point, item: Item, ghost w: Ledgers, ghost count: nat)
    returns (clear: bool)
    requires RecordingOrder(w, a, recs) && Numbered(w, count)
    ensures clear <==> Cleared(w, a, src, point, item)
  {
    hide RecordingOrder, Numbered, VerdictOn, PassOn, Passed, StandsIn;
    var body := BodyAt(src, a, point, item);
    clear := PassOn(src, point, recs, body);
    PassOnIsPassed(w, a, recs, src, point, body, count);
    RecordsAre(w, a, recs);
    if clear || body.Some? { return; }
    var k := 0;
    while k < |recs|
      invariant 0 <= k <= |recs|
      invariant clear <==> exists j :: 0 <= j < k && ClearsAt(w, a, src, point, item, recs[j])
    {
      var stand := src.bodyAt(point, item, recs[k].func);
      PassOnIsPassed(w, a, recs, src, point, stand, count);
      if StandsIn(src, a, point, item, recs[k].func) && PassOn(src, point, recs, stand) { clear := true; }
      k := k + 1;
    }
    StandInSeen(w, a, src, point, item, recs);
  }

  lemma StandInSeen(w: Ledgers, a: Addr, src: Sources, point: Point, item: Item, recs: seq<Record>)
    requires forall x :: x in recs <==> Holds(w, x) && x.addr == a
    ensures (exists x :: Holds(w, x) && x.addr == a && ClearsAt(w, a, src, point, item, x))
       <==> exists j :: 0 <= j < |recs| && ClearsAt(w, a, src, point, item, recs[j])
  {
    hide ClearsAt, Holds;
    if x :| Holds(w, x) && x.addr == a && ClearsAt(w, a, src, point, item, x) {
      var j :| 0 <= j < |recs| && recs[j] == x;
    }
    forall j | 0 <= j < |recs| && ClearsAt(w, a, src, point, item, recs[j])
      ensures Holds(w, recs[j]) && recs[j].addr == a
    {
      assert recs[j] in recs;
    }
  }

  lemma RecordsAre(w: Ledgers, a: Addr, recs: seq<Record>)
    requires RecordingOrder(w, a, recs)
    ensures forall x :: x in recs <==> Holds(w, x) && x.addr == a
  {
  }

  lemma PassOnIsPassed(w: Ledgers, a: Addr, recs: seq<Record>, src: Sources, point: Point, b: Option<Body>, count: nat)
    requires RecordingOrder(w, a, recs) && Numbered(w, count)
    ensures PassOn(src, point, recs, b) <==> Passed(w, a, src, point, b)
  {
    hide VerdictOn, RecordingOrder, Numbered, LatestRecorded;
    if b.Some? {
      VerdictIsLatest(w, a, recs, src, point, b.value);
      forall r | LatestRecorded(w, a, src, point, b.value, r) && VerdictOn(src, point, recs, b.value).Some?
        ensures r == VerdictOn(src, point, recs, b.value).value
      {
        OneLatest(w, a, src, point, b.value, r, VerdictOn(src, point, recs, b.value).value, count);
      }
    }
  }

  lemma OneLatest(w: Ledgers, a: Addr, src: Sources, point: Point, b: Body, r: Record, s: Record, count: nat)
    requires Numbered(w, count) && LatestRecorded(w, a, src, point, b, r) && LatestRecorded(w, a, src, point, b, s)
    ensures r == s
  {
    assert r.number == s.number;
    var p, i: nat :| There(w, p, i) && w[p][i] == r;
    var q, j: nat :| There(w, q, j) && w[q][j] == s;
  }

  lemma NoRecords(w: Ledgers, a: Addr)
    requires !exists r :: Holds(w, r) && r.addr == a
    ensures RecordingOrder(w, a, [])
  {
  }

  datatype Outcome =
    | NoWorkTree
    | NothingAudited
    | NoParentOfAnchor
    | Checked(left: map<Addr, (Point, Item)>, violations: set<Addr>, faults: set<Commit>)

  /** The outcome from an anchor: exactly the departed addresses, each with its point, and
      exactly the audited versions that are faulty. */
  ghost predicate Accounts(h: History, anchor: Commit, current: set<Addr>, outcome: Outcome) {
    && anchor in h.parents && (outcome.NoParentOfAnchor? <==> h.parents[anchor] == [])
    && (outcome.Checked? ==>
      && (forall a :: a in outcome.left <==> a !in current && Listed(h, anchor, a))
      && h.log != []
      && (forall a :: a in outcome.left ==> IsPoint(h, anchor, a, outcome.left[a].0, outcome.left[a].1))
      && (forall c :: c in outcome.faults <==> Audited(h, anchor, c) && Faulty(h, c)))
  }

  /** The violations are exactly the addresses not cleared. */
  ghost predicate Judges(w: Ledgers, src: Sources, outcome: Outcome) {
    outcome.Checked? ==> forall a :: a in outcome.violations <==>
      a in outcome.left && !Cleared(w, a, src, outcome.left[a].0, outcome.left[a].1)
  }

  /** The audit. Every address an audited version listed and the working tree does not is
      accounted for, and is a violation unless the record made last on the body it left with
      is a PASS, however many ledgers there are and whatever their order. Without a readable
      working tree, or without an addressed version, nothing is audited. */
  method Audit(h: History, current: Option<set<Addr>>, w: Ledgers, files: seq<ReviewLog.Path>, count: nat, src: Sources)
    returns (outcome: Outcome)
    requires Valid(h) && (forall p :: p in files <==> p in w)
    requires Distinct(files) && Numbered(w, count) && forall a :: InMergeOrder(w, files, a)
    ensures outcome.NoWorkTree? <==> current.None?
    ensures outcome.NothingAudited? <==> current.Some? && forall d :: Line(h, d) ==> !Full(d.dst)
    ensures outcome.NoParentOfAnchor? || outcome.Checked? ==>
      exists anchor :: IsAnchor(h, anchor) && Accounts(h, anchor, current.value, outcome)
    ensures Judges(w, src, outcome)
  {
    hide Valid, Audited, IsAnchor, Line, Full, Listed, IsPoint, Numbered, InMergeOrder, Judges;
    NotJudged(w, src);
    if current.None? { return NoWorkTree; }
    var found := FindAnchor(h);
    if found.None? { return NothingAudited; }
    var anchor := found.value;
    AnchorInLog(h, anchor);
    if h.parents[anchor] == [] {
      outcome := NoParentOfAnchor;
      assert Accounts(h, anchor, current.value, outcome);
      return;
    }
    var audited := AuditedCommits(h, anchor);
    var departed := Departed(h, anchor, audited, current.value);
    var faults := Faults(h, audited);
    var left := LastLeft(h, anchor, audited, departed);
    var violations := Violations(w, files, count, src, left);
    outcome := Checked(left, violations, faults);
    assert Accounts(h, anchor, current.value, outcome);
    AllJudged(w, src, outcome);
  }

  lemma NotJudged(w: Ledgers, src: Sources)
    ensures forall o: Outcome :: !o.Checked? ==> Judges(w, src, o)
  {
  }

  lemma AllJudged(w: Ledgers, src: Sources, outcome: Outcome)
    requires outcome.Checked? && forall a :: a in outcome.violations <==>
      a in outcome.left && !Cleared(w, a, src, outcome.left[a].0, outcome.left[a].1)
    ensures Judges(w, src, outcome)
  {
    hide Cleared;
  }

  /** One departed address after another. */
  method Violations(w: Ledgers, files: seq<ReviewLog.Path>, count: nat, src: Sources, left: map<Addr, (Point, Item)>)
    returns (violations: set<Addr>)
    requires forall p :: p in files <==> p in w
    requires Distinct(files) && Numbered(w, count) && forall a :: InMergeOrder(w, files, a)
    ensures forall a :: a in violations <==> a in left && !Cleared(w, a, src, left[a].0, left[a].1)
  {
    hide Cleared, RecordingOrder, Numbered, InMergeOrder;
    var records := Records(w, files, count);
    violations := {};
    var todo := left.Keys;
    while todo != {}
      invariant todo <= left.Keys
      invariant forall a :: a in violations <==> a in left.Keys - todo && !Cleared(w, a, src, left[a].0, left[a].1)
      decreases todo
    {
      var a :| a in todo;
      var recs := if a in records then records[a] else [];
      if a !in records { NoRecords(w, a); }
      var clear := Clear(recs, a, src, left[a].0, left[a].1, w, count);
      if !clear { violations := violations + {a}; }
      todo := todo - {a};
    }
  }

  /** The audit on a function that left with a body of its own: no violation exactly when the
      record made last on that body, in any ledger, is a PASS. */
  lemma ReviewedIsNoViolation(w: Ledgers, src: Sources, outcome: Outcome, a: Addr, n: Name, b: Body)
    requires outcome.Checked? && Judges(w, src, outcome) && a in outcome.left
    requires var (point, item) := outcome.left[a];
      item.func == Some(n) && src.bodyAt(point, item, n) == Some(b) &&
      (src.addrAt(point, n) == None || src.addrAt(point, n) == Some(a))
    ensures a !in outcome.violations <==>
      exists r: Record :: r.verdict == Pass && LatestRecorded(w, a, src, outcome.left[a].0, b, r)
  {
    hide Holds, LatestRecorded;
  }

  /** And on any other: no violation exactly when a name that stands in for it was so reviewed. */
  lemma StandInIsNoViolation(w: Ledgers, src: Sources, outcome: Outcome, a: Addr)
    requires outcome.Checked? && Judges(w, src, outcome) && a in outcome.left
    requires var (point, item) := outcome.left[a];
      item.func == None
      || src.bodyAt(point, item, item.func.value) == None
      || (src.addrAt(point, item.func.value) != None && src.addrAt(point, item.func.value) != Some(a))
    ensures var (point, item) := outcome.left[a];
      a !in outcome.violations <==>
        exists x: Record, b: Body, r: Record :: (
          Holds(w, x) && x.addr == a && item.func != Some(x.func)
          && src.addrAt(point, x.func) == Some(a) && src.bodyAt(point, item, x.func) == Some(b)
          && r.verdict == Pass && LatestRecorded(w, a, src, point, b, r))
  {
    hide Cleared, Holds, LatestRecorded;
    AStandInDecides(w, a, src, outcome.left[a].0, outcome.left[a].1);
  }

  /** Nothing is audited exactly when no logged commit holds a version that gives every item its
      address: every such version came in by some logged change. */
  lemma NoFullVersion(h: History)
    requires Valid(h)
    ensures (forall d :: Line(h, d) ==> !Full(d.dst)) <==>
      !exists c, v :: c in h.log && c in h.blob && h.blob[c] == Some(v) && v.full
  {
    hide Line;
    if c, v :| c in h.log && c in h.blob && h.blob[c] == Some(v) && v.full {
      var i: nat :| i < |h.log| && h.log[i] == c;
      FullCameIn(h, i);
    }
    forall d | Line(h, d) && Full(d.dst)
      ensures exists c, v :: c in h.log && c in h.blob && h.blob[c] == Some(v) && v.full
    {
      LineGives(h, d);
      assert d.c in h.log && h.blob[d.c] == Some(d.dst.value);
    }
  }

  lemma LineGives(h: History, d: Diff)
    requires Line(h, d)
    ensures d.c in h.log && d.c in h.blob && h.blob[d.c] == d.dst
  {
  }

  lemma {:induction false} FullCameIn(h: History, i: nat)
    requires Valid(h) && i < |h.log| && h.log[i] in h.blob && Full(h.blob[h.log[i]])
    ensures exists d :: Line(h, d) && Full(d.dst)
    decreases |h.log| - i
  {
    var c := h.log[i];
    ParentsInLog(h, i);
    if h.parents[c] == [] {
      assert Line(h, Diff(c, None, h.blob[c]));
    } else {
      var p := h.parents[c][0];
      if h.blob[p] == h.blob[c] {
        var j := ParentIsOlder(h, i, p);
        FullCameIn(h, j);
      } else {
        assert Line(h, Diff(c, h.blob[p], h.blob[c]));
      }
    }
  }

  /** The departed addresses: those that the version of some audited commit lists and the working
      tree does not. One that the newest version still lists left in the working tree. */
  lemma TheDeparted(h: History, anchor: Commit, current: set<Addr>, outcome: Outcome, a: Addr)
    requires Accounts(h, anchor, current, outcome) && outcome.Checked?
    ensures a in outcome.left <==>
      (a !in current && exists c, v :: Audited(h, anchor, c) && c in h.blob && h.blob[c] == Some(v) && a in v.items)
    ensures a in outcome.left && h.log[0] in h.blob && h.blob[h.log[0]].Some? && a in h.blob[h.log[0]].value.items ==>
      outcome.left[a] == (InWorkTree, h.blob[h.log[0]].value.items[a])
    ensures a in outcome.left && outcome.left[a].0.InCommit? ==>
      var c := outcome.left[a].0.c;
      c in h.parents && exists p, v ::
        p in h.parents[c] && p in h.blob && h.blob[p] == Some(v) && a in v.items && v.items[a] == outcome.left[a].1
  {
    hide Audited;
    if c :| Audited(h, anchor, c) && a in At(h, c) { assert h.blob[c] == Some(h.blob[c].value); }
    forall c, v | Audited(h, anchor, c) && c in h.blob && h.blob[c] == Some(v) && a in v.items
      ensures Listed(h, anchor, a)
    {
      assert a in At(h, c);
    }
    if a in outcome.left && outcome.left[a].0.InCommit? {
      var c := outcome.left[a].0.c;
      assert WasListedAs(h, a, c, outcome.left[a].1);
      var p :| p in h.parents[c] && a in At(h, p) && outcome.left[a].1 == At(h, p)[a];
      assert h.blob[p] == Some(h.blob[p].value);
    }
  }

  /** The version of a commit lists the address. */
  ghost predicate Lists(h: History, c: Commit, a: Addr) {
    c in h.blob && exists v :: h.blob[c] == Some(v) && a in v.items
  }

  /** A departure in a commit: it does not list the address and a parent does; every other audited
      commit of which that holds stands later in the log, that is, is older. */
  lemma TheNewestDeparture(h: History, anchor: Commit, current: set<Addr>, outcome: Outcome, a: Addr, d: Commit)
    requires Accounts(h, anchor, current, outcome) && outcome.Checked?
    requires a in outcome.left && outcome.left[a].0.InCommit?
    ensures var c := outcome.left[a].0.c;
      && !Lists(h, h.log[0], a) && Audited(h, anchor, c) && !Lists(h, c, a)
      && c in h.parents && (exists p :: p in h.parents[c] && Lists(h, p, a))
      && (Audited(h, anchor, d) && !Lists(h, d, a)
          && d in h.parents && (exists p :: p in h.parents[d] && Lists(h, p, a))
          ==> d == c || exists x, y :: 0 <= x < y < |h.log| && h.log[x] == c && h.log[y] == d)
  {
    hide Audited;
    var c := outcome.left[a].0.c;
    forall x
      ensures Lists(h, x, a) <==> a in At(h, x)
    {
      ListsIs(h, x, a);
    }
    assert NewestPoint(h, anchor, a, c);
    if Audited(h, anchor, d) && !Lists(h, d, a) && d in h.parents && exists p :: p in h.parents[d] && Lists(h, p, a) {
      assert LeavesAt(h, anchor, a, d);
      assert d == c || Newer(h, c, d);
    }
  }

  lemma ListsIs(h: History, c: Commit, a: Addr)
    ensures Lists(h, c, a) <==> a in At(h, c)
  {
    if a in At(h, c) { assert h.blob[c] == Some(h.blob[c].value); }
  }

  /** The faults: the audited commits whose version is at fault, except where every parent already
      had that very version. */
  lemma TheFaults(h: History, anchor: Commit, current: set<Addr>, outcome: Outcome, c: Commit)
    requires Accounts(h, anchor, current, outcome) && outcome.Checked? && Valid(h)
    ensures c in outcome.faults <==>
      (c in h.log && Audited(h, anchor, c) && (exists v :: h.blob[c] == Some(v) && v.faulty)
       && (h.parents[c] == [] || exists p :: p in h.parents[c] && p in h.blob && h.blob[p] != h.blob[c]))
  {
    hide Audited;
    ValidUnfolds(h);
    if c in h.log && h.blob[c].Some? && h.blob[c].value.faulty {
      assert h.blob[c] == Some(h.blob[c].value);
      if h.parents[c] == [] {
        assert Line(h, Diff(c, None, h.blob[c]));
      } else if p :| p in h.parents[c] && p in h.blob && h.blob[p] != h.blob[c] {
        assert Line(h, Diff(c, h.blob[p], h.blob[c]));
      }
    }
    if d :| Line(h, d) && d.c == c && d.dst.Some? && d.dst.value.faulty {
      assert h.blob[c] == Some(d.dst.value);
    }
  }

  lemma AnchorInLog(h: History, c: Commit)
    requires Valid(h) && IsAnchor(h, c)
    ensures c in h.log && c in h.parents && h.log != []
    ensures !forall d :: Line(h, d) ==> !Full(d.dst)
  {
  }
}
