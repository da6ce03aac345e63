/**
 The link-order check: per-section object orders must merge into one order.

 Translation units are numbered by the rank of their id in sorted order, so running
 through `sorted(succ[n])` is running upwards through the members of `succ[n]`.
 */
module LinkOrder {
  import opened Prelude
  import opened Sorting

  type Graph = seq<set<nat>>

  ghost predicate Closed(g: Graph) {
    forall u :: 0 <= u < |g| ==> forall v :: v in g[u] ==> v < |g|
  }

  /** Every two neighbours of `p` are joined by an edge. */
  ghost predicate Walk(g: Graph, p: seq<nat>) {
    && (forall i :: 0 <= i < |p| ==> p[i] < |g|)
    && (forall i :: 0 < i < |p| ==> p[i] in g[p[i - 1]])
  }

  /** A closed walk with at least one edge. */
  ghost predicate Cycle(g: Graph, c: seq<nat>) {
    |c| >= 2 && c[0] == c[|c| - 1] && Walk(g, c)
  }

  /** A total order of all units, given by distinct ranks. */
  ghost predicate TotalOrder(n: nat, rank: seq<int>) {
    |rank| == n && forall u, v :: 0 <= u < v < n ==> rank[u] != rank[v]
  }

  ghost predicate EdgesAscend(g: Graph, rank: seq<int>) {
    |rank| == |g| && forall u :: 0 <= u < |g| ==> forall v :: v in g[u] ==> v < |g| && rank[u] < rank[v]
  }

  datatype Color = White | Grey | Black

  /** Position of the first occurrence. */
  function IndexOf(s: seq<nat>, x: nat): (i: nat)
    requires x in s
    ensures i < |s| && s[i] == x && x !in s[..i]
  {
    if s[0] == x then 0 else 1 + IndexOf(s[1..], x)
  }

  /** `stack` is the grey path; `done` lists the black units in the order they were
      finished, so that every successor of a finished unit comes before it. */
  ghost predicate Consistent(g: Graph, color: seq<Color>, stack: seq<nat>, done: seq<nat>, white: set<nat>) {
    && Closed(g) && |color| == |g|
    && Walk(g, stack) && Distinct(stack) && Distinct(done)
    && (forall v :: 0 <= v < |g| ==> (color[v] == Grey <==> v in stack))
    && (forall v :: 0 <= v < |g| ==> (color[v] == Black <==> v in done))
    && (forall v :: 0 <= v < |g| ==> (color[v] == White <==> v in white))
    && (forall v :: v in white || v in done ==> v < |g|)
    && (forall i :: 0 <= i < |done| ==> Before(g, done, i))
  }

  ghost predicate Before(g: Graph, done: seq<nat>, i: nat)
    requires i < |done|
  {
    done[i] < |g| && forall v :: v in g[done[i]] ==> v in done[..i]
  }

  lemma Start(g: Graph)
    requires Closed(g)
    ensures Consistent(g, seq(|g|, _ => White), [], [], UpTo(|g|))
  {
    UpToIs(|g|);
  }

  function UpTo(n: nat): set<nat> {
    if n == 0 then {} else UpTo(n - 1) + {n - 1}
  }

  lemma {:induction false} UpToIs(n: nat)
    ensures forall v: nat :: v in UpTo(n) <==> v < n
  {
    if n > 0 { UpToIs(n - 1); }
  }

  lemma Push(g: Graph, color: seq<Color>, stack: seq<nat>, done: seq<nat>, white: set<nat>, u: nat)
    requires Consistent(g, color, stack, done, white) && u < |g| && color[u] == White
    requires stack != [] ==> u in g[stack[|stack| - 1]]
    ensures Consistent(g, color[u := Grey], stack + [u], done, white - {u})
  {
  }

  lemma Pop(g: Graph, color: seq<Color>, stack: seq<nat>, done: seq<nat>, white: set<nat>)
    requires Consistent(g, color, stack, done, white) && stack != []
    requires forall v :: v in g[stack[|stack| - 1]] ==> v in done
    ensures var u := stack[|stack| - 1];
            Consistent(g, color[u := Black], stack[..|stack| - 1], done + [u], white)
  {
    var u := stack[|stack| - 1];
    var rest := stack[..|stack| - 1];
    assert stack == rest + [u];
    var fin := done + [u];
    assert u in stack && u !in rest && u !in done;
    assert forall v :: v in stack <==> v in rest || v == u;
    assert forall v :: v in fin <==> v in done || v == u;
    forall i | 0 <= i < |fin|
      ensures Before(g, fin, i)
    {
      if i < |done| { assert Before(g, done, i); assert fin[..i] == done[..i]; }
      else { assert fin[..i] == done; }
    }
  }

  lemma WhiteUnit(g: Graph, color: seq<Color>, stack: seq<nat>, done: seq<nat>, white: set<nat>, u: nat)
    requires Consistent(g, color, stack, done, white) && u < |g| && color[u] == White
    ensures u in white
  {
  }

  lemma Bounded(g: Graph, color: seq<Color>, stack: seq<nat>, done: seq<nat>, white: set<nat>, u: nat)
    requires Consistent(g, color, stack, done, white) && u < |g|
    ensures |color| == |g| && forall v :: v in g[u] ==> v < |g|
  {
  }

  /** The first grey successor closes a cycle through the stack. */
  lemma GreyClosesCycle(g: Graph, stack: seq<nat>, m: nat)
    requires Walk(g, stack) && stack != [] && m in stack && m in g[stack[|stack| - 1]]
    ensures Cycle(g, stack[IndexOf(stack, m)..] + [m])
  {
    var d := IndexOf(stack, m);
    WalkTail(g, stack, d);
    WalkOn(g, stack[d..], m);
    hide Walk, IndexOf;
    var c := stack[d..] + [m];
    assert c[0] == stack[d] && c[|c| - 1] == m;
  }

  lemma WalkTail(g: Graph, p: seq<nat>, d: nat)
    requires Walk(g, p) && d < |p|
    ensures Walk(g, p[d..]) && p[d..][|p| - d - 1] == p[|p| - 1]
  {
    forall i | 0 < i < |p[d..]|
      ensures p[d..][i] in g[p[d..][i - 1]]
    {
      assert p[d..][i] == p[d + i] && p[d..][i - 1] == p[d + i - 1];
    }
  }

  lemma WalkOn(g: Graph, p: seq<nat>, m: nat)
    requires Walk(g, p) && p != [] && m in g[p[|p| - 1]] && m < |g|
    ensures Walk(g, p + [m])
  {
  }

  /** The depth-first search with its colour table and its stack. */
  class Search {
    const g: Graph
    const color: array<Color>
    var stack: seq<nat>
    ghost var done: seq<nat>
    ghost var white: set<nat>

    ghost predicate Valid()
      reads this, color
    {
      Consistent(g, color[..], stack, done, white)
    }

    constructor (graph: Graph)
      requires Closed(graph)
      ensures Valid() && g == graph && stack == [] && fresh(color)
    {
      g := graph;
      color := new Color[|graph|](_ => White);
      stack := [];
      done := [];
      white := UpTo(|graph|);
      new;
      Start(graph);
      assert color[..] == seq(|graph|, _ => White);
    }

    method Visit(u: nat) returns (c: Option<seq<nat>>)
      requires Valid() && u < |g| && color[u] == White
      requires stack != [] ==> u in g[stack[|stack| - 1]]
      modifies this, color
      decreases white, 0
      ensures c.Some? ==> Cycle(g, c.value)
      ensures c.None? ==> Valid() && stack == old(stack) && color[u] == Black && white < old(white)
      ensures c.None? ==> old(done) <= done
    {
      Begin(u);
      for m := 0 to |g|
        invariant Valid() && stack == old(stack) + [u]
        invariant white < old(white) && old(done) <= done
        invariant forall k :: 0 <= k < m && k in g[u] ==> k in done
      {
        if m in g[u] {
          c := Look(u, m);
          if c.Some? { return; }
        }
      }
      Finish(u);
      c := None;
    }

    /** A unit turns grey and goes on the stack. */
    method Begin(u: nat)
      requires Valid() && u < |g| && color[u] == White
      requires stack != [] ==> u in g[stack[|stack| - 1]]
      modifies this, color
      ensures Valid() && stack == old(stack) + [u] && done == old(done)
      ensures white < old(white) && color[..] == old(color[..])[u := Grey]
    {
      WhiteUnit(g, color[..], stack, done, white, u);
      hide Consistent;
      Push(g, color[..], stack, done, white, u);
      color[u] := Grey;
      white := white - {u};
      stack := stack + [u];
      assert color[..] == old(color[..])[u := Grey];
    }

    /** It turns black and leaves the stack. */
    method Finish(u: nat)
      requires Valid() && u < |g| && stack != [] && u == stack[|stack| - 1]
      requires forall k :: 0 <= k < |g| && k in g[u] ==> k in done
      modifies this, color
      ensures Valid() && stack == old(stack[..|stack| - 1]) && done == old(done) + [u]
      ensures white == old(white) && color[..] == old(color[..])[u := Black]
    {
      Bounded(g, color[..], stack, done, white, u);
      hide Consistent;
      Pop(g, color[..], stack, done, white);
      stack := stack[..|stack| - 1];
      color[u] := Black;
      done := done + [u];
      assert color[..] == old(color[..])[u := Black];
    }

    /** One successor of the unit on top of the stack. */
    method Look(u: nat, m: nat) returns (c: Option<seq<nat>>)
      requires Valid() && stack != [] && u == stack[|stack| - 1] && m < |g| && m in g[u]
      modifies this, color
      decreases white, 1
      ensures c.Some? ==> Cycle(g, c.value)
      ensures c.None? ==> Valid() && stack == old(stack) && white <= old(white)
      ensures c.None? ==> old(done) <= done && m in done
    {
      if color[m] == Grey {
        GreyClosesCycle(g, stack, m);
        return Some(stack[IndexOf(stack, m)..] + [m]);
      }
      c := None;
      if color[m] == White {
        c := Visit(m);
      }
    }

    method FindCycle() returns (c: Option<seq<nat>>)
      requires Valid() && stack == []
      modifies this, color
      ensures c.Some? ==> Cycle(g, c.value)
      ensures c.None? ==> exists rank: seq<int> :: TotalOrder(|g|, rank) && EdgesAscend(g, rank)
    {
      for n := 0 to |g|
        invariant Valid() && stack == []
        invariant forall k :: 0 <= k < n ==> k in done
      {
        ghost var before := done;
        if color[n] == White {
          c := Visit(n);
          if c.Some? { return; }
        }
        assert before <= done;
      }
      FinishedIsAnOrder(g, color[..], stack, done, white);
      c := None;
    }
  }

  /** Reading the finished units backwards is an order in which every edge ascends. */
  lemma FinishedIsAnOrder(g: Graph, color: seq<Color>, stack: seq<nat>, done: seq<nat>, white: set<nat>)
    requires Consistent(g, color, stack, done, white)
    requires forall v :: 0 <= v < |g| ==> v in done
    ensures exists rank: seq<int> :: TotalOrder(|g|, rank) && EdgesAscend(g, rank)
  {
    var rank: seq<int> := seq(|g|, v requires 0 <= v < |g| => 0 - IndexOf(done, v) as int);
    forall u, v | 0 <= u < |g| && v in g[u]
      ensures v < |g| && rank[u] < rank[v]
    {
      assert Before(g, done, IndexOf(done, u));
      var k :| 0 <= k < IndexOf(done, u) && done[k] == v;
    }
    assert TotalOrder(|g|, rank) && EdgesAscend(g, rank);
  }

  /** Along a walk ranks ascend, so no walk with an edge returns to its start. */
  lemma {:induction false} WalkAscends(g: Graph, rank: seq<int>, p: seq<nat>)
    requires EdgesAscend(g, rank) && Walk(g, p) && |p| >= 2
    ensures rank[p[0]] < rank[p[|p| - 1]]
  {
    var q := p[..|p| - 1];
    assert p[|p| - 1] in g[p[|p| - 2]];
    if |q| >= 2 { WalkAscends(g, rank, q); }
  }

  lemma OrderedMeansAcyclic(g: Graph, rank: seq<int>)
    requires EdgesAscend(g, rank)
    ensures !exists c :: Cycle(g, c)
  {
    forall c | Cycle(g, c)
      ensures false
    {
      WalkAscends(g, rank, c);
    }
  }

  /** The search answers `None` exactly on acyclic graphs, and a cycle otherwise. */
  method FindCycle(g: Graph) returns (c: Option<seq<nat>>)
    requires Closed(g)
    ensures c.Some? ==> Cycle(g, c.value)
    ensures c.None? <==> !exists p :: Cycle(g, p)
    ensures c.None? <==> exists rank: seq<int> :: TotalOrder(|g|, rank) && EdgesAscend(g, rank)
  {
    var search := new Search(g);
    c := search.FindCycle();
    if rank: seq<int> :| TotalOrder(|g|, rank) && EdgesAscend(g, rank) {
      OrderedMeansAcyclic(g, rank);
    }
  }

  // ----- The order part of the linker-script audit -----

  /** Somewhere in the section, `v` comes directly after `u`. */
  ghost predicate Follows(ids: seq<nat>, u: nat, v: nat) {
    u != v && exists i :: 0 < i < |ids| && ids[i - 1] == u && ids[i] == v
  }

  /** The section never steps back in the order. */
  ghost predicate Respects(rank: seq<int>, ids: seq<nat>) {
    && (forall i :: 0 <= i < |ids| ==> ids[i] < |rank|)
    && forall i :: 0 < i < |ids| ==> rank[ids[i - 1]] <= rank[ids[i]]
  }

  ghost predicate OneOrder(n: nat, sections: seq<seq<nat>>) {
    exists rank: seq<int> :: TotalOrder(n, rank) && forall s :: s in sections ==> Respects(rank, s)
  }

  method AddSection(succ: Graph, ids: seq<nat>) returns (more: Graph)
    requires forall i :: 0 <= i < |ids| ==> ids[i] < |succ|
    ensures |more| == |succ|
    ensures forall u: nat, v: nat :: u < |succ| ==> (v in more[u] <==> v in succ[u] || Follows(ids, u, v))
  {
    more := succ;
    var k := 1;
    while k < |ids|
      invariant 1 <= k && (k <= |ids| || ids == [])
      invariant |more| == |succ|
      invariant forall u: nat, v: nat :: u < |succ| ==>
        (v in more[u] <==> v in succ[u] || Follows(ids[..Min(k, |ids|)], u, v))
    {
      var a, b := ids[k - 1], ids[k];
      var last := more;
      if a != b {
        more := more[a := more[a] + {b}];
      }
      forall u: nat, v: nat | u < |succ|
        ensures v in more[u] <==> v in succ[u] || Follows(ids[..k + 1], u, v)
      {
        FollowsGrows(ids, k, u, v);
        assert v in more[u] <==> v in last[u] || (a != b && u == a && v == b);
      }
      k := k + 1;
    }
    assert ids[..Min(k, |ids|)] == ids;
  }

  lemma FollowsGrows(ids: seq<nat>, k: nat, u: nat, v: nat)
    requires 1 <= k < |ids|
    ensures Follows(ids[..k + 1], u, v)
       <==> Follows(ids[..k], u, v) || (u != v && u == ids[k - 1] && v == ids[k])
  {
    var small, big := ids[..k], ids[..k + 1];
    assert forall i :: 0 <= i < k ==> small[i] == big[i];
    assert big[k] == ids[k] && big[k - 1] == ids[k - 1];
  }

  /** Some section puts `v` directly after `u`. */
  ghost predicate Adjacent(sections: seq<seq<nat>>, u: nat, v: nat) {
    exists s :: s in sections && Follows(s, u, v)
  }

  ghost predicate InRange(n: nat, sections: seq<seq<nat>>) {
    forall s :: s in sections ==> forall i :: 0 <= i < |s| ==> s[i] < n
  }

  ghost predicate Successors(succ: Graph, sections: seq<seq<nat>>) {
    forall u: nat, v: nat :: u < |succ| ==> (v in succ[u] <==> Adjacent(sections, u, v))
  }

  method BuildSuccessors(n: nat, sections: seq<seq<nat>>) returns (succ: Graph)
    requires InRange(n, sections)
    ensures |succ| == n && Successors(succ, sections)
  {
    succ := seq(n, _ => {});
    for k := 0 to |sections|
      invariant |succ| == n && Successors(succ, sections[..k])
    {
      succ := AddSection(succ, sections[k]);
      forall u: nat, v: nat
        ensures Adjacent(sections[..k + 1], u, v) <==> Adjacent(sections[..k], u, v) || Follows(sections[k], u, v)
      {
        assert sections[..k + 1] == sections[..k] + [sections[k]];
      }
    }
    assert sections[..|sections|] == sections;
  }

  /** The order part of the audit: it reports a problem exactly when no single order of
      the objects agrees with every section, and then it names a cycle each of whose
      steps some section makes. */
  method CheckOrder(n: nat, sections: seq<seq<nat>>) returns (cycle: Option<seq<nat>>)
    requires InRange(n, sections)
    ensures cycle.None? <==> OneOrder(n, sections)
    ensures cycle.Some? ==> |cycle.value| >= 2 && cycle.value[0] == cycle.value[|cycle.value| - 1]
    ensures cycle.Some? ==> forall i :: 0 < i < |cycle.value| ==>
              Adjacent(sections, cycle.value[i - 1], cycle.value[i])
  {
    var succ := BuildSuccessors(n, sections);
    SuccessorsClosed(succ, sections);
    cycle := FindCycle(succ);
    EdgesAreSections(succ, sections);
    if cycle.Some? {
      forall i | 0 < i < |cycle.value|
        ensures Adjacent(sections, cycle.value[i - 1], cycle.value[i])
      {
        assert cycle.value[i] in succ[cycle.value[i - 1]];
      }
    }
  }

  lemma SuccessorsClosed(succ: Graph, sections: seq<seq<nat>>)
    requires InRange(|succ|, sections) && Successors(succ, sections)
    ensures Closed(succ)
  {
    forall u: nat, v: nat | u < |succ| && v in succ[u]
      ensures v < |succ|
    {
      assert Adjacent(sections, u, v);
    }
  }

  /** An order ascends along every edge exactly when every section respects it. */
  lemma EdgesAreSections(succ: Graph, sections: seq<seq<nat>>)
    requires InRange(|succ|, sections) && Successors(succ, sections)
    ensures OneOrder(|succ|, sections)
       <==> exists rank: seq<int> :: TotalOrder(|succ|, rank) && EdgesAscend(succ, rank)
  {
    if rank: seq<int> :| TotalOrder(|succ|, rank) && EdgesAscend(succ, rank) {
      forall s | s in sections
        ensures Respects(rank, s)
      {
        EdgesToSection(succ, sections, rank, s);
      }
    }
    if OneOrder(|succ|, sections) {
      var rank: seq<int> :| TotalOrder(|succ|, rank) && forall s :: s in sections ==> Respects(rank, s);
      forall u: nat, v: nat | u < |succ| && v in succ[u]
        ensures v < |succ| && rank[u] < rank[v]
      {
        assert Adjacent(sections, u, v);
        var s :| s in sections && Follows(s, u, v);
        assert Respects(rank, s);
      }
      assert EdgesAscend(succ, rank);
    }
  }

  lemma EdgesToSection(succ: Graph, sections: seq<seq<nat>>, rank: seq<int>, s: seq<nat>)
    requires EdgesAscend(succ, rank) && s in sections
    requires InRange(|succ|, sections) && Successors(succ, sections)
    ensures Respects(rank, s)
  {
    forall i | 0 < i < |s|
      ensures rank[s[i - 1]] <= rank[s[i]]
    {
      if s[i - 1] != s[i] {
        assert Follows(s, s[i - 1], s[i]);
        assert Adjacent(sections, s[i - 1], s[i]);
        assert s[i] in succ[s[i - 1]];
      }
    }
  }

  /** In a respected section everything earlier ranks no higher, so a unit cannot come
      back once another one has followed it. */
  lemma {:induction false} RespectedSectionNeverReturns(rank: seq<int>, ids: seq<nat>, i: nat, j: nat)
    requires Respects(rank, ids) && TotalOrder(|rank|, rank)
    requires i <= j < |ids|
    ensures rank[ids[i]] <= rank[ids[j]]
    ensures ids[i] == ids[j] ==> forall k :: i <= k <= j ==> ids[k] == ids[i]
    decreases j - i
  {
    if i < j {
      RespectedSectionNeverReturns(rank, ids, i, j - 1);
      RespectedSectionNeverReturns(rank, ids, i + 1, j);
      assert rank[ids[i]] <= rank[ids[i + 1]] && rank[ids[j - 1]] <= rank[ids[j]];
    }
  }

  // ----- Following the rename map -----

  /** `k` renames applied to `id`, stopping at an id that is not renamed. */
  function After(nxt: map<string, string>, id: string, k: nat): string {
    if k == 0 then id
    else var p := After(nxt, id, k - 1); if p in nxt then nxt[p] else p
  }

  /** The ids passed on the first `k` steps. */
  function Visited(nxt: map<string, string>, id: string, k: nat): set<string> {
    if k == 0 then {} else Visited(nxt, id, k - 1) + {After(nxt, id, k - 1)}
  }

  lemma {:induction false} WhenVisited(nxt: map<string, string>, id: string, k: nat, x: string) returns (i: nat)
    requires x in Visited(nxt, id, k)
    ensures i < k && x == After(nxt, id, i)
  {
    if x == After(nxt, id, k - 1) { i := k - 1; } else { i := WhenVisited(nxt, id, k - 1, x); }
  }

  /** Follows the renames until an id is current or has been seen before. The answer is
      a current id exactly when the chain ever reaches one; otherwise the chain loops
      and the answer is the first id on it to come up twice. */
  method Resolve(nxt: map<string, string>, id: string) returns (today: string)
    ensures today !in nxt <==> exists k: nat :: After(nxt, id, k) !in nxt
    ensures today !in nxt ==> exists k: nat :: today == After(nxt, id, k)
    ensures today in nxt ==> exists i: nat, j: nat :: i < j && today == After(nxt, id, i) == After(nxt, id, j)
  {
    var seen: set<string> := {};
    today := id;
    ghost var steps: nat := 0;
    while today in nxt && today !in seen
      invariant today == After(nxt, id, steps)
      invariant forall k: nat :: k < steps ==> After(nxt, id, k) in nxt
      invariant seen == Visited(nxt, id, steps) && seen <= nxt.Keys
      decreases nxt.Keys - seen
    {
      seen := seen + {today};
      today := nxt[today];
      steps := steps + 1;
    }
    if today in nxt {
      ghost var i := WhenVisited(nxt, id, steps, today);
      forall k: nat
        ensures After(nxt, id, k) in nxt
      {
        LoopsForever(nxt, id, i, steps, k);
      }
    }
  }

  lemma {:induction false} LoopsForever(nxt: map<string, string>, id: string, i: nat, j: nat, k: nat)
    requires i < j && After(nxt, id, i) == After(nxt, id, j)
    requires forall m: nat :: m < j ==> After(nxt, id, m) in nxt
    ensures After(nxt, id, k) in nxt
    ensures exists m: nat :: m < j && After(nxt, id, k) == After(nxt, id, m)
  {
    if k > 0 {
      LoopsForever(nxt, id, i, j, k - 1);
      var m: nat :| m < j && After(nxt, id, k - 1) == After(nxt, id, m);
      var next := if m + 1 == j then i else m + 1;
      assert After(nxt, id, k) == After(nxt, id, m + 1) == After(nxt, id, next);
    } else {
      assert After(nxt, id, k) == After(nxt, id, 0);
    }
  }
}
