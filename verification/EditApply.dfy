/**
 Applying the collected strip edits to a source text: sort them from the right, keep
 greedily what does not overlap, splice the kept ones in one by one.
 */
module EditApply {
  import opened Sorting

  datatype Edit = Edit(start: nat, end: nat, repl: string)

  /** String order, character by character. */
  predicate TextBefore(a: string, b: string) {
    if a == [] then true
    else b != [] && (a[0] < b[0] || (a[0] == b[0] && TextBefore(a[1..], b[1..])))
  }

  /** `a` sorts no later than `b` when edits are sorted from the right, as tuples. */
  predicate NoLater(a: Edit, b: Edit) {
    || a.start > b.start
    || (a.start == b.start && (a.end > b.end || (a.end == b.end && TextBefore(b.repl, a.repl))))
  }

  predicate Overlap(a: Edit, b: Edit) { !(a.end <= b.start || a.start >= b.end) }

  function SortFromRight(edits: seq<Edit>): seq<Edit> { Sort(edits, NoLater) }

  lemma {:induction false} TextOrder(a: string, b: string, c: string)
    ensures TextBefore(a, b) || TextBefore(b, a)
    ensures TextBefore(a, b) && TextBefore(b, a) ==> a == b
    ensures TextBefore(a, b) && TextBefore(b, c) ==> TextBefore(a, c)
  {
    if a != [] && b != [] {
      TextOrder(a[1..], b[1..], if c == [] then [] else c[1..]);
      if a[0] == b[0] { assert a == [a[0]] + a[1..] && b == [b[0]] + b[1..]; }
    }
  }

  lemma NoLaterIsAnOrder()
    ensures Total(NoLater) && Antisymmetric(NoLater)
  {
    forall a, b, c
      ensures NoLater(a, b) || NoLater(b, a)
      ensures NoLater(a, b) && NoLater(b, a) ==> a == b
      ensures NoLater(a, b) && NoLater(b, c) ==> NoLater(a, c)
    {
      TextOrder(a.repl, b.repl, c.repl);
      TextOrder(c.repl, b.repl, a.repl);
    }
  }

  // ----- Selection -----

  predicate Clear(e: Edit, kept: seq<Edit>) {
    forall k :: 0 <= k < |kept| ==> !Overlap(e, kept[k])
  }

  /** The edits kept out of the first ones, in order. */
  function Greedy(edits: seq<Edit>): seq<Edit> {
    if edits == [] then []
    else
      var (before, e) := (edits[..|edits| - 1], edits[|edits| - 1]);
      var kept := Greedy(before);
      if Clear(e, kept) then kept + [e] else kept
  }

  method Select(edits: seq<Edit>) returns (applied: seq<Edit>)
    ensures applied == Greedy(edits)
  {
    applied := [];
    for i := 0 to |edits|
      invariant applied == Greedy(edits[..i])
    {
      assert edits[..i + 1][..i] == edits[..i];
      var overlaps := false;
      for k := 0 to |applied|
        invariant overlaps <==> !Clear(edits[i], applied[..k])
      {
        assert applied[..k + 1] == applied[..k] + [applied[k]];
        if Overlap(edits[i], applied[k]) { overlaps := true; }
      }
      assert applied[..|applied|] == applied;
      if !overlaps { applied := applied + [edits[i]]; }
    }
    assert edits[..|edits|] == edits;
  }

  /** Each kept edit lies wholly to the left of the ones kept before it. */
  ghost predicate Leftward(kept: seq<Edit>) {
    forall i, j :: 0 <= i < j < |kept| ==> kept[j].end <= kept[i].start
  }

  lemma {:induction false} GreedySelects(edits: seq<Edit>)
    requires Sorted(edits, NoLater) && forall e :: e in edits ==> e.start <= e.end
    ensures var kept := Greedy(edits);
            && (forall e :: e in kept ==> e in edits) && Leftward(kept)
            && (forall e :: e in edits && e !in kept ==> !Clear(e, kept) && Loses(e, kept))
  {
    hide Greedy, Sorted, NoLater, Overlap, Clear, Loses, Leftward;
    GreedyStep(edits);
    if edits == [] {
      NothingLeftward();
    } else {
      var (before, e) := (edits[..|edits| - 1], edits[|edits| - 1]);
      assert edits == before + [e];
      SortedBefore(before, e);
      GreedySelects(before);
      var kept := Greedy(before);
      if Clear(e, kept) {
        NextIsLeft(before, e, kept);
        forall d | d in edits && d !in kept + [e]
          ensures !Clear(d, kept + [e]) && Loses(d, kept + [e])
        {
          LosesStill(d, kept, e);
        }
      } else {
        LastLoses(before, e, kept);
      }
    }
  }

  lemma GreedyStep(edits: seq<Edit>)
    ensures Greedy(edits) == if edits == [] then [] else
      var (kept, e) := (Greedy(edits[..|edits| - 1]), edits[|edits| - 1]);
      if Clear(e, kept) then kept + [e] else kept
  {
    hide Clear;
  }

  lemma NothingLeftward()
    ensures Leftward([])
  {
  }

  lemma SortedBefore(before: seq<Edit>, e: Edit)
    requires Sorted(before + [e], NoLater)
    ensures Sorted(before, NoLater)
  {
    hide NoLater;
    assert forall i :: 0 <= i < |before| ==> (before + [e])[i] == before[i];
  }

  lemma LosesStill(d: Edit, kept: seq<Edit>, e: Edit)
    requires Loses(d, kept)
    ensures !Clear(d, kept + [e]) && Loses(d, kept + [e])
  {
    hide NoLater, Overlap;
    var k :| 0 <= k < |kept| && Overlap(d, kept[k]) && NoLater(kept[k], d);
    assert (kept + [e])[k] == kept[k];
  }

  /** It overlaps a kept edit that sorts before it. */
  ghost predicate Loses(e: Edit, kept: seq<Edit>) {
    exists k :: 0 <= k < |kept| && Overlap(e, kept[k]) && NoLater(kept[k], e)
  }

  lemma LastLoses(before: seq<Edit>, e: Edit, kept: seq<Edit>)
    requires Sorted(before + [e], NoLater) && (forall d :: d in kept ==> d in before) && !Clear(e, kept)
    ensures Loses(e, kept)
  {
    var k :| 0 <= k < |kept| && Overlap(e, kept[k]);
    assert kept[k] in kept;
    var n :| 0 <= n < |before| && before[n] == kept[k];
    var all := before + [e];
    assert all[n] == kept[k] && all[|before|] == e;
  }

  lemma NextIsLeft(before: seq<Edit>, e: Edit, kept: seq<Edit>)
    requires Sorted(before + [e], NoLater) && Leftward(kept)
    requires forall d :: d in kept ==> d in before
    requires e.start <= e.end && forall d :: d in before ==> d.start <= d.end
    requires Clear(e, kept)
    ensures Leftward(kept + [e])
  {
    forall i | 0 <= i < |kept|
      ensures e.end <= kept[i].start
    {
      var d := kept[i];
      assert d in kept && d in before;
      var n :| 0 <= n < |before| && before[n] == d;
      var all := before + [e];
      assert all[n] == d && all[|before|] == e;
      assert NoLater(d, e) && !Overlap(e, d);
    }
  }

  lemma LeftwardIsDisjoint(kept: seq<Edit>)
    requires Leftward(kept) && forall e :: e in kept ==> e.start <= e.end
    ensures forall i, j :: 0 <= i < |kept| && 0 <= j < |kept| && i != j ==> !Overlap(kept[i], kept[j])
  {
  }

  // ----- Application -----

  /** Edits for the first `hi` characters, from the right. */
  ghost predicate Fits(kept: seq<Edit>, hi: nat) {
    && Leftward(kept)
    && forall i :: 0 <= i < |kept| ==> kept[i].start <= kept[i].end <= hi
  }

  lemma FitsRest(kept: seq<Edit>, hi: nat)
    requires kept != [] && Fits(kept, hi)
    ensures kept[0].start <= kept[0].end <= hi && Fits(kept[1..], kept[0].start)
  {
    forall i | 0 <= i < |kept[1..]|
      ensures kept[1..][i].start <= kept[1..][i].end <= kept[0].start
    {
      assert kept[1..][i] == kept[i + 1];
    }
  }

  /** The first `hi` characters of the ORIGINAL text, every edited span replaced. */
  ghost function Rewritten(text: string, kept: seq<Edit>, hi: nat): string
    requires hi <= |text| && Fits(kept, hi)
  {
    if kept == [] then text[..hi]
    else
      FitsRest(kept, hi);
      Rewritten(text, kept[1..], kept[0].start) + kept[0].repl + text[kept[0].end..hi]
  }

  /** One by one, from the right: the text grows together as the original rewritten up
      to the next edit, followed by the finished rest. */
  method Apply(text: string, applied: seq<Edit>) returns (out: string)
    requires Fits(applied, |text|)
    ensures out == Rewritten(text, applied, |text|)
  {
    out := text;
    ghost var hi: nat := |text|;
    assert applied[0..] == applied && text[|text|..] == "";
    for i := 0 to |applied|
      invariant hi <= |text| && hi <= |out| && out[..hi] == text[..hi]
      invariant Fits(applied[i..], hi)
      invariant Rewritten(text, applied, |text|) == Rewritten(text, applied[i..], hi) + out[hi..]
    {
      var e := applied[i];
      FitsRest(applied[i..], hi);
      assert applied[i..][1..] == applied[i + 1..];
      OneSplice(text, out, e, hi, Rewritten(text, applied[i + 1..], e.start));
      out := out[..e.start] + e.repl + out[e.end..];
      hi := e.start;
    }
  }

  lemma OneSplice(text: string, out: string, e: Edit, hi: nat, left: string)
    requires e.start <= e.end <= hi <= |text| && hi <= |out| && out[..hi] == text[..hi]
    ensures var next := out[..e.start] + e.repl + out[e.end..];
            && next[..e.start] == text[..e.start]
            && (left + e.repl + text[e.end..hi]) + out[hi..] == left + next[e.start..]
  {
    var next := out[..e.start] + e.repl + out[e.end..];
    assert out[..e.start] == out[..hi][..e.start] == text[..hi][..e.start] == text[..e.start];
    assert out[e.end..hi] == out[..hi][e.end..] == text[..hi][e.end..] == text[e.end..hi];
    assert out[e.end..] == out[e.end..hi] + out[hi..];
    assert next[e.start..] == e.repl + out[e.end..];
  }

  // ----- The whole pass -----

  ghost function Kept(allEdits: seq<Edit>): seq<Edit> { Greedy(SortFromRight(allEdits)) }

  /** The kept edits are pairwise disjoint, and every dropped one overlaps a kept one. */
  lemma SelectionIsSound(text: string, allEdits: seq<Edit>)
    requires forall e :: e in allEdits ==> e.start <= e.end <= |text|
    ensures var kept := Kept(allEdits);
            && Fits(kept, |text|) && (forall e :: e in kept ==> e in allEdits)
            && (forall i, j :: 0 <= i < |kept| && 0 <= j < |kept| && i != j ==> !Overlap(kept[i], kept[j]))
            && (forall e :: e in allEdits && e !in kept ==> exists k :: 0 <= k < |kept| && Overlap(e, kept[k]))
  {
    var sorted := SortFromRight(allEdits);
    NoLaterIsAnOrder();
    SortSorts(allEdits, NoLater);
    SortPermutes(allEdits, NoLater);
    SameMembers(sorted, allEdits);
    GreedySelects(sorted);
    var kept := Kept(allEdits);
    hide Greedy, Sort, Sorted, NoLater;
    forall i | 0 <= i < |kept|
      ensures kept[i].start <= kept[i].end <= |text|
    {
      assert kept[i] in kept && kept[i] in allEdits;
    }
    LeftwardIsDisjoint(kept);
  }

  /** Which of the overlapping edits is kept: an edit is dropped for one that starts further right,
      or starts there too and ends further right, or has the same span and a text that does not
      sort before its own. */
  lemma WhoWins(text: string, allEdits: seq<Edit>, e: Edit)
    requires (forall d :: d in allEdits ==> d.start <= d.end <= |text|) && e in allEdits && e !in Kept(allEdits)
    ensures exists d :: (
      d in Kept(allEdits) && Overlap(e, d) &&
      (d.start > e.start || (d.start == e.start && d.end > e.end) ||
       (d.start == e.start && d.end == e.end && TextBefore(e.repl, d.repl))))
  {
    var sorted := SortFromRight(allEdits);
    NoLaterIsAnOrder();
    SortSorts(allEdits, NoLater);
    SortPermutes(allEdits, NoLater);
    SameMembers(sorted, allEdits);
    GreedySelects(sorted);
    var kept := Kept(allEdits);
    var k :| 0 <= k < |kept| && Overlap(e, kept[k]) && NoLater(kept[k], e);
    assert kept[k] in kept;
  }

  /** String order: a prefix comes first, else the first character that differs decides. */
  lemma {:induction false} TextBeforeMeans(a: string, b: string)
    ensures TextBefore(a, b) <==>
      a <= b || exists i: nat :: i < |a| && i < |b| && DifferAt(a, b, i)
  {
    if a != [] && b != [] && a[0] == b[0] {
      TextBeforeMeans(a[1..], b[1..]);
      assert a == [a[0]] + a[1..] && b == [b[0]] + b[1..];
      if i: nat :| i < |a[1..]| && i < |b[1..]| && DifferAt(a[1..], b[1..], i) { DifferLater(a, b, i); }
      if i: nat :| i < |a| && i < |b| && DifferAt(a, b, i) {
        assert i > 0;
        DifferLater(a, b, i - 1);
      }
    } else if a != [] && b != [] && a[0] < b[0] {
      assert a[..0] == b[..0];
      assert DifferAt(a, b, 0);
    }
  }

  /** They agree before `i`, and there `a` has the smaller character. */
  ghost predicate DifferAt(a: string, b: string, i: nat)
    requires i < |a| && i < |b|
  {
    a[..i] == b[..i] && a[i] < b[i]
  }

  lemma DifferLater(a: string, b: string, i: nat)
    requires i + 1 < |a| && i + 1 < |b| && a[0] == b[0]
    ensures DifferAt(a[1..], b[1..], i) <==> DifferAt(a, b, i + 1)
  {
    assert a[..i + 1] == [a[0]] + a[1..][..i] && b[..i + 1] == [b[0]] + b[1..][..i];
    assert a[1..][..i] == a[..i + 1][1..] && b[1..][..i] == b[..i + 1][1..];
  }

  /** The edits, leftmost first, read off the original from the left. */
  ghost function FromLeft(text: string, edits: seq<Edit>, lo: nat, hi: nat): string
    requires lo <= hi <= |text| && Ascend(edits, lo, hi)
  {
    if edits == [] then text[lo..hi]
    else text[lo..edits[0].start] + edits[0].repl + FromLeft(text, edits[1..], edits[0].end, hi)
  }

  /** Disjoint spans from left to right. */
  ghost predicate Ascend(edits: seq<Edit>, lo: nat, hi: nat) {
    if edits == [] then lo <= hi
    else lo <= edits[0].start <= edits[0].end <= hi && Ascend(edits[1..], edits[0].end, hi)
  }

  function Reversed(s: seq<Edit>): seq<Edit> {
    if s == [] then [] else Reversed(s[1..]) + [s[0]]
  }

  lemma {:induction false} LastOnRight(text: string, edits: seq<Edit>, e: Edit, lo: nat, hi: nat)
    requires e.start <= e.end <= hi <= |text| && lo <= e.start && Ascend(edits, lo, e.start)
    ensures Ascend(edits + [e], lo, hi)
    ensures FromLeft(text, edits + [e], lo, hi) == FromLeft(text, edits, lo, e.start) + e.repl + text[e.end..hi]
    decreases |edits|
  {
    if edits == [] {
      assert (edits + [e])[1..] == [];
    } else {
      assert (edits + [e])[1..] == edits[1..] + [e];
      LastOnRight(text, edits[1..], e, edits[0].end, hi);
    }
  }

  lemma {:induction false} AscendWithin(edits: seq<Edit>, lo: nat, hi: nat)
    requires Ascend(edits, lo, hi)
    ensures lo <= hi
    decreases |edits|
  {
    if edits != [] { AscendWithin(edits[1..], edits[0].end, hi); }
  }

  /** Rewriting from the right is reading the original from the left, with every edited span
      replaced and everything else as it stands. */
  lemma {:induction false} RewrittenFromLeft(text: string, kept: seq<Edit>, hi: nat)
    requires hi <= |text| && Fits(kept, hi)
    ensures Ascend(Reversed(kept), 0, hi) && Rewritten(text, kept, hi) == FromLeft(text, Reversed(kept), 0, hi)
    decreases |kept|
  {
    if kept != [] {
      FitsRest(kept, hi);
      RewrittenFromLeft(text, kept[1..], kept[0].start);
      LastOnRight(text, Reversed(kept[1..]), kept[0], 0, hi);
    }
  }

  lemma SameMembers(a: seq<Edit>, b: seq<Edit>)
    requires multiset(a) == multiset(b)
    ensures forall e :: e in a <==> e in b
  {
    forall e ensures e in a <==> e in b {
      assert e in a <==> e in multiset(a);
      assert e in b <==> e in multiset(b);
    }
  }

  method StripFile(text: string, allEdits: seq<Edit>) returns (out: string, count: nat)
    requires forall e :: e in allEdits ==> e.start <= e.end <= |text|
    ensures Fits(Kept(allEdits), |text|)
    ensures out == Rewritten(text, Kept(allEdits), |text|)
    ensures count == |Kept(allEdits)|
  {
    SelectionIsSound(text, allEdits);
    var applied := Select(SortFromRight(allEdits));
    count := |applied|;
    out := Apply(text, applied);
  }

  /** The result does not depend on the order in which the detectors report. */
  lemma DetectorOrderIsIrrelevant(a: seq<Edit>, b: seq<Edit>)
    requires multiset(a) == multiset(b)
    ensures Kept(a) == Kept(b)
  {
    NoLaterIsAnOrder();
    SortIgnoresOrder(a, b, NoLater);
  }
}
