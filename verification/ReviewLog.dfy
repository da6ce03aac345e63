/**
 The review ledgers: many append-only files, a clock that may jump back, whole ledgers archived
 under another path, and calls that read the dates and append their line later.

 Dates are numbers in the order of their text, 0 for a missing one. `number` is the serial number
 of a line, `seen[n]` how many lines there were when the call of line `n` read the dates; the
 program has neither.
 */
module ReviewLog {
  import opened Prelude
  import opened Sorting

  type Path = nat
  type Addr = nat
  type Hash = nat

  datatype Record = Record(func: nat, addr: Addr, verdict: Verdict, body: Hash, date: nat, number: nat)

  type Ledgers = map<Path, seq<Record>>

  /** 9999-12-31T23:59:59Z: there is no second after it. */
  const LAST_DATE: nat := 253402300799

  function Max(a: nat, b: nat): nat {
    if a < b then b else a
  }

  /* ---- Effective dates ---- */

  /** A line's date raised to the greatest date up to it in its file. */
  function Effective(s: seq<Record>, i: nat): nat
    requires i < |s|
  {
    if i == 0 then s[0].date else Max(Effective(s, i - 1), s[i].date)
  }

  /** That is: no date up to it is greater, and one is as great. */
  lemma {:induction false} EffectiveIsGreatest(s: seq<Record>, i: nat)
    requires i < |s|
    ensures forall k :: 0 <= k <= i ==> s[k].date <= Effective(s, i)
    ensures exists k :: 0 <= k <= i && s[k].date == Effective(s, i)
  {
    if i == 0 {
      assert s[0].date == Effective(s, 0);
    } else {
      EffectiveIsGreatest(s, i - 1);
      var k :| 0 <= k <= i - 1 && s[k].date == Effective(s, i - 1);
      if Effective(s, i - 1) < s[i].date { assert s[i].date == Effective(s, i); }
    }
  }

  /** Lines appended later change no effective date. */
  lemma {:induction false} EffectiveIsFixed(s: seq<Record>, t: seq<Record>, i: nat)
    requires i < |s|
    ensures Effective(s + t, i) == Effective(s, i)
  {
    if i > 0 { EffectiveIsFixed(s, t, i - 1); }
  }

  lemma {:induction false} EffectiveOfLatest(s: seq<Record>, r: Record)
    requires forall k :: 0 <= k < |s| ==> s[k].date <= r.date
    ensures Effective(s + [r], |s|) == r.date
  {
    if s != [] {
      EffectiveBounded(s, |s| - 1, r.date);
      EffectiveIsFixed(s, [r], |s| - 1);
    }
  }

  lemma {:induction false} EffectiveBounded(s: seq<Record>, i: nat, d: nat)
    requires i < |s| && forall k :: 0 <= k < |s| ==> s[k].date <= d
    ensures Effective(s, i) <= d
  {
    if i > 0 { EffectiveBounded(s, i - 1, d); }
  }

  /* ---- The recording order ---- */

  /** Line `i` of the ledger at `p`. */
  ghost predicate There(w: Ledgers, p: Path, i: nat) {
    p in w && i < |w[p]|
  }

  ghost predicate Holds(w: Ledgers, r: Record) {
    exists p, i: nat :: There(w, p, i) && w[p][i] == r
  }

  ghost predicate Numbered(w: Ledgers, count: nat) {
    && (forall p, i: nat :: There(w, p, i) ==> w[p][i].number < count)
    && (forall p, i: nat, q, j: nat :: There(w, p, i) && There(w, q, j) && w[p][i].number == w[q][j].number ==>
          p == q && i == j)
  }

  /** Lines are only ever appended: within a ledger the numbers ascend. */
  ghost predicate Ascending(w: Ledgers) {
    forall p, i: nat, j: nat :: There(w, p, i) && There(w, p, j) && i < j ==> w[p][i].number < w[p][j].number
  }

  /* ---- What a call saw ---- */

  /** `seen[n]` is how many lines had been written when call `n` read the dates. */
  ghost predicate Sees(seen: seq<nat>) {
    forall n :: 0 <= n < |seen| ==> seen[n] <= n
  }

  /** Call `n` read the dates after line `m` was written. */
  predicate Saw(seen: seq<nat>, m: nat, n: nat) {
    n < |seen| && m < seen[n]
  }

  /** Both were read before either was written; `m` was written first. */
  predicate Overlap(seen: seq<nat>, m: nat, n: nat) {
    m < n < |seen| && seen[n] <= m
  }

  /** Two lines about one address: a call that saw the other dates its own later. */
  ghost predicate InOrder(w: Ledgers, seen: seq<nat>, p: Path, i: nat, q: Path, j: nat)
    requires There(w, p, i) && There(w, q, j)
  {
    w[p][i].addr == w[q][j].addr && Saw(seen, w[p][i].number, w[q][j].number) ==>
      Effective(w[p], i) < Effective(w[q], j)
  }

  /** The dates agree with the recording order, in and across the files, wherever the later
      call saw the earlier line. */
  ghost predicate DatesFollow(w: Ledgers, seen: seq<nat>) {
    forall p, i: nat, q, j: nat :: There(w, p, i) && There(w, q, j) ==> InOrder(w, seen, p, i, q, j)
  }

  /** What every step on the ledgers keeps. */
  ghost predicate Kept(w: Ledgers, seen: seq<nat>) {
    Numbered(w, |seen|) && Ascending(w) && Sees(seen) && DatesFollow(w, seen)
  }

  /** Every line about `a` is dated before `d`. */
  ghost predicate AllBefore(w: Ledgers, a: Addr, d: nat) {
    forall p, i: nat :: There(w, p, i) && w[p][i].addr == a ==> Effective(w[p], i) < d
  }

  function Lines(w: Ledgers, p: Path): seq<Record> {
    if p in w then w[p] else []
  }

  function Appended(w: Ledgers, p: Path, r: Record): Ledgers {
    w[p := Lines(w, p) + [r]]
  }

  lemma AppendedLine(w: Ledgers, p: Path, r: Record, q: Path, j: nat)
    requires There(Appended(w, p, r), q, j)
    ensures q == p && j == |Lines(w, p)| ==> Appended(w, p, r)[q][j] == r
    ensures !(q == p && j == |Lines(w, p)|) ==> There(w, q, j) && Appended(w, p, r)[q][j] == w[q][j]
    ensures !(q == p && j == |Lines(w, p)|) ==> Effective(Appended(w, p, r)[q], j) == Effective(w[q], j)
  {
    if q == p && j < |Lines(w, p)| { EffectiveIsFixed(w[p], [r], j); }
  }

  /** A line counts at least as late as it is dated. */
  lemma NewLine(w: Ledgers, p: Path, r: Record)
    ensures There(Appended(w, p, r), p, |Lines(w, p)|) && Appended(w, p, r)[p][|Lines(w, p)|] == r
    ensures Effective(Appended(w, p, r)[p], |Lines(w, p)|) >= r.date
  {
  }

  /** And just as late, when it is dated no earlier than any line of its own ledger. */
  lemma NewLineInOrder(w: Ledgers, p: Path, r: Record)
    requires forall k :: 0 <= k < |Lines(w, p)| ==> Lines(w, p)[k].date <= r.date
    ensures Effective(Appended(w, p, r)[p], |Lines(w, p)|) == r.date
  {
    EffectiveOfLatest(Lines(w, p), r);
  }

  /** The date a call may stamp on a line about `a` when it read the ledgers while `since`
      lines had been written. */
  ghost predicate Fresh(w: Ledgers, a: Addr, date: nat, since: nat) {
    forall p, i: nat :: There(w, p, i) && w[p][i].addr == a && w[p][i].number < since ==> Effective(w[p], i) < date
  }

  lemma AppendKeepsNumbers(w: Ledgers, p: Path, r: Record, count: nat)
    requires Numbered(w, count) && r.number == count
    ensures Numbered(Appended(w, p, r), count + 1)
  {
    hide Appended, Effective;
    var n := Appended(w, p, r);
    forall q, j: nat | There(n, q, j)
      ensures n[q][j].number <= count
      ensures n[q][j].number == count <==> q == p && j == |Lines(w, p)|
      ensures n[q][j].number < count ==> There(w, q, j) && w[q][j] == n[q][j]
    {
      AppendedLine(w, p, r, q, j);
    }
  }

  lemma AppendAscends(w: Ledgers, p: Path, r: Record)
    requires Ascending(w) && Numbered(w, r.number)
    ensures Ascending(Appended(w, p, r))
  {
    hide Appended, Effective;
    var n := Appended(w, p, r);
    forall q, i: nat, j: nat | There(n, q, i) && There(n, q, j) && i < j
      ensures n[q][i].number < n[q][j].number
    {
      AppendedLine(w, p, r, q, i);
      AppendedLine(w, p, r, q, j);
      AppendedLength(w, p, r);
    }
  }

  lemma AppendedLength(w: Ledgers, p: Path, r: Record)
    ensures p in Appended(w, p, r) && |Appended(w, p, r)[p]| == |Lines(w, p)| + 1
  {
  }

  /** Whatever the clock does and whoever else writes: a line whose date is past every line
      about its address that its call saw keeps the order. */
  lemma AppendKeepsDates(w: Ledgers, seen: seq<nat>, p: Path, r: Record, since: nat)
    requires Kept(w, seen) && r.number == |seen| && since <= |seen| && Fresh(w, r.addr, r.date, since)
    ensures Kept(Appended(w, p, r), seen + [since])
  {
    hide Appended, Effective, There, Numbered, Ascending, Fresh;
    var n := Appended(w, p, r);
    AppendKeepsNumbers(w, p, r, |seen|);
    AppendAscends(w, p, r);
    forall q, j: nat, q', j': nat | There(n, q, j) && There(n, q', j')
      ensures InOrder(n, seen + [since], q, j, q', j')
    {
      AppendedInOrder(w, seen, p, r, since, q, j, q', j');
    }
  }

  lemma AppendedInOrder(w: Ledgers, seen: seq<nat>, p: Path, r: Record, since: nat,
                        q: Path, j: nat, q': Path, j': nat)
    requires Kept(w, seen) && r.number == |seen| && since <= |seen| && Fresh(w, r.addr, r.date, since)
    requires There(Appended(w, p, r), q, j) && There(Appended(w, p, r), q', j')
    ensures InOrder(Appended(w, p, r), seen + [since], q, j, q', j')
  {
    hide Appended, Effective, Ascending;
    AppendedLine(w, p, r, q, j);
    AppendedLine(w, p, r, q', j');
    if q' == p && j' == |Lines(w, p)| {
      NewLine(w, p, r);
    } else if !(q == p && j == |Lines(w, p)|) {
      assert InOrder(w, seen, q, j, q', j');
    }
  }

  /** A date once fresh stays so: what others write afterwards was not seen. */
  lemma FreshStays(w: Ledgers, p: Path, r: Record, a: Addr, date: nat, since: nat)
    requires Fresh(w, a, date, since) && since <= r.number
    ensures Fresh(Appended(w, p, r), a, date, since)
  {
    hide Effective, Appended;
    var n := Appended(w, p, r);
    forall q, j: nat | There(n, q, j) && n[q][j].addr == a && n[q][j].number < since
      ensures Effective(n[q], j) < date
    {
      AppendedLine(w, p, r, q, j);
    }
  }

  /** When no two calls overlap, the dates strictly follow the recording order throughout. */
  lemma OneByOne(w: Ledgers, seen: seq<nat>, p: Path, i: nat, q: Path, j: nat)
    requires Kept(w, seen) && forall n :: 0 <= n < |seen| ==> seen[n] == n
    requires There(w, p, i) && There(w, q, j) && w[p][i].addr == w[q][j].addr && w[p][i].number < w[q][j].number
    ensures Effective(w[p], i) < Effective(w[q], j)
  {
    hide Effective;
    assert InOrder(w, seen, p, i, q, j);
  }

  /** A ledger carried whole to a path that holds none. */
  function Moved(w: Ledgers, from: Path, to: Path): Ledgers
    requires from in w && to !in w
  {
    (w - {from})[to := w[from]]
  }

  lemma MovedLine(w: Ledgers, from: Path, to: Path, q: Path, j: nat)
    requires from in w && to !in w && There(Moved(w, from, to), q, j)
    ensures var was := if q == to then from else q;
      There(w, was, j) && Moved(w, from, to)[q] == w[was]
  {
  }

  lemma MoveKeepsOrder(w: Ledgers, from: Path, to: Path, seen: seq<nat>)
    requires from in w && to !in w && Kept(w, seen)
    ensures Kept(Moved(w, from, to), seen)
  {
    hide Effective, Moved;
    var n := Moved(w, from, to);
    forall q, j: nat | There(n, q, j)
      ensures There(w, if q == to then from else q, j) && n[q] == w[if q == to then from else q]
      ensures q != from
    {
      MovedLine(w, from, to, q, j);
      NothingLeft(w, from, to);
    }
    forall q, j: nat, q', j': nat | There(n, q, j) && There(n, q', j')
      ensures InOrder(n, seen, q, j, q', j')
    {
      assert InOrder(w, seen, if q == to then from else q, j, if q' == to then from else q', j');
    }
  }

  lemma NothingLeft(w: Ledgers, from: Path, to: Path)
    requires from in w && to !in w
    ensures forall j: nat :: !There(Moved(w, from, to), from, j)
  {
  }

  lemma MoveKeepsFresh(w: Ledgers, from: Path, to: Path, a: Addr, date: nat, since: nat)
    requires from in w && to !in w && Fresh(w, a, date, since)
    ensures Fresh(Moved(w, from, to), a, date, since)
  {
    hide Effective, Moved;
    var n := Moved(w, from, to);
    forall q, j: nat | There(n, q, j) && n[q][j].addr == a && n[q][j].number < since
      ensures Effective(n[q], j) < date
    {
      MovedLine(w, from, to, q, j);
    }
  }

  /* ---- Recording ---- */

  /** The date a call stamps: the clock, unless a line about the address is dated at or past
      it, then one more than the greatest; and no earlier than any line of its own ledger. */
  function StampDate(w: Ledgers, files: seq<Path>, p: Path, a: Addr, now: nat): nat
    requires forall q :: q in files ==> q in w
  {
    Max(Max(now, Next(DatesOver(w, files, a))), Greatest(DatesOf(Lines(w, p))))
  }

  function Next(dates: seq<nat>): nat {
    if dates == [] then 0 else Greatest(dates) + 1
  }

  function DatesOf(s: seq<Record>): seq<nat> {
    seq(|s|, i requires 0 <= i < |s| => s[i].date)
  }

  lemma StampFollows(w: Ledgers, files: seq<Path>, p: Path, a: Addr, now: nat)
    requires forall q :: q in files <==> q in w
    ensures var date := StampDate(w, files, p, a, now);
      date >= now && AllBefore(w, a, date) && forall k :: 0 <= k < |Lines(w, p)| ==> Lines(w, p)[k].date <= date
  {
    var dates, own := DatesOver(w, files, a), DatesOf(Lines(w, p));
    DatesOverAll(w, files, a);
    GreatestIsOne(dates);
    GreatestIsOne(own);
    assert forall k :: 0 <= k < |own| ==> own[k] == Lines(w, p)[k].date;
  }

  /** And no earlier date would do. */
  lemma StampIsLeast(w: Ledgers, files: seq<Path>, p: Path, a: Addr, now: nat, date: nat)
    requires (forall q :: q in files <==> q in w) && date >= now && AllBefore(w, a, date)
    requires forall k :: 0 <= k < |Lines(w, p)| ==> Lines(w, p)[k].date <= date
    ensures StampDate(w, files, p, a, now) <= date
  {
    var dates, own := DatesOver(w, files, a), DatesOf(Lines(w, p));
    DatesOverAll(w, files, a);
    GreatestIsOne(dates);
    GreatestIsOne(own);
  }

  lemma BeforeIsFresh(w: Ledgers, a: Addr, date: nat, since: nat)
    requires AllBefore(w, a, date)
    ensures Fresh(w, a, date, since)
  {
  }

  /** A line about to be written: its ledger, the line, its number aside, and how many lines
      had been written when the dates were read for it. */
  datatype Draft = Draft(path: Path, line: Record, since: nat)

  ghost predicate Ready(w: Ledgers, seen: seq<nat>, d: Draft) {
    d.since <= |seen| && Fresh(w, d.line.addr, d.line.date, d.since)
  }

  function Written(w: Ledgers, seen: seq<nat>, d: Draft): Ledgers {
    Appended(w, d.path, d.line.(number := |seen|))
  }

  /** The ledgers, and what the calls saw. The program takes no lock: any number of calls may
      read the dates, each then writing its line at any later time. */
  class Log {
    var ledgers: Ledgers
    var seen: seq<nat>

    ghost predicate Valid()
      reads this
    {
      Kept(ledgers, seen)
    }

    constructor ()
      ensures Valid() && ledgers == map[] && seen == []
    {
      ledgers := map[];
      seen := [];
    }

    /** The effective dates of the lines about an address, over all files. */
    method AddrDates(files: seq<Path>, a: Addr) returns (dates: seq<nat>)
      requires forall p :: p in files <==> p in ledgers
      ensures dates == DatesOver(ledgers, files, a)
      ensures forall d :: AllBefore(ledgers, a, d) <==> forall k :: 0 <= k < |dates| ==> dates[k] < d
    {
      dates := [];
      var fi := 0;
      while fi < |files|
        invariant 0 <= fi <= |files| && dates == DatesOver(ledgers, files[..fi], a)
      {
        var s := ledgers[files[fi]];
        var eff, li := 0, 0;
        while li < |s|
          invariant 0 <= li <= |s| && eff == (if li == 0 then 0 else Effective(s, li - 1))
          invariant dates == DatesOver(ledgers, files[..fi], a) + DatesIn(s, li, a)
        {
          eff := Max(eff, s[li].date);
          if s[li].addr == a { dates := dates + [eff]; }
          li := li + 1;
        }
        assert Init(files[..fi + 1]) == files[..fi] && Last(files[..fi + 1]) == files[fi];
        fi := fi + 1;
      }
      assert files[..fi] == files;
      DatesOverAll(ledgers, files, a);
    }

    /** The first half of a call: read the dates. Refused when no date is left to put after
        the others of this address. */
    method Stamp(p: Path, files: seq<Path>, a: Addr, now: nat) returns (date: Option<nat>)
      requires (forall q :: q in files <==> q in ledgers) && 0 < now <= LAST_DATE
      ensures date.Some? <==> AllBefore(ledgers, a, LAST_DATE)
      ensures date.Some? ==> date.value == StampDate(ledgers, files, p, a, now)
    {
      hide AllBefore;
      var dates := AddrDates(files, a);
      var day, latest := now, Greatest(dates);
      GreatestIsOne(dates);
      if dates != [] && latest >= now {
        if latest >= LAST_DATE { return None; }
        day := latest + 1;
      }
      date := Some(Max(day, Greatest(DatesOf(Lines(ledgers, p)))));
    }

    /** The second half: append the line. Whatever else was being written is as ready as it
        was. */
    method Write(d: Draft)
      requires Valid() && Ready(ledgers, seen, d)
      modifies this
      ensures Valid()
      ensures ledgers == Written(old(ledgers), old(seen), d) && seen == old(seen) + [d.since]
      ensures forall e :: Ready(old(ledgers), old(seen), e) ==> Ready(ledgers, seen, e)
    {
      WriteKeeps(ledgers, seen, d);
      ledgers, seen := Written(ledgers, seen, d), seen + [d.since];
    }

    /** Append one verdict in one go. A PASS is refused unless the source holds that body, and
        any verdict when no date is left. The line is dated past every line about the address,
        wherever it is, and not before any line of its own ledger. */
    method Append(p: Path, files: seq<Path>, func: nat, a: Addr, v: Verdict, body: Hash, source: Option<Hash>, now: nat)
      returns (ok: bool)
      requires Valid() && (forall q :: q in files <==> q in ledgers) && 0 < now <= LAST_DATE
      modifies this
      ensures Valid()
      ensures ok <==> (v == Pass ==> source == Some(body)) && AllBefore(old(ledgers), a, LAST_DATE)
      ensures !ok ==> ledgers == old(ledgers) && seen == old(seen)
      ensures ok ==> seen == old(seen) + [|old(seen)|]
      ensures ok ==> ledgers == Appended(old(ledgers), p,
        Record(func, a, v, body, StampDate(old(ledgers), files, p, a, now), |old(seen)|))
    {
      hide Kept, AllBefore, StampDate, Appended;
      if v == Pass && source != Some(body) { return false; }
      var date := Stamp(p, files, a, now);
      if date.None? { return false; }
      StampFollows(ledgers, files, p, a, now);
      BeforeIsFresh(ledgers, a, date.value, |seen|);
      Write(Draft(p, Record(func, a, v, body, date.value, 0), |seen|));
      ok := true;
    }

    /** Archive a ledger, between any two halves of any calls. */
    method Archive(from: Path, to: Path) returns (ok: bool)
      requires Valid()
      modifies this
      ensures Valid() && ok == (from in old(ledgers) && to !in old(ledgers)) && seen == old(seen)
      ensures ledgers == if ok then Moved(old(ledgers), from, to) else old(ledgers)
      ensures forall e :: Ready(old(ledgers), old(seen), e) ==> Ready(ledgers, seen, e)
    {
      if from !in ledgers || to in ledgers { return false; }
      MoveKeeps(ledgers, seen, from, to);
      ledgers := Moved(ledgers, from, to);
      ok := true;
    }
  }

  lemma WriteKeeps(w: Ledgers, seen: seq<nat>, d: Draft)
    requires Kept(w, seen) && Ready(w, seen, d)
    ensures Kept(Written(w, seen, d), seen + [d.since])
    ensures forall e :: Ready(w, seen, e) ==> Ready(Written(w, seen, d), seen + [d.since], e)
  {
    hide Kept, Fresh, Appended;
    var r := d.line.(number := |seen|);
    AppendKeepsDates(w, seen, d.path, r, d.since);
    forall e | Ready(w, seen, e)
      ensures Ready(Written(w, seen, d), seen + [d.since], e)
    {
      FreshStays(w, d.path, r, e.line.addr, e.line.date, e.since);
    }
  }

  lemma MoveKeeps(w: Ledgers, seen: seq<nat>, from: Path, to: Path)
    requires from in w && to !in w && Kept(w, seen)
    ensures Kept(Moved(w, from, to), seen)
    ensures forall e :: Ready(w, seen, e) ==> Ready(Moved(w, from, to), seen, e)
  {
    hide Kept, Fresh, Moved;
    MoveKeepsOrder(w, from, to, seen);
    forall e | Ready(w, seen, e)
      ensures Ready(Moved(w, from, to), seen, e)
    {
      MoveKeepsFresh(w, from, to, e.line.addr, e.line.date, e.since);
    }
  }

  function Greatest(s: seq<nat>): nat {
    if s == [] then 0 else Max(Greatest(Init(s)), Last(s))
  }

  lemma {:induction false} GreatestIsOne(s: seq<nat>)
    ensures forall k :: 0 <= k < |s| ==> s[k] <= Greatest(s)
    ensures s != [] ==> Greatest(s) in s
  {
    if s != [] {
      GreatestIsOne(Init(s));
      assert forall k :: 0 <= k < |s| - 1 ==> s[k] == Init(s)[k];
    }
  }

  /** The effective dates of the first `n` lines that are about `a`. */
  function DatesIn(s: seq<Record>, n: nat, a: Addr): seq<nat>
    requires n <= |s|
  {
    if n == 0 then [] else DatesIn(s, n - 1, a) + (if s[n - 1].addr == a then [Effective(s, n - 1)] else [])
  }

  function DatesOver(w: Ledgers, files: seq<Path>, a: Addr): seq<nat>
    requires forall p :: p in files ==> p in w
  {
    if files == [] then []
    else DatesOver(w, Init(files), a) + DatesIn(w[Last(files)], |w[Last(files)]|, a)
  }

  lemma {:induction false} DatesInHolds(s: seq<Record>, n: nat, a: Addr, d: nat)
    requires n <= |s|
    ensures d in DatesIn(s, n, a) <==> exists i :: 0 <= i < n && s[i].addr == a && Effective(s, i) == d
  {
    if n > 0 { DatesInHolds(s, n - 1, a, d); }
  }

  ghost predicate DatedAt(w: Ledgers, p: Path, i: nat, a: Addr, d: nat) {
    There(w, p, i) && w[p][i].addr == a && Effective(w[p], i) == d
  }

  lemma {:induction false} DatesOverHolds(w: Ledgers, files: seq<Path>, a: Addr, d: nat)
    requires forall p :: p in files ==> p in w
    ensures d in DatesOver(w, files, a) <==> exists p, i: nat :: p in files && DatedAt(w, p, i, a, d)
  {
    hide Effective;
    if files != [] {
      var p := Last(files);
      DatesOverHolds(w, Init(files), a, d);
      DatesInHolds(w[p], |w[p]|, a, d);
      assert forall q :: q in files <==> q in Init(files) || q == p by { assert files == Init(files) + [p]; }
      if i :| 0 <= i < |w[p]| && w[p][i].addr == a && Effective(w[p], i) == d { assert DatedAt(w, p, i, a, d); }
    }
  }

  lemma DatesOverAll(w: Ledgers, files: seq<Path>, a: Addr)
    requires forall p :: p in files <==> p in w
    ensures forall d :: AllBefore(w, a, d) <==>
      forall k :: 0 <= k < |DatesOver(w, files, a)| ==> DatesOver(w, files, a)[k] < d
  {
    hide Effective;
    var dates := DatesOver(w, files, a);
    forall p, i: nat | There(w, p, i) && w[p][i].addr == a
      ensures Effective(w[p], i) in dates
    {
      DatesOverHolds(w, files, a, Effective(w[p], i));
      assert DatedAt(w, p, i, a, Effective(w[p], i));
    }
    forall k | 0 <= k < |dates|
      ensures exists p, i: nat :: DatedAt(w, p, i, a, dates[k])
    {
      DatesOverHolds(w, files, a, dates[k]);
    }
  }
}
