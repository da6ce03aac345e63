/**
 Reviews recorded by any number of processes at once. A call reads the dates of all ledgers
 in one step and appends its line in a later one, with no lock in between; ledgers are archived
 at any moment. What the audit may still read in the wrong order, and exactly when.
 */
module ReviewRuns {
  import opened Prelude
  import opened Sorting
  import opened ReviewLog
  import opened ReviewMerge

  type Pid = nat

  /** `drafts`: the calls that have read the dates and not yet written. */
  datatype World = World(ledgers: Ledgers, seen: seq<nat>, drafts: map<Pid, Draft>)

  datatype Event =
    | Read(p: Pid, path: Path, line: Record, files: seq<Path>, now: nat)
    | Write(p: Pid)
    | GiveUp(p: Pid)
    | Archive(from: Path, to: Path)

  ghost predicate Lists(files: seq<Path>, w: Ledgers) {
    Distinct(files) && forall q :: q in files <==> q in w
  }

  ghost predicate Step(w: World, e: Event, n: World) {
    match e
    case Read(p, path, line, files, now) =>
      Lists(files, w.ledgers) && line.date == StampDate(w.ledgers, files, path, line.addr, now) &&
      n == w.(drafts := w.drafts[p := Draft(path, line, |w.seen|)])
    case Write(p) =>
      p in w.drafts &&
      n == World(Written(w.ledgers, w.seen, w.drafts[p]), w.seen + [w.drafts[p].since], w.drafts - {p})
    case GiveUp(p) => n == w.(drafts := w.drafts - {p})
    case Archive(from, to) =>
      from in w.ledgers && to !in w.ledgers && n == w.(ledgers := Moved(w.ledgers, from, to))
  }

  ghost predicate Run(states: seq<World>, events: seq<Event>) {
    && |states| == |events| + 1 && Kept(states[0].ledgers, states[0].seen) && states[0].drafts == map[]
    && forall i :: 0 <= i < |events| ==> Step(states[i], events[i], states[i + 1])
  }

  /** The ledgers are in order as far as the calls saw, and every draft may be written. */
  ghost predicate Sound(w: World) {
    Kept(w.ledgers, w.seen) && forall p :: p in w.drafts ==> Ready(w.ledgers, w.seen, w.drafts[p])
  }

  lemma StepKeeps(w: World, e: Event, n: World)
    requires Sound(w) && Step(w, e, n)
    ensures Sound(n)
  {
    hide Kept, Ready, Written, Moved, StampDate;
    match e
    case Read(p, path, line, files, now) =>
      StampFollows(w.ledgers, files, path, line.addr, now);
      ReadIsReady(w.ledgers, w.seen, path, line);
    case Write(p) => WriteKeeps(w.ledgers, w.seen, w.drafts[p]);
    case GiveUp(_) =>
    case Archive(from, to) => MoveKeeps(w.ledgers, w.seen, from, to);
  }

  lemma ReadIsReady(w: Ledgers, seen: seq<nat>, path: Path, line: Record)
    requires AllBefore(w, line.addr, line.date)
    ensures Ready(w, seen, Draft(path, line, |seen|))
  {
  }

  lemma {:induction false} RunsAreSound(states: seq<World>, events: seq<Event>, i: nat)
    requires Run(states, events) && i < |states|
    ensures Sound(states[i])
  {
    hide Step, Kept, Ready;
    if i > 0 {
      RunsAreSound(states, events, i - 1);
      assert Step(states[i - 1], events[i - 1], states[i - 1 + 1]);
      StepKeeps(states[i - 1], events[i - 1], states[i]);
    }
  }

  /* ---- What the audit makes of it ---- */

  /** Whenever two calls about `a` overlapped and wrote to what are now different ledgers, the
      merge puts the one that wrote first before the other. */
  ghost predicate OverlapsInOrder(w: Ledgers, seen: seq<nat>, files: seq<Path>, a: Addr) {
    forall fi: nat, i: nat, fj: nat, j: nat :: About(w, files, a, fi, i) && About(w, files, a, fj, j) ==>
      fi != fj && Overlap(seen, w[files[fi]][i].number, w[files[fj]][j].number) ==> PutFirst(w, files, fi, i, fj, j)
  }

  /** Over any run, for any listing of the ledgers: the audit reads the lines of an address in
      recording order exactly when the overlapping calls into different ledgers happen to be in
      order. Nothing else can be read wrongly. */
  lemma OnlyOverlapsMayTie(states: seq<World>, events: seq<Event>, i: nat, files: seq<Path>, a: Addr)
    requires Run(states, events) && i < |states| && Lists(files, states[i].ledgers)
    ensures RecordingOrder(states[i].ledgers, a, Merged(states[i].ledgers, files, a)) <==>
      OverlapsInOrder(states[i].ledgers, states[i].seen, files, a)
  {
    hide Step, Merged, RecordingOrder, Ready, Ascending, Sees, DatesFollow, OverlapsInOrder, InMergeOrder;
    RunsAreSound(states, events, i);
    MergeIsRecordingOrder(states[i].ledgers, files, |states[i].seen|, a);
    OverlapsDecide(states[i].ledgers, states[i].seen, files, a);
  }

  lemma OverlapsDecide(w: Ledgers, seen: seq<nat>, files: seq<Path>, a: Addr)
    requires Kept(w, seen)
    ensures InMergeOrder(w, files, a) <==> OverlapsInOrder(w, seen, files, a)
  {
    hide Effective, PutFirst, Kept;
    if OverlapsInOrder(w, seen, files, a) {
      forall fi: nat, i: nat, fj: nat, j: nat | About(w, files, a, fi, i) && About(w, files, a, fj, j) &&
          w[files[fi]][i].number < w[files[fj]][j].number
        ensures PutFirst(w, files, fi, i, fj, j)
      {
        if fi == fj || !Overlap(seen, w[files[fi]][i].number, w[files[fj]][j].number) {
          PairInOrder(w, seen, files, a, fi, i, fj, j);
        }
      }
    }
  }

  /** Two lines in one ledger, or the later call saw the earlier line: put in order. */
  lemma PairInOrder(w: Ledgers, seen: seq<nat>, files: seq<Path>, a: Addr, fi: nat, i: nat, fj: nat, j: nat)
    requires Kept(w, seen) && About(w, files, a, fi, i) && About(w, files, a, fj, j)
    requires w[files[fi]][i].number < w[files[fj]][j].number
    requires fi == fj || !Overlap(seen, w[files[fi]][i].number, w[files[fj]][j].number)
    ensures PutFirst(w, files, fi, i, fj, j)
  {
    hide Effective;
    if fi == fj {
      EffectiveGrows(w[files[fi]], Min(i, j), Max(i, j));
    } else {
      assert InOrder(w, seen, files[fi], i, files[fj], j);
    }
  }

  lemma {:induction false} EffectiveGrows(s: seq<Record>, i: nat, j: nat)
    requires i <= j < |s|
    ensures Effective(s, i) <= Effective(s, j)
    decreases j
  {
    if i < j { EffectiveGrows(s, i, j - 1); }
  }

  /** Overlapping calls into different ledgers count as strictly later one after the other. */
  ghost predicate StrictOverlaps(w: Ledgers, seen: seq<nat>, files: seq<Path>, a: Addr) {
    forall fi: nat, i: nat, fj: nat, j: nat :: About(w, files, a, fi, i) && About(w, files, a, fj, j) ==>
      fi != fj && Overlap(seen, w[files[fi]][i].number, w[files[fj]][j].number) ==>
        Effective(w[files[fi]], i) < Effective(w[files[fj]], j)
  }

  function Reversed(files: seq<Path>): seq<Path> {
    seq(|files|, k requires 0 <= k < |files| => files[|files| - 1 - k])
  }

  lemma ReversedLists(files: seq<Path>, w: Ledgers)
    requires Lists(files, w)
    ensures Lists(Reversed(files), w)
  {
    var back := Reversed(files);
    forall q | q in files
      ensures q in back
    {
      var k :| 0 <= k < |files| && files[k] == q;
      assert back[|files| - 1 - k] == q;
    }
  }

  lemma AboutReversed(w: Ledgers, files: seq<Path>, a: Addr, fi: nat, i: nat)
    requires About(w, files, a, fi, i)
    ensures var gi: nat := |files| - 1 - fi; About(w, Reversed(files), a, gi, i) && Reversed(files)[gi] == files[fi]
  {
  }

  /** The order of the ledgers in the listing is never what decides, exactly when the
      overlapping calls are strictly in order: two opposite listings tell. */
  lemma NoListingMatters(w: Ledgers, seen: seq<nat>, files: seq<Path>, a: Addr)
    requires Kept(w, seen) && Lists(files, w)
    ensures (forall fs :: Lists(fs, w) ==> RecordingOrder(w, a, Merged(w, fs, a))) <==>
      StrictOverlaps(w, seen, files, a)
  {
    hide Merged, RecordingOrder, Kept, StrictOverlaps, InMergeOrder;
    if StrictOverlaps(w, seen, files, a) {
      forall fs | Lists(fs, w)
        ensures RecordingOrder(w, a, Merged(w, fs, a))
      {
        NumbersOf(w, seen);
        MergeIsRecordingOrder(w, fs, |seen|, a);
        OverlapsDecide(w, seen, fs, a);
        StrictInAny(w, seen, files, fs, a);
      }
    }
    if forall fs :: Lists(fs, w) ==> RecordingOrder(w, a, Merged(w, fs, a)) {
      ReversedLists(files, w);
      NumbersOf(w, seen);
      MergeIsRecordingOrder(w, files, |seen|, a);
      MergeIsRecordingOrder(w, Reversed(files), |seen|, a);
      BothWays(w, seen, files, a);
    }
  }

  lemma NumbersOf(w: Ledgers, seen: seq<nat>)
    requires Kept(w, seen)
    ensures Numbered(w, |seen|)
  {
  }

  lemma StrictInAny(w: Ledgers, seen: seq<nat>, files: seq<Path>, fs: seq<Path>, a: Addr)
    requires Lists(files, w) && Lists(fs, w) && StrictOverlaps(w, seen, files, a)
    ensures OverlapsInOrder(w, seen, fs, a)
  {
    hide Effective, Overlap;
    forall gi: nat, i: nat, gj: nat, j: nat | About(w, fs, a, gi, i) && About(w, fs, a, gj, j) &&
        gi != gj && Overlap(seen, w[fs[gi]][i].number, w[fs[gj]][j].number)
      ensures PutFirst(w, fs, gi, i, gj, j)
    {
      assert fs[gi] in files && fs[gj] in files;
      var fi: nat :| fi < |files| && files[fi] == fs[gi];
      var fj: nat :| fj < |files| && files[fj] == fs[gj];
      assert About(w, files, a, fi, i) && About(w, files, a, fj, j);
    }
  }

  lemma BothWays(w: Ledgers, seen: seq<nat>, files: seq<Path>, a: Addr)
    requires Lists(files, w) && InMergeOrder(w, files, a) && InMergeOrder(w, Reversed(files), a)
    ensures StrictOverlaps(w, seen, files, a)
  {
    hide Effective, Reversed;
    forall fi: nat, i: nat, fj: nat, j: nat | About(w, files, a, fi, i) && About(w, files, a, fj, j) &&
        fi != fj && Overlap(seen, w[files[fi]][i].number, w[files[fj]][j].number)
      ensures Effective(w[files[fi]], i) < Effective(w[files[fj]], j)
    {
      AboutReversed(w, files, a, fi, i);
      AboutReversed(w, files, a, fj, j);
      assert PutFirst(w, files, fi, i, fj, j);
      assert PutFirst(w, Reversed(files), |files| - 1 - fi, i, |files| - 1 - fj, j);
    }
  }

  /* ---- Two calls ---- */

  ghost predicate ListedBefore(files: seq<Path>, p: Path, q: Path) {
    exists fi, fj :: 0 <= fi < fj < |files| && files[fi] == p && files[fj] == q
  }

  /** Two calls about one address that both read the ledgers `w`, one at `now` and one at
      `later`, and then write, the first to `p` and the second to `q`. Everything the audit's
      order then depends on is known when they read: into one ledger it always holds; into two
      it holds exactly when the later writer's stamp is greater, or equal and its ledger listed
      later. */
  lemma InterleavedAppends(w: Ledgers, count: nat, known: seq<Path>, p: Path, r: Record, now: nat,
                           q: Path, t: Record, later: nat, files: seq<Path>)
    requires Numbered(w, count) && Lists(known, w) && r.addr == t.addr && InMergeOrder(w, files, r.addr)
    requires r.date == StampDate(w, known, p, r.addr, now) && r.number == count
    requires t.date == StampDate(w, known, q, t.addr, later) && t.number == count + 1
    requires Lists(files, Appended(Appended(w, p, r), q, t))
    ensures var m := Appended(Appended(w, p, r), q, t);
      RecordingOrder(m, r.addr, Merged(m, files, r.addr)) <==>
        p == q || r.date < t.date || (r.date == t.date && ListedBefore(files, p, q))
  {
    hide Merged, RecordingOrder, StampDate, InMergeOrder, Ascending;
    var n := Appended(w, p, r);
    var m := Appended(n, q, t);
    StampFollows(w, known, p, r.addr, now);
    StampFollows(w, known, q, t.addr, later);
    AppendKeepsNumbers(w, p, r, count);
    AppendKeepsNumbers(n, q, t, count + 1);
    MergeIsRecordingOrder(m, files, count + 2, r.addr);
    if InMergeOrder(m, files, r.addr) && p != q { TheyAreInOrder(w, p, r, q, t, files); }
    if p == q || r.date < t.date || (r.date == t.date && ListedBefore(files, p, q)) {
      TheyFallInOrder(w, count, p, r, q, t, files);
    }
  }

  /** The date may follow on everything in `w` about the address, and in the ledger. */
  ghost predicate MayFollow(w: Ledgers, p: Path, r: Record) {
    AllBefore(w, r.addr, r.date) && forall k :: 0 <= k < |Lines(w, p)| ==> Lines(w, p)[k].date <= r.date
  }

  /** The two new lines, and what they count as. */
  lemma TwoWritten(w: Ledgers, p: Path, r: Record, q: Path, t: Record)
    requires MayFollow(w, p, r) && MayFollow(w, q, t)
    ensures var n := Appended(w, p, r); var m := Appended(n, q, t);
      var i, j := |Lines(w, p)|, |Lines(n, q)|;
      && There(m, p, i) && m[p][i] == r && Effective(m[p], i) == r.date
      && There(m, q, j) && m[q][j] == t && Effective(m[q], j) >= t.date
      && (p == q ==> i < j) && (p != q ==> Effective(m[q], j) == t.date)
  {
    hide AllBefore, Effective;
    var n := Appended(w, p, r);
    NewLine(w, p, r);
    NewLineInOrder(w, p, r);
    NewLine(n, q, t);
    AppendedLine(n, q, t, p, |Lines(w, p)|);
    if p != q {
      assert Lines(n, q) == Lines(w, q);
      NewLineInOrder(n, q, t);
    }
  }

  /** Every other line is an old one and counts as before. */
  lemma OldLine(w: Ledgers, p: Path, r: Record, q: Path, t: Record, x: Path, i: nat)
    requires There(Appended(Appended(w, p, r), q, t), x, i)
    ensures var n := Appended(w, p, r); var m := Appended(n, q, t);
      || (x == p && i == |Lines(w, p)|)
      || (x == q && i == |Lines(n, q)|)
      || (There(w, x, i) && m[x][i] == w[x][i] && Effective(m[x], i) == Effective(w[x], i))
  {
    hide Effective, Appended;
    var n := Appended(w, p, r);
    AppendedLine(n, q, t, x, i);
    if !(x == q && i == |Lines(n, q)|) { AppendedLine(w, p, r, x, i); }
  }

  lemma TheyAreInOrder(w: Ledgers, p: Path, r: Record, q: Path, t: Record, files: seq<Path>)
    requires MayFollow(w, p, r) && MayFollow(w, q, t) && p != q && r.addr == t.addr && r.number < t.number
    requires Lists(files, Appended(Appended(w, p, r), q, t))
    requires InMergeOrder(Appended(Appended(w, p, r), q, t), files, r.addr)
    ensures r.date < t.date || (r.date == t.date && ListedBefore(files, p, q))
  {
    hide Effective, Appended, MayFollow;
    var n := Appended(w, p, r);
    var m := Appended(n, q, t);
    TwoWritten(w, p, r, q, t);
    assert p in files && q in files;
    var fi: nat :| fi < |files| && files[fi] == p;
    var fj: nat :| fj < |files| && files[fj] == q;
    assert About(m, files, r.addr, fi, |Lines(w, p)|) && About(m, files, r.addr, fj, |Lines(n, q)|);
    assert PutFirst(m, files, fi, |Lines(w, p)|, fj, |Lines(n, q)|);
  }

  lemma TheyFallInOrder(w: Ledgers, count: nat, p: Path, r: Record, q: Path, t: Record, files: seq<Path>)
    requires MayFollow(w, p, r) && MayFollow(w, q, t) && r.addr == t.addr
    requires Numbered(w, count) && r.number == count && t.number == count + 1
    requires Lists(files, Appended(Appended(w, p, r), q, t)) && InMergeOrder(w, files, r.addr)
    requires p == q || r.date < t.date || (r.date == t.date && ListedBefore(files, p, q))
    ensures InMergeOrder(Appended(Appended(w, p, r), q, t), files, r.addr)
  {
    hide Effective, Appended, MayFollow, PutFirst, ListedBefore, Numbered;
    var m := Appended(Appended(w, p, r), q, t);
    forall fi: nat, i: nat, fj: nat, j: nat | About(m, files, r.addr, fi, i) && About(m, files, r.addr, fj, j) &&
        m[files[fi]][i].number < m[files[fj]][j].number
      ensures PutFirst(m, files, fi, i, fj, j)
    {
      OnePairFalls(w, count, p, r, q, t, files, fi, i, fj, j);
    }
  }

  lemma OnePairFalls(w: Ledgers, count: nat, p: Path, r: Record, q: Path, t: Record, files: seq<Path>,
                     fi: nat, i: nat, fj: nat, j: nat)
    requires MayFollow(w, p, r) && MayFollow(w, q, t) && r.addr == t.addr
    requires Numbered(w, count) && r.number == count && t.number == count + 1
    requires Distinct(files) && InMergeOrder(w, files, r.addr)
    requires p == q || r.date < t.date || (r.date == t.date && ListedBefore(files, p, q))
    requires var m := Appended(Appended(w, p, r), q, t);
      About(m, files, r.addr, fi, i) && About(m, files, r.addr, fj, j) &&
      m[files[fi]][i].number < m[files[fj]][j].number
    ensures PutFirst(Appended(Appended(w, p, r), q, t), files, fi, i, fj, j)
  {
    hide Effective, Appended, InMergeOrder;
    var n := Appended(w, p, r);
    var m := Appended(n, q, t);
    var x, y := files[fi], files[fj];
    TwoWritten(w, p, r, q, t);
    OldLine(w, p, r, q, t, x, i);
    OldLine(w, p, r, q, t, y, j);
    if y == p && j == |Lines(w, p)| {
    } else if y == q && j == |Lines(n, q)| {
      if x == y { EffectiveGrows(m[y], Min(i, j), Max(i, j)); }
    } else {
      OldPair(w, m, files, r.addr, fi, i, fj, j);
    }
  }

  lemma OldPair(w: Ledgers, m: Ledgers, files: seq<Path>, a: Addr, fi: nat, i: nat, fj: nat, j: nat)
    requires InMergeOrder(w, files, a) && About(m, files, a, fi, i) && About(m, files, a, fj, j)
    requires There(w, files[fi], i) && m[files[fi]][i] == w[files[fi]][i]
    requires There(w, files[fj], j) && m[files[fj]][j] == w[files[fj]][j]
    requires Effective(m[files[fi]], i) == Effective(w[files[fi]], i)
    requires Effective(m[files[fj]], j) == Effective(w[files[fj]], j)
    requires m[files[fi]][i].number < m[files[fj]][j].number
    ensures PutFirst(m, files, fi, i, fj, j)
  {
    hide Effective;
    assert About(w, files, a, fi, i) && About(w, files, a, fj, j);
  }

  /** Two ledgers, one address, one second: the audit takes the second review for the first. */
  lemma OneSecondTwoLedgers(now: nat, func: nat, a: Addr, h: Hash)
    ensures var date := StampDate(map[], [], 2, a, now);
      && date == StampDate(map[], [], 1, a, now)
      && var r, t := Record(func, a, Pass, h, date, 0), Record(func, a, Fail, h, date, 1);
         var m := Appended(Appended(map[], 2, r), 1, t);
         !RecordingOrder(m, a, Merged(m, [1, 2], a))
  {
    hide StampDate, Merged, RecordingOrder, ListedBefore;
    assert StampDate(map[], [], 2, a, now) == StampDate(map[], [], 1, a, now) by { EmptyStamp(now, a); }
    var date := StampDate(map[], [], 2, a, now);
    var r, t := Record(func, a, Pass, h, date, 0), Record(func, a, Fail, h, date, 1);
    var m := Appended(Appended(map[], 2, r), 1, t);
    assert forall q :: q in [1, 2] <==> q in m;
    InterleavedAppends(map[], 0, [], 2, r, now, 1, t, now, [1, 2]);
    NotBefore();
  }

  lemma EmptyStamp(now: nat, a: Addr)
    ensures StampDate(map[], [], 2, a, now) == StampDate(map[], [], 1, a, now)
  {
  }

  lemma NotBefore()
    ensures !ListedBefore([1, 2], 2, 1)
  {
  }
}
