/**
 The shared queue's guarantees, over all runs: what a save replaces, what a completion during a
 scan comes to, and who may leave the queue; and the two runs that show their limits.
 */
module QueueRuns {
  import opened Prelude
  import opened QueueSteps
  import opened QueueHistory

  /* ---- The guarantees, over all runs ---- */

  /** Step `i` is a save by `p`. */
  ghost predicate Saves(states: seq<World>, events: seq<Event>, i: nat, p: Pid) {
    |states| == |events| + 1 && i < |events| && events[i] == Act(p, Replace) && p in states[i].procs
  }

  lemma SaveWrites(w: World, p: Pid, n: World)
    requires p in w.procs && Acts(w, p, Replace, n)
    ensures (w.procs[p].pc.Checked? || w.procs[p].pc.RegenChecked?) && n.file == Some(w.procs[p].pc.next)
  {
  }

  /** What a save writes, and what it knows. */
  lemma SaveFacts(states: seq<World>, events: seq<Event>, i: nat, p: Pid)
    requires Run(states, events) && Saves(states, events, i, p)
    ensures var pc := states[i].procs[p].pc;
      && (pc.Checked? || pc.RegenChecked?) && states[i + 1].file == Some(pc.next)
      && AccountOk(pc) && Evidence(states, i, p)
      && (Spared(states, events, i, p) ==> FileOk(states[i].file, pc))
  {
    hide Acts, AccountOk, FileOk, Evidence;
    assert Step(states[i], events[i], states[i + 1]);
    SaveWrites(states[i], p, states[i + 1]);
    AccountsAreKept(states, events, i, p);
    History(states, events, i, p);
    if Spared(states, events, i, p) { FileIsKnown(states, events, i, p); }
  }

  /** A locked cycle replaces exactly what it loaded, so its mutation applies to the content
      it overwrites: the saves compose one after another. */
  lemma LockedSavesAreSerial(states: seq<World>, events: seq<Event>, i: nat, p: Pid)
    requires Run(states, events) && Saves(states, events, i, p) && Spared(states, events, i, p)
    requires states[i].procs[p].pc.Checked?
    ensures var pc := states[i].procs[p].pc;
      && states[i].file == pc.q == pc.tok && SawFile(states, i, p, states[i].procs[p].call, pc.q)
      && Applies(pc.job, ItemsIn(states[i].file), ItemsIn(states[i + 1].file))
      && !Emptied(pc.job, states[i].file)
  {
    hide Step, Applies, Emptied, SawFile, SawOpen, Spared;
    SaveFacts(states, events, i, p);
  }

  /** A regeneration replaces exactly the content its fingerprint was taken from, whatever
      was written while it scanned or before it read its listing. */
  lemma RegenReplacesItsToken(states: seq<World>, events: seq<Event>, i: nat, p: Pid)
    requires Run(states, events) && Saves(states, events, i, p) && Spared(states, events, i, p)
    requires states[i].procs[p].pc.RegenChecked?
    ensures states[i].file == states[i].procs[p].pc.tok
  {
    hide Step, Spared, Evidence;
    SaveFacts(states, events, i, p);
  }

  /** Whatever the scan finds or fails to find, a regeneration drops a listed item only if
      its gate was seen open in the call. */
  lemma RegenKeepsTheUnreviewed(states: seq<World>, events: seq<Event>, i: nat, p: Pid, f: Func)
    requires Run(states, events) && Saves(states, events, i, p)
    requires states[i].procs[p].pc.RegenChecked? && f in Listed(states[i].procs[p].pc.listed)
    ensures f in Listed(states[i + 1].file) || SawOpen(states, i, p, states[i].procs[p].call, f)
  {
    hide Step, SawOpen, SawFile, Funcs, Spared;
    SaveFacts(states, events, i, p);
  }

  /* ---- A completion that lands during a scan ---- */

  function RegenToken(pc: Pc): Option<File> {
    match pc
    case RegenTokened(tok) => Some(tok)
    case Scanning(tok, _, _, _) => Some(tok)
    case Choking(tok, _, _, _, _) => Some(tok)
    case RegenHolding(tok, _, _, _) => Some(tok)
    case RegenChecked(tok, _, _, _) => Some(tok)
    case _ => None
  }

  lemma MoveToken(w: World, pc: Pc, move: Move, to: Pc)
    requires Moves(w, pc, move, to) && RegenToken(pc).Some?
    ensures RegenToken(to) == RegenToken(pc)
  {
    hide Funcs, Listed, Applies, Emptied;
  }

  lemma AskToken(w: World, me: Process, f: Func, data: nat)
    requires RegenToken(me.pc).Some?
    ensures RegenToken(Ask(w, me, f, data).pc) == RegenToken(me.pc)
  {
    hide AtAddress;
  }

  /** From the token on, the call keeps it or is over. */
  ghost predicate KeepsToken(w: World, p: Pid, call: nat, tok: File) {
    p in w.procs && w.procs[p].call >= call
    && (w.procs[p].call == call ==> w.procs[p].pc == Idle || RegenToken(w.procs[p].pc) == Some(tok))
  }

  lemma ActorToken(w: World, p: Pid, a: Action, n: World, call: nat, tok: File)
    requires p in w.procs && Acts(w, p, a, n) && KeepsToken(w, p, call, tok)
    ensures KeepsToken(n, p, call, tok)
  {
    hide Ask, Asks, Begins, Moves, HoldsLock, Appended, RegenToken;
    var me := w.procs[p];
    ActorKnows(w, p, a, n);
    if me.call == call && me.pc != Idle {
      match a
      case AskGate(f, data) => AskToken(w, me, f, data); AskLock(w, me, f, data);
      case Replace =>
      case Append =>
      case Stop =>
      case Begin(_) =>
      case Go(move) => MoveToken(w, me.pc, move, n.procs[p].pc);
    } else if me.call == call {
      IdleAsksNothing();
      if a.Go? { IdleMovesNothing(w, a.move, n.procs[p].pc); }
    }
  }

  lemma IdleMovesNothing(w: World, move: Move, to: Pc)
    ensures !Moves(w, Idle, move, to)
  {
  }

  lemma IdleAsksNothing()
    ensures forall f :: !Asks(Idle, f)
  {
  }

  lemma {:induction false} TokenIsKept(states: seq<World>, events: seq<Event>, j: nat, i: nat, p: Pid)
    requires Run(states, events) && j <= i < |states| && p in states[j].procs
    requires RegenToken(states[j].procs[p].pc).Some?
    ensures KeepsToken(states[i], p, states[j].procs[p].call, RegenToken(states[j].procs[p].pc).value)
    decreases i
  {
    hide Acts;
    if i > j {
      TokenIsKept(states, events, j, i - 1, p);
      var w, e, n := states[i - 1], events[i - 1], states[i];
      assert Step(w, e, n);
      if e.Act? {
        ActorTouches(w, e.p, e.a, n);
        if e.p == p {
          ActorToken(w, p, e.a, n, states[j].procs[p].call, RegenToken(states[j].procs[p].pc).value);
        }
      }
    }
  }

  /** Between two moments, an item that is away and then back was put back. */
  lemma {:induction false} PutBack(states: seq<World>, f: Func, k: nat, i: nat)
    requires k <= i < |states| && f !in Listed(states[k].file) && f in Listed(states[i].file)
    ensures exists l :: k <= l < i && f !in Listed(states[l].file) && f in Listed(states[l + 1].file)
    decreases i - k
  {
    hide Funcs;
    if f !in Listed(states[k + 1].file) { PutBack(states, f, k + 1, i); }
  }

  /** A completion that lands at any moment after a regeneration took its fingerprint is not
      undone by it: the save happens only if the very content the fingerprint was taken from is
      back, and then somebody else had put the item back first. */
  lemma DoneDuringScanStands(states: seq<World>, events: seq<Event>, j: nat, k: nat, i: nat, p: Pid, f: Func)
    requires Run(states, events) && j < k <= i && Saves(states, events, i, p) && Spared(states, events, i, p)
    requires states[i].procs[p].pc.RegenChecked?
    requires InCall(states[j], p, states[i].procs[p].call) && states[j].procs[p].pc == RegenTokened(states[j].file)
    requires f in Listed(states[j].file) && f !in Listed(states[k].file)
    ensures states[i].file == states[j].file
    ensures exists l :: k <= l < i && f !in Listed(states[l].file) && f in Listed(states[l + 1].file)
  {
    hide Step, Funcs, Spared;
    RegenReplacesItsToken(states, events, i, p);
    TokenIsKept(states, events, j, i, p);
    PutBack(states, f, k, i);
  }

  /** What a regeneration lists is what its fingerprint is of, unless somebody wrote the file
      in between. */
  lemma {:induction false} QuietListing(states: seq<World>, events: seq<Event>, j: nat, k: nat, p: Pid)
    requires Run(states, events) && j <= k < |events| && events[k] == Act(p, Go(List)) && p in states[k].procs
    requires InCall(states[j], p, states[k].procs[p].call) && states[j].procs[p].pc == RegenTokened(states[j].file)
    requires forall l :: j <= l < k ==> states[l + 1].file == states[l].file
    ensures p in states[k + 1].procs
    ensures states[k + 1].procs[p].pc == Scanning(states[j].file, states[j].file, [], {})
  {
    hide Funcs, Applies, CanCheck, Asks, Ask, HoldsLock;
    assert Step(states[k], events[k], states[k + 1]);
    TokenIsKept(states, events, j, k, p);
    SameFile(states, j, k);
  }

  lemma {:induction false} SameFile(states: seq<World>, j: nat, k: nat)
    requires j <= k < |states| && forall l :: j <= l < k ==> states[l + 1].file == states[l].file
    ensures states[k].file == states[j].file
    decreases k - j
  {
    if j < k {
      SameFile(states, j, k - 1);
      assert states[(k - 1) + 1].file == states[k - 1].file;
    }
  }

  /* ---- Nothing leaves unreviewed ---- */

  /** A call appended the line at step `m`, having read the source and then the address. */
  ghost predicate AppendedBy(states: seq<World>, events: seq<Event>, m: nat, q: Pid, f: Func, r: Record)
    requires |states| == |events| + 1
  {
    && m < |events| && events[m] == Act(q, Append) && q in states[m].procs
    && states[m].procs[q].pc == Stamped(f, r) && Backed(states, m, q, states[m].procs[q].call, f, r)
  }

  /** The line was there from the start, or was appended before state `i` by a call during which
      the function stood at its address and, for a PASS, the source held its body. */
  ghost predicate Vouched(states: seq<World>, events: seq<Event>, i: nat, f: Func, r: Record)
    requires |states| == |events| + 1
  {
    || (f in states[0].ledgers && r in states[0].ledgers[f])
    || exists m: nat, q: Pid :: m < i && AppendedBy(states, events, m, q, f, r)
  }

  lemma StepLedger(w: World, e: Event, n: World, f: Func, r: Record)
    requires Step(w, e, n) && f in n.ledgers && r in n.ledgers[f]
    ensures (f in w.ledgers && r in w.ledgers[f])
      || (e.Act? && e.a == Append && e.p in w.procs && w.procs[e.p].pc == Stamped(f, r))
  {
    hide Ask, Begins, Moves, HoldsLock;
    if e.Act? { ActorTouches(w, e.p, e.a, n); }
  }

  lemma {:induction false} LinesAreVouched(states: seq<World>, events: seq<Event>, i: nat, f: Func, r: Record)
    requires Run(states, events) && i < |states| && f in states[i].ledgers && r in states[i].ledgers[f]
    ensures Vouched(states, events, i, f, r)
    decreases i
  {
    hide Acts, Backed;
    if i > 0 {
      var w, e, n := states[i - 1], events[i - 1], states[i];
      assert Step(w, e, n);
      StepLedger(w, e, n, f, r);
      if f in w.ledgers && r in w.ledgers[f] {
        LinesAreVouched(states, events, i - 1, f, r);
      } else {
        History(states, events, i - 1, e.p);
        assert AppendedBy(states, events, i - 1, e.p, f, r);
      }
    }
  }

  /** At `a`, in the call that appends at `m`, the source held the body. */
  ghost predicate PassAppended(states: seq<World>, events: seq<Event>, f: Func, r: Record,
                               q: Pid, c: nat, a: nat, m: nat) {
    && a <= m < |events| < |states| && events[m] == Act(q, Append)
    && InCall(states[a], q, c) && InCall(states[m], q, c) && SourceHolds(states[a], f, r.body)
  }

  /** A PASS in a ledger was there from the start, or was appended by a call during which the
      source held the body it names. */
  lemma PassesAreVouched(states: seq<World>, events: seq<Event>, i: nat, f: Func, r: Record)
    requires Run(states, events) && i < |states| && f in states[i].ledgers && r in states[i].ledgers[f]
    requires r.verdict == Pass && !(f in states[0].ledgers && r in states[0].ledgers[f])
    ensures exists q, c, a: nat, m: nat :: m < i && PassAppended(states, events, f, r, q, c, a, m)
  {
    LinesAreVouched(states, events, i, f, r);
    var m: nat, q :| m < i && AppendedBy(states, events, m, q, f, r);
    var c := states[m].procs[q].call;
    var a: nat, b: nat :| BackedAt(states, m, q, c, f, r, a, b);
    assert PassAppended(states, events, f, r, q, c, a, m);
  }

  /** In this call, one after the other: the source held the body, a vouched PASS on it was the
      ledger's last line, and the function stood at the line's address. */
  ghost predicate Reviewed(states: seq<World>, events: seq<Event>, i: nat, p: Pid, c: nat, f: Func)
    requires |states| == |events| + 1
  {
    exists r: Record, a: nat, b: nat, d: nat ::
      OpenAt(states, i, p, c, f, r, a, b, d) && Vouched(states, events, b, f, r)
  }

  /** The listing read in this call lacked the function, and it was put back afterwards. */
  ghost predicate ListedLate(states: seq<World>, i: nat, p: Pid, c: nat, f: Func) {
    exists k: nat, l: nat :: k <= l < i && Moment(states, i, p, c, k) && f !in Listed(states[k].file)
      && f !in Listed(states[l].file) && f in Listed(states[l + 1].file)
  }

  /** Whoever saves, a function leaves the queue only reviewed in that same call; or the saver
      is a regeneration whose listing lacked it and somebody put it back afterwards. */
  lemma NothingLeavesUnreviewed(states: seq<World>, events: seq<Event>, i: nat, p: Pid, f: Func)
    requires Run(states, events) && Saves(states, events, i, p) && Spared(states, events, i, p)
    requires f in Listed(states[i].file) && f !in Listed(states[i + 1].file)
    ensures var c := states[i].procs[p].call;
      || Reviewed(states, events, i, p, c, f)
      || (states[i].procs[p].pc.RegenChecked? && f !in Listed(states[i].procs[p].pc.listed)
          && ListedLate(states, i, p, c, f))
  {
    hide Step, SawOpen, SawFile, Reviewed, ListedLate, Funcs, Spared;
    var c := states[i].procs[p].call;
    SaveFacts(states, events, i, p);
    RemovedOrLate(states, events, i, p, f);
    if SawOpen(states, i, p, c, f) {
      OpenIsReviewed(states, events, i, p, c, f);
    } else {
      LateListing(states, i, p, c, states[i].procs[p].pc.listed, f);
    }
  }

  lemma RemovedOrLate(states: seq<World>, events: seq<Event>, i: nat, p: Pid, f: Func)
    requires Run(states, events) && Saves(states, events, i, p) && Spared(states, events, i, p)
    requires f in Listed(states[i].file) && f !in Listed(states[i + 1].file)
    ensures var pc := states[i].procs[p].pc;
      || SawOpen(states, i, p, states[i].procs[p].call, f)
      || (pc.RegenChecked? && f !in Listed(pc.listed) && SawFile(states, i, p, states[i].procs[p].call, pc.listed))
  {
    hide Step, SawOpen, SawFile, Spared;
    SaveFacts(states, events, i, p);
    var pc := states[i].procs[p].pc;
    if pc.Checked? && pc.job.Finish? {
      var it :| it in ItemsIn(states[i].file) && it.func == f;
      assert it in pc.next.items || it.func == pc.job.f;
    }
  }

  lemma OpenIsReviewed(states: seq<World>, events: seq<Event>, i: nat, p: Pid, c: nat, f: Func)
    requires Run(states, events) && SawOpen(states, i, p, c, f)
    ensures Reviewed(states, events, i, p, c, f)
  {
    hide Step, Vouched;
    var r: Record, a: nat, b: nat, d: nat :| OpenAt(states, i, p, c, f, r, a, b, d);
    LinesAreVouched(states, events, b, f, r);
  }

  lemma LateListing(states: seq<World>, i: nat, p: Pid, c: nat, listed: File, f: Func)
    requires i < |states| && SawFile(states, i, p, c, listed)
    requires f !in Listed(listed) && f in Listed(states[i].file)
    ensures ListedLate(states, i, p, c, f)
  {
    hide Funcs;
    var k: nat :| Moment(states, i, p, c, k) && states[k].file == listed;
    PutBack(states, f, k, i);
  }

  /* ---- Steps of given runs ---- */

  const EMPTY := Doc([], 0)
  const FULL := Doc([Item(7, 0)], 0)
  const REWRITTEN := Doc([], 1)

  /** Only `p` differs. */
  ghost predicate OnlyBy(w: World, n: World, p: Pid) {
    && n.procs.Keys == w.procs.Keys && p in w.procs && (forall q :: q in w.procs && q != p ==> n.procs[q] == w.procs[q])
    && n.body == w.body && n.addr == w.addr && n.ledgers == w.ledgers
  }

  lemma MoveStep(w: World, n: World, p: Pid, move: Move)
    requires OnlyBy(w, n, p) && n.file == w.file && n.lock == LockAfter(w, p, move)
    requires w.procs[p].gate == NoGate == n.procs[p].gate && n.procs[p].call == w.procs[p].call
    requires Moves(w, w.procs[p].pc, move, n.procs[p].pc)
    ensures Step(w, Act(p, Go(move)), n)
  {
    hide Listed, Funcs, Applies, Emptied, Asks, Ask;
    assert n.procs == w.procs[p := n.procs[p]];
  }

  lemma CycleMoves(w: World, job: Job, q: File)
    ensures Moves(w, Holding(job), Load, Loaded(job, w.file))
    ensures Moves(w, Loaded(job, q), Token, Tokened(job, q, w.file))
  {
  }

  lemma CheckMoves(w: World, job: Job, q: File, next: Doc)
    requires !Emptied(job, q) && Applies(job, ItemsIn(q), next.items)
    ensures Moves(w, Tokened(job, q, w.file), Check(next), Checked(job, q, w.file, next))
  {
    hide Applies, Emptied;
  }

  lemma RegenMoves(w: World, tok: File)
    ensures Moves(w, RegenTokened(tok), List, Scanning(tok, w.file, [], {}))
    ensures Moves(w, Scanning(tok, Some(EMPTY), [], {}), EndScan, Choking(tok, Some(EMPTY), [], {}, 0))
    ensures w.lock == None ==>
      Moves(w, Choking(tok, Some(EMPTY), [], {}, 0), Acquire, RegenHolding(tok, Some(EMPTY), [], {}))
    ensures w.file == tok ==>
      Moves(w, RegenHolding(tok, Some(EMPTY), [], {}), Check(REWRITTEN), RegenChecked(tok, Some(EMPTY), REWRITTEN, {}))
  {
  }

  lemma GatedMoves(w: World, f: Func, entry: File)
    requires w.lock == None
    ensures Moves(w, DoneGated(f, entry), Acquire, Holding(Finish(f, entry)))
  {
  }

  lemma BeginStep(w: World, n: World, p: Pid, start: Start)
    requires OnlyBy(w, n, p) && n.file == w.file && w.procs[p].pc == Idle
    requires w.procs[p].gate == NoGate == n.procs[p].gate && n.procs[p].call == w.procs[p].call + 1
    requires Begins(w, start, n.procs[p].pc, n.lock, p)
    ensures Step(w, Act(p, Begin(start)), n)
  {
    hide Listed, Asks, Ask;
    assert n.procs == w.procs[p := n.procs[p]];
  }

  lemma AskStep(w: World, n: World, p: Pid, f: Func)
    requires OnlyBy(w, n, p) && n.file == w.file && n.lock == w.lock && Asks(w.procs[p].pc, f)
    requires (!w.procs[p].gate.NoGate? ==> w.procs[p].gate.f == f) && n.procs[p] == Ask(w, w.procs[p], f, 0)
    ensures Step(w, Act(p, AskGate(f, 0)), n)
  {
    hide Asks, Ask;
    assert n.procs == w.procs[p := n.procs[p]];
  }

  lemma ReplaceStep(w: World, n: World, p: Pid)
    requires OnlyBy(w, n, p) && (w.procs[p].pc.Checked? || w.procs[p].pc.RegenChecked?)
    requires n.procs[p] == Process(w.procs[p].call, Idle, NoGate)
    requires n.file == Some(w.procs[p].pc.next) && n.lock == None
    ensures Step(w, Act(p, Replace), n)
  {
    assert n.procs == w.procs[p := n.procs[p]];
  }

  /* ---- The stretches no check covers ---- */

  function Alone(file: Doc, lock: Option<Pid>, pc: Pc, call: nat): World {
    World(Some(file), lock, map[], map[], map[], map[0 := Process(call, pc, NoGate)])
  }

  function LossStates(): seq<World> {
    [ Alone(EMPTY, None, Idle, 0),
      Alone(EMPTY, Some(0), Holding(Mutate), 1),
      Alone(EMPTY, Some(0), Loaded(Mutate, Some(EMPTY)), 1),
      Alone(FULL, Some(0), Loaded(Mutate, Some(EMPTY)), 1),
      Alone(FULL, Some(0), Tokened(Mutate, Some(EMPTY), Some(FULL)), 1),
      Alone(FULL, Some(0), Checked(Mutate, Some(EMPTY), Some(FULL), REWRITTEN), 1),
      Alone(REWRITTEN, None, Idle, 1) ]
  }

  function LossEvents(): seq<Event> {
    [ Act(0, Begin(StartMutate)), Act(0, Go(Load)), External, Act(0, Go(Token)), Act(0, Go(Check(REWRITTEN))),
      Act(0, Replace) ]
  }

  /** An item written from outside between the load and the fingerprint is lost by the save,
      with no check failing and nothing in any ledger. */
  lemma WriteBeforeTheFingerprintIsLost()
    ensures Run(LossStates(), LossEvents())
    ensures 7 in Listed(LossStates()[5].file) && 7 !in Listed(LossStates()[6].file)
    ensures forall i :: 0 <= i < 7 ==> LossStates()[i].ledgers == map[]
  {
    var s, e := LossStates(), LossEvents();
    assert ItemsIn(s[5].file) == [Item(7, 0)] && Item(7, 0) in ItemsIn(s[5].file);
    forall i | 0 <= i < 6
      ensures Step(s[i], e[i], s[i + 1])
    {
      if i < 3 { LossBegins(i); } else { LossEnds(i); }
    }
  }

  lemma LossBegins(i: nat)
    requires i < 3
    ensures Step(LossStates()[i], LossEvents()[i], LossStates()[i + 1])
  {
    hide Acts, Listed, Moves;
    var w, n := LossStates()[i], LossStates()[i + 1];
    if i == 0 { BeginStep(w, n, 0, StartMutate); }
    if i == 1 { CycleMoves(w, Mutate, None); MoveStep(w, n, 0, Load); }
  }

  lemma LossEnds(i: nat)
    requires 3 <= i < 6
    ensures Step(LossStates()[i], LossEvents()[i], LossStates()[i + 1])
  {
    hide Acts, Listed, Moves;
    var w, n := LossStates()[i], LossStates()[i + 1];
    if i == 3 { CycleMoves(w, Mutate, Some(EMPTY)); MoveStep(w, n, 0, Token); }
    if i == 4 { CheckMoves(w, Mutate, Some(EMPTY), REWRITTEN); MoveStep(w, n, 0, Check(REWRITTEN)); }
    if i == 5 { ReplaceStep(w, n, 0); }
  }

  /* ---- An item put back behind a regeneration's listing ---- */

  const DONE := Finish(7, Some(FULL))
  const RULING := Record(Pass, 5, 9)

  /** Process 0 completes function 7, process 1 regenerates, process 2 puts 7 back. */
  function Finisher(i: nat): Process {
    if i == 0 then Process(0, Idle, NoGate)
    else if i == 1 then Process(1, DoneLoaded(7, Some(FULL)), NoGate)
    else if i == 2 then Process(1, DoneLoaded(7, Some(FULL)), Keyed(7, 5))
    else if i == 3 then Process(1, DoneLoaded(7, Some(FULL)), Matched(7, RULING))
    else if i <= 6 then Process(1, DoneGated(7, Some(FULL)), NoGate)
    else if i == 7 then Process(1, Holding(DONE), NoGate)
    else if i == 8 then Process(1, Loaded(DONE, Some(FULL)), NoGate)
    else if i == 9 then Process(1, Tokened(DONE, Some(FULL), Some(FULL)), NoGate)
    else if i == 10 then Process(1, Checked(DONE, Some(FULL), Some(FULL), EMPTY), NoGate)
    else Process(1, Idle, NoGate)
  }

  function Regenerator(i: nat): Process {
    if i <= 5 then Process(0, Idle, NoGate)
    else if i <= 11 then Process(1, RegenTokened(Some(FULL)), NoGate)
    else if i == 12 then Process(1, Scanning(Some(FULL), Some(EMPTY), [], {}), NoGate)
    else if i <= 18 then Process(1, Choking(Some(FULL), Some(EMPTY), [], {}, 0), NoGate)
    else if i == 19 then Process(1, RegenHolding(Some(FULL), Some(EMPTY), [], {}), NoGate)
    else if i == 20 then Process(1, RegenChecked(Some(FULL), Some(EMPTY), REWRITTEN, {}), NoGate)
    else Process(1, Idle, NoGate)
  }

  function Restorer(i: nat): Process {
    if i <= 13 then Process(0, Idle, NoGate)
    else if i == 14 then Process(1, Holding(Mutate), NoGate)
    else if i == 15 then Process(1, Loaded(Mutate, Some(EMPTY)), NoGate)
    else if i == 16 then Process(1, Tokened(Mutate, Some(EMPTY), Some(EMPTY)), NoGate)
    else if i == 17 then Process(1, Checked(Mutate, Some(EMPTY), Some(EMPTY), FULL), NoGate)
    else Process(1, Idle, NoGate)
  }

  function RestoredFile(i: nat): Doc {
    if i <= 10 then FULL else if i <= 17 then EMPTY else if i <= 20 then FULL else REWRITTEN
  }

  function RestoredLock(i: nat): Option<Pid> {
    if 7 <= i <= 10 then Some(0) else if 14 <= i <= 17 then Some(2) else if 19 <= i <= 20 then Some(1) else None
  }

  function Restored(i: nat): World {
    World(Some(RestoredFile(i)), RestoredLock(i), map[7 := if i <= 4 then 5 else 6], map[7 := 9], map[7 := [RULING]],
          map[0 := Finisher(i), 1 := Regenerator(i), 2 := Restorer(i)])
  }

  const RESTORED_STATES: seq<World> := seq(22, i requires 0 <= i < 22 => Restored(i))

  const RESTORED_EVENTS: seq<Event> := [
    Act(0, Begin(StartDone(7))), Act(0, AskGate(7, 0)), Act(0, AskGate(7, 0)), Act(0, AskGate(7, 0)),
    Edit, Act(1, Begin(StartRegen)),
    Act(0, Go(Acquire)), Act(0, Go(Load)), Act(0, Go(Token)), Act(0, Go(Check(EMPTY))), Act(0, Replace),
    Act(1, Go(List)), Act(1, Go(EndScan)),
    Act(2, Begin(StartMutate)), Act(2, Go(Load)), Act(2, Go(Token)), Act(2, Go(Check(FULL))), Act(2, Replace),
    Act(1, Go(Acquire)), Act(1, Go(Check(REWRITTEN))), Act(1, Replace)]

  /** The second case of the theorem is real. A completion passes its gate, the body is edited, a
      regeneration takes its fingerprint, the completion lands, the regeneration lists, somebody
      restores the identical content, and the regeneration saves: function 7 leaves, without a
      write from outside the lock, and its gate was never open during the saver's call. */
  lemma RestoredItemIsDropped()
    ensures Run(RESTORED_STATES, RESTORED_EVENTS) && External !in RESTORED_EVENTS
    ensures Saves(RESTORED_STATES, RESTORED_EVENTS, 20, 1) && RESTORED_STATES[20].procs[1].call == 1
    ensures 7 in Listed(RESTORED_STATES[20].file) && 7 !in Listed(RESTORED_STATES[21].file)
    ensures !SawOpen(RESTORED_STATES, 20, 1, 1, 7)
  {
    hide Step;
    FullLists();
    forall i | 0 <= i < 21
      ensures Step(RESTORED_STATES[i], RESTORED_EVENTS[i], RESTORED_STATES[i + 1])
    {
      RestoringStep(i);
    }
    NeverOpen();
  }

  lemma RestoringStep(i: nat)
    requires i < 21
    ensures Step(Restored(i), RESTORED_EVENTS[i], Restored(i + 1))
  {
    hide Step, Restored;
    if i < 4 { Completing(i); }
    else if i == 4 { Edited(); }
    else if i == 5 { Regenerating(); }
    else if i < 8 { Waiting(i); }
    else if i < 11 { Landing(i); }
    else if i < 14 { Listing(i); }
    else if i < 18 { Restoring(i); }
    else { Saving(i); }
  }

  function Actor(i: nat): Pid {
    if i <= 3 || 6 <= i <= 10 then 0 else if 13 <= i <= 17 then 2 else 1
  }

  lemma OthersStand(i: nat)
    requires i < 21
    ensures i != 4 ==> OnlyBy(Restored(i), Restored(i + 1), Actor(i))
  {
  }

  lemma FullLists()
    ensures Listed(Some(FULL)) == {7} && Listed(Some(EMPTY)) == {} && Listed(Some(REWRITTEN)) == {}
  {
    assert Item(7, 0) in FULL.items;
  }

  lemma NeverOpen()
    ensures !SawOpen(RESTORED_STATES, 20, 1, 1, 7)
  {
    forall r: Record, a: nat, b: nat, d: nat
      ensures !OpenAt(RESTORED_STATES, 20, 1, 1, 7, r, a, b, d)
    {
      assert a < 22 ==> RESTORED_STATES[a] == Restored(a);
      assert b < 22 ==> RESTORED_STATES[b] == Restored(b);
    }
  }

  lemma Completing(i: nat)
    requires i < 4
    ensures Step(Restored(i), RESTORED_EVENTS[i], Restored(i + 1))
  {
    hide Acts, Listed, OnlyBy, Moves;
    OthersStand(i);
    FullLists();
    var w, n := Restored(i), Restored(i + 1);
    if i == 0 { BeginStep(w, n, 0, StartDone(7)); } else { AskStep(w, n, 0, 7); }
  }

  lemma Edited()
    ensures Step(Restored(4), RESTORED_EVENTS[4], Restored(5))
  {
    hide Acts;
  }

  lemma Regenerating()
    ensures Step(Restored(5), RESTORED_EVENTS[5], Restored(6))
  {
    hide Acts, Listed, OnlyBy;
    OthersStand(5);
    BeginStep(Restored(5), Restored(6), 1, StartRegen);
  }

  lemma Waiting(i: nat)
    requires 6 <= i < 8
    ensures Step(Restored(i), RESTORED_EVENTS[i], Restored(i + 1))
  {
    hide Acts, Listed, OnlyBy, Moves;
    OthersStand(i);
    var w, n := Restored(i), Restored(i + 1);
    if i == 6 { GatedMoves(w, 7, Some(FULL)); MoveStep(w, n, 0, Acquire); }
    if i == 7 { CycleMoves(w, DONE, None); MoveStep(w, n, 0, Load); }
  }

  lemma Landing(i: nat)
    requires 8 <= i < 11
    ensures Step(Restored(i), RESTORED_EVENTS[i], Restored(i + 1))
  {
    hide Acts, Listed, OnlyBy, Moves;
    OthersStand(i);
    var w, n := Restored(i), Restored(i + 1);
    if i == 8 { CycleMoves(w, DONE, Some(FULL)); MoveStep(w, n, 0, Token); }
    if i == 9 { CheckMoves(w, DONE, Some(FULL), EMPTY); MoveStep(w, n, 0, Check(EMPTY)); }
    if i == 10 { ReplaceStep(w, n, 0); }
  }

  lemma Listing(i: nat)
    requires 11 <= i < 14
    ensures Step(Restored(i), RESTORED_EVENTS[i], Restored(i + 1))
  {
    hide Acts, Listed, OnlyBy, Moves;
    OthersStand(i);
    var w, n := Restored(i), Restored(i + 1);
    if i == 11 { RegenMoves(w, Some(FULL)); MoveStep(w, n, 1, List); }
    if i == 12 { RegenMoves(w, Some(FULL)); MoveStep(w, n, 1, EndScan); }
    if i == 13 { BeginStep(w, n, 2, StartMutate); }
  }

  lemma Restoring(i: nat)
    requires 14 <= i < 18
    ensures Step(Restored(i), RESTORED_EVENTS[i], Restored(i + 1))
  {
    hide Acts, Listed, OnlyBy, Moves;
    OthersStand(i);
    var w, n := Restored(i), Restored(i + 1);
    if i == 14 { CycleMoves(w, Mutate, None); MoveStep(w, n, 2, Load); }
    if i == 15 { CycleMoves(w, Mutate, Some(EMPTY)); MoveStep(w, n, 2, Token); }
    if i == 16 { CheckMoves(w, Mutate, Some(EMPTY), FULL); MoveStep(w, n, 2, Check(FULL)); }
    if i == 17 { ReplaceStep(w, n, 2); }
  }

  lemma Saving(i: nat)
    requires 18 <= i < 21
    ensures Step(Restored(i), RESTORED_EVENTS[i], Restored(i + 1))
  {
    hide Acts, Listed, OnlyBy, Moves;
    OthersStand(i);
    var w, n := Restored(i), Restored(i + 1);
    if i == 18 { RegenMoves(w, Some(FULL)); MoveStep(w, n, 1, Acquire); }
    if i == 19 { RegenMoves(w, Some(FULL)); MoveStep(w, n, 1, Check(REWRITTEN)); }
    if i == 20 { ReplaceStep(w, n, 1); }
  }
}
