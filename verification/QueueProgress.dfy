/**
 The shared queue, seen the other way round: what a call that nobody disturbs does come to.
 */
module QueueProgress {
  import opened Prelude
  import opened QueueSteps
  import opened QueueHistory
  import opened QueueRuns

  /* ---- The gate ---- */

  /** The gate's three reads, each of the world of its moment; it ends early when it refuses. */
  function Asked(u: World, v: World, x: World, me: Process, f: Func, data: nat): Process {
    var keyed := Ask(u, me, f, data);
    if keyed.gate.NoGate? then keyed else
    var matched := Ask(v, keyed, f, data);
    if matched.gate.NoGate? then matched else Ask(x, matched, f, data)
  }

  /** The gate opens exactly when the last line of the ledger is a PASS on the body read before
      and carries the address read after; else a completion is over, and a regeneration keeps the
      item. */
  lemma GateOpens(u: World, v: World, x: World, me: Process, f: Func, data: nat)
    requires me.gate == NoGate
    requires (me.pc.DoneLoaded? && me.pc.f == f)
      || (me.pc.Scanning? && f in Listed(me.pc.listed))
      || (me.pc.Choking? && me.pc.k < |ItemsIn(me.pc.listed)| && ItemsIn(me.pc.listed)[me.pc.k].func == f)
    ensures Asks(me.pc, f)
    ensures var it := Asked(u, v, x, me, f, data);
      var passed := exists r: Record :: (
        f in v.ledgers && |v.ledgers[f]| > 0 && v.ledgers[f][|v.ledgers[f]| - 1] == r && r.verdict == Pass
        && f in u.body && u.body[f] == r.body && f in x.addr && x.addr[f] == r.addr);
      it == Process(me.call,
        match me.pc
        case DoneLoaded(_, entry) => if passed then DoneGated(f, entry) else Idle
        case Scanning(tok, listed, have, ps) =>
          if passed then Scanning(tok, listed, have, ps + {f}) else Scanning(tok, listed, have + [Item(f, data)], ps)
        case Choking(tok, listed, have, ps, k) =>
          if passed then Choking(tok, listed, have, ps + {f}, k)
          else Choking(tok, listed, have + [Item(f, data)], ps, k)
        case _ => me.pc,
        NoGate)
  {
    hide Listed;
    if f in v.ledgers && |v.ledgers[f]| > 0 {
      var r := v.ledgers[f][|v.ledgers[f]| - 1];
      assert r == Last(v.ledgers[f]);
    }
  }

  /* ---- One process alone ---- */

  /** By its own steps alone, `p` takes the queue from `w` to `n`. */
  ghost predicate Reaches(w: World, p: Pid, n: World, k: nat)
    decreases k
  {
    if k == 0 then n == w else exists a, m :: Step(w, Act(p, a), m) && Reaches(m, p, n, k - 1)
  }

  ghost predicate Comes(w: World, p: Pid, n: World) {
    exists k: nat :: Reaches(w, p, n, k)
  }

  lemma NoStep(w: World, p: Pid)
    ensures Comes(w, p, w)
  {
    assert Reaches(w, p, w, 0);
  }

  lemma {:induction false} Onwards(w: World, p: Pid, m: World, j: nat, n: World, k: nat)
    requires Reaches(w, p, m, j) && Reaches(m, p, n, k)
    ensures Reaches(w, p, n, j + k)
    decreases j
  {
    hide Step;
    if j > 0 {
      var a, v :| Step(w, Act(p, a), v) && Reaches(v, p, m, j - 1);
      Onwards(v, p, m, j - 1, n, k);
    }
  }

  lemma ThenComes(w: World, p: Pid, m: World, n: World)
    requires Comes(w, p, m) && Comes(m, p, n)
    ensures Comes(w, p, n)
  {
    hide Reaches;
    var j: nat :| Reaches(w, p, m, j);
    var k: nat :| Reaches(m, p, n, k);
    Onwards(w, p, m, j, n, k);
  }

  lemma StepComes(w: World, p: Pid, a: Action, n: World)
    requires Step(w, Act(p, a), n)
    ensures Comes(w, p, n)
  {
    hide Step;
    assert Reaches(n, p, n, 0);
    assert Reaches(w, p, n, 1);
  }

  /** A run that has come to `w` can go on to `n`. */
  lemma {:induction false} RunGoesOn(states: seq<World>, events: seq<Event>, p: Pid, n: World, k: nat)
    returns (later: seq<World>, more: seq<Event>)
    requires Run(states, events) && Reaches(Last(states), p, n, k)
    ensures Run(later, more) && Last(later) == n && states <= later && events <= more
    ensures forall i :: |events| <= i < |more| ==> more[i].Act? && more[i].p == p
    decreases k
  {
    hide Step, Initial;
    if k == 0 {
      later, more := states, events;
    } else {
      var a, m :| Step(Last(states), Act(p, a), m) && Reaches(m, p, n, k - 1);
      forall i | 0 <= i < |events + [Act(p, a)]|
        ensures Step((states + [m])[i], (events + [Act(p, a)])[i], (states + [m])[i + 1])
      {
        if i < |events| { assert Step(states[i], events[i], states[i + 1]); }
      }
      later, more := RunGoesOn(states + [m], events + [Act(p, a)], p, n, k - 1);
      assert events + [Act(p, a)] <= more;
      assert events <= more;
      assert more[|events|] == Act(p, a);
    }
  }

  /** The world with another state of one process. */
  function With(w: World, p: Pid, pc: Pc): World
    requires p in w.procs
  {
    Put(w, p, Process(w.procs[p].call, pc, NoGate))
  }

  lemma Goes(w: World, p: Pid, move: Move, pc: Pc)
    requires p in w.procs && w.procs[p].gate == NoGate && Moves(w, w.procs[p].pc, move, pc)
    ensures Comes(w, p, With(w, p, pc).(lock := LockAfter(w, p, move)))
  {
    hide Moves;
    StepComes(w, p, Go(move), With(w, p, pc).(lock := LockAfter(w, p, move)));
  }

  lemma Starts(w: World, p: Pid, start: Start, pc: Pc, lock: Option<Pid>)
    requires p in w.procs && w.procs[p].pc == Idle && w.procs[p].gate == NoGate && Begins(w, start, pc, lock, p)
    ensures Comes(w, p, Put(w, p, Process(w.procs[p].call + 1, pc, NoGate)).(lock := lock))
  {
    hide Begins;
    StepComes(w, p, Begin(start), Put(w, p, Process(w.procs[p].call + 1, pc, NoGate)).(lock := lock));
  }

  lemma Saved(w: World, p: Pid)
    requires p in w.procs && (w.procs[p].pc.Checked? || w.procs[p].pc.RegenChecked?)
    ensures Comes(w, p, With(w, p, Idle).(file := Some(w.procs[p].pc.next), lock := None))
  {
    StepComes(w, p, Replace, With(w, p, Idle).(file := Some(w.procs[p].pc.next), lock := None));
  }

  lemma AsksOnce(w: World, p: Pid, f: Func, data: nat)
    requires p in w.procs && Asks(w.procs[p].pc, f) && (!w.procs[p].gate.NoGate? ==> w.procs[p].gate.f == f)
    ensures Comes(w, p, Put(w, p, Ask(w, w.procs[p], f, data)))
  {
    hide Ask, Asks;
    StepComes(w, p, AskGate(f, data), Put(w, p, Ask(w, w.procs[p], f, data)));
  }

  lemma AsksAll(w: World, p: Pid, f: Func, data: nat)
    requires p in w.procs && Asks(w.procs[p].pc, f) && w.procs[p].gate == NoGate
    ensures Comes(w, p, Put(w, p, Asked(w, w, w, w.procs[p], f, data)))
  {
    hide Asks, Comes, AtAddress;
    var me := w.procs[p];
    AsksOnce(w, p, f, data);
    var keyed := Ask(w, me, f, data);
    if !keyed.gate.NoGate? {
      var u := Put(w, p, keyed);
      AsksOnce(u, p, f, data);
      AskSame(w, u, keyed, f, data);
      var matched := Ask(w, keyed, f, data);
      assert Put(u, p, matched) == Put(w, p, matched);
      ThenComes(w, p, u, Put(w, p, matched));
      if !matched.gate.NoGate? {
        var v := Put(w, p, matched);
        AsksOnce(v, p, f, data);
        AskSame(w, v, matched, f, data);
        assert Put(v, p, Ask(w, matched, f, data)) == Put(w, p, Ask(w, matched, f, data));
        ThenComes(w, p, v, Put(w, p, Ask(w, matched, f, data)));
      }
    }
  }

  lemma AskSame(w: World, u: World, me: Process, f: Func, data: nat)
    requires u.body == w.body && u.addr == w.addr && u.ledgers == w.ledgers
    ensures Ask(u, me, f, data) == Ask(w, me, f, data)
  {
  }

  /** The gate of `f` stands open as things are. */
  ghost predicate Open(w: World, f: Func) {
    exists r: Record :: (
      f in w.ledgers && |w.ledgers[f]| > 0 && w.ledgers[f][|w.ledgers[f]| - 1] == r && r.verdict == Pass
      && f in w.body && w.body[f] == r.body && f in w.addr && w.addr[f] == r.addr)
  }

  predicate Free(w: World, p: Pid) {
    p in w.procs && w.procs[p].pc == Idle && w.procs[p].gate == NoGate && w.lock == None
  }

  /** What is not touched: the source, the addresses, the other processes; the lock is free and
      the call is over. */
  ghost predicate Aside(w: World, p: Pid, n: World) {
    && n.body == w.body && n.addr == w.addr && Free(n, p) && n.procs.Keys == w.procs.Keys
    && forall q :: q in w.procs && q != p ==> n.procs[q] == w.procs[q]
  }

  function Without(s: seq<Item>, f: Func): seq<Item> {
    if s == [] then [] else (if s[0].func == f then [] else [s[0]]) + Without(s[1..], f)
  }

  lemma {:induction false} WithoutIs(s: seq<Item>, f: Func)
    ensures forall it :: it in Without(s, f) <==> it in s && it.func != f
  {
    if s != [] {
      WithoutIs(s[1..], f);
      assert s == [s[0]] + s[1..];
    }
  }

  /* ---- A completion ---- */

  /** Where a locked cycle of `p` stands, all else as in `w`. */
  function Cycle(w: World, p: Pid, pc: Pc): World
    requires p in w.procs
  {
    With(w, p, pc).(lock := Some(p))
  }

  /** A locked cycle with nobody in between writes what its job makes of the content. */
  lemma CycleAlone(w: World, p: Pid, job: Job, next: Doc)
    requires p in w.procs && w.procs[p] == Process(w.procs[p].call, Holding(job), NoGate) && w.lock == Some(p)
    requires Applies(job, ItemsIn(w.file), next.items) && !Emptied(job, w.file)
    ensures Comes(w, p, With(w, p, Idle).(file := Some(next), lock := None))
  {
    hide Comes, Applies, Emptied;
    var loaded := Cycle(w, p, Loaded(job, w.file));
    var tokened := Cycle(w, p, Tokened(job, w.file, w.file));
    var checked := Cycle(w, p, Checked(job, w.file, w.file, next));
    Goes(w, p, Load, Loaded(job, w.file));
    Goes(loaded, p, Token, Tokened(job, w.file, w.file));
    CheckCan(tokened, job, next);
    Goes(tokened, p, Check(next), Checked(job, w.file, w.file, next));
    Saved(checked, p);
    assert With(loaded, p, Tokened(job, w.file, w.file)).(lock := Some(p)) == tokened;
    assert With(tokened, p, Checked(job, w.file, w.file, next)).(lock := Some(p)) == checked;
    var done := With(w, p, Idle).(file := Some(next), lock := None);
    assert With(checked, p, Idle).(file := Some(next), lock := None) == done;
    ThenComes(w, p, loaded, tokened);
    ThenComes(w, p, tokened, checked);
    ThenComes(w, p, checked, done);
  }

  lemma CheckCan(w: World, job: Job, next: Doc)
    requires Applies(job, ItemsIn(w.file), next.items) && !Emptied(job, w.file)
    ensures Moves(w, Tokened(job, w.file, w.file), Check(next), Checked(job, w.file, w.file, next))
  {
    hide Applies, Emptied;
  }

  lemma DoneApplies(s: seq<Item>, f: Func, entry: File)
    requires entry.None? || entry.value.items == s
    ensures Applies(Finish(f, entry), s, Without(s, f))
  {
    WithoutIs(s, f);
  }

  lemma ListedIsThere(file: File, f: Func)
    requires f in Listed(file)
    ensures ItemsIn(file) != [] && file.Some? && !Emptied(Finish(f, file), file)
  {
  }

  /** A completion that nobody disturbs takes its function, whose gate stands open, out of the
      queue, and nothing else. */
  lemma CompletionAlone(w: World, p: Pid, f: Func, meta: nat) returns (n: World)
    requires Free(w, p) && f in Listed(w.file) && Open(w, f)
    ensures Comes(w, p, n) && Aside(w, p, n) && n.ledgers == w.ledgers && n.file.Some?
    ensures forall it :: it in n.file.value.items <==> it in ItemsIn(w.file) && it.func != f
  {
    hide Comes, Listed, Open, Applies, Emptied, Asks;
    var me := Process(w.procs[p].call + 1, DoneLoaded(f, w.file), NoGate);
    Starts(w, p, StartDone(f), me.pc, None);
    var loaded := Put(w, p, me);
    assert loaded.lock == None;
    GateOfDone(w, loaded, me, f);
    AsksAll(loaded, p, f, 0);
    var gated := With(loaded, p, DoneGated(f, w.file));
    ThenComes(w, p, loaded, gated);
    Acquires(gated, p, f, w.file);
    var holding := Cycle(gated, p, Holding(Finish(f, w.file)));
    ThenComes(w, p, gated, holding);
    ListedIsThere(w.file, f);
    DoneApplies(ItemsIn(w.file), f, w.file);
    WithoutIs(ItemsIn(w.file), f);
    var next := Doc(Without(ItemsIn(w.file), f), meta);
    CycleAlone(holding, p, Finish(f, w.file), next);
    n := With(holding, p, Idle).(file := Some(next), lock := None);
    ThenComes(w, p, holding, n);
  }

  lemma GateOfDone(w: World, u: World, me: Process, f: Func)
    requires u.body == w.body && u.addr == w.addr && u.ledgers == w.ledgers
    requires me.pc.DoneLoaded? && me.pc.f == f && me.gate == NoGate
    ensures Asks(me.pc, f)
    ensures Asked(u, u, u, me, f, 0) ==
      Process(me.call, if Open(w, f) then DoneGated(f, me.pc.entry) else Idle, NoGate)
  {
    hide Asked, Asks;
    GateOpens(u, u, u, me, f, 0);
  }

  lemma Acquires(w: World, p: Pid, f: Func, entry: File)
    requires p in w.procs && w.procs[p].gate == NoGate && w.procs[p].pc == DoneGated(f, entry) && w.lock == None
    ensures Comes(w, p, Cycle(w, p, Holding(Finish(f, entry))))
  {
    hide Comes;
    Goes(w, p, Acquire, Holding(Finish(f, entry)));
  }

  /** With the gate shut it ends with the queue as it was. */
  lemma CompletionRefused(w: World, p: Pid, f: Func) returns (n: World)
    requires Free(w, p) && f in Listed(w.file) && !Open(w, f)
    ensures Comes(w, p, n) && Aside(w, p, n) && n.ledgers == w.ledgers && n.file == w.file
  {
    hide Comes, Listed, Open, Asks;
    var me := Process(w.procs[p].call + 1, DoneLoaded(f, w.file), NoGate);
    Starts(w, p, StartDone(f), me.pc, None);
    var loaded := Put(w, p, me);
    assert loaded.lock == None;
    GateOfDone(w, loaded, me, f);
    AsksAll(loaded, p, f, 0);
    n := With(loaded, p, Idle);
    ThenComes(w, p, loaded, n);
  }

  /* ---- A completion among others ---- */

  /** The gate of `f` stands open by this line. */
  ghost predicate OpenBy(w: World, f: Func, r: Record) {
    && f in w.ledgers && |w.ledgers[f]| > 0 && w.ledgers[f][|w.ledgers[f]| - 1] == r && r.verdict == Pass
    && f in w.body && w.body[f] == r.body && f in w.addr && w.addr[f] == r.addr
  }

  /** A completion of `f` under way, that nothing has refused. */
  ghost predicate UnderWay(me: Process, f: Func, r: Record) {
    match me.pc
    case DoneLoaded(g, _) => g == f && (me.gate == NoGate || me.gate == Keyed(f, r.body) || me.gate == Matched(f, r))
    case DoneGated(g, _) => g == f && me.gate == NoGate
    case Holding(job) => job.Finish? && job.f == f && me.gate == NoGate
    case Loaded(job, _) => job.Finish? && job.f == f && me.gate == NoGate
    case Tokened(job, _, _) => job.Finish? && job.f == f && me.gate == NoGate
    case Checked(job, _, _, _) => job.Finish? && job.f == f && me.gate == NoGate
    case _ => false
  }

  lemma AskedUnderWay(w: World, me: Process, g: Func, data: nat, f: Func, r: Record)
    requires UnderWay(me, f, r) && OpenBy(w, f, r) && Asks(me.pc, g)
    ensures UnderWay(Ask(w, me, g, data), f, r)
  {
    hide Listed;
    assert r == Last(w.ledgers[f]);
  }

  lemma MovedUnderWay(w: World, me: Process, move: Move, to: Pc, f: Func, r: Record)
    requires UnderWay(me, f, r) && me.gate == NoGate && Moves(w, me.pc, move, to)
    ensures UnderWay(Process(me.call, to, NoGate), f, r)
  {
    hide Listed, Funcs, Applies, Emptied;
  }

  lemma StepUnderWay(w: World, p: Pid, a: Action, n: World, f: Func, r: Record)
    requires p in w.procs && Acts(w, p, a, n) && a != Stop && UnderWay(w.procs[p], f, r) && OpenBy(w, f, r)
    ensures p in n.procs
    ensures UnderWay(n.procs[p], f, r) || (a == Replace && w.procs[p].pc.Checked?)
  {
    hide Ask, Asks, Begins, Moves, Appended, HoldsLock, OpenBy;
    var me := w.procs[p];
    match a
    case AskGate(g, data) => AskedUnderWay(w, me, g, data, f, r);
    case Go(move) => MovedUnderWay(w, me, move, n.procs[p].pc, f, r);
    case _ =>
  }

  /** Over any run: a completion that does not give up, while one line of its function's ledger
      stands the gate open, is under way until it saves; that save, unless a writer outside the
      lock hits it, takes the function out and nothing else. */
  lemma {:induction false} OpenCompletionSaves(states: seq<World>, events: seq<Event>, j: nat, i: nat, p: Pid,
                                               f: Func, r: Record)
    requires Run(states, events) && j <= i < |states| && p in states[j].procs && p in states[i].procs
    requires UnderWay(states[j].procs[p], f, r) && forall k :: j <= k < i ==> OpenBy(states[k], f, r)
    requires Act(p, Stop) !in events[j..i]
    ensures UnderWay(states[i].procs[p], f, r) || exists k: nat :: j <= k < i && Completes(states, events, k, p, f)
    decreases i
  {
    hide Acts, UnderWay, Completes, OpenBy, Initial;
    if i > j {
      SameProcesses(states, events, i);
      SameProcesses(states, events, i - 1);
      assert events[j..i] == events[j..i - 1] + [events[i - 1]];
      OpenCompletionSaves(states, events, j, i - 1, p, f, r);
      var w, e, n := states[i - 1], events[i - 1], states[i];
      assert Step(w, e, n);
      if UnderWay(w.procs[p], f, r) && e.Act? {
        ActorTouches(w, e.p, e.a, n);
        if e.p == p {
          StepUnderWay(w, p, e.a, n, f, r);
          if e.a == Replace { ItCompletes(states, events, i - 1, p, f, r); }
        }
      }
    }
  }

  /** The save at `k` is a completion of `f`: unless hit from outside the lock, it takes `f` out of
      what the file held, and nothing else. */
  ghost predicate Completes(states: seq<World>, events: seq<Event>, k: nat, p: Pid, f: Func) {
    && |states| == |events| + 1 && k < |events| && events[k] == Act(p, Replace) && p in states[k].procs
    && (Spared(states, events, k, p) ==> states[k + 1].file.Some? && forall it ::
          it in states[k + 1].file.value.items <==> it in ItemsIn(states[k].file) && it.func != f)
  }

  lemma ItCompletes(states: seq<World>, events: seq<Event>, k: nat, p: Pid, f: Func, r: Record)
    requires Run(states, events) && k < |events| && events[k] == Act(p, Replace) && p in states[k].procs
    requires UnderWay(states[k].procs[p], f, r)
    ensures Completes(states, events, k, p, f)
  {
    hide Step, Emptied, Spared, Evidence, AccountOk;
    if Spared(states, events, k, p) {
      SaveFacts(states, events, k, p);
      LockedSavesAreSerial(states, events, k, p);
    }
  }

  /** What a completion is for, and the content it read first. */
  function EntryOf(pc: Pc): Option<(Func, File)> {
    match pc
    case DoneLoaded(f, entry) => Some((f, entry))
    case DoneGated(f, entry) => Some((f, entry))
    case Holding(job) => JobEntry(job)
    case Loaded(job, _) => JobEntry(job)
    case Tokened(job, _, _) => JobEntry(job)
    case Checked(job, _, _, _) => JobEntry(job)
    case _ => None
  }

  function JobEntry(job: Job): Option<(Func, File)> {
    match job
    case Mutate => None
    case Finish(f, entry) => Some((f, entry))
  }

  /** While the call lasts a completion keeps both. */
  ghost predicate KeepsEntry(w: World, p: Pid, call: nat, x: (Func, File)) {
    p in w.procs && w.procs[p].call >= call
    && (w.procs[p].call == call ==> w.procs[p].pc == Idle || EntryOf(w.procs[p].pc) == Some(x))
  }

  lemma MoveEntry(w: World, pc: Pc, move: Move, to: Pc)
    requires Moves(w, pc, move, to) && EntryOf(pc).Some?
    ensures EntryOf(to) == EntryOf(pc)
  {
    hide Funcs, Listed, Applies, Emptied;
  }

  lemma AskEntry(w: World, me: Process, f: Func, data: nat)
    requires EntryOf(me.pc).Some? && Asks(me.pc, f)
    ensures var it := Ask(w, me, f, data); it.call == me.call && (it.pc == Idle || EntryOf(it.pc) == EntryOf(me.pc))
  {
    hide AtAddress, Listed;
  }

  lemma ActorEntry(w: World, p: Pid, a: Action, n: World, call: nat, x: (Func, File))
    requires p in w.procs && Acts(w, p, a, n) && KeepsEntry(w, p, call, x)
    ensures KeepsEntry(n, p, call, x)
  {
    hide Ask, Asks, Begins, Moves, HoldsLock, Appended, EntryOf;
    var me := w.procs[p];
    ActorKnows(w, p, a, n);
    if me.call == call && me.pc != Idle {
      match a
      case AskGate(f, data) => AskEntry(w, me, f, data);
      case Replace =>
      case Append =>
      case Stop =>
      case Begin(_) =>
      case Go(move) => MoveEntry(w, me.pc, move, n.procs[p].pc);
    } else if me.call == call {
      IdleAsksNothing();
      if a.Go? { IdleMovesNothing(w, a.move, n.procs[p].pc); }
    }
  }

  lemma {:induction false} EntryIsKept(states: seq<World>, events: seq<Event>, j: nat, i: nat, p: Pid)
    requires Run(states, events) && j <= i < |states| && p in states[j].procs
    requires EntryOf(states[j].procs[p].pc).Some?
    ensures KeepsEntry(states[i], p, states[j].procs[p].call, EntryOf(states[j].procs[p].pc).value)
    decreases i
  {
    hide Acts;
    if i > j {
      EntryIsKept(states, events, j, i - 1, p);
      var w, e, n := states[i - 1], events[i - 1], states[i];
      assert Step(w, e, n);
      if e.Act? {
        ActorTouches(w, e.p, e.a, n);
        if e.p == p { ActorEntry(w, p, e.a, n, states[j].procs[p].call, EntryOf(states[j].procs[p].pc).value); }
      }
    }
  }

  lemma BeginsDone(w: World, p: Pid, f: Func, n: World)
    requires Step(w, Act(p, Begin(StartDone(f))), n)
    ensures p in n.procs && EntryOf(n.procs[p].pc) == Some((f, w.file))
  {
    hide Listed;
  }

  /** Whatever else goes on: the save of a completion of `f` takes out `f` and nothing else, and never
      goes over a queue that has vanished or was emptied since the call began; unless a writer
      outside the lock hits it. */
  lemma NeverOverAnEmptiedQueue(states: seq<World>, events: seq<Event>, j: nat, i: nat, p: Pid, f: Func)
    requires Run(states, events) && Saves(states, events, i, p) && Spared(states, events, i, p)
    requires j < i && events[j] == Act(p, Begin(StartDone(f))) && p in states[j + 1].procs
    requires states[i].procs[p].call == states[j + 1].procs[p].call
    ensures states[j].file.Some? && |states[j].file.value.items| > 0 ==>
      states[i].file.Some? && |states[i].file.value.items| > 0
    ensures states[i + 1].file.Some?
    ensures forall it :: it in states[i + 1].file.value.items <==> it in ItemsIn(states[i].file) && it.func != f
  {
    hide Acts, Spared, Evidence, AccountOk, SawFile, HoldsLock;
    assert Step(states[j], events[j], states[j + 1]);
    BeginsDone(states[j], p, f, states[j + 1]);
    EntryIsKept(states, events, j + 1, i, p);
    SaveFacts(states, events, i, p);
    LockedSavesAreSerial(states, events, i, p);
  }

  /* ---- A review ---- */

  /** A review that nobody disturbs is the last line of its ledger; a PASS of the current body
      stands the gate open. */
  lemma ReviewAlone(w: World, p: Pid, f: Func, verdict: Verdict) returns (n: World)
    requires Free(w, p) && f in w.body && f in w.addr
    ensures Comes(w, p, n) && Aside(w, p, n) && n.file == w.file
    ensures n.ledgers.Keys == w.ledgers.Keys + {f}
    ensures forall g :: g in w.ledgers && g != f ==> n.ledgers[g] == w.ledgers[g]
    ensures n.ledgers[f] ==
      (if f in w.ledgers then w.ledgers[f] else []) + [Record(verdict, w.body[f], w.addr[f])]
    ensures Open(n, f) <==> verdict == Pass
  {
    hide Comes, Moves, Begins, Open;
    var r := Record(verdict, w.body[f], w.addr[f]);
    ReviewMoves(w, p, f, verdict);
    var me := Process(w.procs[p].call + 1, Judged(f, verdict, w.body[f]), NoGate);
    Starts(w, p, StartRecord(f, verdict, w.body[f]), me.pc, None);
    var judged := Put(w, p, me);
    assert judged.lock == None;
    Goes(judged, p, Stamp, Stamped(f, r));
    var stamped := With(judged, p, Stamped(f, r));
    ThenComes(w, p, judged, stamped);
    n := With(stamped, p, Idle).(ledgers := Appended(w.ledgers, f, r));
    StepComes(stamped, p, Append, n);
    ThenComes(w, p, stamped, n);
    LastDecides(n, f, r);
  }

  lemma ReviewMoves(w: World, p: Pid, f: Func, verdict: Verdict)
    requires f in w.body && f in w.addr
    ensures Begins(w, StartRecord(f, verdict, w.body[f]), Judged(f, verdict, w.body[f]), w.lock, p)
    ensures forall u: World :: u.addr == w.addr ==>
      Moves(u, Judged(f, verdict, w.body[f]), Stamp, Stamped(f, Record(verdict, w.body[f], w.addr[f])))
  {
  }

  lemma LastDecides(n: World, f: Func, r: Record)
    requires f in n.ledgers && |n.ledgers[f]| > 0 && n.ledgers[f][|n.ledgers[f]| - 1] == r
    requires f in n.body && n.body[f] == r.body && f in n.addr && n.addr[f] == r.addr
    ensures Open(n, f) <==> r.verdict == Pass
  {
  }

  /** So whatever was recorded before: once its current body has a PASS, a function can be
      completed. */
  lemma ReviewedThenDone(w: World, p: Pid, f: Func) returns (n: World)
    requires Free(w, p) && f in w.body && f in w.addr && f in Listed(w.file)
    ensures Comes(w, p, n) && n.file.Some?
    ensures forall it :: it in n.file.value.items <==> it in ItemsIn(w.file) && it.func != f
  {
    hide Comes, Listed, Open, Aside;
    var m := ReviewAlone(w, p, f, Pass);
    FreeAgain(w, p, m);
    n := CompletionAlone(m, p, f, 0);
    ThenComes(w, p, m, n);
  }

  lemma FreeAgain(w: World, p: Pid, n: World)
    requires Aside(w, p, n)
    ensures Free(n, p)
  {
  }

  /* ---- A regeneration ---- */

  /** Of these functions, those whose gate is shut. */
  ghost function Shut(w: World, fs: set<Func>): set<Func> {
    set f | f in fs && !Open(w, f)
  }

  /** The scan finds these items, one after the other. */
  lemma {:induction false} ScanAlone(w: World, p: Pid, tok: File, listed: File, have: seq<Item>, found: seq<Item>)
    requires p in w.procs && w.procs[p].gate == NoGate && w.procs[p].pc == Scanning(tok, listed, have, {})
    ensures Comes(w, p, With(w, p, Scanning(tok, listed, have + found, {})))
    decreases |found|
  {
    hide Comes;
    if found == [] {
      assert have + found == have && With(w, p, w.procs[p].pc) == w;
      NoStep(w, p);
    } else {
      Goes(w, p, ScanAdd(found[0]), Scanning(tok, listed, have + [found[0]], {}));
      var n := With(w, p, Scanning(tok, listed, have + [found[0]], {}));
      ScanAlone(n, p, tok, listed, have + [found[0]], found[1..]);
      assert have + [found[0]] + found[1..] == have + found;
      var last := With(w, p, Scanning(tok, listed, have + found, {}));
      assert With(n, p, Scanning(tok, listed, have + found, {})) == last;
      ThenComes(w, p, n, last);
    }
  }

  lemma ChokeMoves(w: World, tok: File, listed: File, have: seq<Item>, passed: set<Func>, k: nat)
    requires k < |ItemsIn(listed)|
    requires ItemsIn(listed)[k].func in Funcs(have) || ItemsIn(listed)[k].func in passed
    ensures Moves(w, Choking(tok, listed, have, passed, k), Choke, Choking(tok, listed, have, passed, k + 1))
  {
    hide Funcs;
  }

  /** One listed item at the choke point: kept already, or let go, or asked about now. */
  lemma ChokeOne(w: World, p: Pid, tok: File, listed: File, have: seq<Item>, passed: set<Func>, k: nat)
    returns (more: seq<Item>, gone: set<Func>)
    requires p in w.procs && w.procs[p].gate == NoGate && w.procs[p].pc == Choking(tok, listed, have, passed, k)
    requires k < |ItemsIn(listed)| && forall g :: g in passed ==> Open(w, g)
    ensures Comes(w, p, With(w, p, Choking(tok, listed, more, gone, k + 1)))
    ensures Funcs(more) == Funcs(have) + Shut(w, {ItemsIn(listed)[k].func}) && forall g :: g in gone ==> Open(w, g)
  {
    hide Comes, Open, Funcs, Moves, Asked, Asks;
    var f := ItemsIn(listed)[k].func;
    if f in Funcs(have) || f in passed {
      more, gone := have, passed;
      ChokeMoves(w, tok, listed, have, passed, k);
      Goes(w, p, Choke, Choking(tok, listed, have, passed, k + 1));
    } else {
      var me := w.procs[p];
      GateOfChoke(w, me, f);
      AsksAll(w, p, f, 0);
      more := if Open(w, f) then have else have + [Item(f, 0)];
      gone := if Open(w, f) then passed + {f} else passed;
      FuncsOfAppend(have, Item(f, 0));
      var n := With(w, p, Choking(tok, listed, more, gone, k));
      assert Put(w, p, Asked(w, w, w, me, f, 0)) == n;
      ChokeMoves(n, tok, listed, more, gone, k);
      Goes(n, p, Choke, Choking(tok, listed, more, gone, k + 1));
      assert With(n, p, Choking(tok, listed, more, gone, k + 1)) == With(w, p, Choking(tok, listed, more, gone, k + 1));
      ThenComes(w, p, n, With(w, p, Choking(tok, listed, more, gone, k + 1)));
    }
  }

  lemma GateOfChoke(w: World, me: Process, f: Func)
    requires me.pc.Choking? && me.pc.k < |ItemsIn(me.pc.listed)| && ItemsIn(me.pc.listed)[me.pc.k].func == f
    requires me.gate == NoGate
    ensures Asks(me.pc, f)
    ensures var (have, passed) := (me.pc.have, me.pc.passed);
      Asked(w, w, w, me, f, 0) == Process(me.call,
        if Open(w, f) then Choking(me.pc.tok, me.pc.listed, have, passed + {f}, me.pc.k)
        else Choking(me.pc.tok, me.pc.listed, have + [Item(f, 0)], passed, me.pc.k), NoGate)
  {
    hide Asked, Asks, Listed;
    GateOpens(w, w, w, me, f, 0);
  }

  lemma {:induction false} ChokeAll(w: World, p: Pid, tok: File, listed: File, have: seq<Item>,
                                    passed: set<Func>, k: nat)
    returns (more: seq<Item>, gone: set<Func>)
    requires p in w.procs && w.procs[p].gate == NoGate && w.procs[p].pc == Choking(tok, listed, have, passed, k)
    requires k <= |ItemsIn(listed)| && forall g :: g in passed ==> Open(w, g)
    ensures Comes(w, p, With(w, p, Choking(tok, listed, more, gone, |ItemsIn(listed)|)))
    ensures Funcs(more) == Funcs(have) + Shut(w, Funcs(ItemsIn(listed)[k..]))
    decreases |ItemsIn(listed)| - k
  {
    hide Comes, Open, Funcs, Shut;
    var items := ItemsIn(listed);
    NoneShut(w);
    if k == |items| {
      assert items[k..] == [] && With(w, p, w.procs[p].pc) == w;
      NoFuncs();
      NoStep(w, p);
      more, gone := have, passed;
    } else {
      var one, out := ChokeOne(w, p, tok, listed, have, passed, k);
      var n := With(w, p, Choking(tok, listed, one, out, k + 1));
      SameGates(w, n);
      more, gone := ChokeAll(n, p, tok, listed, one, out, k + 1);
      FuncsOfTail(items, k);
      ShutParts(w, n, {items[k].func}, Funcs(items[k + 1..]));
      var last := With(w, p, Choking(tok, listed, more, gone, |items|));
      assert With(n, p, Choking(tok, listed, more, gone, |items|)) == last;
      ThenComes(w, p, n, last);
    }
  }

  lemma NoneShut(w: World)
    ensures Shut(w, {}) == {}
  {
  }

  lemma ShutParts(w: World, n: World, a: set<Func>, b: set<Func>)
    requires n.body == w.body && n.addr == w.addr && n.ledgers == w.ledgers
    ensures Shut(w, a + b) == Shut(w, a) + Shut(n, b)
  {
    hide Open;
    SameGates(w, n);
  }

  lemma SameGates(w: World, n: World)
    requires n.body == w.body && n.addr == w.addr && n.ledgers == w.ledgers
    ensures forall g :: Open(n, g) <==> Open(w, g)
  {
  }

  lemma FuncsOfTail(s: seq<Item>, k: nat)
    requires k < |s|
    ensures Funcs(s[k..]) == {s[k].func} + Funcs(s[k + 1..])
  {
    assert s[k..] == [s[k]] + s[k + 1..];
    assert forall it :: it in s[k..] <==> it == s[k] || it in s[k + 1..];
    assert s[k] in s[k..];
  }

  /** A regeneration that nobody disturbs leaves exactly what its scan found, and of what was
      listed everything whose gate is shut. */
  lemma RegenerationAlone(w: World, p: Pid, found: seq<Item>, next: Doc) returns (n: World)
    requires Free(w, p)
    requires forall f :: f in Funcs(next.items) <==> f in Funcs(found) || (f in Listed(w.file) && !Open(w, f))
    ensures Comes(w, p, n) && Aside(w, p, n) && n.ledgers == w.ledgers && n.file == Some(next)
  {
    hide Comes, Open, Funcs, Listed, Moves, Begins;
    var file, call := w.file, w.procs[p].call + 1;
    RegenBegins(w, p);
    Starts(w, p, StartRegen, RegenTokened(file), None);
    var begun := Put(w, p, Process(call, RegenTokened(file), NoGate));
    assert begun.lock == None;
    Goes(begun, p, List, Scanning(file, file, [], {}));
    var listed := With(begun, p, Scanning(file, file, [], {}));
    ThenComes(w, p, begun, listed);
    ScanAlone(listed, p, file, file, [], found);
    assert [] + found == found;
    var scanned := With(listed, p, Scanning(file, file, found, {}));
    ThenComes(w, p, listed, scanned);
    Goes(scanned, p, EndScan, Choking(file, file, found, {}, 0));
    var choking := With(scanned, p, Choking(file, file, found, {}, 0));
    ThenComes(w, p, scanned, choking);
    n := RegenerationEnds(choking, p, file, found, next) by { SameGates(w, choking); }
    ThenComes(w, p, choking, n);
  }

  lemma RegenBegins(w: World, p: Pid)
    ensures Begins(w, StartRegen, RegenTokened(w.file), w.lock, p)
    ensures forall u: World, tok :: Moves(u, RegenTokened(tok), List, Scanning(tok, u.file, [], {}))
    ensures forall u: World, tok, file, have ::
      Moves(u, Scanning(tok, file, have, {}), EndScan, Choking(tok, file, have, {}, 0))
  {
  }

  lemma RegenerationEnds(w: World, p: Pid, file: File, found: seq<Item>, next: Doc) returns (n: World)
    requires p in w.procs && w.procs[p].gate == NoGate && w.procs[p].pc == Choking(file, file, found, {}, 0)
    requires w.lock == None && w.file == file
    requires forall f :: f in Funcs(next.items) <==> f in Funcs(found) || (f in Listed(file) && !Open(w, f))
    ensures Comes(w, p, n) && Aside(w, p, n) && n.ledgers == w.ledgers && n.file == Some(next)
  {
    hide Comes, Open, Funcs;
    var have, passed := ChokeAll(w, p, file, file, found, {}, 0);
    var size := |ItemsIn(file)|;
    assert ItemsIn(file)[0..] == ItemsIn(file);
    assert Funcs(next.items) == Funcs(have);
    var choked := With(w, p, Choking(file, file, have, passed, size));
    Goes(choked, p, Acquire, RegenHolding(file, file, have, passed));
    var holding := Cycle(choked, p, RegenHolding(file, file, have, passed));
    ThenComes(w, p, choked, holding);
    Goes(holding, p, Check(next), RegenChecked(file, file, next, passed));
    var checked := Cycle(holding, p, RegenChecked(file, file, next, passed));
    ThenComes(w, p, holding, checked);
    Saved(checked, p);
    n := With(checked, p, Idle).(file := Some(next), lock := None);
    ThenComes(w, p, checked, n);
  }
}
