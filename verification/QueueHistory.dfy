/**
 What a process of the shared queue has seen since its call began.

 Every content, body, ledger line and address a process acts on was there at some moment of
 that call, in the order it was read: a gate is open only after the source held the body,
 then the ledger ended in a PASS on it, then the function stood at that line's address; and
 a review is appended only after the source held what it judges, then the address.

 The proof follows the steps: each step adds at most what it reads, and nothing seen is lost.
 */
module QueueHistory {
  import opened Prelude
  import opened QueueSteps

  /* ---- What a process has seen in its call ---- */

  /** `a` is a moment, up to `i`, of the call `c` of `p`. */
  ghost predicate Moment(states: seq<World>, i: nat, p: Pid, c: nat, a: nat) {
    a <= i < |states| && InCall(states[a], p, c)
  }

  ghost predicate SawFile(states: seq<World>, i: nat, p: Pid, c: nat, file: File) {
    exists a: nat :: Moment(states, i, p, c, a) && states[a].file == file
  }

  ghost predicate SawSource(states: seq<World>, i: nat, p: Pid, c: nat, f: Func, h: Hash) {
    exists a: nat :: Moment(states, i, p, c, a) && SourceHolds(states[a], f, h)
  }

  /** First the source held the line's body, then the line, a PASS, was the ledger's last. */
  ghost predicate LineAt(states: seq<World>, i: nat, p: Pid, c: nat, f: Func, r: Record, a: nat, b: nat) {
    && a <= b && Moment(states, i, p, c, a) && Moment(states, i, p, c, b)
    && SourceHolds(states[a], f, r.body) && LastLine(states[b], f, r) && r.verdict == Pass
  }

  /** And then the function stood at the line's address. */
  ghost predicate OpenAt(states: seq<World>, i: nat, p: Pid, c: nat, f: Func, r: Record, a: nat, b: nat, d: nat) {
    LineAt(states, i, p, c, f, r, a, b) && b <= d && Moment(states, i, p, c, d) && AtAddress(states[d], f, r.addr)
  }

  ghost predicate SawLine(states: seq<World>, i: nat, p: Pid, c: nat, f: Func, r: Record) {
    exists a: nat, b: nat :: LineAt(states, i, p, c, f, r, a, b)
  }

  ghost predicate SawOpen(states: seq<World>, i: nat, p: Pid, c: nat, f: Func) {
    exists r: Record, a: nat, b: nat, d: nat :: OpenAt(states, i, p, c, f, r, a, b, d)
  }

  /** For a PASS the source held the body; then the function stood at the address. */
  ghost predicate BackedAt(states: seq<World>, i: nat, p: Pid, c: nat, f: Func, r: Record, a: nat, b: nat) {
    && a <= b && Moment(states, i, p, c, a) && Moment(states, i, p, c, b)
    && (r.verdict == Pass ==> SourceHolds(states[a], f, r.body)) && AtAddress(states[b], f, r.addr)
  }

  ghost predicate Backed(states: seq<World>, i: nat, p: Pid, c: nat, f: Func, r: Record) {
    exists a: nat, b: nat :: BackedAt(states, i, p, c, f, r, a, b)
  }

  /** The functions whose gate a process relies on having seen open. */
  function Needs(pc: Pc): set<Func> {
    match pc
    case DoneGated(f, _) => {f}
    case Holding(job) => JobNeeds(job)
    case Loaded(job, _) => JobNeeds(job)
    case Tokened(job, _, _) => JobNeeds(job)
    case Checked(job, _, _, _) => JobNeeds(job)
    case Scanning(_, _, _, passed) => passed
    case Choking(_, _, _, passed, _) => passed
    case RegenHolding(_, _, _, passed) => passed
    case RegenChecked(_, _, _, passed) => passed
    case _ => {}
  }

  function JobNeeds(job: Job): set<Func> {
    match job
    case Mutate => {}
    case Finish(f, _) => {f}
  }

  /** The contents it has read. */
  function Reads(pc: Pc): set<File> {
    match pc
    case Loaded(_, q) => {q}
    case Tokened(_, q, tok) => {q, tok}
    case Checked(_, q, tok, _) => {q, tok}
    case RegenTokened(tok) => {tok}
    case Scanning(tok, listed, _, _) => {tok, listed}
    case Choking(tok, listed, _, _, _) => {tok, listed}
    case RegenHolding(tok, listed, _, _) => {tok, listed}
    case RegenChecked(tok, listed, _, _) => {tok, listed}
    case _ => {}
  }

  lemma MoveReads(w: World, pc: Pc, move: Move, to: Pc)
    requires Moves(w, pc, move, to)
    ensures Needs(to) <= Needs(pc) && Reads(to) <= Reads(pc) + {w.file}
    ensures to.Stamped? ==> pc == Judged(to.f, to.r.verdict, to.r.body) && AtAddress(w, to.f, to.r.addr)
    ensures !to.Judged?
  {
    hide Funcs, Listed, Applies, Emptied;
  }

  lemma BeginReads(w: World, start: Start, pc: Pc, lock: Option<Pid>, p: Pid)
    requires Begins(w, start, pc, lock, p)
    ensures Needs(pc) == {} && Reads(pc) <= {w.file} && !pc.Stamped?
    ensures pc.Judged? && pc.verdict == Pass ==> SourceHolds(w, pc.f, pc.body)
  {
    hide Listed, SourceHolds;
  }

  lemma AskReads(w: World, me: Process, f: Func, data: nat)
    requires Asks(me.pc, f)
    ensures var it := Ask(w, me, f, data);
            && Reads(it.pc) <= Reads(me.pc) && !it.pc.Judged? && !it.pc.Stamped?
            && Needs(it.pc) <= Needs(me.pc) + (if me.gate.Matched? && AtAddress(w, f, me.gate.r.addr) then {f} else {})
  {
    hide Listed, AtAddress;
  }

  lemma AskGates(w: World, me: Process, f: Func, data: nat)
    requires !me.gate.NoGate? ==> me.gate.f == f
    ensures var it := Ask(w, me, f, data);
            && (it.gate.Keyed? ==> it.gate.f == f && SourceHolds(w, f, it.gate.h))
            && (it.gate.Matched? ==> me.gate == Keyed(f, it.gate.r.body) && it.gate.f == f
                                     && LastLine(w, f, it.gate.r) && it.gate.r.verdict == Pass)
  {
    hide Refused, Opened, AtAddress;
  }

  /** Only the address is still to be read, and it is the line's. */
  predicate Reaches(w: World, gate: Gate, f: Func) {
    gate.Matched? && gate.f == f && AtAddress(w, f, gate.r.addr)
  }

  /** What is new in a process after its own step, and why. */
  ghost predicate Progress(w: World, me: Process, it: Process) {
    && me.call <= it.call
    && (it.gate.Keyed? ==> it.call == me.call && SourceHolds(w, it.gate.f, it.gate.h))
    && (it.gate.Matched? ==> it.call == me.call && me.gate == Keyed(it.gate.f, it.gate.r.body)
                             && LastLine(w, it.gate.f, it.gate.r) && it.gate.r.verdict == Pass)
    && (forall f :: f in Needs(it.pc) ==> it.call == me.call && (f in Needs(me.pc) || Reaches(w, me.gate, f)))
    && (forall x :: x in Reads(it.pc) ==> x == w.file || (it.call == me.call && x in Reads(me.pc)))
    && (it.pc.Judged? && it.pc.verdict == Pass ==> SourceHolds(w, it.pc.f, it.pc.body))
    && (it.pc.Stamped? ==> it.call == me.call && me.pc == Judged(it.pc.f, it.pc.r.verdict, it.pc.r.body)
                           && AtAddress(w, it.pc.f, it.pc.r.addr))
  }

  lemma IdleProgress(w: World, me: Process)
    ensures Progress(w, me, Process(me.call, Idle, NoGate))
  {
  }

  lemma AskProgress(w: World, me: Process, f: Func, data: nat)
    requires Asks(me.pc, f) && (!me.gate.NoGate? ==> me.gate.f == f)
    ensures Progress(w, me, Ask(w, me, f, data))
  {
    hide Ask, Asks, Needs, Reads, SourceHolds, LastLine, AtAddress;
    AskReads(w, me, f, data);
    AskGates(w, me, f, data);
    AskLock(w, me, f, data);
  }

  lemma BeginProgress(w: World, me: Process, start: Start, it: Process, lock: Option<Pid>, p: Pid)
    requires Begins(w, start, it.pc, lock, p) && it.call == me.call + 1 && it.gate == NoGate
    ensures Progress(w, me, it)
  {
    hide Begins, Needs, Reads, SourceHolds, LastLine, AtAddress;
    BeginReads(w, start, it.pc, lock, p);
  }

  lemma MoveProgress(w: World, me: Process, move: Move, it: Process)
    requires Moves(w, me.pc, move, it.pc) && it.call == me.call && it.gate == NoGate
    ensures Progress(w, me, it)
  {
    hide Moves, Needs, Reads, SourceHolds, LastLine, AtAddress;
    MoveReads(w, me.pc, move, it.pc);
  }

  lemma ActorProgress(w: World, p: Pid, a: Action, n: World)
    requires p in w.procs && Acts(w, p, a, n)
    ensures p in n.procs && Progress(w, w.procs[p], n.procs[p])
  {
    hide Ask, Asks, Begins, Moves, HoldsLock, Appended, Progress;
    var me := w.procs[p];
    IdleProgress(w, me);
    match a
    case AskGate(f, data) => AskProgress(w, me, f, data);
    case Replace =>
    case Append =>
    case Stop =>
    case Begin(start) => BeginProgress(w, me, start, n.procs[p], n.lock, p);
    case Go(move) => MoveProgress(w, me, move, n.procs[p]);
  }

  /** What stands behind everything a process holds. */
  ghost predicate Evidence(states: seq<World>, i: nat, p: Pid)
    requires i < |states| && p in states[i].procs
  {
    var me := states[i].procs[p];
    && (me.gate.Keyed? ==> SawSource(states, i, p, me.call, me.gate.f, me.gate.h))
    && (me.gate.Matched? ==> SawLine(states, i, p, me.call, me.gate.f, me.gate.r))
    && (forall f :: f in Needs(me.pc) ==> SawOpen(states, i, p, me.call, f))
    && (forall x :: x in Reads(me.pc) ==> SawFile(states, i, p, me.call, x))
    && (me.pc.Judged? && me.pc.verdict == Pass ==> SawSource(states, i, p, me.call, me.pc.f, me.pc.body))
    && (me.pc.Stamped? ==> Backed(states, i, p, me.call, me.pc.f, me.pc.r))
  }

  /** Later in the call, everything seen has still been seen. */
  lemma SeenStays(states: seq<World>, i: nat, p: Pid, c: nat)
    requires i + 1 < |states|
    ensures forall x :: SawFile(states, i, p, c, x) ==> SawFile(states, i + 1, p, c, x)
    ensures forall f, h :: SawSource(states, i, p, c, f, h) ==> SawSource(states, i + 1, p, c, f, h)
  {
    assert forall a: nat :: Moment(states, i, p, c, a) ==> Moment(states, i + 1, p, c, a);
  }

  lemma LineStays(states: seq<World>, i: nat, p: Pid, c: nat, f: Func, r: Record)
    requires i + 1 < |states| && SawLine(states, i, p, c, f, r)
    ensures SawLine(states, i + 1, p, c, f, r)
  {
    var a: nat, b: nat :| LineAt(states, i, p, c, f, r, a, b);
    assert LineAt(states, i + 1, p, c, f, r, a, b);
  }

  lemma OpenStays(states: seq<World>, i: nat, p: Pid, c: nat, f: Func)
    requires i + 1 < |states| && SawOpen(states, i, p, c, f)
    ensures SawOpen(states, i + 1, p, c, f)
  {
    var r: Record, a: nat, b: nat, d: nat :| OpenAt(states, i, p, c, f, r, a, b, d);
    assert OpenAt(states, i + 1, p, c, f, r, a, b, d);
  }

  lemma BackedStays(states: seq<World>, i: nat, p: Pid, c: nat, f: Func, r: Record)
    requires i + 1 < |states| && Backed(states, i, p, c, f, r)
    ensures Backed(states, i + 1, p, c, f, r)
  {
    var a: nat, b: nat :| BackedAt(states, i, p, c, f, r, a, b);
    assert BackedAt(states, i + 1, p, c, f, r, a, b);
  }

  /** One read completes a line seen: the last one is of state `i + 1`, like state `i`. */
  lemma SourceThenLine(states: seq<World>, i: nat, p: Pid, c: nat, f: Func, r: Record)
    requires i + 1 < |states| && InCall(states[i + 1], p, c)
    requires SawSource(states, i, p, c, f, r.body) && LastLine(states[i + 1], f, r) && r.verdict == Pass
    ensures SawLine(states, i + 1, p, c, f, r)
  {
    var a: nat :| Moment(states, i, p, c, a) && SourceHolds(states[a], f, r.body);
    assert LineAt(states, i + 1, p, c, f, r, a, i + 1);
  }

  lemma LineThenAddress(states: seq<World>, i: nat, p: Pid, c: nat, f: Func, r: Record)
    requires i + 1 < |states| && InCall(states[i + 1], p, c)
    requires SawLine(states, i, p, c, f, r) && AtAddress(states[i + 1], f, r.addr)
    ensures SawOpen(states, i + 1, p, c, f)
  {
    var a: nat, b: nat :| LineAt(states, i, p, c, f, r, a, b);
    assert OpenAt(states, i + 1, p, c, f, r, a, b, i + 1);
  }

  lemma SourceThenStamp(states: seq<World>, i: nat, p: Pid, c: nat, f: Func, r: Record)
    requires i + 1 < |states| && InCall(states[i], p, c) && InCall(states[i + 1], p, c)
    requires r.verdict == Pass ==> SawSource(states, i, p, c, f, r.body)
    requires AtAddress(states[i + 1], f, r.addr)
    ensures Backed(states, i + 1, p, c, f, r)
  {
    var a: nat := i;
    if r.verdict == Pass { a :| Moment(states, i, p, c, a) && SourceHolds(states[a], f, r.body); }
    assert BackedAt(states, i + 1, p, c, f, r, a, i + 1);
  }

  /** The step of another process, or of none, takes no evidence away. */
  lemma EvidenceStays(states: seq<World>, i: nat, p: Pid)
    requires i + 1 < |states| && p in states[i].procs && p in states[i + 1].procs
    requires Evidence(states, i, p) && states[i + 1].procs[p] == states[i].procs[p]
    ensures Evidence(states, i + 1, p)
  {
    hide SawFile, SawSource, SawLine, SawOpen, Backed, Needs, Reads;
    var me := states[i].procs[p];
    SeenStays(states, i, p, me.call);
    if me.gate.Matched? { LineStays(states, i, p, me.call, me.gate.f, me.gate.r); }
    if me.pc.Stamped? { BackedStays(states, i, p, me.call, me.pc.f, me.pc.r); }
    forall f | f in Needs(me.pc)
      ensures SawOpen(states, i + 1, p, me.call, f)
    {
      OpenStays(states, i, p, me.call, f);
    }
  }

  /** A process's own step adds what it has just read. */
  lemma EvidenceGrows(states: seq<World>, i: nat, p: Pid)
    requires i + 1 < |states| && p in states[i].procs && p in states[i + 1].procs && Evidence(states, i, p)
    requires states[i + 1].body == states[i].body && states[i + 1].addr == states[i].addr
    requires states[i + 1].file == states[i].file || Reads(states[i + 1].procs[p].pc) == {}
    requires states[i + 1].ledgers == states[i].ledgers || states[i + 1].procs[p].gate == NoGate
    requires Progress(states[i], states[i].procs[p], states[i + 1].procs[p])
    ensures Evidence(states, i + 1, p)
  {
    hide SawLine, SawOpen, Backed, Needs, Reads, SourceHolds, LastLine, AtAddress;
    GateGrows(states, i, p);
    NeedsGrow(states, i, p);
    RecordGrows(states, i, p);
    var me, it := states[i].procs[p], states[i + 1].procs[p];
    SeenStays(states, i, p, me.call);
    forall x | x in Reads(it.pc)
      ensures SawFile(states, i + 1, p, it.call, x)
    {
      assert Moment(states, i + 1, p, it.call, i + 1);
    }
  }

  lemma GateGrows(states: seq<World>, i: nat, p: Pid)
    requires i + 1 < |states| && p in states[i].procs && p in states[i + 1].procs && Evidence(states, i, p)
    requires states[i + 1].body == states[i].body
    requires states[i + 1].ledgers == states[i].ledgers || states[i + 1].procs[p].gate == NoGate
    requires Progress(states[i], states[i].procs[p], states[i + 1].procs[p])
    ensures var it := states[i + 1].procs[p];
            && (it.gate.Keyed? ==> SawSource(states, i + 1, p, it.call, it.gate.f, it.gate.h))
            && (it.gate.Matched? ==> SawLine(states, i + 1, p, it.call, it.gate.f, it.gate.r))
  {
    hide SawLine, SawOpen, Backed, Needs, Reads;
    var it := states[i + 1].procs[p];
    assert Moment(states, i + 1, p, it.call, i + 1);
    if it.gate.Matched? { SourceThenLine(states, i, p, it.call, it.gate.f, it.gate.r); }
  }

  lemma NeedsGrow(states: seq<World>, i: nat, p: Pid)
    requires i + 1 < |states| && p in states[i].procs && p in states[i + 1].procs && Evidence(states, i, p)
    requires states[i + 1].addr == states[i].addr
    requires Progress(states[i], states[i].procs[p], states[i + 1].procs[p])
    ensures var it := states[i + 1].procs[p];
            forall f :: f in Needs(it.pc) ==> SawOpen(states, i + 1, p, it.call, f)
  {
    hide SawLine, SawOpen, SawFile, SawSource, Backed, Needs, Reads;
    var me, it := states[i].procs[p], states[i + 1].procs[p];
    forall f | f in Needs(it.pc)
      ensures SawOpen(states, i + 1, p, it.call, f)
    {
      if f in Needs(me.pc) {
        OpenStays(states, i, p, it.call, f);
      } else {
        LineThenAddress(states, i, p, it.call, f, me.gate.r);
      }
    }
  }

  lemma RecordGrows(states: seq<World>, i: nat, p: Pid)
    requires i + 1 < |states| && p in states[i].procs && p in states[i + 1].procs && Evidence(states, i, p)
    requires states[i + 1].body == states[i].body && states[i + 1].addr == states[i].addr
    requires Progress(states[i], states[i].procs[p], states[i + 1].procs[p])
    ensures var it := states[i + 1].procs[p];
            && (it.pc.Judged? && it.pc.verdict == Pass ==> SawSource(states, i + 1, p, it.call, it.pc.f, it.pc.body))
            && (it.pc.Stamped? ==> Backed(states, i + 1, p, it.call, it.pc.f, it.pc.r))
  {
    hide SawLine, SawOpen, SawFile, Backed, Needs, Reads;
    var it := states[i + 1].procs[p];
    assert Moment(states, i + 1, p, it.call, i + 1);
    if it.pc.Stamped? { SourceThenStamp(states, i, p, it.call, it.pc.f, it.pc.r); }
  }

  lemma {:induction false} History(states: seq<World>, events: seq<Event>, i: nat, p: Pid)
    requires Run(states, events) && i < |states| && p in states[i].procs
    ensures Evidence(states, i, p)
  {
    hide Acts, Evidence, Progress, HoldsLock;
    SameProcesses(states, events, i);
    if i == 0 {
      IdleEvidence(states, p);
    } else {
      SameProcesses(states, events, i - 1);
      var w, e, n := states[i - 1], events[i - 1], states[i];
      assert Step(w, e, n);
      History(states, events, i - 1, p);
      if e.Act? && e.p == p {
        ActorTouches(w, p, e.a, n);
        ActorProgress(w, p, e.a, n);
        WritersForget(w, p, e.a, n);
        EvidenceGrows(states, i - 1, p);
      } else {
        if e.Act? { ActorTouches(w, e.p, e.a, n); }
        EvidenceStays(states, i - 1, p);
      }
    }
  }

  lemma IdleEvidence(states: seq<World>, p: Pid)
    requires states != [] && p in states[0].procs && states[0].procs[p].pc == Idle && states[0].procs[p].gate == NoGate
    ensures Evidence(states, 0, p)
  {
  }

  lemma WritersForget(w: World, p: Pid, a: Action, n: World)
    requires p in w.procs && Acts(w, p, a, n)
    ensures a.Replace? || a.Append? ==> p in n.procs && Reads(n.procs[p].pc) == {} && n.procs[p].gate == NoGate
  {
  }
}
