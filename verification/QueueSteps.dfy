/**
 The shared queue under interleaving: locked load-modify-save cycles, completions with a slow
 gate in front of them, regenerations that scan for minutes without the lock, reviews recorded
 without it, and writers that respect nothing. Each step below is one access to the file, the
 lock, the source or a ledger; any process may move between any two of them. A fingerprint is
 the content it digests; `meta` is everything in the file besides the items. What a scan
 finds, which builds fail and how long anything takes is arbitrary.
 */
module QueueSteps {
  import opened Prelude

  type Func = nat
  type Addr = nat
  type Hash = nat
  type Pid = nat

  datatype Item = Item(func: Func, data: nat)

  datatype Doc = Doc(items: seq<Item>, meta: nat)

  type File = Option<Doc>

  datatype Record = Record(verdict: Verdict, body: Hash, addr: Addr)

  /** What a locked cycle is for: some other mutation, or the removal of a completed function
      whose call first read `entry`. */
  datatype Job = Mutate | Finish(f: Func, entry: File)

  /** Where a process stands. */
  datatype Pc =
    | Idle
    // a completion in front of the lock
    | DoneLoaded(f: Func, entry: File)
    | DoneGated(f: Func, entry: File)
    // a locked cycle
    | Holding(job: Job)
    | Loaded(job: Job, q: File)
    | Tokened(job: Job, q: File, tok: File)
    | Checked(job: Job, q: File, tok: File, next: Doc)
    // a regeneration: `have` is what the new queue lists, `passed` are the functions let go
    | RegenTokened(tok: File)
    | Scanning(tok: File, listed: File, have: seq<Item>, passed: set<Func>)
    | Choking(tok: File, listed: File, have: seq<Item>, passed: set<Func>, k: nat)
    | RegenHolding(tok: File, listed: File, have: seq<Item>, passed: set<Func>)
    | RegenChecked(tok: File, listed: File, next: Doc, passed: set<Func>)
    // a review being recorded: the source has been read, then the address
    | Judged(f: Func, verdict: Verdict, body: Hash)
    | Stamped(f: Func, r: Record)

  /** How far the gate has got: the body of `f` is read, then the last line of its ledger,
      then its address. */
  datatype Gate = NoGate | Keyed(f: Func, h: Hash) | Matched(f: Func, r: Record)

  /** `call` counts the calls a process has begun. */
  datatype Process = Process(call: nat, pc: Pc, gate: Gate)

  datatype World = World(
    file: File, lock: Option<Pid>,
    body: map<Func, Hash>, addr: map<Func, Addr>, ledgers: map<Func, seq<Record>>,
    procs: map<Pid, Process>)

  function ItemsIn(file: File): seq<Item> {
    match file
    case None => []
    case Some(doc) => doc.items
  }

  function Funcs(s: seq<Item>): set<Func> {
    set it | it in s :: it.func
  }

  function Listed(file: File): set<Func> {
    Funcs(ItemsIn(file))
  }

  /* ---- What the gate reads ---- */

  predicate SourceHolds(w: World, f: Func, h: Hash) {
    f in w.body && w.body[f] == h
  }

  /** The last line of the function's ledger is this one. */
  predicate LastLine(w: World, f: Func, r: Record) {
    f in w.ledgers && w.ledgers[f] != [] && Last(w.ledgers[f]) == r
  }

  predicate AtAddress(w: World, f: Func, a: Addr) {
    f in w.addr && w.addr[f] == a
  }

  /** A process that asks the gate about `f` here. */
  predicate Asks(pc: Pc, f: Func) {
    match pc
    case DoneLoaded(g, _) => f == g
    case Scanning(_, listed, _, _) => f in Listed(listed)
    case Choking(_, listed, _, _, k) => k < |ItemsIn(listed)| && ItemsIn(listed)[k].func == f
    case _ => false
  }

  function Opened(pc: Pc, f: Func): Pc {
    match pc
    case DoneLoaded(g, entry) => DoneGated(g, entry)
    case Scanning(tok, listed, have, passed) => Scanning(tok, listed, have, passed + {f})
    case Choking(tok, listed, have, passed, k) => Choking(tok, listed, have, passed + {f}, k)
    case _ => pc
  }

  /** A refused completion is over; a regeneration keeps a refused item. */
  function Refused(pc: Pc, f: Func, data: nat): Pc {
    match pc
    case DoneLoaded(_, _) => Idle
    case Scanning(tok, listed, have, passed) => Scanning(tok, listed, have + [Item(f, data)], passed)
    case Choking(tok, listed, have, passed, k) => Choking(tok, listed, have + [Item(f, data)], passed, k)
    case _ => pc
  }

  /** One read of the gate. `data` is what a kept item carries besides its function. */
  function Ask(w: World, p: Process, f: Func, data: nat): Process {
    match p.gate
    case NoGate =>
      if f in w.body then p.(gate := Keyed(f, w.body[f])) else p.(pc := Refused(p.pc, f, data))
    case Keyed(_, h) =>
      if f in w.ledgers && w.ledgers[f] != [] && Last(w.ledgers[f]).verdict == Pass && Last(w.ledgers[f]).body == h
      then p.(gate := Matched(f, Last(w.ledgers[f])))
      else p.(pc := Refused(p.pc, f, data), gate := NoGate)
    case Matched(_, r) =>
      if AtAddress(w, f, r.addr) then p.(pc := Opened(p.pc, f), gate := NoGate)
      else p.(pc := Refused(p.pc, f, data), gate := NoGate)
  }

  /* ---- Steps ---- */

  datatype Start = StartDone(f: Func) | StartMutate | StartRegen | StartRecord(f: Func, verdict: Verdict, body: Hash)

  datatype Move = Acquire | Load | Token | Check(next: Doc) | List | ScanAdd(item: Item) | EndScan | Choke | Stamp

  datatype Action = Begin(start: Start) | AskGate(f: Func, data: nat) | Go(move: Move) | Replace | Append | Stop

  datatype Event = Edit | External | Archived(f: Func) | Act(p: Pid, a: Action)

  predicate HoldsLock(pc: Pc) {
    pc.Holding? || pc.Loaded? || pc.Tokened? || pc.Checked? || pc.RegenHolding? || pc.RegenChecked?
  }

  /** What a locked cycle does to the items: other mutations keep every function listed, a
      completion takes out one function and nothing else. */
  ghost predicate Applies(job: Job, items: seq<Item>, next: seq<Item>) {
    match job
    case Mutate => Funcs(items) <= Funcs(next)
    case Finish(f, _) => forall it :: it in next <==> it in items && it.func != f
  }

  /** The queue vanished or was emptied under a completion. */
  predicate Emptied(job: Job, q: File) {
    job.Finish? && ItemsIn(job.entry) != [] && ItemsIn(q) == []
  }

  /** The fingerprint still matches, and `next` is what this cycle writes. */
  ghost predicate CanCheck(w: World, pc: Pc, next: Doc) {
    (pc.Tokened? || pc.RegenHolding?) && w.file == pc.tok &&
    if pc.Tokened? then !Emptied(pc.job, pc.q) && Applies(pc.job, ItemsIn(pc.q), next.items)
    else Funcs(next.items) == Funcs(pc.have)
  }

  /** A call begins: what it reads first. A PASS is refused unless the source holds its body. */
  ghost predicate Begins(w: World, start: Start, pc: Pc, lock: Option<Pid>, p: Pid) {
    match start
    case StartDone(f) => f in Listed(w.file) && pc == DoneLoaded(f, w.file) && lock == w.lock
    case StartMutate => w.lock == None && pc == Holding(Mutate) && lock == Some(p)
    case StartRegen => pc == RegenTokened(w.file) && lock == w.lock
    case StartRecord(f, verdict, body) =>
      (verdict == Pass ==> SourceHolds(w, f, body)) && pc == Judged(f, verdict, body) && lock == w.lock
  }

  /** A step of a regeneration or a locked cycle, by its program counter alone. */
  ghost predicate Moves(w: World, pc: Pc, move: Move, to: Pc) {
    match move
    case Acquire =>
      w.lock == None && (
        (pc.DoneGated? && to == Holding(Finish(pc.f, pc.entry))) ||
        (pc.Choking? && pc.k == |ItemsIn(pc.listed)| && to == RegenHolding(pc.tok, pc.listed, pc.have, pc.passed)))
    case Load => pc.Holding? && to == Loaded(pc.job, w.file)
    case Token => pc.Loaded? && to == Tokened(pc.job, pc.q, w.file)
    case Check(next) =>
      CanCheck(w, pc, next) &&
      to == if pc.Tokened? then Checked(pc.job, pc.q, pc.tok, next)
            else RegenChecked(pc.tok, pc.listed, next, pc.passed)
    case List => pc.RegenTokened? && to == Scanning(pc.tok, w.file, [], {})
    case ScanAdd(item) => pc.Scanning? && to == Scanning(pc.tok, pc.listed, pc.have + [item], pc.passed)
    case EndScan => pc.Scanning? && to == Choking(pc.tok, pc.listed, pc.have, pc.passed, 0)
    case Choke =>
      pc.Choking? && pc.k < |ItemsIn(pc.listed)| &&
      (var f := ItemsIn(pc.listed)[pc.k].func; f in Funcs(pc.have) || f in pc.passed) &&
      to == Choking(pc.tok, pc.listed, pc.have, pc.passed, pc.k + 1)
    case Stamp => pc.Judged? && pc.f in w.addr && to == Stamped(pc.f, Record(pc.verdict, pc.body, w.addr[pc.f]))
  }

  function LockAfter(w: World, p: Pid, move: Move): Option<Pid> {
    if move.Acquire? then Some(p) else w.lock
  }

  function Put(w: World, p: Pid, q: Process): World {
    w.(procs := w.procs[p := q])
  }

  ghost predicate Acts(w: World, p: Pid, a: Action, n: World)
    requires p in w.procs
  {
    var me := w.procs[p];
    match a
    case Begin(start) =>
      me.pc.Idle? && me.gate.NoGate? && p in n.procs && Begins(w, start, n.procs[p].pc, n.lock, p) &&
      n == Put(w, p, Process(me.call + 1, n.procs[p].pc, NoGate)).(lock := n.lock)
    case AskGate(f, data) =>
      Asks(me.pc, f) && (!me.gate.NoGate? ==> me.gate.f == f) && n == Put(w, p, Ask(w, me, f, data))
    case Go(move) =>
      me.gate.NoGate? && p in n.procs && Moves(w, me.pc, move, n.procs[p].pc) &&
      n == Put(w, p, Process(me.call, n.procs[p].pc, NoGate)).(lock := LockAfter(w, p, move))
    case Replace =>
      (me.pc.Checked? || me.pc.RegenChecked?) &&
      n == Put(w, p, Process(me.call, Idle, NoGate)).(file := Some(me.pc.next), lock := None)
    case Append =>
      me.pc.Stamped? &&
      n == Put(w, p, Process(me.call, Idle, NoGate)).(ledgers := Appended(w.ledgers, me.pc.f, me.pc.r))
    case Stop => n == Put(w, p, Process(me.call, Idle, NoGate)).(lock := if HoldsLock(me.pc) then None else w.lock)
  }

  function Appended(ledgers: map<Func, seq<Record>>, f: Func, r: Record): map<Func, seq<Record>> {
    ledgers[f := (if f in ledgers then ledgers[f] else []) + [r]]
  }

  /** Source and addresses change at will, a writer outside the lock writes what it likes, and
      a ledger may be archived, at any moment. */
  ghost predicate Step(w: World, e: Event, n: World) {
    match e
    case Edit => n == w.(body := n.body, addr := n.addr)
    case External => n == w.(file := n.file)
    case Archived(f) => n == w.(ledgers := w.ledgers - {f})
    case Act(p, a) => p in w.procs && Acts(w, p, a, n)
  }

  ghost predicate Initial(w: World) {
    w.lock == None && forall p :: p in w.procs ==> w.procs[p].pc == Idle && w.procs[p].gate == NoGate
  }

  ghost predicate Run(states: seq<World>, events: seq<Event>) {
    && |states| == |events| + 1 && Initial(states[0])
    && forall i :: 0 <= i < |events| ==> Step(states[i], events[i], states[i + 1])
  }

  /* ---- One step, seen from the outside ---- */

  /** What a step leaves alone. */
  lemma ActorTouches(w: World, p: Pid, a: Action, n: World)
    requires p in w.procs && Acts(w, p, a, n)
    ensures n.procs.Keys == w.procs.Keys && forall q :: q in w.procs && q != p ==> n.procs[q] == w.procs[q]
    ensures n.body == w.body && n.addr == w.addr
    ensures (a.Replace? || n.file == w.file) && (a.Append? || n.ledgers == w.ledgers)
    ensures a.Replace? ==> HoldsLock(w.procs[p].pc)
  {
    hide Ask, Begins, Moves, Asks, Appended;
    assert n.procs == w.procs[p := n.procs[p]];
  }

  lemma MovesLock(w: World, pc: Pc, move: Move, to: Pc)
    requires Moves(w, pc, move, to)
    ensures HoldsLock(to) <==> HoldsLock(pc) || move.Acquire?
    ensures move.Acquire? ==> w.lock == None
  {
    hide Listed, Funcs, Applies, Emptied;
  }

  lemma BeginsLock(w: World, start: Start, pc: Pc, lock: Option<Pid>, p: Pid)
    requires Begins(w, start, pc, lock, p)
    ensures if HoldsLock(pc) then w.lock == None && lock == Some(p) else lock == w.lock
  {
    hide Listed, SourceHolds;
  }

  lemma AskLock(w: World, me: Process, f: Func, data: nat)
    requires Asks(me.pc, f)
    ensures !HoldsLock(me.pc) && !HoldsLock(Ask(w, me, f, data).pc) && Ask(w, me, f, data).call == me.call
  {
    hide Listed, AtAddress;
  }

  /** A process takes the lock only when it is free, and only the holder gives it back. */
  lemma ActorLocks(w: World, p: Pid, a: Action, n: World)
    requires p in w.procs && Acts(w, p, a, n) && (HoldsLock(w.procs[p].pc) <==> w.lock == Some(p))
    ensures p in n.procs && (HoldsLock(n.procs[p].pc) <==> n.lock == Some(p))
    ensures n.lock == w.lock || (w.lock == None && n.lock == Some(p)) || (w.lock == Some(p) && n.lock == None)
  {
    hide Ask, Asks, Begins, Moves, HoldsLock, Appended;
    var me := w.procs[p];
    IdleHoldsNothing();
    match a
    case AskGate(f, data) => AskLock(w, me, f, data);
    case Replace => ReplaceHolds(me.pc);
    case Append => ReplaceHolds(me.pc);
    case Stop =>
    case Begin(start) => BeginsLock(w, start, n.procs[p].pc, n.lock, p);
    case Go(move) => MovesLock(w, me.pc, move, n.procs[p].pc);
  }

  lemma IdleHoldsNothing()
    ensures !HoldsLock(Idle)
  {
  }

  lemma ReplaceHolds(pc: Pc)
    ensures pc.Checked? || pc.RegenChecked? ==> HoldsLock(pc)
    ensures pc.Stamped? ==> !HoldsLock(pc)
  {
  }

  ghost predicate LockOk(w: World) {
    && (forall p :: p in w.procs ==> (HoldsLock(w.procs[p].pc) <==> w.lock == Some(p)))
    && (w.lock.Some? ==> w.lock.value in w.procs)
  }

  lemma StepKeepsLock(w: World, e: Event, n: World)
    requires LockOk(w) && Step(w, e, n)
    ensures LockOk(n)
  {
    hide Acts, HoldsLock;
    if e.Act? {
      ActorTouches(w, e.p, e.a, n);
      ActorLocks(w, e.p, e.a, n);
    }
  }

  lemma {:induction false} LockIsKept(states: seq<World>, events: seq<Event>, i: nat)
    requires Run(states, events) && i < |states|
    ensures LockOk(states[i])
  {
    hide Step;
    if i > 0 {
      LockIsKept(states, events, i - 1);
      StepKeepsLock(states[i - 1], events[i - 1], states[i]);
    }
  }

  /* ---- What a regeneration has accounted for ---- */

  /** A listed function is in the new queue or has been let go; a checked cycle writes what it
      is for. */
  ghost predicate AccountOk(pc: Pc) {
    match pc
    case Checked(job, q, _, next) => !Emptied(job, q) && Applies(job, ItemsIn(q), next.items)
    case Choking(_, listed, have, passed, k) =>
      k <= |ItemsIn(listed)| && Funcs(ItemsIn(listed)[..k]) <= Funcs(have) + passed
    case RegenHolding(_, listed, have, passed) => Listed(listed) <= Funcs(have) + passed
    case RegenChecked(_, listed, next, passed) => Listed(listed) <= Funcs(next.items) + passed
    case _ => true
  }

  lemma FuncsOfAppend(s: seq<Item>, it: Item)
    ensures Funcs(s + [it]) == Funcs(s) + {it.func}
  {
    assert forall x :: x in s + [it] <==> x in s || x == it;
    assert it in s + [it];
  }

  lemma NoFuncs()
    ensures Funcs([]) == {}
  {
  }

  lemma MoveAccounts(w: World, pc: Pc, move: Move, to: Pc)
    requires AccountOk(pc) && Moves(w, pc, move, to)
    ensures AccountOk(to)
  {
    hide Funcs, Applies, Emptied;
    match move
    case EndScan => NoFuncs(); assert ItemsIn(pc.listed)[..0] == [];
    case Choke =>
      var items := ItemsIn(pc.listed);
      assert items[..pc.k + 1] == items[..pc.k] + [items[pc.k]];
      FuncsOfAppend(items[..pc.k], items[pc.k]);
    case Acquire => if pc.Choking? { assert ItemsIn(pc.listed)[..pc.k] == ItemsIn(pc.listed); }
    case _ =>
  }

  lemma AskAccounts(w: World, me: Process, f: Func, data: nat)
    requires AccountOk(me.pc) && Asks(me.pc, f)
    ensures AccountOk(Ask(w, me, f, data).pc)
  {
    hide Funcs, AtAddress;
    if me.pc.Choking? { FuncsOfAppend(me.pc.have, Item(f, data)); }
  }

  lemma BeginAccounts(w: World, start: Start, pc: Pc, lock: Option<Pid>, p: Pid)
    requires Begins(w, start, pc, lock, p)
    ensures AccountOk(pc)
  {
  }

  lemma ActorAccounts(w: World, p: Pid, a: Action, n: World)
    requires p in w.procs && Acts(w, p, a, n) && AccountOk(w.procs[p].pc)
    ensures p in n.procs && AccountOk(n.procs[p].pc)
  {
    hide Ask, Asks, Begins, Moves, AccountOk, HoldsLock, Appended;
    var me := w.procs[p];
    IdleAccounts();
    match a
    case AskGate(f, data) => AskAccounts(w, me, f, data);
    case Replace =>
    case Append =>
    case Stop =>
    case Begin(start) => BeginAccounts(w, start, n.procs[p].pc, n.lock, p);
    case Go(move) => MoveAccounts(w, me.pc, move, n.procs[p].pc);
  }

  lemma IdleAccounts()
    ensures AccountOk(Idle)
  {
  }

  /** The processes are the same throughout. */
  lemma {:induction false} SameProcesses(states: seq<World>, events: seq<Event>, i: nat)
    requires Run(states, events) && i < |states|
    ensures states[i].procs.Keys == states[0].procs.Keys
  {
    hide Acts;
    if i > 0 {
      assert Step(states[i - 1], events[i - 1], states[i]);
      SameProcesses(states, events, i - 1);
      if events[i - 1].Act? { ActorTouches(states[i - 1], events[i - 1].p, events[i - 1].a, states[i]); }
    }
  }

  lemma {:induction false} AccountsAreKept(states: seq<World>, events: seq<Event>, i: nat, p: Pid)
    requires Run(states, events) && i < |states| && p in states[i].procs
    ensures AccountOk(states[i].procs[p].pc)
  {
    hide Acts, AccountOk;
    IdleAccounts();
    SameProcesses(states, events, i);
    if i > 0 {
      SameProcesses(states, events, i - 1);
      assert Step(states[i - 1], events[i - 1], states[i]);
      AccountsAreKept(states, events, i - 1, p);
      var e := events[i - 1];
      if e.Act? {
        ActorTouches(states[i - 1], e.p, e.a, states[i]);
        if e.p == p { ActorAccounts(states[i - 1], p, e.a, states[i]); }
      }
    }
  }

  /* ---- What a process knows of the file ---- */

  /** What was loaded is the content the fingerprint is of, and, in front of the replace, is
      what the file holds. */
  ghost predicate FileOk(file: File, pc: Pc) {
    match pc
    case Loaded(_, q) => q == file
    case Tokened(_, q, tok) => q == tok
    case Checked(_, q, tok, _) => q == tok == file
    case RegenChecked(tok, _, _, _) => tok == file
    case _ => true
  }

  /** From load to fingerprint, and from check to replace, nothing will look at the file. */
  predicate Uncovered(pc: Pc) {
    pc.Loaded? || pc.Checked? || pc.RegenChecked?
  }

  ghost predicate InCall(w: World, p: Pid, call: nat) {
    p in w.procs && w.procs[p].call == call
  }

  /** No writer outside the lock hits such a stretch of the call that `p` is in at `i`. */
  ghost predicate Spared(states: seq<World>, events: seq<Event>, i: nat, p: Pid)
    requires |states| == |events| + 1 && i < |states| && p in states[i].procs
  {
    forall k :: 0 <= k < i && events[k] == External && InCall(states[k], p, states[i].procs[p].call) ==>
      !Uncovered(states[k].procs[p].pc)
  }

  lemma MoveKnows(w: World, pc: Pc, move: Move, to: Pc)
    requires FileOk(w.file, pc) && Moves(w, pc, move, to)
    ensures FileOk(w.file, to)
  {
    hide Funcs, Listed, Applies, Emptied;
  }

  lemma AskKnows(w: World, me: Process, f: Func, data: nat)
    requires Asks(me.pc, f)
    ensures FileOk(w.file, Ask(w, me, f, data).pc)
  {
    hide Listed, AtAddress;
  }

  lemma BeginKnows(w: World, start: Start, pc: Pc, lock: Option<Pid>, p: Pid)
    requires Begins(w, start, pc, lock, p)
    ensures FileOk(w.file, pc)
  {
    hide Listed, SourceHolds;
  }

  lemma ActorKnows(w: World, p: Pid, a: Action, n: World)
    requires p in w.procs && Acts(w, p, a, n)
    ensures p in n.procs && w.procs[p].call <= n.procs[p].call
    ensures n.procs[p].call != w.procs[p].call || FileOk(w.file, w.procs[p].pc) ==> FileOk(n.file, n.procs[p].pc)
  {
    hide Ask, Asks, Begins, Moves, FileOk, HoldsLock, Appended, LockAfter;
    var me := w.procs[p];
    IdleKnows(n.file);
    ActorTouches(w, p, a, n);
    match a
    case AskGate(f, data) => AskKnows(w, me, f, data); AskLock(w, me, f, data);
    case Replace =>
    case Append =>
    case Stop =>
    case Begin(start) => BeginKnows(w, start, n.procs[p].pc, n.lock, p);
    case Go(move) => if FileOk(w.file, me.pc) { MoveKnows(w, me.pc, move, n.procs[p].pc); }
  }

  lemma IdleKnows(file: File)
    ensures FileOk(file, Idle)
  {
  }

  /** Outside the uncovered stretches the file does not matter. */
  lemma FileMayChange(file: File, other: File, pc: Pc)
    requires FileOk(file, pc) && !Uncovered(pc)
    ensures FileOk(other, pc)
  {
  }

  /** While a process holds the lock, nobody who respects the lock writes the file. */
  lemma LockKeepsOthersOut(states: seq<World>, events: seq<Event>, i: nat, p: Pid)
    requires Run(states, events) && i < |events| && p in states[i].procs && HoldsLock(states[i].procs[p].pc)
    ensures states[i + 1].file == states[i].file || events[i] == External || events[i] == Act(p, Replace)
  {
    hide Acts, HoldsLock;
    var w, e, n := states[i], events[i], states[i + 1];
    assert Step(w, e, n);
    LockIsKept(states, events, i);
    if e.Act? { ActorTouches(w, e.p, e.a, n); }
  }

  lemma UncoveredHoldsLock(pc: Pc)
    requires Uncovered(pc)
    ensures HoldsLock(pc)
  {
  }

  lemma {:induction false} FileIsKnown(states: seq<World>, events: seq<Event>, i: nat, p: Pid)
    requires Run(states, events) && i < |states| && p in states[i].procs && Spared(states, events, i, p)
    ensures FileOk(states[i].file, states[i].procs[p].pc)
  {
    hide Acts, FileOk, HoldsLock, Uncovered;
    if i == 0 {
      IdleKnows(states[0].file);
    } else {
      SameProcesses(states, events, i);
      SameProcesses(states, events, i - 1);
      var w, e, n := states[i - 1], events[i - 1], states[i];
      assert Step(w, e, n);
      if e.Act? && e.p == p {
        ActorKnows(w, p, e.a, n);
        if n.procs[p].call == w.procs[p].call { FileIsKnown(states, events, i - 1, p); }
      } else {
        if e.Act? { ActorTouches(w, e.p, e.a, n); }
        FileIsKnown(states, events, i - 1, p);
        if n.file != w.file {
          if Uncovered(w.procs[p].pc) {
            UncoveredHoldsLock(w.procs[p].pc);
            LockKeepsOthersOut(states, events, i - 1, p);
          }
          FileMayChange(w.file, n.file, w.procs[p].pc);
        }
      }
    }
  }

  /** Without writers outside the lock, every process in a locked cycle knows what the file
      holds, up to its replace. */
  lemma OnlyOutsidersDisturb(states: seq<World>, events: seq<Event>, i: nat, p: Pid)
    requires Run(states, events) && i < |states| && p in states[i].procs && External !in events
    ensures Spared(states, events, i, p) && FileOk(states[i].file, states[i].procs[p].pc)
  {
    FileIsKnown(states, events, i, p);
  }
}
