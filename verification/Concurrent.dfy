/** Any number of processes on one device. Each call is broken into the steps that other processes can
    interleave with: the two unlocked reads of the geometry, `down`, every change of the shared structure
    or of the process's own position, and `up`. A resizing ioctl is one step that no semaphore guards.

    The sizes a call works with are those of its unlocked reads. If a truncation comes in between, they may
    no longer be the sizes of the device, and the steps below then do what the code does with them. What has
    no successor here is a step that would reach beyond an array or a quantum, or allocate an array of
    another length than the device's; a list followed to a negative item number; and a write from a position
    that is not addressable under the sizes it works with. */
module Concurrent {
  import opened Geometry
  import opened FlatFile
  import opened Structure
  import opened Wrappers

  type Pid = nat

  datatype Call =
    | ReadCall(count: int)
    | WriteCall(data: seq<byte>)
    | TruncateCall

  /** Where a process is between `down` and `up`. */
  datatype Stage =
    | Entered
    | Following(a: Address)                     // in scull_follow
    | Slotting(a: Address)                      // about to test the slot array
    | Backing(a: Address)                       // about to test the quantum
    | Copying(a: Address, fill: seq<byte>)      // about to copy from user memory
    | Advancing(reply: Outcome, luck: WriteLuck)  // copied; about to move *f_pos
    | Raising(reply: Outcome, luck: WriteLuck)  // about to update the size
    | Freed | SizeReset | QuantumSet            // in scull_trim, after the loop, the size, the quantum
    | Leaving(reply: Outcome, luck: WriteLuck, faulty: bool)  // at "out", the semaphore still held

  datatype Pc =
    | Idle
    | Starting(call: Call)
    | HalfRead(call: Call, q: int)
    | Waiting(call: Call, q: int, n: int)
    | Inside(call: Call, q: int, n: int, pos: int, stage: Stage)

  datatype Proc = Proc(fPos: int, pc: Pc)

  /** One line of the serial history: a call that got the semaphore, with what the environment decided in
      it, or a seek or an ioctl, which need no semaphore. */
  datatype Entry =
    | Done(pid: Pid, call: Call, luck: WriteLuck, faulty: bool)
    | Sought(pid: Pid, pos: int)
    | Configured(pid: Pid, quantum: int, qset: int)

  /** `holder`, `base`, `log`, `order` and `replies` only record: who is inside, the device as the last
      `up` left it, the serial history, the order of the successful `down`s, and what calls returned. */
  datatype State = State(
    quantum: int, qset: int,
    store: Store, sem: int, procs: map<Pid, Proc>,
    holder: set<Pid>, base: Store, log: seq<Entry>, order: seq<Pid>, replies: seq<(Pid, Outcome)>)

  /** What the environment contributes to a step. */
  datatype Choice = Ok | Fail | Junk(bytes: seq<byte>)

  datatype Action =
    | Seek(newPos: int)
    | Configure(newQuantum: int, newQset: int)
    | Begin(newCall: Call)
    | Snapshot
    | Down
    | Interrupt
    | Body(choice: Choice)
    | Up

  const NO_LUCK: WriteLuck := QuantumFail

  /** One step of the part of a write that holds the semaphore: the new structure, position and stage. */
  datatype Local = Local(store: Store, fPos: int, stage: Stage)

  /** One round of the loop in `scull_follow`. */
  function Grow(st: Store, a: Address, next: Stage, choice: Choice): Option<(Store, Stage)> {
    if a.item < 0 then None
    else if st.len <= a.item then
      match choice
      case Ok => Some((st.(len := st.len + 1), Following(a)))
      case Fail => Some((st, Leaving(Outcome(-ENOMEM, []), NodeFail(st.len), false)))
      case Junk(_) => None
    else Some((st, next))
  }

  function WriteBody(st: Store, q: int, n: int, fPos: int, data: seq<byte>, stage: Stage, choice: Choice)
    : Option<Local>
    requires ValidGeometry(q, n) && 0 <= fPos
  {
    match stage
    case Entered => Some(Local(st, fPos, Following(Locate(fPos, q, n))))
    case Following(a) =>
      var g := Grow(st, a, Slotting(a), choice);
      if g.None? then None else Some(Local(g.value.0, fPos, g.value.1))
    case Slotting(a) =>
      if a.item in st.slots then if a.sPos < st.qset then Some(Local(st, fPos, Backing(a))) else None
      else if choice.Ok? then if n == st.qset then Some(Local(WithSlots(st, a.item), fPos, Backing(a))) else None
      else Some(Local(st, fPos, Leaving(Outcome(-ENOMEM, []), SlotsFail, false)))
    case Backing(a) =>
      if At(a) in st.blocks then Some(Local(st, fPos, Copying(a, st.blocks[At(a)])))
      else if choice.Junk? && |choice.bytes| == q
        then Some(Local(WithQuantum(st, At(a), choice.bytes), fPos, Copying(a, choice.bytes)))
      else Some(Local(st, fPos, Leaving(Outcome(-ENOMEM, []), QuantumFail, false)))
    case Copying(a, fill) =>
      var k := Min(|data|, q - a.qPos);
      if !Holding(st, a, k) then None
      else if choice.Junk? then
        if |choice.bytes| == k && 0 < k
        then Some(Local(Poke(st, At(a), a.qPos, choice.bytes), fPos,
                        Leaving(Outcome(-EFAULT, []), Faulted(fill, choice.bytes), false)))
        else None
      else Some(Local(Poke(st, At(a), a.qPos, data[..k]), fPos, Advancing(Outcome(k, []), Copied(fill))))
    case Advancing(reply, luck) => Some(Local(st, fPos + reply.ret, Raising(reply, luck)))
    case Raising(reply, luck) => Some(Local(RaiseSize(st, fPos), fPos, Leaving(reply, luck, false)))
    case _ => None
  }

  function ReadBody(st: Store, q: int, n: int, fPos: int, count: int, stage: Stage, choice: Choice): Option<Local>
    requires ValidGeometry(q, n) && 0 <= fPos
  {
    match stage
    case Entered =>
      if st.size <= fPos then Some(Local(st, fPos, Leaving(Outcome(0, []), NO_LUCK, false)))
      else Some(Local(st, fPos, Following(Locate(fPos, q, n))))
    case Following(a) =>
      var g := Grow(st, a, Slotting(a), choice);
      if g.None? then None else
      var next := if g.value.1.Leaving? then Leaving(Outcome(0, []), NO_LUCK, false) else g.value.1;
      Some(Local(g.value.0, fPos, next))
    case Slotting(a) =>
      if a.item in st.slots && st.qset <= a.sPos then None
      else if a.item !in st.slots || At(a) !in st.blocks
      then Some(Local(st, fPos, Leaving(Outcome(0, []), NO_LUCK, false)))
      else Some(Local(st, fPos, Backing(a)))
    case Backing(a) =>
      var k := Min(Min(count, st.size - fPos), q - a.qPos);
      if !Holding(st, a, k) then None
      else if choice.Fail? && 0 < k then Some(Local(st, fPos, Leaving(Outcome(-EFAULT, []), NO_LUCK, true)))
      else Some(Local(st, fPos, Advancing(Outcome(k, st.blocks[At(a)][a.qPos..a.qPos + k]), NO_LUCK)))
    case Advancing(reply, luck) => Some(Local(st, fPos + reply.ret, Leaving(reply, NO_LUCK, false)))
    case _ => None
  }

  function TruncateBody(st: Store, quantum: int, qset: int, fPos: int, stage: Stage): Option<Local> {
    match stage
    case Entered => Some(Local(st.(len := 0, slots := {}, blocks := map[]), fPos, Freed))
    case Freed => Some(Local(st.(size := 0), fPos, SizeReset))
    case SizeReset => Some(Local(st.(quantum := quantum), fPos, QuantumSet))
    case QuantumSet => Some(Local(st.(qset := qset), fPos, Leaving(Outcome(0, []), NO_LUCK, false)))
    case _ => None
  }

  /** What the process inside does next; `quantum` and `qset` are the globals. */
  function BodyStep(s: State, pr: Proc, choice: Choice): Option<Local>
    requires pr.pc.Inside?
  {
    var q, n, stage := pr.pc.q, pr.pc.n, pr.pc.stage;
    match pr.pc.call
    case TruncateCall => TruncateBody(s.store, s.quantum, s.qset, pr.fPos, stage)
    case WriteCall(data) =>
      if ValidGeometry(q, n) && 0 <= pr.fPos then WriteBody(s.store, q, n, pr.fPos, data, stage, choice) else None
    case ReadCall(count) =>
      if ValidGeometry(q, n) && 0 <= pr.fPos then ReadBody(s.store, q, n, pr.fPos, count, stage, choice) else None
  }

  /** A count is at most the largest `ssize_t`. */
  predicate MayBegin(call: Call) {
    call.ReadCall? ==> 0 <= call.count <= LONG_MAX
  }

  /** A write is followed only from a position that is addressable under the sizes it works with. */
  predicate MayEnter(fPos: int, call: Call, q: int, n: int) {
    call.WriteCall? ==> InRange(fPos, q, n)
  }

  /** One step of process `p`, if it can take it. */
  function Next(s: State, p: Pid, act: Action): Option<State>
    requires p in s.procs
  {
    var pr := s.procs[p];
    match (act, pr.pc)
    case (Seek(pos), Idle) =>
      if pos < 0 || LONG_MAX < pos then None
      else Some(s.(procs := s.procs[p := pr.(fPos := pos)], log := s.log + [Sought(p, pos)]))
    case (Configure(quantum, qset), Idle) =>
      if !ValidGeometry(quantum, qset) then None
      else Some(s.(quantum := quantum, qset := qset, log := s.log + [Configured(p, quantum, qset)]))
    case (Begin(call), Idle) =>
      if !MayBegin(call) then None
      else
        var pc := if call.TruncateCall? then Waiting(call, 0, 0) else Starting(call);
        Some(s.(procs := s.procs[p := pr.(pc := pc)]))
    case (Snapshot, Starting(call)) =>
      Some(s.(procs := s.procs[p := pr.(pc := HalfRead(call, s.store.quantum))]))
    case (Snapshot, HalfRead(call, q)) =>
      Some(s.(procs := s.procs[p := pr.(pc := Waiting(call, q, s.store.qset))]))
    case (Down, Waiting(call, q, n)) =>
      if s.sem <= 0 || !MayEnter(pr.fPos, call, q, n) then None
      else Some(s.(sem := s.sem - 1, holder := s.holder + {p}, order := s.order + [p],
                   procs := s.procs[p := pr.(pc := Inside(call, q, n, pr.fPos, Entered))]))
    case (Interrupt, Waiting(call, q, n)) =>
      Some(s.(procs := s.procs[p := pr.(pc := Idle)]))
    case (Body(choice), Inside(call, q, n, pos, _)) =>
      var l := BodyStep(s, pr, choice);
      if l.None? then None
      else Some(s.(store := l.value.store,
                   procs := s.procs[p := Proc(l.value.fPos, Inside(call, q, n, pos, l.value.stage))]))
    case (Up, Inside(call, _, _, _, Leaving(reply, luck, faulty))) =>
      Some(s.(sem := s.sem + 1, holder := s.holder - {p}, base := s.store,
              log := s.log + [Done(p, call, luck, faulty)], replies := s.replies + [(p, reply)],
              procs := s.procs[p := pr.(pc := Idle)]))
    case _ => None
  }

  // ----- the serial history

  /** A serial execution on the flat file: one process after the other, each with its own position. `quantum`
      is the global that the next truncation adopts. */
  datatype Serial = Serial(file: Flat, quantum: int, pos: map<Pid, int>, replies: seq<(Pid, Outcome)>)

  ghost predicate SerialValid(r: Serial) {
    Valid(r.file) && 0 < r.quantum && forall p <- r.pos :: 0 <= r.pos[p]
  }

  predicate SerialEnabled(r: Serial, e: Entry)
    requires 0 < r.file.quantum
  {
    && e.pid in r.pos
    && match e
       case Sought(_, pos) => 0 <= pos
       case Configured(_, quantum, qset) => ValidGeometry(quantum, qset)
       case Done(p, ReadCall(count), _, _) => 0 <= count
       case Done(p, WriteCall(data), luck, _) => 0 <= r.pos[p] && LuckFits(r.pos[p], |data|, r.file.quantum, luck)
       case Done(p, TruncateCall, _, _) => true
  }

  function Finish(r: Serial, p: Pid, file: Flat, reply: Outcome): Serial
    requires p in r.pos
  {
    Serial(file, r.quantum, r.pos[p := r.pos[p] + Max(0, reply.ret)], r.replies + [(p, reply)])
  }

  function SerialStep(r: Serial, e: Entry): Serial
    requires SerialValid(r) && SerialEnabled(r, e)
  {
    match e
    case Sought(p, pos) => r.(pos := r.pos[p := pos])
    case Configured(_, quantum, _) => r.(quantum := quantum)
    case Done(p, ReadCall(count), _, faulty) => Finish(r, p, r.file, Read(r.file, r.pos[p], count, faulty))
    case Done(p, WriteCall(data), luck, _) =>
      Finish(r, p, Write(r.file, r.pos[p], data, luck),
             Outcome(WriteRet(r.pos[p], |data|, r.file.quantum, luck), []))
    case Done(p, TruncateCall, _, _) => Finish(r, p, Trim(r.quantum), Outcome(0, []))
  }

  ghost predicate SerialRunnable(r: Serial, log: seq<Entry>)
    requires SerialValid(r)
    decreases |log|, 0
  {
    log == [] ||
    var n := |log| - 1;
    && SerialRunnable(r, log[..n])
    && SerialValid(SerialRun(r, log[..n]))
    && SerialEnabled(SerialRun(r, log[..n]), log[n])
  }

  ghost function SerialRun(r: Serial, log: seq<Entry>): Serial
    requires SerialValid(r) && SerialRunnable(r, log)
    decreases |log|, 1
  {
    if log == [] then r else SerialStep(SerialRun(r, log[..|log| - 1]), log[|log| - 1])
  }

  // ----- executions

  /** Whether an execution may contain truncations and resizing ioctls. */
  datatype Rules = Rules(truncate: bool, configure: bool)

  predicate Permits(rules: Rules, act: Action) {
    && (act.Begin? && act.newCall.TruncateCall? ==> rules.truncate)
    && (act.Configure? ==> rules.configure)
  }

  /** A device in any well-formed state and of any sizes, nobody inside, every process between calls. */
  ghost predicate Initial(s: State) {
    && ValidGeometry(s.quantum, s.qset) && WellFormed(s.store) && s.base == s.store
    && s.sem == 1 && s.holder == {} && s.log == [] && s.order == [] && s.replies == []
    && forall p <- s.procs :: s.procs[p].pc.Idle? && 0 <= s.procs[p].fPos
  }

  /** The state after the steps, if each of them could be taken. */
  function Exec(s: State, acts: seq<(Pid, Action)>): Option<State> {
    if acts == [] then Some(s) else
      var before, last := Exec(s, acts[..|acts| - 1]), acts[|acts| - 1];
      if before.None? || last.0 !in before.value.procs then None else Next(before.value, last.0, last.1)
  }

  predicate AllPermitted(rules: Rules, acts: seq<(Pid, Action)>) {
    forall a <- acts :: Permits(rules, a.1)
  }

  ghost predicate Reachable(rules: Rules, s0: State, s: State) {
    exists acts :: Exec(s0, acts) == Some(s) && AllPermitted(rules, acts)
  }

  lemma ReachSelf(rules: Rules, s: State)
    ensures Reachable(rules, s, s)
  {
    assert Exec(s, []) == Some(s) && AllPermitted(rules, []);
  }

  lemma ReachSnoc(rules: Rules, s0: State, s: State, p: Pid, act: Action, s': State)
    requires Reachable(rules, s0, s) && p in s.procs && Permits(rules, act) && Next(s, p, act) == Some(s')
    ensures Reachable(rules, s0, s')
  {
    hide Next, Permits;
    var acts :| Exec(s0, acts) == Some(s) && AllPermitted(rules, acts);
    var longer := acts + [(p, act)];
    assert longer[..|longer| - 1] == acts && longer[|longer| - 1] == (p, act);
    assert Exec(s0, longer) == Some(s') && AllPermitted(rules, longer);
  }
}
