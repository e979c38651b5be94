/** When the interleavings of the processes of `Concurrent` amount to a serial run on the flat file, in the
    order in which the semaphore was taken: if nothing truncates, if the device has the global sizes and no
    ioctl changes them, or if there is only one process. `Staleness` shows that otherwise some interleaving
    does not. */
module Serializability {
  import opened Geometry
  import opened FlatFile
  import opened Structure
  import opened Refinement
  import opened Concurrent
  import opened Sections
  import opened Wrappers

  // ----- the invariant

  predicate SameSizes(a: Store, b: Store) {
    a.quantum == b.quantum && a.qset == b.qset
  }

  /** Why no snapshot goes stale: nothing truncates, the sizes are fixed, or nobody else is there. */
  datatype Mode = Quiet | Fixed | Alone

  predicate Allows(mode: Mode, act: Action) {
    && (act.Begin? && act.newCall.TruncateCall? ==> !mode.Quiet?)
    && (act.Configure? ==> !mode.Fixed?)
  }

  ghost predicate Informed(s: State, mode: Mode, call: Call, q: int, n: int) {
    if call.TruncateCall? then !mode.Quiet? else q == s.base.quantum && n == s.base.qset
  }

  /** What a process knows: its snapshot, as far as taken, is the device geometry. */
  ghost predicate LocalOk(s: State, mode: Mode, pr: Proc) {
    && 0 <= pr.fPos
    && match pr.pc
       case Idle => true
       case Starting(call) => MayBegin(call) && !call.TruncateCall?
       case HalfRead(call, q) => MayBegin(call) && !call.TruncateCall? && q == s.base.quantum
       case Waiting(call, q, n) => MayBegin(call) && Informed(s, mode, call, q, n)
       case Inside(call, q, n, _, _) => MayBegin(call) && Informed(s, mode, call, q, n)
  }

  /** With several processes the sizes of the device do not change; if truncations are possible then, they are
      the global ones. */
  ghost predicate SameGeometry(s: State, mode: Mode) {
    && ValidGeometry(s.quantum, s.qset)
    && (!mode.Alone? ==> SameSizes(s.store, s.base))
    && (mode.Fixed? ==> s.quantum == s.base.quantum && s.qset == s.base.qset)
    && (mode.Alone? ==> forall p, p' | p in s.procs && p' in s.procs :: p == p')
  }

  /** A truncation has adopted the global sizes, as far as it has got. */
  ghost predicate Adopts(s: State, pc: Pc)
    requires pc.Inside?
  {
    pc.call.TruncateCall? ==>
      && (pc.stage.QuantumSet? || pc.stage.Leaving? ==> s.store.quantum == s.quantum)
      && (pc.stage.Leaving? ==> s.store.qset == s.qset)
  }

  ghost predicate DeviceOk(s: State) {
    WellFormed(s.base) && forall p <- s.procs | s.procs[p].pc.Inside? :: Adopts(s, s.procs[p].pc)
  }

  /** The position a process would have if its current call had not begun. */
  function Settled(pr: Proc): int {
    if pr.pc.Inside? then pr.pc.pos else pr.fPos
  }

  /** The device as of the last `up`, the settled positions and the replies are those of the serial run. */
  ghost predicate SerialOk(init: Serial, s: State)
    requires SerialValid(init) && Shaped(s.base)
  {
    && SerialRunnable(init, s.log)
    && var r := SerialRun(init, s.log);
       && r.file == Flatten(s.base)
       && r.quantum == s.quantum
       && r.replies == s.replies
       && r.pos.Keys == s.procs.Keys
       && forall p <- s.procs :: r.pos[p] == Settled(s.procs[p])
  }

  /** The processes of the calls in the log, in order. */
  function Callers(log: seq<Entry>): seq<Pid> {
    if log == [] then [] else
      var n := |log| - 1;
      Callers(log[..n]) + if log[n].Done? then [log[n].pid] else []
  }

  /** The log is in lock order: it lists the `down`s so far, but for the one still inside. */
  ghost predicate Ordered(s: State) {
    || (s.holder == {} && s.order == Callers(s.log))
    || (exists p :: s.holder == {p} && s.order == Callers(s.log) + [p])
  }

  /** The invariant of the interleavings that are serialisable. */
  ghost predicate Inv(init: Serial, mode: Mode, s: State)
    requires SerialValid(init)
  {
    && SameGeometry(s, mode) && Sound(s) && DeviceOk(s)
    && (forall p <- s.procs :: LocalOk(s, mode, s.procs[p]))
    && SerialOk(init, s) && Ordered(s)
  }

  // ----- the serial side

  lemma SerialSnoc(init: Serial, log: seq<Entry>, e: Entry)
    requires SerialValid(init) && SerialRunnable(init, log)
    requires SerialValid(SerialRun(init, log)) && SerialEnabled(SerialRun(init, log), e)
    ensures SerialRunnable(init, log + [e])
    ensures SerialRun(init, log + [e]) == SerialStep(SerialRun(init, log), e)
  {
    var longer := log + [e];
    assert longer[..|longer| - 1] == log && longer[|longer| - 1] == e;
  }

  lemma CallersSnoc(log: seq<Entry>, e: Entry)
    ensures Callers(log + [e]) == Callers(log) + if e.Done? then [e.pid] else []
  {
    var longer := log + [e];
    assert longer[..|longer| - 1] == log && longer[|longer| - 1] == e;
  }

  /** What the serial run makes of a finished call. */
  ghost predicate SerialMatch(r: Serial, p: Pid, pc: Pc, st: Store, fPos: int)
    requires SerialValid(r) && pc.Inside? && pc.stage.Leaving? && Shaped(st)
  {
    var e := Done(p, pc.call, pc.stage.luck, pc.stage.faulty);
    && SerialEnabled(r, e)
    && SerialStep(r, e) == Serial(Flatten(st), r.quantum, r.pos[p := fPos], r.replies + [(p, pc.stage.reply)])
  }

  /** A process that works with the sizes of `base`. */
  predicate OwnSizes(base: Store, pc: Pc)
    requires pc.Inside?
  {
    pc.q == base.quantum && pc.n == base.qset
  }

  lemma WriteCallRefines(base: Store, pc: Pc, st: Store, fPos: int, r: Serial, p: Pid)
    requires pc.Inside? && pc.stage.Leaving? && pc.call.WriteCall? && WellFormed(base) && OwnSizes(base, pc)
    requires Section(base, pc, st, fPos)
    requires SerialValid(r) && r.file == Flatten(base) && p in r.pos && r.pos[p] == pc.pos
    ensures WellFormed(st)
    ensures SerialMatch(r, p, pc, st, fPos)
  {
    hide InRange, Locate, Backed, CellAt, Write, Possible, PossibleWith, LuckFits, WriteRet, RetWith, WriteStore;
    hide WriteWith;
    WriteWithOwn(base, pc.pos, pc.call.data, pc.stage.luck);
    WriteRefines(base, pc.pos, pc.call.data, pc.stage.luck);
  }

  lemma ReadCallRefines(base: Store, pc: Pc, st: Store, fPos: int, r: Serial, p: Pid)
    requires pc.Inside? && pc.stage.Leaving? && pc.call.ReadCall? && WellFormed(base) && OwnSizes(base, pc)
    requires Section(base, pc, st, fPos) && 0 <= pc.call.count
    requires SerialValid(r) && r.file == Flatten(base) && p in r.pos && r.pos[p] == pc.pos
    ensures WellFormed(st)
    ensures SerialMatch(r, p, pc, st, fPos)
  {
    hide InRange, Locate, Backed, CellAt, Read, ReadStore, ReadsAs;
    ReadsAsOwn(base, pc.pos, pc.call.count, pc.stage.faulty, pc.stage.reply, st);
    ReadRefines(base, pc.pos, pc.call.count, pc.stage.faulty);
  }

  /** A call that has come to its end did to `base` what the serial run does in one step. */
  lemma CallRefines(s: State, pr: Proc, r: Serial, p: Pid)
    requires pr.pc.Inside? && pr.pc.stage.Leaving? && WellFormed(s.base) && Section(s.base, pr.pc, s.store, pr.fPos)
    requires MayBegin(pr.pc.call) && (pr.pc.call.TruncateCall? || OwnSizes(s.base, pr.pc)) && Adopts(s, pr.pc)
    requires SerialValid(r) && r.file == Flatten(s.base) && p in r.pos && r.pos[p] == pr.pc.pos
    requires ValidGeometry(s.quantum, s.qset) && r.quantum == s.quantum
    ensures WellFormed(s.store)
    ensures SerialMatch(r, p, pr.pc, s.store, pr.fPos)
  {
    hide InRange, Locate, Backed, CellAt, Read, ReadStore, Write, ReadMid, WriteMid;
    match pr.pc.call
    case ReadCall(count) => ReadCallRefines(s.base, pr.pc, s.store, pr.fPos, r, p);
    case WriteCall(data) => WriteCallRefines(s.base, pr.pc, s.store, pr.fPos, r, p);
    case TruncateCall => FreshRefines(s.quantum, s.qset);
  }

  // ----- every step keeps the invariant

  lemma SoundParts(s: State)
    requires Sound(s)
    ensures Exclusive(s) && (s.holder == {} ==> s.store == s.base)
    ensures forall p <- s.procs :: 0 <= s.procs[p].fPos
    ensures forall p <- s.procs | s.procs[p].pc.Inside? :: Section(s.base, s.procs[p].pc, s.store, s.procs[p].fPos)
  {
  }

  lemma DownKeeps(init: Serial, mode: Mode, s: State, p: Pid, s': State)
    requires SerialValid(init) && Inv(init, mode, s) && p in s.procs
    requires s.procs[p].pc.Waiting? && Next(s, p, Down) == Some(s')
    ensures Inv(init, mode, s')
  {
    hide Exclusive, Sound, Flatten, SerialRun, SerialRunnable, Callers, InRange, Locate;
    SoundParts(s);
    SoundDown(s, p, s');
    ExclusiveDown(s, p, s');
    assert s'.order == Callers(s'.log) + [p];
  }

  /** A read or a write in progress has not changed the sizes of the device. */
  lemma SectionSizes(base: Store, pc: Pc, st: Store, fPos: int)
    requires pc.Inside? && !pc.call.TruncateCall? && Section(base, pc, st, fPos)
    ensures SameSizes(st, base)
  {
    hide Locate, InRange, ValidGeometry;
  }

  /** A truncation adopts the global sizes. */
  lemma BodyAdopts(s: State, pr: Proc, choice: Choice)
    requires pr.pc.Inside? && pr.pc.call.TruncateCall? && TruncateMid(s.base, pr.pc.pos, pr.pc.stage, s.store, pr.fPos)
    requires Adopts(s, pr.pc) && BodyStep(s, pr, choice).Some?
    ensures var l := BodyStep(s, pr, choice).value;
            && Adopts(s.(store := l.store), pr.pc.(stage := l.stage))
            && (s.quantum == s.base.quantum && s.qset == s.base.qset && SameSizes(s.store, s.base) ==>
                  SameSizes(l.store, s.base))
  {
  }

  lemma SectionTruncates(base: Store, pc: Pc, st: Store, fPos: int)
    requires pc.Inside? && pc.call.TruncateCall? && Section(base, pc, st, fPos)
    ensures TruncateMid(base, pc.pos, pc.stage, st, fPos)
  {
  }

  lemma BodyKeeps(init: Serial, mode: Mode, s: State, p: Pid, choice: Choice, s': State)
    requires SerialValid(init) && Inv(init, mode, s) && p in s.procs
    requires s.procs[p].pc.Inside? && Next(s, p, Body(choice)) == Some(s')
    ensures Inv(init, mode, s')
  {
    hide BodyStep, Sound, Exclusive, Section, Flatten, SerialRun, SerialRunnable, Callers, MayBegin;
    SoundParts(s);
    SoundBody(s, p, choice, s');
    SoundParts(s');
    HolderAlone(s, p);
    var pr := s.procs[p];
    if pr.pc.call.TruncateCall? {
      SectionTruncates(s.base, pr.pc, s.store, pr.fPos);
      BodyAdopts(s, pr, choice);
    } else {
      SectionSizes(s.base, s'.procs[p].pc, s'.store, s'.procs[p].fPos);
    }
  }

  /** What the others know still holds once the holder has left: either the sizes are as before, or there are
      no others. */
  lemma UpLocal(s: State, mode: Mode, p: Pid, s': State)
    requires SameGeometry(s, mode) && p in s.procs && (forall q <- s.procs :: LocalOk(s, mode, s.procs[q]))
    requires s.procs[p].pc.Inside? && Next(s, p, Up) == Some(s') && ValidGeometry(s'.base.quantum, s'.base.qset)
    ensures SameGeometry(s', mode) && 0 <= s.procs[p].fPos
    ensures forall q <- s'.procs :: LocalOk(s', mode, s'.procs[q])
  {
    hide MayBegin, ValidGeometry;
  }

  lemma LocalInside(s: State, mode: Mode, pr: Proc)
    requires LocalOk(s, mode, pr) && pr.pc.Inside?
    ensures MayBegin(pr.pc.call) && (pr.pc.call.TruncateCall? || OwnSizes(s.base, pr.pc))
  {
  }

  lemma UpKeeps(init: Serial, mode: Mode, s: State, p: Pid, s': State)
    requires SerialValid(init) && Inv(init, mode, s) && SerialValid(SerialRun(init, s.log)) && p in s.procs
    requires s.procs[p].pc.Inside? && Next(s, p, Up) == Some(s')
    ensures Inv(init, mode, s') && SerialValid(SerialRun(init, s'.log))
  {
    hide InRange, Flatten, SerialRun, SerialRunnable, SerialStep, SerialEnabled, Callers, Exclusive;
    hide Sound, Section, LocalOk;
    SoundParts(s);
    SoundUp(s, p, s');
    HolderAlone(s, p);
    var pr, r := s.procs[p], SerialRun(init, s.log);
    var e := Done(p, pr.pc.call, pr.pc.stage.luck, pr.pc.stage.faulty);
    LocalInside(s, mode, pr);
    CallRefines(s, pr, r, p);
    SerialSnoc(init, s.log, e);
    CallersSnoc(s.log, e);
    FlattenValid(s.store);
    UpLocal(s, mode, p, s');
    assert s'.holder == {};
  }

  lemma SoundKept(s: State, p: Pid, pc: Pc)
    requires Sound(s) && p in s.procs && !s.procs[p].pc.Inside? && !pc.Inside?
    ensures Sound(s.(procs := s.procs[p := s.procs[p].(pc := pc)]))
    ensures forall q <- s.procs | q != p :: s.(procs := s.procs[p := s.procs[p].(pc := pc)]).procs[q] == s.procs[q]
  {
    hide Section;
  }

  /** A step outside the critical section that leaves the position alone. */
  lemma OutsideKeeps(init: Serial, mode: Mode, s: State, p: Pid, pc: Pc)
    requires SerialValid(init) && Inv(init, mode, s) && p in s.procs && !s.procs[p].pc.Inside? && !pc.Inside?
    requires LocalOk(s, mode, s.procs[p].(pc := pc))
    ensures Inv(init, mode, s.(procs := s.procs[p := s.procs[p].(pc := pc)]))
  {
    hide InRange, Flatten, SerialRun, SerialRunnable, SerialValid, Section, Exclusive, Sound, Callers, MayBegin;
    SoundKept(s, p, pc);
    var s' := s.(procs := s.procs[p := s.procs[p].(pc := pc)]);
    assert forall q <- s.procs :: LocalOk(s', mode, s'.procs[q]);
    assert SerialOk(init, s') && Ordered(s');
  }

  /** A process outside that reads the sizes reads those of the device as the last `up` left it. */
  lemma ReadsSizes(s: State, mode: Mode, p: Pid)
    requires SameGeometry(s, mode) && Sound(s) && p in s.procs && !s.procs[p].pc.Inside?
    ensures SameSizes(s.store, s.base)
  {
    hide Section, ValidGeometry;
    assert mode.Alone? ==> s.holder == {};
  }

  lemma QuietKeeps(init: Serial, mode: Mode, s: State, p: Pid, act: Action, s': State)
    requires SerialValid(init) && Inv(init, mode, s) && p in s.procs
    requires act.Begin? || act.Snapshot? || act.Interrupt?
    requires Allows(mode, act) && Next(s, p, act) == Some(s')
    ensures Inv(init, mode, s') && s'.log == s.log
  {
    hide SerialOk, Ordered, DeviceOk, SerialValid, InRange, SameGeometry, Sound;
    ReadsSizes(s, mode, p);
    OutsideKeeps(init, mode, s, p, s'.procs[p].pc);
  }

  lemma SeekKeeps(init: Serial, mode: Mode, s: State, p: Pid, pos: int, s': State)
    requires SerialValid(init) && Inv(init, mode, s) && SerialValid(SerialRun(init, s.log)) && p in s.procs
    requires Next(s, p, Seek(pos)) == Some(s')
    ensures Inv(init, mode, s') && SerialValid(SerialRun(init, s'.log))
  {
    hide InRange, Flatten, SerialRun, SerialRunnable, Sound, Callers, MayBegin;
    SoundStep(s, p, Seek(pos), s');
    SerialSnoc(init, s.log, Sought(p, pos));
    CallersSnoc(s.log, Sought(p, pos));
  }

  lemma NobodyElse(s: State, mode: Mode, p: Pid)
    requires SameGeometry(s, mode) && p in s.procs && !s.procs[p].pc.Inside?
    ensures mode.Alone? ==> forall q <- s.procs :: !s.procs[q].pc.Inside?
  {
    hide ValidGeometry;
  }

  lemma ConfigureKeeps(init: Serial, mode: Mode, s: State, p: Pid, quantum: int, qset: int, s': State)
    requires SerialValid(init) && Inv(init, mode, s) && SerialValid(SerialRun(init, s.log)) && p in s.procs
    requires !mode.Fixed? && Next(s, p, Configure(quantum, qset)) == Some(s')
    ensures Inv(init, mode, s') && SerialValid(SerialRun(init, s'.log))
  {
    hide InRange, Flatten, SerialRun, SerialRunnable, Sound, Callers, MayBegin;
    SoundParts(s);
    NobodyElse(s, mode, p);
    SoundStep(s, p, Configure(quantum, qset), s');
    SerialSnoc(init, s.log, Configured(p, quantum, qset));
    CallersSnoc(s.log, Configured(p, quantum, qset));
  }

  /** The invariant of the interleavings: of those without truncations under any ioctls, of those with
      truncations as long as the sizes stay what they are, of those of a single process in any case. */
  lemma StepKeeps(init: Serial, mode: Mode, s: State, p: Pid, act: Action, s': State)
    requires SerialValid(init) && Inv(init, mode, s) && SerialValid(SerialRun(init, s.log)) && p in s.procs
    requires Next(s, p, act) == Some(s') && Allows(mode, act)
    ensures Inv(init, mode, s') && SerialValid(SerialRun(init, s'.log)) && s'.procs.Keys == s.procs.Keys
  {
    hide Inv;
    match act
    case Seek(pos) => SeekKeeps(init, mode, s, p, pos, s');
    case Configure(quantum, qset) => ConfigureKeeps(init, mode, s, p, quantum, qset, s');
    case Down => DownKeeps(init, mode, s, p, s');
    case Body(choice) => BodyKeeps(init, mode, s, p, choice, s');
    case Up => UpKeeps(init, mode, s, p, s');
    case _ => QuietKeeps(init, mode, s, p, act, s');
  }

  // ----- serialisable executions

  function SerialStart(s: State): Serial
    requires Shaped(s.store)
  {
    Serial(Flatten(s.store), s.quantum, map p | p in s.procs :: s.procs[p].fPos, [])
  }

  predicate FixedSizes(rules: Rules, s0: State) {
    !rules.configure && s0.store.quantum == s0.quantum && s0.store.qset == s0.qset
  }

  /** Nothing truncates; or the device has the global sizes and no ioctl changes them; or there is at most one
      process. */
  predicate Steady(rules: Rules, s0: State) {
    !rules.truncate || FixedSizes(rules, s0) || |s0.procs| <= 1
  }

  function ModeOf(rules: Rules, s0: State): Mode {
    if !rules.truncate then Quiet else if FixedSizes(rules, s0) then Fixed else Alone
  }

  lemma Single(s: State, p: Pid, p': Pid)
    requires |s.procs| <= 1 && p in s.procs && p' in s.procs
    ensures p == p'
  {
    var others := s.procs.Keys - {p};
    assert |others| == |s.procs.Keys| - 1;
    assert p' != p ==> p' in others;
  }

  lemma InitialInv(rules: Rules, s: State)
    requires Initial(s) && Steady(rules, s)
    ensures SerialValid(SerialStart(s)) && Inv(SerialStart(s), ModeOf(rules, s), s)
    ensures SerialRun(SerialStart(s), s.log) == SerialStart(s)
  {
    FlattenValid(s.store);
    if |s.procs| <= 1 {
      forall p, p' | p in s.procs && p' in s.procs
        ensures p == p'
      {
        Single(s, p, p');
      }
    }
  }

  lemma {:induction false} ExecInv(rules: Rules, s0: State, acts: seq<(Pid, Action)>, s: State)
    requires Initial(s0) && Steady(rules, s0) && AllPermitted(rules, acts) && Exec(s0, acts) == Some(s)
    ensures SerialValid(SerialStart(s0)) && Inv(SerialStart(s0), ModeOf(rules, s0), s)
    ensures SerialValid(SerialRun(SerialStart(s0), s.log)) && s.procs.Keys == s0.procs.Keys
  {
    hide Inv, SerialRun, SerialValid, Next;
    InitialInv(rules, s0);
    if acts != [] {
      var n := |acts| - 1;
      var before := Exec(s0, acts[..n]).value;
      ExecInv(rules, s0, acts[..n], before);
      StepKeeps(SerialStart(s0), ModeOf(rules, s0), before, acts[n].0, acts[n].1, s);
    }
  }

  lemma ReachableInv(rules: Rules, s0: State, s: State)
    requires Initial(s0) && Steady(rules, s0) && Reachable(rules, s0, s)
    ensures SerialValid(SerialStart(s0)) && Inv(SerialStart(s0), ModeOf(rules, s0), s)
    ensures SerialValid(SerialRun(SerialStart(s0), s.log)) && s.procs.Keys == s0.procs.Keys
  {
    hide Inv, SerialRun, SerialValid, Steady, Initial;
    var acts :| Exec(s0, acts) == Some(s) && AllPermitted(rules, acts);
    ExecInv(rules, s0, acts, s);
  }

  /** The geometry that a process read before it took the semaphore is the device's when it is used. */
  lemma SnapshotsHold(rules: Rules, s0: State, s: State, p: Pid)
    requires Initial(s0) && Steady(rules, s0) && Reachable(rules, s0, s) && p in s.procs
    ensures var pc := s.procs[p].pc;
            && (pc.Inside? && !pc.call.TruncateCall? ==> pc.q == s.store.quantum && pc.n == s.store.qset)
            && (rules.truncate && FixedSizes(rules, s0) ==> s.store.quantum == s.quantum && s.store.qset == s.qset)
  {
    hide SerialOk, Ordered, Exclusive, Section, Steady, Initial;
    ReachableInv(rules, s0, s);
    if s.procs[p].pc.Inside? && !s.procs[p].pc.call.TruncateCall? {
      SectionSizes(s.base, s.procs[p].pc, s.store, s.procs[p].fPos);
    }
  }

  /** Serialisability. After any number of steps, the calls that have left the critical section returned
      what the serial run of the log returns, and the log is in the order in which the semaphore was
      taken. Whenever nobody is inside, device and positions are those of the serial run as well. */
  lemma Serialisable(rules: Rules, s0: State, s: State)
    requires Initial(s0) && Steady(rules, s0) && Reachable(rules, s0, s)
    ensures SerialValid(SerialStart(s0))
    ensures var init := SerialStart(s0);
            && SerialRunnable(init, s.log)
            && SerialRun(init, s.log).replies == s.replies
            && Callers(s.log) <= s.order
            && ((forall p <- s.procs :: !s.procs[p].pc.Inside?) ==>
                  && s.order == Callers(s.log)
                  && WellFormed(s.store)
                  && SerialRun(init, s.log).file == Flatten(s.store)
                  && SerialRun(init, s.log).pos == map p | p in s.procs :: s.procs[p].fPos)
  {
    hide Flatten, SerialRun, SerialRunnable, Section, LocalOk, Callers;
    ReachableInv(rules, s0, s);
    if forall p <- s.procs :: !s.procs[p].pc.Inside? {
      assert s.holder == {};
    }
  }

  lemma WriteGoesOn(base: Store, pos: int, data: seq<byte>, stage: Stage, st: Store, fPos: int)
    requires WellFormed(base) && InRange(pos, base.quantum, base.qset) && 0 <= fPos
    requires WriteMid(base, base.quantum, base.qset, pos, data, stage, st, fPos) && !stage.Leaving?
    ensures WriteBody(st, base.quantum, base.qset, fPos, data, stage, Ok).Some?
  {
    hide Locate;
    LocateRebuilds(pos, base.quantum, base.qset);
  }

  lemma ReadGoesOn(base: Store, pos: int, count: int, stage: Stage, st: Store, fPos: int)
    requires WellFormed(base) && 0 <= pos && 0 <= count && 0 <= fPos
    requires ReadMid(base, base.quantum, base.qset, pos, count, stage, st, fPos) && !stage.Leaving?
    ensures ReadBody(st, base.quantum, base.qset, fPos, count, stage, Ok).Some?
  {
    if pos < base.size {
      BelowSizeInRange(base, pos);
      LocateRebuilds(pos, base.quantum, base.qset);
    }
  }

  /** A process inside is never stuck: it can take its next step, or it is at the end and can leave. */
  lemma CanGoOn(rules: Rules, s0: State, s: State, p: Pid)
    requires Initial(s0) && Steady(rules, s0) && Reachable(rules, s0, s) && p in s.procs && s.procs[p].pc.Inside?
    ensures Next(s, p, if s.procs[p].pc.stage.Leaving? then Up else Body(Ok)).Some?
  {
    hide SerialOk, Ordered, WriteMid, ReadMid, WriteBody, ReadBody, InRange, Steady, Initial;
    ReachableInv(rules, s0, s);
    var pr := s.procs[p];
    var pc := pr.pc;
    if pc.stage.Leaving? {
      return;
    }
    match pc.call
    case WriteCall(data) => WriteGoesOn(s.base, pc.pos, data, pc.stage, s.store, pr.fPos);
    case ReadCall(count) => ReadGoesOn(s.base, pc.pos, count, pc.stage, s.store, pr.fPos);
    case TruncateCall =>
  }
}
