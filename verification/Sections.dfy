/** What the process between `down` and `up` does, whatever sizes it works with: each of its steps is a step of
    the one read, write or truncation that its call amounts to, in every execution. */
module Sections {
  import opened Geometry
  import opened FlatFile
  import opened Structure
  import opened Concurrent
  import opened Wrappers

  // ----- half-way through a call

  /** Half-way through a write that works with the sizes `q` and `n`: a partial `WriteWith` of `base`. */
  ghost predicate WriteMid(base: Store, q: int, n: int, pos: int, data: seq<byte>, stage: Stage, st: Store, fPos: int)
    requires ValidGeometry(q, n) && 0 <= pos
  {
    var a, k := Locate(pos, q, n), Room(Locate(pos, q, n), q, |data|);
    match stage
    case Entered => st == base && fPos == pos
    case Following(b) =>
      && b == a && fPos == pos
      && base.len <= st.len <= Max(base.len, a.item + 1) && st == base.(len := st.len)
    case Slotting(b) => b == a && fPos == pos && 0 <= a.item && st == Reach(base, a.item)
    case Backing(b) =>
      && b == a && fPos == pos && 0 <= a.item && SlotThere(base, a, n)
      && st == WithSlots(Reach(base, a.item), a.item)
    case Copying(b, fill) =>
      && b == a && fPos == pos && 0 <= a.item && SlotThere(base, a, n)
      && (if At(a) in base.blocks then fill == base.blocks[At(a)] else |fill| == q)
      && st == Prepared(base, a, fill)
    case Advancing(reply, luck) =>
      && luck.Copied? && PossibleWith(base, q, n, pos, |data|, luck)
      && fPos == pos && reply == Outcome(k, [])
      && st == Poke(Prepared(base, a, luck.fill), At(a), a.qPos, data[..k])
    case Raising(reply, luck) =>
      && luck.Copied? && PossibleWith(base, q, n, pos, |data|, luck)
      && fPos == pos + k && reply == Outcome(k, [])
      && st == Poke(Prepared(base, a, luck.fill), At(a), a.qPos, data[..k])
    case Leaving(reply, luck, faulty) =>
      && PossibleWith(base, q, n, pos, |data|, luck) && !faulty
      && st == WriteWith(base, q, n, pos, data, luck)
      && reply == Outcome(RetWith(q, n, pos, |data|, luck), [])
      && fPos == pos + Max(0, reply.ret)
    case _ => false
  }

  /** Half-way through a read that works with the sizes `q` and `n`: at most, the list has grown. */
  ghost predicate ReadMid(base: Store, q: int, n: int, pos: int, count: int, stage: Stage, st: Store, fPos: int)
    requires ValidGeometry(q, n) && 0 <= pos
  {
    var a := Locate(pos, q, n);
    match stage
    case Entered => st == base && fPos == pos
    case Following(b) =>
      && b == a && fPos == pos < base.size
      && base.len <= st.len <= Max(base.len, a.item + 1) && st == base.(len := st.len)
    case Slotting(b) => b == a && fPos == pos < base.size && 0 <= a.item && st == Reach(base, a.item)
    case Backing(b) =>
      && b == a && fPos == pos < base.size && 0 <= a.item && st == Reach(base, a.item)
      && a.item in base.slots && a.sPos < base.qset && At(a) in base.blocks
    case Advancing(reply, _) =>
      fPos == pos && 0 <= reply.ret && ReadsAs(base, q, n, pos, count, false, reply, st)
    case Leaving(reply, luck, faulty) =>
      && ReadsAs(base, q, n, pos, count, faulty, reply, st)
      && fPos == pos + Max(0, reply.ret) && luck == NO_LUCK
    case _ => false
  }

  /** Half-way through a truncation. The two sizes are the global ones of the moments when they are set. */
  ghost predicate TruncateMid(base: Store, pos: int, stage: Stage, st: Store, fPos: int) {
    && fPos == pos
    && match stage
       case Entered => st == base
       case Freed => st == base.(len := 0, slots := {}, blocks := map[])
       case SizeReset => st == Fresh(base.quantum, base.qset)
       case QuantumSet => st == Fresh(st.quantum, base.qset)
       case Leaving(reply, _, _) => st == Fresh(st.quantum, st.qset) && reply == Outcome(0, [])
       case _ => false
  }

  /** A step of a write in progress is a step of the same write. */
  lemma WriteBodyMid(base: Store, q: int, n: int, pos: int, data: seq<byte>, stage: Stage, st: Store, fPos: int,
                     choice: Choice, l: Local)
    requires ValidGeometry(q, n) && 0 <= pos && 0 <= fPos
    requires WriteMid(base, q, n, pos, data, stage, st, fPos)
    requires WriteBody(st, q, n, fPos, data, stage, choice) == Some(l)
    ensures WriteMid(base, q, n, pos, data, l.stage, l.store, l.fPos) && 0 <= l.fPos
  {
    hide Locate, ValidGeometry;
  }

  /** A step of a read in progress is a step of the same read. */
  lemma ReadBodyMid(base: Store, q: int, n: int, pos: int, count: int, stage: Stage, st: Store, fPos: int,
                    choice: Choice, l: Local)
    requires ValidGeometry(q, n) && 0 <= pos && 0 <= fPos
    requires ReadMid(base, q, n, pos, count, stage, st, fPos)
    requires ReadBody(st, q, n, fPos, count, stage, choice) == Some(l)
    ensures ReadMid(base, q, n, pos, count, l.stage, l.store, l.fPos) && 0 <= l.fPos
  {
    hide Locate, ValidGeometry;
  }

  lemma TruncateBodyMid(base: Store, quantum: int, qset: int, pos: int, stage: Stage, st: Store, fPos: int, l: Local)
    requires TruncateMid(base, pos, stage, st, fPos)
    requires TruncateBody(st, quantum, qset, fPos, stage) == Some(l)
    ensures TruncateMid(base, pos, l.stage, l.store, l.fPos)
  {
  }

  // ----- exclusion

  /** The semaphore counts the free place, and the processes inside are those on record. */
  ghost predicate Exclusive(s: State) {
    && s.sem + |s.holder| == 1 && 0 <= s.sem
    && s.holder <= s.procs.Keys
    && (forall p <- s.procs :: s.procs[p].pc.Inside? <==> p in s.holder)
    && forall p <- s.procs | s.procs[p].pc.Inside? && s.procs[p].pc.stage.Entered? ::
         s.procs[p].fPos == s.procs[p].pc.pos
  }

  lemma HolderAlone(s: State, p: Pid)
    requires Exclusive(s) && p in s.procs && s.procs[p].pc.Inside?
    ensures s.holder == {p} && s.sem == 0
    ensures forall q <- s.procs :: s.procs[q].pc.Inside? ==> q == p
    ensures s.procs[p].pc.stage.Entered? ==> s.procs[p].fPos == s.procs[p].pc.pos
  {
    assert {p} <= s.holder && |s.holder - {p}| == |s.holder| - 1;
    assert forall q <- s.holder :: q != p ==> q in s.holder - {p};
  }

  /** No process is back at the start of its critical section. */
  lemma BodyAdvances(s: State, pr: Proc, choice: Choice)
    requires pr.pc.Inside? && BodyStep(s, pr, choice).Some?
    ensures !BodyStep(s, pr, choice).value.stage.Entered?
  {
    hide Locate, Poke, Patch, InRange;
  }

  lemma ExclusiveBody(s: State, p: Pid, choice: Choice, s': State)
    requires Exclusive(s) && p in s.procs && Next(s, p, Body(choice)) == Some(s')
    ensures Exclusive(s')
  {
    hide BodyStep;
    BodyAdvances(s, s.procs[p], choice);
  }

  lemma ExclusiveUp(s: State, p: Pid, s': State)
    requires Exclusive(s) && p in s.procs && Next(s, p, Up) == Some(s')
    ensures Exclusive(s')
  {
    HolderAlone(s, p);
  }

  lemma ExclusiveDown(s: State, p: Pid, s': State)
    requires Exclusive(s) && p in s.procs && Next(s, p, Down) == Some(s')
    ensures Exclusive(s') && s.holder == {} && s'.holder == {p}
  {
    hide MayEnter;
  }

  lemma ExclusiveOutside(s: State, p: Pid, act: Action, s': State)
    requires Exclusive(s) && p in s.procs && Next(s, p, act) == Some(s') && !act.Body? && !act.Up? && !act.Down?
    ensures Exclusive(s')
  {
    hide MayBegin, ValidGeometry, BodyStep, MayEnter;
  }

  /** No step whatever lets a second process in. */
  lemma ExclusiveStep(s: State, p: Pid, act: Action, s': State)
    requires Exclusive(s) && p in s.procs && Next(s, p, act) == Some(s')
    ensures Exclusive(s')
  {
    hide Exclusive, Next;
    match act
    case Body(choice) => ExclusiveBody(s, p, choice, s');
    case Up => ExclusiveUp(s, p, s');
    case Down => ExclusiveDown(s, p, s');
    case _ => ExclusiveOutside(s, p, act, s');
  }

  lemma InitialExclusive(s0: State)
    requires Initial(s0)
    ensures Exclusive(s0)
  {
  }

  lemma {:induction false} ExecExclusive(s0: State, acts: seq<(Pid, Action)>, s: State)
    requires Initial(s0) && Exec(s0, acts) == Some(s)
    ensures Exclusive(s)
  {
    hide Next, Exclusive;
    if acts == [] {
      InitialExclusive(s0);
    } else {
      var n := |acts| - 1;
      var before := Exec(s0, acts[..n]).value;
      ExecExclusive(s0, acts[..n], before);
      ExclusiveStep(before, acts[n].0, acts[n].1, s);
    }
  }

  lemma ReachableExclusive(rules: Rules, s0: State, s: State)
    requires Initial(s0) && Reachable(rules, s0, s)
    ensures Exclusive(s)
  {
    var acts :| Exec(s0, acts) == Some(s) && AllPermitted(rules, acts);
    ExecExclusive(s0, acts, s);
  }

  /** At most one process is inside, and the semaphore says so; no step of another process then changes the
      device or the process inside. */
  lemma MutualExclusion(rules: Rules, s0: State, s: State, p: Pid, p': Pid)
    requires Initial(s0) && Reachable(rules, s0, s) && p in s.procs && p' in s.procs
    requires s.procs[p].pc.Inside? && p != p'
    ensures s.sem == 0 && !s.procs[p'].pc.Inside?
    ensures forall act | Next(s, p', act).Some? ::
              var s' := Next(s, p', act).value;
              s'.store == s.store && p in s'.procs && s'.procs[p] == s.procs[p]
  {
    hide BodyStep;
    ReachableExclusive(rules, s0, s);
    HolderAlone(s, p);
  }

  /** A process that waits for the semaphore can do two things. It can give up at any time, which leaves nothing
      behind but itself between calls; and it can go in exactly if nobody is inside, if it may enter at all. */
  lemma AtTheSemaphore(rules: Rules, s0: State, s: State, p: Pid, act: Action)
    requires Initial(s0) && Reachable(rules, s0, s) && p in s.procs && s.procs[p].pc.Waiting?
    ensures var fPos, pc := s.procs[p].fPos, s.procs[p].pc;
            && (Next(s, p, act).Some?
                <==> || act.Interrupt?
                     || (act.Down? && MayEnter(fPos, pc.call, pc.q, pc.n)
                         && forall p' <- s.procs :: !s.procs[p'].pc.Inside?))
            && Next(s, p, Interrupt) == Some(s.(procs := s.procs[p := Proc(fPos, Idle)]))
            && (act.Down? && Next(s, p, act).Some? ==>
                  Next(s, p, act).value.procs[p] == Proc(fPos, Inside(pc.call, pc.q, pc.n, fPos, Entered)))
  {
    hide MayEnter;
    ReachableExclusive(rules, s0, s);
    if s.sem <= 0 {
      assert s.holder != {};
      var p' :| p' in s.holder;
      assert s.procs[p'].pc.Inside?;
    } else {
      assert s.holder == {};
    }
  }

  // ----- every call, in every execution

  /** The process inside is half-way through its call, with the sizes it has read. */
  ghost predicate Section(base: Store, pc: Pc, st: Store, fPos: int)
    requires pc.Inside?
  {
    && 0 <= pc.pos && 0 <= fPos && MayEnter(pc.pos, pc.call, pc.q, pc.n)
    && match pc.call
       case TruncateCall => TruncateMid(base, pc.pos, pc.stage, st, fPos)
       case ReadCall(count) =>
         if ValidGeometry(pc.q, pc.n) then ReadMid(base, pc.q, pc.n, pc.pos, count, pc.stage, st, fPos)
         else pc.stage.Entered? && st == base && fPos == pc.pos
       case WriteCall(data) =>
         if ValidGeometry(pc.q, pc.n) then WriteMid(base, pc.q, pc.n, pc.pos, data, pc.stage, st, fPos)
         else pc.stage.Entered? && st == base && fPos == pc.pos
  }

  /** `base` is the device as the last `up` left it, and only the process inside has changed it since. */
  ghost predicate Sound(s: State) {
    && Exclusive(s)
    && (s.holder == {} ==> s.store == s.base)
    && (forall p <- s.procs :: 0 <= s.procs[p].fPos)
    && (forall p <- s.procs | s.procs[p].pc.Inside? :: Section(s.base, s.procs[p].pc, s.store, s.procs[p].fPos))
  }

  lemma TruncateStays(base: Store, pos: int, stage: Stage, st: Store, fPos: int)
    requires TruncateMid(base, pos, stage, st, fPos)
    ensures fPos == pos
  {
  }

  lemma SectionStep(base: Store, s: State, pr: Proc, choice: Choice)
    requires pr.pc.Inside? && Section(base, pr.pc, s.store, pr.fPos) && BodyStep(s, pr, choice).Some?
    ensures var l := BodyStep(s, pr, choice).value;
            Section(base, pr.pc.(stage := l.stage), l.store, l.fPos)
  {
    hide ReadMid, WriteMid, TruncateMid, ReadBody, WriteBody, TruncateBody, ValidGeometry, MayEnter;
    var pc, l := pr.pc, BodyStep(s, pr, choice).value;
    match pc.call
    case ReadCall(count) => ReadBodyMid(base, pc.q, pc.n, pc.pos, count, pc.stage, s.store, pr.fPos, choice, l);
    case WriteCall(data) => WriteBodyMid(base, pc.q, pc.n, pc.pos, data, pc.stage, s.store, pr.fPos, choice, l);
    case TruncateCall =>
      TruncateBodyMid(base, s.quantum, s.qset, pc.pos, pc.stage, s.store, pr.fPos, l);
      TruncateStays(base, pc.pos, l.stage, l.store, l.fPos);
  }

  lemma SectionAt(base: Store, pc: Pc, st: Store, fPos: int)
    requires pc.Inside? && Section(base, pc, st, fPos)
    ensures 0 <= fPos
  {
  }

  lemma SoundBody(s: State, p: Pid, choice: Choice, s': State)
    requires Sound(s) && p in s.procs && Next(s, p, Body(choice)) == Some(s')
    ensures Sound(s')
  {
    hide BodyStep, Section, Exclusive;
    ExclusiveBody(s, p, choice, s');
    HolderAlone(s, p);
    SectionStep(s.base, s, s.procs[p], choice);
    SectionAt(s.base, s.procs[p].pc.(stage := BodyStep(s, s.procs[p], choice).value.stage), s'.store, s'.procs[p].fPos);
  }

  lemma SoundUp(s: State, p: Pid, s': State)
    requires Sound(s) && p in s.procs && Next(s, p, Up) == Some(s')
    ensures Sound(s')
  {
    hide Section, Exclusive;
    ExclusiveUp(s, p, s');
    HolderAlone(s, p);
    assert forall q <- s'.procs :: !s'.procs[q].pc.Inside?;
  }

  lemma OnlyHolders(s: State)
    requires Exclusive(s)
    ensures forall p <- s.procs :: s.procs[p].pc.Inside? <==> p in s.holder
  {
  }

  lemma SoundDown(s: State, p: Pid, s': State)
    requires Sound(s) && p in s.procs && Next(s, p, Down) == Some(s')
    ensures Sound(s')
  {
    hide Exclusive, MayEnter, ValidGeometry;
    ExclusiveDown(s, p, s');
    OnlyHolders(s);
  }

  lemma SoundOutside(s: State, p: Pid, act: Action, s': State)
    requires Sound(s) && p in s.procs && Next(s, p, act) == Some(s') && !act.Body? && !act.Up? && !act.Down?
    ensures Sound(s')
  {
    hide Section, Exclusive, MayBegin, ValidGeometry, BodyStep, MayEnter;
    ExclusiveOutside(s, p, act, s');
  }

  lemma SoundStep(s: State, p: Pid, act: Action, s': State)
    requires Sound(s) && p in s.procs && Next(s, p, act) == Some(s')
    ensures Sound(s')
  {
    hide Sound, Next;
    match act
    case Body(choice) => SoundBody(s, p, choice, s');
    case Up => SoundUp(s, p, s');
    case Down => SoundDown(s, p, s');
    case _ => SoundOutside(s, p, act, s');
  }

  lemma InitialSound(s0: State)
    requires Initial(s0)
    ensures Sound(s0)
  {
  }

  lemma {:induction false} ExecSound(s0: State, acts: seq<(Pid, Action)>, s: State)
    requires Initial(s0) && Exec(s0, acts) == Some(s)
    ensures Sound(s)
  {
    hide Next, Sound;
    if acts == [] {
      InitialSound(s0);
    } else {
      var n := |acts| - 1;
      var before := Exec(s0, acts[..n]).value;
      ExecSound(s0, acts[..n], before);
      SoundStep(before, acts[n].0, acts[n].1, s);
    }
  }

  lemma ReachableSound(rules: Rules, s0: State, s: State)
    requires Initial(s0) && Reachable(rules, s0, s)
    ensures Sound(s)
  {
    var acts :| Exec(s0, acts) == Some(s) && AllPermitted(rules, acts);
    ExecSound(s0, acts, s);
  }

  /** Whatever the sizes, in every execution: a write that is about to leave has done to the device, as the last
      `up` left it, what a write with the sizes it has read does, and returns what that returns. */
  lemma EveryWrite(rules: Rules, s0: State, s: State, p: Pid)
    requires Initial(s0) && Reachable(rules, s0, s) && p in s.procs
    requires s.procs[p].pc.Inside? && s.procs[p].pc.call.WriteCall? && s.procs[p].pc.stage.Leaving?
    ensures var pc := s.procs[p].pc;
            var data, luck := pc.call.data, pc.stage.luck;
            && ValidGeometry(pc.q, pc.n) && InRange(pc.pos, pc.q, pc.n)
            && PossibleWith(s.base, pc.q, pc.n, pc.pos, |data|, luck)
            && s.store == WriteWith(s.base, pc.q, pc.n, pc.pos, data, luck)
            && pc.stage.reply == Outcome(RetWith(pc.q, pc.n, pc.pos, |data|, luck), [])
            && s.procs[p].fPos == pc.pos + Max(0, pc.stage.reply.ret)
  {
    hide Exclusive, WriteWith, PossibleWith, RetWith, InRange, ValidGeometry;
    ReachableSound(rules, s0, s);
  }

  /** A read likewise; and a truncation leaves nothing. */
  lemma EveryRead(rules: Rules, s0: State, s: State, p: Pid)
    requires Initial(s0) && Reachable(rules, s0, s) && p in s.procs
    requires s.procs[p].pc.Inside? && s.procs[p].pc.call.ReadCall? && s.procs[p].pc.stage.Leaving?
    ensures var pc := s.procs[p].pc;
            && ValidGeometry(pc.q, pc.n) && 0 <= pc.pos
            && ReadsAs(s.base, pc.q, pc.n, pc.pos, pc.call.count, pc.stage.faulty, pc.stage.reply, s.store)
            && s.procs[p].fPos == pc.pos + Max(0, pc.stage.reply.ret)
  {
    hide Exclusive, ReadsAs, InRange, ValidGeometry;
    ReachableSound(rules, s0, s);
  }

  lemma EveryTruncation(rules: Rules, s0: State, s: State, p: Pid)
    requires Initial(s0) && Reachable(rules, s0, s) && p in s.procs
    requires s.procs[p].pc.Inside? && s.procs[p].pc.call.TruncateCall? && s.procs[p].pc.stage.Leaving?
    ensures s.store == Fresh(s.store.quantum, s.store.qset) && s.procs[p].pc.stage.reply == Outcome(0, [])
    ensures s.procs[p].fPos == s.procs[p].pc.pos
  {
    hide Exclusive;
    ReachableSound(rules, s0, s);
  }

  // ----- the critical section always ends

  /** How many steps are left before `up`, at most. */
  function Rank(st: Store, pc: Pc): int
    requires pc.Inside?
  {
    match pc.stage
    case Entered =>
      if pc.call.TruncateCall? || !ValidGeometry(pc.q, pc.n) || pc.pos < 0 then 10
      else 10 + Max(0, Locate(pc.pos, pc.q, pc.n).item + 1 - st.len)
    case Following(a) => 9 + Max(0, a.item + 1 - st.len)
    case Slotting(_) => 8
    case Backing(_) => 7
    case Copying(_, _) => 6
    case Advancing(_, _) => 5
    case Raising(_, _) => 4
    case Freed => 3
    case SizeReset => 2
    case QuantumSet => 1
    case Leaving(_, _, _) => 0
  }

  lemma LeavingRank(st: Store, pc: Pc)
    requires pc.Inside?
    ensures pc.stage.Leaving? ==> Rank(st, pc) == 0
  {
  }

  lemma BodyRank(s: State, pr: Proc, choice: Choice)
    requires pr.pc.Inside? && BodyStep(s, pr, choice).Some? && (pr.pc.stage.Entered? ==> pr.fPos == pr.pc.pos)
    ensures var l := BodyStep(s, pr, choice).value;
            0 <= Rank(l.store, pr.pc.(stage := l.stage)) < Rank(s.store, pr.pc)
  {
    hide Locate, Poke, Patch;
  }

  /** Whatever the sizes: each step of the process inside brings it closer to `up`, no other step takes it
      outside, and `up` frees the semaphore. As the others do not touch the device (`MutualExclusion`), every
      path after a successful `down` releases it. */
  lemma CriticalSectionEnds(rules: Rules, s0: State, s: State, p: Pid, act: Action)
    requires Initial(s0) && Reachable(rules, s0, s) && p in s.procs && s.procs[p].pc.Inside?
    requires Next(s, p, act).Some?
    ensures var s', before := Next(s, p, act).value, Rank(s.store, s.procs[p].pc);
            if act.Up? then before == 0 && s'.sem == 1 && s'.procs[p].pc.Idle?
            else s'.procs[p].pc.Inside? && s'.sem == 0 && 0 <= Rank(s'.store, s'.procs[p].pc) < before
  {
    hide Exclusive, WriteBody, ReadBody, Rank, InRange, Initial;
    ReachableExclusive(rules, s0, s);
    HolderAlone(s, p);
    var pr := s.procs[p];
    if act.Body? {
      BodyRank(s, pr, act.choice);
    } else {
      LeavingRank(s.store, pr.pc);
    }
  }
}
