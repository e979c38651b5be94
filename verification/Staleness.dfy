/** Exactly when the interleavings of `Concurrent` are serialisable in lock order. The sizes that a call reads
    before it takes the semaphore go stale if another process truncates in between and the global sizes are not
    those of the device; then there is always an execution whose replies no serial run in lock order gives. */
module Staleness {
  import opened Geometry
  import opened FlatFile
  import opened Structure
  import opened Concurrent
  import opened Sections
  import opened Wrappers
  import opened Serializability

  // ----- a call that runs while nobody else moves

  /** The state with `p` inside, which was waiting in `s`. */
  function Inner(s: State, p: Pid, call: Call, q: int, n: int, l: Local): State
    requires p in s.procs
  {
    s.(sem := s.sem - 1, holder := s.holder + {p}, order := s.order + [p], store := l.store,
       procs := s.procs[p := Proc(l.fPos, Inside(call, q, n, s.procs[p].fPos, l.stage))])
  }

  /** The state after `up`. */
  function Finished(s: State, p: Pid, call: Call, st: Store, fPos: int, reply: Outcome, luck: WriteLuck,
                    faulty: bool): State
  {
    s.(order := s.order + [p], store := st, base := st, procs := s.procs[p := Proc(fPos, Idle)],
       log := s.log + [Done(p, call, luck, faulty)], replies := s.replies + [(p, reply)])
  }

  /** The state with the snapshot of `p` taken. */
  function Ready(s: State, p: Pid, call: Call): State
    requires p in s.procs
  {
    var pc := if call.TruncateCall? then Waiting(call, 0, 0) else Waiting(call, s.store.quantum, s.store.qset);
    s.(procs := s.procs[p := Proc(s.procs[p].fPos, pc)])
  }

  lemma GetReady(rules: Rules, s0: State, s: State, p: Pid, call: Call)
    requires Reachable(rules, s0, s) && p in s.procs && s.procs[p].pc.Idle?
    requires MayBegin(call) && Permits(rules, Begin(call))
    ensures Reachable(rules, s0, Ready(s, p, call))
  {
    hide Reachable;
    var s1 := Next(s, p, Begin(call)).value;
    ReachSnoc(rules, s0, s, p, Begin(call), s1);
    if call.TruncateCall? {
      assert s1 == Ready(s, p, call);
    } else {
      var s2 := Next(s1, p, Snapshot).value;
      ReachSnoc(rules, s0, s1, p, Snapshot, s2);
      var s3 := Next(s2, p, Snapshot).value;
      ReachSnoc(rules, s0, s2, p, Snapshot, s3);
      assert s3 == Ready(s, p, call);
    }
  }

  lemma GoIn(rules: Rules, s0: State, s: State, p: Pid, call: Call, q: int, n: int)
    requires Reachable(rules, s0, s) && p in s.procs && s.procs[p].pc == Waiting(call, q, n)
    requires s.sem == 1 && MayEnter(s.procs[p].fPos, call, q, n)
    ensures Reachable(rules, s0, Inner(s, p, call, q, n, Local(s.store, s.procs[p].fPos, Entered)))
  {
    hide Reachable, MayEnter;
    ReachSnoc(rules, s0, s, p, Down, Inner(s, p, call, q, n, Local(s.store, s.procs[p].fPos, Entered)));
  }

  lemma GoOn(rules: Rules, s0: State, s: State, p: Pid, call: Call, q: int, n: int, l: Local, choice: Choice, l': Local)
    requires p in s.procs && Reachable(rules, s0, Inner(s, p, call, q, n, l))
    requires BodyStep(Inner(s, p, call, q, n, l), Inner(s, p, call, q, n, l).procs[p], choice) == Some(l')
    ensures Reachable(rules, s0, Inner(s, p, call, q, n, l'))
  {
    hide Reachable, BodyStep;
    assert Inner(s, p, call, q, n, l').procs == Inner(s, p, call, q, n, l).procs[p := Proc(l'.fPos,
      Inside(call, q, n, s.procs[p].fPos, l'.stage))];
    ReachSnoc(rules, s0, Inner(s, p, call, q, n, l), p, Body(choice), Inner(s, p, call, q, n, l'));
  }

  lemma GoOut(rules: Rules, s0: State, s: State, p: Pid, call: Call, q: int, n: int, st: Store, fPos: int,
              reply: Outcome, luck: WriteLuck, faulty: bool)
    requires p in s.procs && p !in s.holder
    requires Reachable(rules, s0, Inner(s, p, call, q, n, Local(st, fPos, Leaving(reply, luck, faulty))))
    ensures Reachable(rules, s0, Finished(s, p, call, st, fPos, reply, luck, faulty))
  {
    hide Reachable;
    var inner := Inner(s, p, call, q, n, Local(st, fPos, Leaving(reply, luck, faulty)));
    assert inner.holder - {p} == s.holder;
    assert inner.procs[p := Proc(fPos, Idle)] == s.procs[p := Proc(fPos, Idle)];
    ReachSnoc(rules, s0, inner, p, Up, Finished(s, p, call, st, fPos, reply, luck, faulty));
  }

  lemma Truncates(rules: Rules, s0: State, s: State, p: Pid)
    requires Reachable(rules, s0, s) && p in s.procs && s.procs[p].pc.Idle? && rules.truncate
    requires s.sem == 1 && p !in s.holder
    ensures Reachable(rules, s0, Finished(s, p, TruncateCall, Fresh(s.quantum, s.qset), s.procs[p].fPos,
                                          Outcome(0, []), NO_LUCK, false))
  {
    hide Reachable;
    GetReady(rules, s0, s, p, TruncateCall);
    var t, pos := Ready(s, p, TruncateCall), s.procs[p].fPos;
    GoIn(rules, s0, t, p, TruncateCall, 0, 0);
    var st := t.store.(len := 0, slots := {}, blocks := map[]);
    GoOn(rules, s0, t, p, TruncateCall, 0, 0, Local(t.store, pos, Entered), Ok, Local(st, pos, Freed));
    var st' := st.(size := 0);
    GoOn(rules, s0, t, p, TruncateCall, 0, 0, Local(st, pos, Freed), Ok, Local(st', pos, SizeReset));
    var st'' := st'.(quantum := s.quantum);
    GoOn(rules, s0, t, p, TruncateCall, 0, 0, Local(st', pos, SizeReset), Ok, Local(st'', pos, QuantumSet));
    var empty := Fresh(s.quantum, s.qset);
    GoOn(rules, s0, t, p, TruncateCall, 0, 0, Local(st'', pos, QuantumSet), Ok,
         Local(empty, pos, Leaving(Outcome(0, []), NO_LUCK, false)));
    GoOut(rules, s0, t, p, TruncateCall, 0, 0, empty, pos, Outcome(0, []), NO_LUCK, false);
    assert t.procs[p := Proc(pos, Idle)] == s.procs[p := Proc(pos, Idle)];
  }

  /** The list is followed until it has `len` nodes. */
  lemma {:induction false} FollowsTo(rules: Rules, s0: State, s: State, p: Pid, call: Call, q: int, n: int,
                                     st: Store, fPos: int, a: Address, len: int)
    requires p in s.procs && ValidGeometry(q, n) && 0 <= fPos && !call.TruncateCall?
    requires 0 <= a.item && st.len <= len <= Max(st.len, a.item + 1)
    requires Reachable(rules, s0, Inner(s, p, call, q, n, Local(st, fPos, Following(a))))
    ensures Reachable(rules, s0, Inner(s, p, call, q, n, Local(st.(len := len), fPos, Following(a))))
    decreases len - st.len
  {
    hide Reachable;
    if len == st.len {
      assert st.(len := len) == st;
    } else {
      FollowsTo(rules, s0, s, p, call, q, n, st, fPos, a, len - 1);
      GoOn(rules, s0, s, p, call, q, n, Local(st.(len := len - 1), fPos, Following(a)), Ok,
           Local(st.(len := len), fPos, Following(a)));
    }
  }

  /** A write given up for lack of memory. */
  lemma GivesUp(rules: Rules, s0: State, s: State, p: Pid, data: seq<byte>, q: int, n: int, luck: WriteLuck)
    requires p in s.procs && p !in s.holder && ValidGeometry(q, n) && 0 <= s.procs[p].fPos
    requires PossibleWith(s.store, q, n, s.procs[p].fPos, |data|, luck) && luck.NoMemory()
    requires var pos := s.procs[p].fPos;
             Reachable(rules, s0, Inner(s, p, WriteCall(data), q, n, Local(s.store, pos, Following(Locate(pos, q, n)))))
    ensures var pos := s.procs[p].fPos;
            Reachable(rules, s0, Finished(s, p, WriteCall(data), WriteWith(s.store, q, n, pos, data, luck), pos,
                                          Outcome(-ENOMEM, []), luck, false))
  {
    hide Reachable, Locate;
    var st, pos, call := s.store, s.procs[p].fPos, WriteCall(data);
    var a, gone := Locate(pos, q, n), Leaving(Outcome(-ENOMEM, []), luck, false);
    var len := if luck.NodeFail? then luck.len else Max(st.len, a.item + 1);
    FollowsTo(rules, s0, s, p, call, q, n, st, pos, a, len);
    var st1 := st.(len := len);
    if luck.NodeFail? {
      GoOn(rules, s0, s, p, call, q, n, Local(st1, pos, Following(a)), Fail, Local(st1, pos, gone));
    } else {
      GoOn(rules, s0, s, p, call, q, n, Local(st1, pos, Following(a)), Ok, Local(st1, pos, Slotting(a)));
      if luck.SlotsFail? {
        GoOn(rules, s0, s, p, call, q, n, Local(st1, pos, Slotting(a)), Fail, Local(st1, pos, gone));
      } else {
        var st2 := WithSlots(st1, a.item);
        assert a.item in st1.slots ==> st2 == st1;
        GoOn(rules, s0, s, p, call, q, n, Local(st1, pos, Slotting(a)), Ok, Local(st2, pos, Backing(a)));
        GoOn(rules, s0, s, p, call, q, n, Local(st2, pos, Backing(a)), Fail, Local(st2, pos, gone));
      }
    }
    GoOut(rules, s0, s, p, call, q, n, WriteWith(st, q, n, pos, data, luck), pos, Outcome(-ENOMEM, []), luck, false);
  }

  /** A write that gets its memory, up to the copy. */
  lemma Prepares(rules: Rules, s0: State, s: State, p: Pid, data: seq<byte>, q: int, n: int, fill: seq<byte>)
    requires p in s.procs && ValidGeometry(q, n) && 0 <= s.procs[p].fPos
    requires var a := Locate(s.procs[p].fPos, q, n);
             && 0 <= a.item && SlotThere(s.store, a, n)
             && (if At(a) in s.store.blocks then fill == s.store.blocks[At(a)] else |fill| == q)
             && Reachable(rules, s0, Inner(s, p, WriteCall(data), q, n, Local(s.store, s.procs[p].fPos, Following(a))))
    ensures var a := Locate(s.procs[p].fPos, q, n);
            Reachable(rules, s0, Inner(s, p, WriteCall(data), q, n,
                                       Local(Prepared(s.store, a, fill), s.procs[p].fPos, Copying(a, fill))))
  {
    hide Reachable, Locate;
    var st, pos, call := s.store, s.procs[p].fPos, WriteCall(data);
    var a := Locate(pos, q, n);
    var st1 := Reach(st, a.item);
    FollowsTo(rules, s0, s, p, call, q, n, st, pos, a, st1.len);
    GoOn(rules, s0, s, p, call, q, n, Local(st1, pos, Following(a)), Ok, Local(st1, pos, Slotting(a)));
    var st2 := WithSlots(st1, a.item);
    assert a.item in st1.slots ==> st2 == st1;
    GoOn(rules, s0, s, p, call, q, n, Local(st1, pos, Slotting(a)), Ok, Local(st2, pos, Backing(a)));
    GoOn(rules, s0, s, p, call, q, n, Local(st2, pos, Backing(a)), Junk(fill),
         Local(Prepared(st, a, fill), pos, Copying(a, fill)));
  }

  /** The rest of a write, from the copy on. */
  lemma Transfers(rules: Rules, s0: State, s: State, p: Pid, data: seq<byte>, q: int, n: int, luck: WriteLuck)
    requires p in s.procs && p !in s.holder && ValidGeometry(q, n) && 0 <= s.procs[p].fPos
    requires PossibleWith(s.store, q, n, s.procs[p].fPos, |data|, luck) && !luck.NoMemory()
    requires var pos := s.procs[p].fPos;
             var a := Locate(pos, q, n);
             Reachable(rules, s0, Inner(s, p, WriteCall(data), q, n,
                                        Local(Prepared(s.store, a, luck.fill), pos, Copying(a, luck.fill))))
    ensures var pos, ret := s.procs[p].fPos, RetWith(q, n, s.procs[p].fPos, |data|, luck);
            Reachable(rules, s0, Finished(s, p, WriteCall(data), WriteWith(s.store, q, n, pos, data, luck),
                                          pos + Max(0, ret), Outcome(ret, []), luck, false))
  {
    hide Reachable, Locate;
    var st, pos, call := s.store, s.procs[p].fPos, WriteCall(data);
    var a, k := Locate(pos, q, n), Room(Locate(pos, q, n), q, |data|);
    var st1, reply := Prepared(st, a, luck.fill), Outcome(RetWith(q, n, pos, |data|, luck), []);
    var l := Local(st1, pos, Copying(a, luck.fill));
    var st' := WriteWith(st, q, n, pos, data, luck);
    if luck.Faulted? {
      GoOn(rules, s0, s, p, call, q, n, l, Junk(luck.garble), Local(st', pos, Leaving(reply, luck, false)));
    } else {
      var st2 := Poke(st1, At(a), a.qPos, data[..k]);
      GoOn(rules, s0, s, p, call, q, n, l, Ok, Local(st2, pos, Advancing(reply, luck)));
      GoOn(rules, s0, s, p, call, q, n, Local(st2, pos, Advancing(reply, luck)), Ok,
           Local(st2, pos + k, Raising(reply, luck)));
      GoOn(rules, s0, s, p, call, q, n, Local(st2, pos + k, Raising(reply, luck)), Ok,
           Local(st', pos + k, Leaving(reply, luck, false)));
    }
    GoOut(rules, s0, s, p, call, q, n, st', pos + Max(0, reply.ret), reply, luck, false);
  }

  /** The steps leave nothing out: every outcome of `WriteWith`, with whatever sizes the process has read, is
      that of an execution in which `p` now runs alone. */
  lemma WritesWith(rules: Rules, s0: State, s: State, p: Pid, data: seq<byte>, q: int, n: int, luck: WriteLuck)
    requires Reachable(rules, s0, s) && p in s.procs && s.procs[p].pc == Waiting(WriteCall(data), q, n)
    requires s.sem == 1 && p !in s.holder && ValidGeometry(q, n) && InRange(s.procs[p].fPos, q, n)
    requires PossibleWith(s.store, q, n, s.procs[p].fPos, |data|, luck)
    ensures var pos, ret := s.procs[p].fPos, RetWith(q, n, s.procs[p].fPos, |data|, luck);
            Reachable(rules, s0, Finished(s, p, WriteCall(data), WriteWith(s.store, q, n, pos, data, luck),
                                          pos + Max(0, ret), Outcome(ret, []), luck, false))
  {
    hide Reachable, Locate, WriteWith;
    var pos, call := s.procs[p].fPos, WriteCall(data);
    GoIn(rules, s0, s, p, call, q, n);
    GoOn(rules, s0, s, p, call, q, n, Local(s.store, pos, Entered), Ok,
         Local(s.store, pos, Following(Locate(pos, q, n))));
    if luck.NoMemory() {
      GivesUp(rules, s0, s, p, data, q, n, luck);
    } else {
      Prepares(rules, s0, s, p, data, q, n, luck.fill);
      Transfers(rules, s0, s, p, data, q, n, luck);
    }
  }

  /** In particular, every outcome of `WriteStore` is reached from any state in which `p` is between calls. */
  lemma Writes(rules: Rules, s0: State, s: State, p: Pid, data: seq<byte>, luck: WriteLuck)
    requires Reachable(rules, s0, s) && p in s.procs && s.procs[p].pc.Idle? && s.sem == 1 && p !in s.holder
    requires Shaped(s.store) && InRange(s.procs[p].fPos, s.store.quantum, s.store.qset)
    requires Possible(s.store, s.procs[p].fPos, |data|, luck)
    requires Recorded(s.store, Locate(s.procs[p].fPos, s.store.quantum, s.store.qset), luck)
    ensures var pos, ret := s.procs[p].fPos, WriteRet(s.procs[p].fPos, |data|, s.store.quantum, luck);
            Reachable(rules, s0, Finished(s, p, WriteCall(data), WriteStore(s.store, pos, data, luck),
                                          pos + Max(0, ret), Outcome(ret, []), luck, false))
  {
    hide Reachable, Locate, WriteStore, WriteWith, PossibleWith, Possible, WriteRet, RetWith;
    var q, n, pos, call := s.store.quantum, s.store.qset, s.procs[p].fPos, WriteCall(data);
    GetReady(rules, s0, s, p, call);
    var t := Ready(s, p, call);
    WriteWithOwn(s.store, pos, data, luck);
    WritesWith(rules, s0, t, p, data, q, n, luck);
    var done := Proc(pos + Max(0, WriteRet(pos, |data|, q, luck)), Idle);
    assert t.procs[p := done] == s.procs[p := done];
  }

  /** From the slot array on. */
  lemma ReadsOn(rules: Rules, s0: State, s: State, p: Pid, count: int, q: int, n: int, faulty: bool,
                reply: Outcome, st': Store)
    requires p in s.procs && ValidGeometry(q, n) && 0 <= s.procs[p].fPos < s.store.size
    requires ReadsAs(s.store, q, n, s.procs[p].fPos, count, faulty, reply, st')
    requires Locate(s.procs[p].fPos, q, n).item < st'.len
    requires Reachable(rules, s0, Inner(s, p, ReadCall(count), q, n,
                                        Local(st', s.procs[p].fPos, Slotting(Locate(s.procs[p].fPos, q, n)))))
    ensures var l := Local(st', s.procs[p].fPos + Max(0, reply.ret), Leaving(reply, NO_LUCK, faulty));
            Reachable(rules, s0, Inner(s, p, ReadCall(count), q, n, l))
  {
    hide Reachable, Locate;
    var pos, call := s.procs[p].fPos, ReadCall(count);
    var a, gone := Locate(pos, q, n), Leaving(reply, NO_LUCK, faulty);
    if a.item !in st'.slots || At(a) !in st'.blocks {
      GoOn(rules, s0, s, p, call, q, n, Local(st', pos, Slotting(a)), Ok, Local(st', pos, gone));
    } else {
      GoOn(rules, s0, s, p, call, q, n, Local(st', pos, Slotting(a)), Ok, Local(st', pos, Backing(a)));
      if faulty {
        GoOn(rules, s0, s, p, call, q, n, Local(st', pos, Backing(a)), Fail, Local(st', pos, gone));
      } else {
        GoOn(rules, s0, s, p, call, q, n, Local(st', pos, Backing(a)), Ok, Local(st', pos, Advancing(reply, NO_LUCK)));
        GoOn(rules, s0, s, p, call, q, n, Local(st', pos, Advancing(reply, NO_LUCK)), Ok,
             Local(st', pos + reply.ret, gone));
      }
    }
  }

  /** The same for reads: every outcome of `ReadsAs` is that of an execution. */
  lemma ReadsWith(rules: Rules, s0: State, s: State, p: Pid, count: int, q: int, n: int, faulty: bool,
                  reply: Outcome, st': Store)
    requires Reachable(rules, s0, s) && p in s.procs && s.procs[p].pc == Waiting(ReadCall(count), q, n)
    requires s.sem == 1 && p !in s.holder && ValidGeometry(q, n) && 0 <= s.procs[p].fPos
    requires ReadsAs(s.store, q, n, s.procs[p].fPos, count, faulty, reply, st')
    ensures Reachable(rules, s0, Finished(s, p, ReadCall(count), st', s.procs[p].fPos + Max(0, reply.ret),
                                          reply, NO_LUCK, faulty))
  {
    hide Reachable, Locate;
    var st, pos, call := s.store, s.procs[p].fPos, ReadCall(count);
    var a, gone := Locate(pos, q, n), Leaving(reply, NO_LUCK, faulty);
    GoIn(rules, s0, s, p, call, q, n);
    if st.size <= pos {
      GoOn(rules, s0, s, p, call, q, n, Local(st, pos, Entered), Ok, Local(st, pos, gone));
    } else {
      GoOn(rules, s0, s, p, call, q, n, Local(st, pos, Entered), Ok, Local(st, pos, Following(a)));
      FollowsTo(rules, s0, s, p, call, q, n, st, pos, a, st'.len);
      assert st.(len := st'.len) == st';
      if st'.len <= a.item {
        GoOn(rules, s0, s, p, call, q, n, Local(st', pos, Following(a)), Fail, Local(st', pos, gone));
      } else {
        GoOn(rules, s0, s, p, call, q, n, Local(st', pos, Following(a)), Ok, Local(st', pos, Slotting(a)));
        ReadsOn(rules, s0, s, p, count, q, n, faulty, reply, st');
      }
    }
    GoOut(rules, s0, s, p, call, q, n, st', pos + Max(0, reply.ret), reply, NO_LUCK, faulty);
  }

  lemma SameReply(st: Store, pos: int, count: int, faulty: bool)
    requires WellFormed(st) && 0 <= pos && 0 <= count
    ensures var reply := ReadStore(st, pos, count, faulty);
            ReadStore(st, pos, count, reply.ret == -EFAULT) == reply
  {
    if pos < st.size {
      BelowSizeInRange(st, pos);
      LocateRebuilds(pos, st.quantum, st.qset);
    }
  }

  /** In particular, every reply of `ReadStore`, also to a read that faults, is given from any state in which
      `p` is between calls. */
  lemma Reads(rules: Rules, s0: State, s: State, p: Pid, count: int, faulty: bool)
    requires Reachable(rules, s0, s) && p in s.procs && s.procs[p].pc.Idle? && s.sem == 1 && p !in s.holder
    requires WellFormed(s.store) && 0 <= s.procs[p].fPos && 0 <= count <= LONG_MAX
    ensures var pos, reply := s.procs[p].fPos, ReadStore(s.store, s.procs[p].fPos, count, faulty);
            Reachable(rules, s0, Finished(s, p, ReadCall(count), s.store, pos + Max(0, reply.ret),
                                          reply, NO_LUCK, reply.ret == -EFAULT))
  {
    hide Reachable, ReadsAs, ReadAt;
    var pos, call := s.procs[p].fPos, ReadCall(count);
    var reply := ReadStore(s.store, pos, count, faulty);
    GetReady(rules, s0, s, p, call);
    var t := Ready(s, p, call);
    SameReply(s.store, pos, count, faulty);
    ReadsAsOwn(s.store, pos, count, reply.ret == -EFAULT, reply, s.store);
    ReadsWith(rules, s0, t, p, count, s.store.quantum, s.store.qset, reply.ret == -EFAULT, reply, s.store);
    var done := Proc(pos + Max(0, reply.ret), Idle);
    assert t.procs[p := done] == s.procs[p := done];
  }

  // ----- a read with stale sizes

  /** With the sizes `q` and `n`, position `pos` is sought outside the one quantum that `st` has for item
      `item`, slot `slot`, but inside every array there is. */
  predicate Misses(pos: int, q: int, n: int, item: int, slot: int, qset: int)
    requires ValidGeometry(q, n) && 0 <= pos
  {
    var a := Locate(pos, q, n);
    0 <= a.item && At(a) != Key(item, slot) && (a.item == item ==> a.sPos < qset)
  }

  /** A read that looks for its byte where there is none returns 0. */
  lemma ReadsHole(rules: Rules, s0: State, s: State, p: Pid, count: int, q: int, n: int, item: int, slot: int)
    requires Reachable(rules, s0, s) && p in s.procs && s.sem == 1 && p !in s.holder
    requires s.procs[p].pc == Waiting(ReadCall(count), q, n) && ValidGeometry(q, n)
    requires 0 <= s.procs[p].fPos < s.store.size && s.store.slots == {item} && s.store.blocks.Keys == {Key(item, slot)}
    requires Misses(s.procs[p].fPos, q, n, item, slot, s.store.qset)
    ensures Reachable(rules, s0, Finished(s, p, ReadCall(count), s.store, s.procs[p].fPos,
                                          Outcome(0, []), NO_LUCK, false))
  {
    hide Reachable, Locate;
    assert Reach(s.store, s.store.len - 1) == s.store;
    ReadsWith(rules, s0, s, p, count, q, n, false, Outcome(0, []), s.store);
  }

  lemma StartsAtZero(quantum: int, qset: int)
    requires ValidGeometry(quantum, qset)
    ensures Locate(0, quantum, qset) == Address(0, 0, 0) && Chunk(0, quantum, quantum) == quantum
  {
    LocateInverts(Address(0, 0, 0), quantum, qset);
  }

  /** A read from the start of a longer quantum is cut at the end of the shorter one. */
  lemma ReadsShort(rules: Rules, s0: State, s: State, p: Pid, count: int, q: int, n: int)
    requires Reachable(rules, s0, s) && p in s.procs && s.sem == 1 && p !in s.holder && Shaped(s.store)
    requires s.procs[p] == Proc(0, Waiting(ReadCall(count), q, n)) && ValidGeometry(q, n)
    requires 0 < s.store.len && 0 in s.store.slots && Key(0, 0) in s.store.blocks
    requires q < s.store.quantum && q <= count && q <= s.store.size
    ensures Reachable(rules, s0, Finished(s, p, ReadCall(count), s.store, q,
                                          Outcome(q, s.store.blocks[Key(0, 0)][..q]), NO_LUCK, false))
  {
    hide Reachable, InRange, Locate;
    StartsAtZero(q, n);
    assert Reach(s.store, 0) == s.store;
    ReadsWith(rules, s0, s, p, count, q, n, false, Outcome(q, s.store.blocks[Key(0, 0)][..q]), s.store);
  }

  // ----- a write with stale sizes

  /** A write at 0 by a process that has read the sizes `q` and `n`, on a device that has its first quantum:
      whatever the sizes of the device, it replies how much of the buffer fits a quantum of `q` bytes, and
      stores exactly that, at the start. Only what reaches beyond the quantum is left open. */
  lemma WritesAtZero(rules: Rules, s0: State, s: State, p: Pid, data: seq<byte>, q: int, n: int)
    requires Reachable(rules, s0, s) && p in s.procs && s.sem == 1 && p !in s.holder && Shaped(s.store)
    requires s.procs[p] == Proc(0, Waiting(WriteCall(data), q, n)) && ValidGeometry(q, n)
    requires Key(0, 0) in s.store.blocks && Min(|data|, q) <= s.store.quantum
    ensures var k, b := Min(|data|, q), s.store.blocks[Key(0, 0)];
            var st' := s.store.(size := Max(s.store.size, k),
                                blocks := s.store.blocks[Key(0, 0) := data[..k] + b[k..]]);
            Reachable(rules, s0, Finished(s, p, WriteCall(data), st', k, Outcome(k, []), Copied(b), false))
  {
    hide Reachable, Locate;
    StartsAtZero(q, n);
    var st, k, b := s.store, Min(|data|, q), s.store.blocks[Key(0, 0)];
    assert Prepared(st, Address(0, 0, 0), b) == st by {
      assert st.slots + {0} == st.slots;
    }
    assert Patch(b, 0, data[..k]) == data[..k] + b[k..];
    WritesWith(rules, s0, s, p, data, q, n, Copied(b));
  }

  /** A write at 0 that has to allocate the first quantum allocates one of `q` bytes, so the device is out of
      shape afterwards exactly if that is not its quantum. */
  lemma WritesNewAtZero(rules: Rules, s0: State, s: State, p: Pid, data: seq<byte>, q: int, n: int, fill: seq<byte>)
    requires Reachable(rules, s0, s) && p in s.procs && s.sem == 1 && p !in s.holder && Shaped(s.store)
    requires s.procs[p] == Proc(0, Waiting(WriteCall(data), q, n)) && ValidGeometry(q, n)
    requires Key(0, 0) !in s.store.blocks && (0 in s.store.slots || n == s.store.qset) && |fill| == q
    ensures var k := Min(|data|, q);
            var st' := s.store.(size := Max(s.store.size, k), len := Max(s.store.len, 1), slots := s.store.slots + {0},
                                blocks := s.store.blocks[Key(0, 0) := data[..k] + fill[k..]]);
            && Reachable(rules, s0, Finished(s, p, WriteCall(data), st', k, Outcome(k, []), Copied(fill), false))
            && (Shaped(st') <==> q == s.store.quantum)
  {
    hide Reachable, Locate;
    StartsAtZero(q, n);
    var k := Min(|data|, q);
    assert Patch(fill, 0, data[..k]) == data[..k] + fill[k..];
    var blocks := s.store.blocks;
    assert blocks[Key(0, 0) := fill][Key(0, 0) := data[..k] + fill[k..]]
           == blocks[Key(0, 0) := data[..k] + fill[k..]];
    WritesWith(rules, s0, s, p, data, q, n, Copied(fill));
    WriteWithShape(s.store, q, n, 0, data, Copied(fill));
  }

  // ----- the execution that goes wrong

  /** The serial history of the execution: the writer truncates and writes, and the reader, which had its
      snapshot before all that, reads. */
  function StaleLog(reader: Pid, writer: Pid, data: seq<byte>, fill: seq<byte>, count: int): seq<Entry> {
    [Done(writer, TruncateCall, NO_LUCK, false), Done(writer, WriteCall(data), Copied(fill), false),
     Done(reader, ReadCall(count), NO_LUCK, false)]
  }

  /** Two processes are between calls, at position `pos`, and nobody is inside. */
  predicate BothAt(s: State, reader: Pid, writer: Pid, pos: int) {
    && reader != writer && reader in s.procs && writer in s.procs
    && s.procs[reader] == s.procs[writer] == Proc(pos, Idle)
    && s.sem == 1 && s.holder == {}
  }

  function Zeros(n: int): seq<byte>
    requires 0 <= n
  {
    seq(n, _ => 0)
  }

  /** How the execution starts, whatever the device holds in `s`. */
  function Overtaken(s: State, reader: Pid, writer: Pid, pos: int, data: seq<byte>, count: int): State
    requires ValidGeometry(s.quantum, s.qset) && InRange(pos, s.quantum, s.qset)
  {
    var st := WriteStore(Fresh(s.quantum, s.qset), pos, data, Copied(Zeros(s.quantum)));
    var k := Chunk(pos, |data|, s.quantum);
    s.(store := st, base := st, order := s.order + [writer, writer],
       procs := s.procs[reader := Proc(pos, Waiting(ReadCall(count), s.store.quantum, s.store.qset))]
                       [writer := Proc(pos + k, Idle)],
       log := s.log + StaleLog(reader, writer, data, Zeros(s.quantum), count)[..2],
       replies := s.replies + [(writer, Outcome(0, [])), (writer, Outcome(k, []))])
  }

  /** The reader takes its snapshot; then the writer truncates the device and writes. */
  lemma Overtakes(rules: Rules, s0: State, s: State, reader: Pid, writer: Pid, pos: int, data: seq<byte>, count: int)
    requires Reachable(rules, s0, s) && rules.truncate && 0 <= count <= LONG_MAX
    requires BothAt(s, reader, writer, pos)
    requires ValidGeometry(s.quantum, s.qset) && InRange(pos, s.quantum, s.qset)
    ensures Reachable(rules, s0, Overtaken(s, reader, writer, pos, data, count))
  {
    hide Reachable, WriteStore, Locate;
    var empty, luck := Fresh(s.quantum, s.qset), Copied(Zeros(s.quantum));
    GetReady(rules, s0, s, reader, ReadCall(count));
    var s1 := Ready(s, reader, ReadCall(count));
    Truncates(rules, s0, s1, writer);
    var s2 := Finished(s1, writer, TruncateCall, empty, pos, Outcome(0, []), NO_LUCK, false);
    assert s2.procs == s1.procs;
    ExtentBounds(pos, s.quantum, |data|);
    Writes(rules, s0, s2, writer, data, luck);
    var k := Chunk(pos, |data|, s.quantum);
    var s3 := Finished(s2, writer, WriteCall(data), WriteStore(empty, pos, data, luck), pos + k,
                       Outcome(k, []), luck, false);
    assert s3 == Overtaken(s, reader, writer, pos, data, count);
  }

  /** A position, a buffer and a count for which the stale read goes wrong. */
  datatype Plan = Plan(pos: int, data: seq<byte>, count: int)

  /** With longer quanta than the device's, or with the same quanta but other arrays, some byte is sought
      where it is not; with shorter quanta a read ends too early. */
  function Choose(q: int, n: int, quantum: int, qset: int): Plan
    requires ValidGeometry(quantum, qset)
  {
    if quantum < q then Plan(quantum, [7], 1)
    else if q < quantum then Plan(0, seq(quantum, _ => 7), quantum)
    else Plan(quantum * Min(n, qset), [7], 1)
  }

  lemma ChosenInRange(q: int, n: int, quantum: int, qset: int)
    requires ValidGeometry(q, n) && ValidGeometry(quantum, qset)
    requires q != quantum || n != qset
    ensures var plan := Choose(q, n, quantum, qset);
            && InRange(plan.pos, quantum, qset) && plan.pos <= LONG_MAX && 0 < plan.count <= LONG_MAX
            && plan.data != []
  {
    MulMonotone(1, qset, quantum);
    MulMonotone(Min(n, qset), qset, quantum);
    MulMonotone(0, Min(n, qset), quantum);
  }

  /** Under longer quanta, the first byte of the second quantum is sought in the first. */
  lemma LongerMisses(q: int, n: int, quantum: int, qset: int)
    requires ValidGeometry(q, n) && ValidGeometry(quantum, qset) && quantum < q
    ensures InRange(quantum, quantum, qset)
    ensures var a := Locate(quantum, quantum, qset);
            Misses(quantum, q, n, a.item, a.sPos, qset)
  {
    MulMonotone(1, qset, quantum);
    LocateRebuilds(quantum, quantum, qset);
    DivModUnique(quantum, quantum, 1, 0);
    LocateInverts(Address(0, 0, quantum), q, n);
  }

  /** With fewer slots than the snapshot says, the first byte of the second item is sought in the first. */
  lemma FewerMisses(q: int, n: int, qset: int)
    requires ValidGeometry(q, n) && ValidGeometry(q, qset) && qset < n
    ensures InRange(q * qset, q, qset)
    ensures var a := Locate(q * qset, q, qset);
            Misses(q * qset, q, n, a.item, a.sPos, qset)
  {
    hide Locate;
    LocateInverts(Address(0, qset, 0), q, n);
    LocateInverts(Address(1, 0, 0), q, qset);
    MulMonotone(0, qset, q);
    assert Position(Address(0, qset, 0), q, n) == q * qset == Position(Address(1, 0, 0), q, qset);
  }

  /** With more slots, the first byte beyond those of the snapshot is sought in the second item. */
  lemma MoreMisses(q: int, n: int, qset: int)
    requires ValidGeometry(q, n) && ValidGeometry(q, qset) && n < qset
    ensures InRange(q * n, q, qset)
    ensures var a := Locate(q * n, q, qset);
            Misses(q * n, q, n, a.item, a.sPos, qset)
  {
    hide Locate;
    LocateInverts(Address(1, 0, 0), q, n);
    LocateInverts(Address(0, n, 0), q, qset);
    MulMonotone(0, n, q);
    assert Position(Address(0, n, 0), q, qset) == q * n == Position(Address(1, 0, 0), q, n);
  }

  /** The chosen position is sought outside the quantum that holds it. */
  lemma ChosenMisses(q: int, n: int, quantum: int, qset: int)
    requires ValidGeometry(q, n) && ValidGeometry(quantum, qset)
    requires quantum < q || (q == quantum && n != qset)
    ensures var pos := Choose(q, n, quantum, qset).pos;
            && InRange(pos, quantum, qset)
            && var a := Locate(pos, quantum, qset);
               Misses(pos, q, n, a.item, a.sPos, qset)
  {
    hide Locate, Misses;
    if quantum < q {
      LongerMisses(q, n, quantum, qset);
    } else if qset < n {
      FewerMisses(q, n, qset);
    } else {
      MoreMisses(q, n, qset);
    }
  }

  /** What the writer leaves on an empty device. */
  lemma FreshWritten(quantum: int, qset: int, pos: int, data: seq<byte>, fill: seq<byte>)
    requires ValidGeometry(quantum, qset) && InRange(pos, quantum, qset) && |fill| == quantum
    ensures var a, k := Locate(pos, quantum, qset), Chunk(pos, |data|, quantum);
            var st := WriteStore(Fresh(quantum, qset), pos, data, Copied(fill));
            && 0 <= k && Shaped(st) && st.quantum == quantum && st.qset == qset
            && st.size == pos + k && st.len == a.item + 1 && 0 <= a.item
            && st.slots == {a.item} && st.blocks.Keys == {At(a)}
  {
    hide Locate;
    LocateRebuilds(pos, quantum, qset);
    ExtentBounds(pos, quantum, |data|);
  }

  /** What the stale read returns. */
  function StaleReply(q: int, quantum: int): int {
    if q < quantum then q else 0
  }

  /** The whole execution, from `s` with a device of sizes other than the global ones. */
  lemma GoesWrong(rules: Rules, s0: State, s: State, reader: Pid, writer: Pid, plan: Plan)
    returns (s': State, reply: Outcome)
    requires Reachable(rules, s0, s) && rules.truncate
    requires ValidGeometry(s.quantum, s.qset) && ValidGeometry(s.store.quantum, s.store.qset)
    requires s.store.quantum != s.quantum || s.store.qset != s.qset
    requires plan == Choose(s.store.quantum, s.store.qset, s.quantum, s.qset)
    requires BothAt(s, reader, writer, plan.pos) && s.replies == []
    ensures Reachable(rules, s0, s')
    ensures s'.log == s.log + StaleLog(reader, writer, plan.data, Zeros(s.quantum), plan.count)
    ensures s'.replies == [(writer, Outcome(0, [])),
                           (writer, Outcome(Chunk(plan.pos, |plan.data|, s.quantum), [])), (reader, reply)]
    ensures reply.ret == StaleReply(s.store.quantum, s.quantum)
  {
    hide Reachable, InRange, Misses, WriteStore, Chunk, Locate;
    var q, n, pos := s.store.quantum, s.store.qset, plan.pos;
    ChosenInRange(q, n, s.quantum, s.qset);
    Overtakes(rules, s0, s, reader, writer, pos, plan.data, plan.count);
    FreshWritten(s.quantum, s.qset, pos, plan.data, Zeros(s.quantum));
    var t := Overtaken(s, reader, writer, pos, plan.data, plan.count);
    if q < s.quantum {
      StartsAtZero(s.quantum, s.qset);
      ReadsShort(rules, s0, t, reader, plan.count, q, n);
      reply := Outcome(q, t.store.blocks[Key(0, 0)][..q]);
      s' := Finished(t, reader, ReadCall(plan.count), t.store, q, reply, NO_LUCK, false);
    } else {
      ChosenMisses(q, n, s.quantum, s.qset);
      var a := Locate(pos, s.quantum, s.qset);
      ExtentBounds(pos, s.quantum, 1);
      ReadsHole(rules, s0, t, reader, plan.count, q, n, a.item, a.sPos);
      reply := Outcome(0, []);
      s' := Finished(t, reader, ReadCall(plan.count), t.store, pos, reply, NO_LUCK, false);
    }
  }

  /** The state with both processes moved to `pos`. */
  function Moved(s: State, reader: Pid, writer: Pid, pos: int): State {
    s.(procs := s.procs[reader := Proc(pos, Idle)][writer := Proc(pos, Idle)],
       log := s.log + [Sought(reader, pos), Sought(writer, pos)])
  }

  lemma Moves(rules: Rules, s0: State, s: State, reader: Pid, writer: Pid, pos: int)
    requires Reachable(rules, s0, s) && reader in s.procs && writer in s.procs
    requires s.procs[reader].pc.Idle? && s.procs[writer].pc.Idle? && 0 <= pos <= LONG_MAX
    ensures Reachable(rules, s0, Moved(s, reader, writer, pos))
  {
    hide Reachable;
    var s1 := Next(s, reader, Seek(pos)).value;
    ReachSnoc(rules, s0, s, reader, Seek(pos), s1);
    assert s1.log + [Sought(writer, pos)] == Moved(s, reader, writer, pos).log;
    ReachSnoc(rules, s0, s1, writer, Seek(pos), Moved(s, reader, writer, pos));
  }

  // ----- what a serial run would have returned

  /** The same calls in the same order, whatever the environment decides in them. */
  predicate SameCall(e: Entry, e': Entry) {
    if e.Done? then e'.Done? && e'.pid == e.pid && e'.call == e.call else e' == e
  }

  predicate SameCalls(log: seq<Entry>, log': seq<Entry>) {
    |log| == |log'| && forall i | 0 <= i < |log| :: SameCall(log[i], log'[i])
  }

  ghost predicate Gives(init: Serial, log: seq<Entry>, replies: seq<(Pid, Outcome)>) {
    SerialValid(init) && SerialRunnable(init, log) && SerialRun(init, log).replies == replies
  }

  /** Some serial run of the calls, in lock order, gives the replies. */
  ghost predicate Explained(s0: State, s: State) {
    Shaped(s0.store) && exists log :: SameCalls(s.log, log) && Gives(SerialStart(s0), log, s.replies)
  }

  lemma SteadyExplained(rules: Rules, s0: State, s: State)
    requires Initial(s0) && Steady(rules, s0) && Reachable(rules, s0, s)
    ensures Explained(s0, s)
  {
    hide SerialRun, SerialRunnable, SerialValid, Reachable, Callers;
    Serialisable(rules, s0, s);
    assert SameCalls(s.log, s.log) && Gives(SerialStart(s0), s.log, s.replies);
  }

  lemma SamePrefix(pre: seq<Entry>, calls: seq<Entry>, log: seq<Entry>)
    requires SameCalls(pre + calls, log) && forall e <- pre :: !e.Done?
    ensures |log| == |pre| + |calls| && log[..|pre|] == pre && SameCalls(calls, log[|pre|..])
  {
    forall i | 0 <= i < |pre|
      ensures log[i] == pre[i]
    {
      assert SameCall((pre + calls)[i], log[i]);
    }
    forall i | 0 <= i < |calls|
      ensures SameCall(calls[i], log[|pre|..][i])
    {
      assert SameCall((pre + calls)[|pre| + i], log[|pre| + i]);
    }
  }

  lemma {:induction false} RunnablePrefix(init: Serial, log: seq<Entry>, m: nat)
    requires SerialValid(init) && SerialRunnable(init, log) && m < |log|
    ensures SerialRunnable(init, log[..m]) && SerialValid(SerialRun(init, log[..m]))
    decreases |log|
  {
    var n := |log| - 1;
    if m < n {
      RunnablePrefix(init, log[..n], m);
      assert log[..n][..m] == log[..m];
    }
  }

  /** Write to an empty file, then read: the read delivers what was written, or faults. */
  lemma FreshRead(quantum: int, pos: int, data: seq<byte>, luck: WriteLuck, count: int, faulty: bool)
    requires 0 < quantum && 0 <= pos && data != [] && 0 < count && LuckFits(pos, |data|, quantum, luck)
    requires var k := Chunk(pos, |data|, quantum);
             WriteRet(pos, |data|, quantum, luck) == k
    ensures var k, f := Chunk(pos, |data|, quantum), Write(Trim(quantum), pos, data, luck);
            && Valid(f)
            && Read(f, pos, count, faulty).ret in {-EFAULT, Chunk(pos, Min(count, k), quantum)}
  {
    ExtentBounds(pos, quantum, |data|);
    WriteValid(Trim(quantum), pos, data, luck);
    WriteEffect(Trim(quantum), pos, data, luck.fill);
    var k, f := Chunk(pos, |data|, quantum), Write(Trim(quantum), pos, data, luck);
    assert pos + 0 in f.bytes;
  }

  predicate BothStand(r: Serial, reader: Pid, writer: Pid, pos: int) {
    reader != writer && reader in r.pos && writer in r.pos && r.pos[reader] == r.pos[writer] == pos
  }

  /** The serial run of the last three calls: if the write got through, the read delivers its bytes. */
  lemma SerialReads(r: Serial, reader: Pid, writer: Pid, pos: int, count: int, data: seq<byte>,
                    e1: Entry, e2: Entry, e3: Entry)
    requires SerialValid(r) && BothStand(r, reader, writer, pos)
    requires data != [] && 0 < count && r.replies == []
    requires e1.Done? && e1.pid == writer && e1.call == TruncateCall
    requires e2.Done? && e2.pid == writer && e2.call == WriteCall(data)
    requires e3.Done? && e3.pid == reader && e3.call == ReadCall(count)
    requires SerialEnabled(r, e1) && SerialValid(SerialStep(r, e1))
    requires SerialEnabled(SerialStep(r, e1), e2) && SerialValid(SerialStep(SerialStep(r, e1), e2))
    ensures SerialEnabled(SerialStep(SerialStep(r, e1), e2), e3)
    ensures var replies, k := SerialStep(SerialStep(SerialStep(r, e1), e2), e3).replies, Chunk(pos, |data|, r.quantum);
            && |replies| == 3
            && (replies[1].1.ret == k ==> replies[2].1.ret in {-EFAULT, Chunk(pos, Min(count, k), r.quantum)})
  {
    hide Write, Read, Chunk, WriteRet;
    var r1 := SerialStep(r, e1);
    assert r1.file == Trim(r.quantum) && r1.pos[reader] == r1.pos[writer] == pos;
    var r2 := SerialStep(r1, e2);
    assert r2.file == Write(Trim(r.quantum), pos, data, e2.luck) && r2.pos[reader] == pos;
    if WriteRet(pos, |data|, r.quantum, e2.luck) == Chunk(pos, |data|, r.quantum) {
      FreshRead(r.quantum, pos, data, e2.luck, count, e3.faulty);
    }
  }

  /** The last step of a serial run. */
  lemma LastStep(init: Serial, log: seq<Entry>)
    requires SerialValid(init) && SerialRunnable(init, log) && log != []
    ensures var n := |log| - 1;
            && SerialRunnable(init, log[..n]) && SerialValid(SerialRun(init, log[..n]))
            && SerialEnabled(SerialRun(init, log[..n]), log[n])
            && SerialRun(init, log) == SerialStep(SerialRun(init, log[..n]), log[n])
  {
  }

  /** The reply of the stale read is not one of those a serial run can give. */
  lemma StaleReplyWrong(q: int, n: int, quantum: int, qset: int)
    requires ValidGeometry(q, n) && ValidGeometry(quantum, qset) && (q != quantum || n != qset)
    ensures var plan := Choose(q, n, quantum, qset);
            var k := Chunk(plan.pos, |plan.data|, quantum);
            StaleReply(q, quantum) !in {-EFAULT, Chunk(plan.pos, Min(plan.count, k), quantum)}
  {
    if q < quantum {
      StartsAtZero(quantum, qset);
    } else {
      ChosenInRange(q, n, quantum, qset);
      ExtentBounds(Choose(q, n, quantum, qset).pos, quantum, 1);
    }
  }

  /** No serial run of a history that ends like this gives the replies of the execution. */
  lemma NotSerial(init: Serial, reader: Pid, writer: Pid, q: int, n: int, qset: int, log: seq<Entry>, m: nat,
                  fill: seq<byte>, replies: seq<(Pid, Outcome)>)
    requires SerialValid(init) && SerialRunnable(init, log) && m + 3 == |log|
    requires SerialRunnable(init, log[..m]) && SerialValid(SerialRun(init, log[..m]))
    requires var r := SerialRun(init, log[..m]);
             && ValidGeometry(q, n) && ValidGeometry(r.quantum, qset) && (q != r.quantum || n != qset)
             && var plan := Choose(q, n, r.quantum, qset);
                && SameCalls(StaleLog(reader, writer, plan.data, fill, plan.count), log[m..])
                && BothStand(r, reader, writer, plan.pos) && r.replies == []
                && |replies| == 3 && replies[1].1.ret == Chunk(plan.pos, |plan.data|, r.quantum)
                && replies[2].1.ret == StaleReply(q, r.quantum)
    ensures SerialRun(init, log).replies != replies
  {
    hide Choose, SerialStep, SerialEnabled, SerialRun, SerialRunnable, SerialValid, Chunk, StaleReply;
    var r := SerialRun(init, log[..m]);
    var plan := Choose(q, n, r.quantum, qset);
    ChosenInRange(q, n, r.quantum, qset);
    var calls := StaleLog(reader, writer, plan.data, fill, plan.count);
    assert SameCall(calls[0], log[m..][0]) && SameCall(calls[1], log[m..][1]) && SameCall(calls[2], log[m..][2]);
    assert log[..m + 2][..m + 1] == log[..m + 1] && log[..m + 1][..m] == log[..m];
    LastStep(init, log);
    LastStep(init, log[..m + 2]);
    LastStep(init, log[..m + 1]);
    SerialReads(r, reader, writer, plan.pos, plan.count, plan.data, log[m], log[m + 1], log[m + 2]);
    StaleReplyWrong(q, n, r.quantum, qset);
  }

  /** What goes before the execution: the ioctl that sets the global sizes, if there is one, and two seeks. */
  function Opening(ioctl: seq<Entry>, reader: Pid, writer: Pid, pos: int): seq<Entry> {
    ioctl + [Sought(reader, pos), Sought(writer, pos)]
  }

  predicate Sets(ioctl: seq<Entry>, p: Pid, was: int, quantum: int, qset: int) {
    ioctl == [Configured(p, quantum, qset)] || (ioctl == [] && was == quantum)
  }

  lemma IoctlRun(init: Serial, ioctl: seq<Entry>, p: Pid, quantum: int, qset: int)
    requires SerialValid(init) && SerialRunnable(init, ioctl) && Sets(ioctl, p, init.quantum, quantum, qset)
    ensures SerialRun(init, ioctl) == init.(quantum := quantum)
  {
    if ioctl != [] {
      LastStep(init, ioctl);
      assert ioctl[..0] == [];
    }
  }

  lemma OpeningRun(init: Serial, ioctl: seq<Entry>, reader: Pid, writer: Pid, pos: int, quantum: int, qset: int)
    requires SerialValid(init) && SerialRunnable(init, Opening(ioctl, reader, writer, pos)) && reader != writer
    requires Sets(ioctl, reader, init.quantum, quantum, qset)
    ensures var r := SerialRun(init, Opening(ioctl, reader, writer, pos));
            r.quantum == quantum && r.replies == init.replies && BothStand(r, reader, writer, pos)
  {
    var log, m := Opening(ioctl, reader, writer, pos), |ioctl|;
    assert log[..m + 1][..m] == log[..m] == ioctl;
    LastStep(init, log);
    LastStep(init, log[..m + 1]);
    IoctlRun(init, ioctl, reader, quantum, qset);
  }

  lemma Unexplained(s0: State, s: State, reader: Pid, writer: Pid, plan: Plan, ioctl: seq<Entry>,
                    quantum: int, qset: int, fill: seq<byte>)
    requires Initial(s0) && ValidGeometry(quantum, qset) && reader != writer
    requires s0.store.quantum != quantum || s0.store.qset != qset
    requires plan == Choose(s0.store.quantum, s0.store.qset, quantum, qset)
    requires Sets(ioctl, reader, s0.quantum, quantum, qset)
    requires s.log == Opening(ioctl, reader, writer, plan.pos) + StaleLog(reader, writer, plan.data, fill, plan.count)
    requires |s.replies| == 3 && s.replies[1].1.ret == Chunk(plan.pos, |plan.data|, quantum)
    requires s.replies[2].1.ret == StaleReply(s0.store.quantum, quantum)
    ensures !Explained(s0, s)
  {
    hide Choose, SerialStep, SerialEnabled, Chunk, StaleReply, SerialRun, SerialRunnable, SameCall, SerialValid;
    var init, pre := SerialStart(s0), Opening(ioctl, reader, writer, plan.pos);
    forall log | SameCalls(s.log, log)
      ensures !Gives(init, log, s.replies)
    {
      if Gives(init, log, s.replies) {
        SamePrefix(pre, StaleLog(reader, writer, plan.data, fill, plan.count), log);
        RunnablePrefix(init, log, |pre|);
        OpeningRun(init, ioctl, reader, writer, plan.pos, quantum, qset);
        NotSerial(init, reader, writer, s0.store.quantum, s0.store.qset, qset, log, |pre|, fill, s.replies);
        assert false;
      }
    }
  }

  /** From every state in which the sizes of the device are not the global ones, whatever the device holds, an
      execution of two processes with a truncation goes wrong. */
  lemma SizesDiffer(rules: Rules, s0: State, reader: Pid, writer: Pid) returns (s: State)
    requires Initial(s0) && rules.truncate && reader in s0.procs && writer in s0.procs && reader != writer
    requires s0.store.quantum != s0.quantum || s0.store.qset != s0.qset
    ensures Reachable(rules, s0, s) && !Explained(s0, s)
  {
    hide Choose, Reachable, Chunk, StaleReply, Explained;
    var plan := Choose(s0.store.quantum, s0.store.qset, s0.quantum, s0.qset);
    ChosenInRange(s0.store.quantum, s0.store.qset, s0.quantum, s0.qset);
    ReachSelf(rules, s0);
    Moves(rules, s0, s0, reader, writer, plan.pos);
    var reply;
    s, reply := GoesWrong(rules, s0, Moved(s0, reader, writer, plan.pos), reader, writer, plan);
    Unexplained(s0, s, reader, writer, plan, [], s0.quantum, s0.qset, Zeros(s0.quantum));
  }

  /** If the sizes can be changed, so does one that starts with an ioctl, from every state. */
  lemma SizesChange(rules: Rules, s0: State, reader: Pid, writer: Pid) returns (s: State)
    requires Initial(s0) && rules.truncate && rules.configure
    requires reader in s0.procs && writer in s0.procs && reader != writer
    ensures Reachable(rules, s0, s) && !Explained(s0, s)
  {
    hide Choose, Reachable, Chunk, StaleReply, Explained;
    var quantum, qset := if s0.store.quantum == 1 then 2 else 1, 1;
    var plan := Choose(s0.store.quantum, s0.store.qset, quantum, qset);
    ChosenInRange(s0.store.quantum, s0.store.qset, quantum, qset);
    ReachSelf(rules, s0);
    var s1 := Next(s0, reader, Configure(quantum, qset)).value;
    ReachSnoc(rules, s0, s0, reader, Configure(quantum, qset), s1);
    Moves(rules, s0, s1, reader, writer, plan.pos);
    var reply;
    s, reply := GoesWrong(rules, s0, Moved(s1, reader, writer, plan.pos), reader, writer, plan);
    Unexplained(s0, s, reader, writer, plan, s1.log, quantum, qset, Zeros(quantum));
  }

  lemma TwoProcesses(s: State) returns (p: Pid, p': Pid)
    requires 1 < |s.procs|
    ensures p in s.procs && p' in s.procs && p != p'
  {
    assert |s.procs.Keys| == |s.procs|;
    p :| p in s.procs.Keys;
    assert |s.procs.Keys - {p}| == |s.procs.Keys| - 1;
    p' :| p' in s.procs.Keys - {p};
  }

  /** The exact condition, for every state to start from. Every execution gives the replies of a serial run in
      lock order if and only if nothing truncates, or the device has the global sizes and no ioctl changes
      them, or there is at most one process. */
  lemma SerialisableExactly(rules: Rules, s0: State)
    requires Initial(s0)
    ensures (forall s | Reachable(rules, s0, s) :: Explained(s0, s)) <==> Steady(rules, s0)
  {
    hide Explained, Initial, Reachable;
    if Steady(rules, s0) {
      forall s | Reachable(rules, s0, s)
        ensures Explained(s0, s)
      {
        SteadyExplained(rules, s0, s);
      }
    } else {
      var reader, writer := TwoProcesses(s0);
      if rules.configure {
        var s := SizesChange(rules, s0, reader, writer);
      } else {
        var s := SizesDiffer(rules, s0, reader, writer);
      }
    }
  }
}
