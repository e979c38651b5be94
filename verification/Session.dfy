/** Whole sessions on the heap: any list of calls, issued one after another through one open file, is a
    run of the flat file in which every call is answered, and the allocator's books balance throughout. */
module Session {
  import opened Geometry
  import opened FlatFile
  import opened Structure
  import opened Refinement
  import opened Runs
  import opened OpenFile
  import opened Device
  import opened Memory
  import opened Wrappers

  datatype Call =
    | CallRead(count: int)
    | CallWrite(data: seq<byte>)
    | CallSeek(off: int, whence: int)
    | CallTruncate
    | CallConfigure(quantum: int, qset: int)

  /** Arguments a caller may pass: counts and offsets that fit their types, positive sizes. */
  predicate Legal(c: Call) {
    match c
    case CallRead(count) => 0 <= count <= LONG_MAX
    case CallSeek(off, _) => -LONG_MAX - 1 <= off <= LONG_MAX
    case CallConfigure(q, n) => ValidGeometry(q, n)
    case _ => true
  }

  // ----- what it means to answer calls

  const INTERRUPTED := Outcome(-ERESTARTSYS, [])

  /** The file position after a call, given what the call returned. */
  function Moved(pos: int, c: Call, reply: Outcome): int {
    match c
    case CallRead(_) => pos + Max(0, reply.ret)
    case CallWrite(_) => pos + Max(0, reply.ret)
    case CallSeek(_, _) => if 0 <= reply.ret then reply.ret else pos
    case _ => pos
  }

  /** Whether a seek succeeds, and where it ends up. */
  function SeekReply(pos: int, size: int, off: int, whence: int): Outcome {
    var target := if whence == SEEK_CUR then pos + off else if whence == SEEK_END then size + off else off;
    if whence in {SEEK_SET, SEEK_CUR, SEEK_END} && 0 <= target <= LONG_MAX then Outcome(target, [])
    else Outcome(-EINVAL, [])
  }

  ghost predicate Happened(s: FlatSystem, e: Event, reply: Outcome)
    requires FlatInvariant(s)
  {
    FlatEnabled(s, e) && reply == FlatReply(s, e)
  }

  /** The call `c`, made at position `pos` on the flat file `s`, happened as the event `e` (or not at all,
      if a signal interrupted it) and returned `reply`. */
  ghost predicate Answered(s: FlatSystem, pos: int, c: Call, e: Option<Event>, reply: Outcome)
    requires FlatInvariant(s)
  {
    match c
    case CallRead(count) =>
      || (e == None && reply == INTERRUPTED)
      || (e.Some? && e.value.DoRead? && e.value == DoRead(pos, count, e.value.faulty) && Happened(s, e.value, reply)
          && 0 <= pos && 0 <= count && reply == Read(s.file, pos, count, e.value.faulty))
    case CallWrite(data) =>
      || (e == None && reply == INTERRUPTED)
      || (e.Some? && e.value.DoWrite? && e.value == DoWrite(pos, data, e.value.luck) && Happened(s, e.value, reply)
          && reply == Outcome(WriteRet(pos, |data|, s.file.quantum, e.value.luck), []))
    case CallTruncate =>
      || (e == None && reply == INTERRUPTED)
      || (e == Some(DoTrim) && Happened(s, DoTrim, reply) && reply == Outcome(0, []))
    case CallSeek(off, whence) => e == None && reply == SeekReply(pos, s.file.size, off, whence)
    case CallConfigure(q, n) =>
      e == Some(Configure(q, n)) && Happened(s, e.value, reply) && reply == Outcome(0, [])
  }

  /** The call went through: no interruption, no lack of memory, no fault. */
  predicate Smooth(c: Call, e: Option<Event>) {
    || c.CallSeek?
    || (e.Some? && (e.value.DoWrite? ==> e.value.luck.Copied?) && (e.value.DoRead? ==> !e.value.faulty))
  }

  /** The events that happened. */
  function Trace(es: seq<Option<Event>>): seq<Event> {
    if es == [] then [] else
      var last := es[|es| - 1];
      Trace(es[..|es| - 1]) + if last.Some? then [last.value] else []
  }

  function PosAfter(pos: int, calls: seq<Call>, replies: seq<Outcome>): int
    requires |calls| == |replies|
  {
    if calls == [] then pos else
      var n := |calls| - 1;
      Moved(PosAfter(pos, calls[..n], replies[..n]), calls[n], replies[n])
  }

  /** Each of the calls was answered, in order: on the flat file as the earlier ones left it, at the
      position they left behind. */
  ghost predicate Answers(s: FlatSystem, pos: int, calls: seq<Call>, es: seq<Option<Event>>, replies: seq<Outcome>)
    requires FlatInvariant(s)
  {
    |es| == |replies| == |calls| &&
    (calls == [] ||
     var n := |calls| - 1;
     && Answers(s, pos, calls[..n], es[..n], replies[..n])
     && FlatRunnable(s, Trace(es[..n]))
     && FlatInvariant(FlatRun(s, Trace(es[..n])))
     && Answered(FlatRun(s, Trace(es[..n])), PosAfter(pos, calls[..n], replies[..n]), calls[n], es[n], replies[n]))
  }

  lemma AnswersSnoc(s: FlatSystem, pos: int, calls: seq<Call>, es: seq<Option<Event>>, replies: seq<Outcome>,
                    c: Call, e: Option<Event>, reply: Outcome)
    requires FlatInvariant(s) && Answers(s, pos, calls, es, replies)
    requires FlatRunnable(s, Trace(es)) && FlatInvariant(FlatRun(s, Trace(es)))
    requires Answered(FlatRun(s, Trace(es)), PosAfter(pos, calls, replies), c, e, reply)
    ensures Answers(s, pos, calls + [c], es + [e], replies + [reply])
    ensures Trace(es + [e]) == Trace(es) + if e.Some? then [e.value] else []
    ensures PosAfter(pos, calls + [c], replies + [reply]) == Moved(PosAfter(pos, calls, replies), c, reply)
  {
    hide FlatRun, FlatRunnable, Answered, Moved, FlatInvariant;
    var calls', es', replies' := calls + [c], es + [e], replies + [reply];
    assert calls'[..|calls|] == calls && es'[..|es|] == es && replies'[..|replies|] == replies;
  }

  // ----- what the kernel refused

  function IfSo(b: bool): int {
    if b then 1 else 0
  }

  /** A call waits for the kernel, unless it is a seek or an ioctl, and its reply tells what it was refused. */
  ghost predicate Told(t: Tally, c: Call, reply: Outcome, t': Tally) {
    && t'.waits == t.waits + IfSo(c.CallRead? || c.CallWrite? || c.CallTruncate?)
    && t'.interrupts == t.interrupts + IfSo(reply.ret == -ERESTARTSYS)
    && t'.shortages == t.shortages + IfSo(reply.ret == -ENOMEM)
    && t'.faults == t.faults + IfSo(reply.ret == -EFAULT)
  }

  /** How many of the replies are `ret`. */
  function Times(replies: seq<Outcome>, ret: int): int {
    if replies == [] then 0 else
      var n := |replies| - 1;
      Times(replies[..n], ret) + IfSo(replies[n].ret == ret)
  }

  /** The replies tell every interruption, shortage and fault, once each. */
  ghost predicate AllTold(t: Tally, replies: seq<Outcome>, t': Tally) {
    && t'.interrupts == t.interrupts + Times(replies, -ERESTARTSYS)
    && t'.shortages == t.shortages + Times(replies, -ENOMEM)
    && t'.faults == t.faults + Times(replies, -EFAULT)
  }

  lemma NothingTold(t: Tally)
    ensures AllTold(t, [], t)
  {
  }

  lemma TimesSnoc(replies: seq<Outcome>, reply: Outcome, ret: int)
    ensures Times(replies + [reply], ret) == Times(replies, ret) + IfSo(reply.ret == ret)
  {
    var longer := replies + [reply];
    assert longer[..|longer| - 1] == replies && longer[|longer| - 1] == reply;
  }

  lemma ToldSnoc(t: Tally, replies: seq<Outcome>, now: Tally, c: Call, reply: Outcome, now': Tally)
    requires AllTold(t, replies, now) && Told(now, c, reply, now')
    ensures AllTold(t, replies + [reply], now')
  {
    hide Times, IfSo;
    TimesSnoc(replies, reply, -ERESTARTSYS);
    TimesSnoc(replies, reply, -ENOMEM);
    TimesSnoc(replies, reply, -EFAULT);
  }

  // ----- the calls on the heap

  /** The device and the globals before and after a call that happened as `e`. */
  ghost predicate Steps(s: System, e: Option<Event>, s': System)
    requires Invariant(s)
  {
    if e.None? then s' == s else Enabled(s, e.value) && Step(s, e.value) == s'
  }

  /** A reply of the structure is one of the flat file. */
  lemma StepAnswers(s: System, e: Event, reply: Outcome)
    requires Invariant(s) && Enabled(s, e) && reply == Reply(s, e)
    ensures FlatInvariant(Forget(s)) && Happened(Forget(s), e, reply)
    ensures match e
            case DoRead(pos, count, faulty) =>
              0 <= pos && 0 <= count && reply == Read(Forget(s).file, pos, count, faulty)
            case DoWrite(pos, data, luck) =>
              reply == Outcome(WriteRet(pos, |data|, Forget(s).file.quantum, luck), [])
            case _ => reply == Outcome(0, [])
  {
    StepRefines(s, e);
  }

  lemma ForgetInvariant(s: System)
    requires Invariant(s)
    ensures Shaped(s.store) && FlatInvariant(Forget(s)) && Forget(s).file.size == s.store.size
  {
    FlattenValid(s.store);
  }

  lemma WriteTells(t: Tally, data: seq<byte>, reply: Outcome, t': Tally)
    requires t' == WriteTally(t, reply.ret) && (reply.ret < 0 ==> reply.ret in {-ERESTARTSYS, -ENOMEM, -EFAULT})
    ensures Told(t, CallWrite(data), reply, t')
  {
  }

  lemma OpenTells(t: Tally, reply: Outcome, t': Tally)
    requires reply.ret in {0, -ERESTARTSYS} && t' == t.Waited(reply.ret == -ERESTARTSYS)
    ensures Told(t, CallTruncate, reply, t')
  {
  }

  lemma NothingRefused(t: Tally, c: Call, reply: Outcome)
    requires (c.CallSeek? || c.CallConfigure?) && (0 <= reply.ret || reply.ret == -EINVAL)
    ensures Told(t, c, reply, t)
  {
  }

  lemma ReadTells(t: Tally, st: Store, pos: int, count: int, reply: Outcome, t': Tally)
    requires WellFormed(st) && 0 <= pos && t' == ReadTally(t, st, pos, reply.ret)
    requires reply.ret < 0 ==> reply.ret in {-ERESTARTSYS, -EFAULT}
    requires reply.ret == -EFAULT <==> t'.faults == t.faults + 1
    ensures Told(t, CallRead(count), reply, t')
  {
    hide Locate, WellFormed;
  }

  /** One call. The position of a write must be addressable. */
  method Issue(file: OpenFile, quantum: int, qset: int, c: Call)
    returns (quantum': int, qset': int, reply: Outcome, ghost e: Option<Event>)
    requires file.dev.Valid() && file.dev.sem == 1 && 0 <= file.fPos <= LONG_MAX
    requires ValidGeometry(quantum, qset) && Legal(c)
    requires c.CallWrite? ==> InRange(file.fPos, file.dev.quantum, file.dev.qset)
    requires Invariant(System(file.dev.View(), quantum, qset))
    requires FlatInvariant(Forget(System(file.dev.View(), quantum, qset)))
    modifies file`fPos, file.dev, file.dev.Items(), file.dev.arrays.Values, file.dev.quanta.Values
    modifies file.dev.slab
    ensures file.dev.Valid() && file.dev.sem == 1 && file.dev.Grown() && ValidGeometry(quantum', qset')
    ensures 0 <= file.fPos <= LONG_MAX && file.fPos == Moved(old(file.fPos), c, reply)
    ensures file.dev.slab.live - file.dev.Owned() == old(file.dev.slab.live - file.dev.Owned())
    ensures file.dev.slab.calm ==> Smooth(c, e)
    ensures Told(old(file.dev.slab.tally), c, reply, file.dev.slab.tally)
    ensures var s := System(old(file.dev.View()), quantum, qset);
            && Answered(Forget(s), old(file.fPos), c, e, reply)
            && Steps(s, e, System(file.dev.View(), quantum', qset'))
  {
    hide WellFormed, Shaped, Blocks, Locate, InRange, Possible, WriteStore, WriteRet, ReadStore, ReadCode,
         WriteCode;
    hide Flatten, FlatInvariant, FlatEnabled, FlatReply, Happened, Read, Told, WriteTally, ReadTally;
    hide Device.Valid, Device.Owned;
    ghost var s := System(file.dev.View(), quantum, qset);
    quantum', qset', e := quantum, qset, None;
    match c
    case CallRead(count) =>
      ghost var pos := file.fPos;
      ghost var tally := file.dev.slab.tally;
      var ret, buf, faulty := file.Read(count);
      reply := Outcome(ret, buf);
      ReadTells(tally, s.store, pos, count, reply, file.dev.slab.tally);
      if ret != -ERESTARTSYS {
        e := Some(DoRead(pos, count, faulty));
        StepAnswers(s, e.value, reply);
      }
    case CallWrite(data) =>
      ghost var pos := file.fPos;
      file.dev.Sound();
      Addressable(pos, file.dev.quantum, file.dev.qset);
      ghost var tally := file.dev.slab.tally;
      var ret, luck := file.Write(data);
      reply := Outcome(ret, []);
      WriteTells(tally, data, reply, file.dev.slab.tally);
      if ret != -ERESTARTSYS {
        e := Some(DoWrite(pos, data, luck));
        StepAnswers(s, e.value, reply);
      }
    case CallSeek(off, whence) =>
      ForgetInvariant(s);
      var ret := file.Llseek(off, whence);
      reply := Outcome(ret, []);
      NothingRefused(file.dev.slab.tally, c, reply);
    case CallTruncate =>
      ghost var tally := file.dev.slab.tally;
      var ret := file.Open(true, quantum, qset);
      reply := Outcome(ret, []);
      OpenTells(tally, reply, file.dev.slab.tally);
      if ret == 0 {
        e := Some(DoTrim);
        StepAnswers(s, DoTrim, reply);
      }
    case CallConfigure(q, n) =>
      quantum', qset', reply, e := q, n, Outcome(0, []), Some(Configure(q, n));
      StepAnswers(s, e.value, reply);
      NothingRefused(file.dev.slab.tally, c, reply);
  }

  lemma RunIsFlat(s: System, es: seq<Event>)
    requires Invariant(s) && Runnable(s, es) && Invariant(Run(s, es))
    ensures Shaped(s.store) && FlatInvariant(Forget(s)) && FlatRunnable(Forget(s), es)
    ensures WellFormed(Run(s, es).store) && Shaped(Run(s, es).store)
    ensures FlatRun(Forget(s), es) == Forget(Run(s, es)) && FlatInvariant(Forget(Run(s, es)))
  {
    RunRefines(s, es);
    FlattenValid(Run(s, es).store);
  }

  /** The calls so far have been answered, and have brought the device, the globals and the position to
      `now` and `fPos`. */
  ghost predicate Served(s: System, pos: int, calls: seq<Call>, es: seq<Option<Event>>, replies: seq<Outcome>,
                         now: System, fPos: int)
  {
    && Invariant(s) && FlatInvariant(Forget(s))
    && Answers(Forget(s), pos, calls, es, replies)
    && fPos == PosAfter(pos, calls, replies)
    && Runnable(s, Trace(es)) && Run(s, Trace(es)) == now && Invariant(now)
    && FlatRunnable(Forget(s), Trace(es)) && FlatRun(Forget(s), Trace(es)) == Forget(now)
  }

  lemma ServedSnoc(s: System, pos: int, calls: seq<Call>, es: seq<Option<Event>>, replies: seq<Outcome>,
                   now: System, fPos: int, c: Call, e: Option<Event>, reply: Outcome, now': System)
    requires Served(s, pos, calls, es, replies, now, fPos)
    requires FlatInvariant(Forget(now)) && Answered(Forget(now), fPos, c, e, reply) && Steps(now, e, now')
    ensures Served(s, pos, calls + [c], es + [e], replies + [reply], now', Moved(fPos, c, reply))
  {
    hide WellFormed, Shaped, Flatten, FlatRun, FlatRunnable, FlatInvariant, Answers, Answered, Moved;
    hide Run, Runnable, Step, Trace, PosAfter;
    ForgetInvariant(s);
    ForgetInvariant(now);
    AnswersSnoc(Forget(s), pos, calls, es, replies, c, e, reply);
    if e.Some? {
      RunSnoc(s, Trace(es), e.value);
    } else {
      assert Trace(es) + [] == Trace(es);
    }
    RunIsFlat(s, Trace(es + [e]));
  }

  lemma NothingServed(s: System, pos: int)
    requires Invariant(s)
    ensures Served(s, pos, [], [], [], s, pos)
  {
    FlattenValid(s.store);
  }

  lemma ServedFacts(s: System, pos: int, calls: seq<Call>, es: seq<Option<Event>>, replies: seq<Outcome>,
                    now: System, fPos: int)
    requires Served(s, pos, calls, es, replies, now, fPos)
    ensures |es| == |replies| == |calls|
    ensures Invariant(now) && FlatInvariant(Forget(now))
  {
    FlattenValid(now.store);
  }

  /** Issues the calls in order, and stops early only before a write from a position that is not
      addressable. `es` records what the environment decided in each call. */
  method Serve(file: OpenFile, quantum: int, qset: int, calls: seq<Call>)
    returns (quantum': int, qset': int, replies: seq<Outcome>, ghost es: seq<Option<Event>>)
    requires file.dev.Valid() && file.dev.sem == 1 && 0 <= file.fPos <= LONG_MAX
    requires ValidGeometry(quantum, qset) && forall c <- calls :: Legal(c)
    modifies file`fPos, file.dev, file.dev.Items(), file.dev.arrays.Values, file.dev.quanta.Values
    modifies file.dev.slab
    ensures file.dev.Valid() && file.dev.sem == 1
    ensures file.dev.slab.live - file.dev.Owned() == old(file.dev.slab.live - file.dev.Owned())
    ensures |es| == |replies| <= |calls|
    ensures |replies| < |calls| ==>
              calls[|replies|].CallWrite? && !InRange(file.fPos, file.dev.quantum, file.dev.qset)
    ensures file.dev.slab.calm ==> forall i | 0 <= i < |es| :: Smooth(calls[i], es[i])
    ensures AllTold(old(file.dev.slab.tally), replies, file.dev.slab.tally)
    ensures Served(System(old(file.dev.View()), quantum, qset), old(file.fPos), calls[..|replies|], es, replies,
                   System(file.dev.View(), quantum', qset'), file.fPos)
  {
    hide WellFormed, Blocks, Flatten, FlatInvariant, Served, Answered, Moved, Steps, Legal, InRange, Smooth;
    hide Told, AllTold;
    hide Device.Valid, Device.View, Device.Owned;
    var dev := file.dev;
    dev.Sound();
    ghost var s, pos := System(dev.View(), quantum, qset), file.fPos;
    quantum', qset', replies, es := quantum, qset, [], [];
    NothingServed(s, pos);
    NothingTold(dev.slab.tally);
    for i := 0 to |calls|
      invariant dev.Valid() && dev.sem == 1 && dev.Grown() && 0 <= file.fPos <= LONG_MAX
      invariant ValidGeometry(quantum', qset') && |replies| == |es| == i
      invariant dev.slab.live - dev.Owned() == old(dev.slab.live - dev.Owned())
      invariant dev.slab.calm ==> forall j | 0 <= j < i :: Smooth(calls[j], es[j])
      invariant AllTold(old(dev.slab.tally), replies, dev.slab.tally)
      invariant Served(s, pos, calls[..i], es, replies, System(dev.View(), quantum', qset'), file.fPos)
    {
      if calls[i].CallWrite? && !InRange(file.fPos, dev.quantum, dev.qset) {
        return;
      }
      ghost var now, fPos, tally := System(dev.View(), quantum', qset'), file.fPos, dev.slab.tally;
      ServedFacts(s, pos, calls[..i], es, replies, now, fPos);
      var reply;
      ghost var e;
      quantum', qset', reply, e := Issue(file, quantum', qset', calls[i]);
      ServedSnoc(s, pos, calls[..i], es, replies, now, fPos, calls[i], e, reply, System(dev.View(), quantum', qset'));
      ToldSnoc(old(dev.slab.tally), replies, tally, calls[i], reply, dev.slab.tally);
      assert calls[..i + 1] == calls[..i] + [calls[i]];
      replies, es := replies + [reply], es + [e];
    }
    assert calls[..|calls|] == calls;
  }
}
