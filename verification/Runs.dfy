/** Sequential runs: any mix of reads, writes, truncating opens and changes of the two global sizes. */
module Runs {
  import opened Geometry
  import opened FlatFile
  import opened Structure
  import opened Refinement

  /** One call. Positions are free, as `llseek` can set them to anything; `Configure` is what the
      resizing ioctls do. */
  datatype Event =
    | DoRead(pos: int, count: int, faulty: bool)
    | DoWrite(pos: int, data: seq<byte>, luck: WriteLuck)
    | DoTrim
    | Configure(newQuantum: int, newQset: int)

  /** A device and the globals `scull_quantum` and `scull_qset`. */
  datatype System = System(store: Store, quantum: int, qset: int)

  ghost predicate Invariant(s: System) {
    WellFormed(s.store) && ValidGeometry(s.quantum, s.qset)
  }

  predicate Enabled(s: System, e: Event)
    requires ValidGeometry(s.store.quantum, s.store.qset)
  {
    match e
    case DoRead(pos, count, _) => 0 <= pos && 0 <= count
    case DoWrite(pos, data, luck) =>
      InRange(pos, s.store.quantum, s.store.qset) && Possible(s.store, pos, |data|, luck)
    case DoTrim => true
    case Configure(q, n) => ValidGeometry(q, n)
  }

  function Step(s: System, e: Event): System
    requires Invariant(s) && Enabled(s, e)
  {
    match e
    case DoRead(_, _, _) => s
    case DoWrite(pos, data, luck) => s.(store := WriteStore(s.store, pos, data, luck))
    case DoTrim => s.(store := Fresh(s.quantum, s.qset))
    case Configure(q, n) => s.(quantum := q, qset := n)
  }

  function Reply(s: System, e: Event): Outcome
    requires Invariant(s) && Enabled(s, e)
  {
    match e
    case DoRead(pos, count, faulty) => ReadStore(s.store, pos, count, faulty)
    case DoWrite(pos, data, luck) => Outcome(WriteRet(pos, |data|, s.store.quantum, luck), [])
    case _ => Outcome(0, [])
  }

  /** Every call of the run is one the environment can make, in the state it is made in. */
  ghost predicate Runnable(s: System, es: seq<Event>)
    requires Invariant(s)
    decreases |es|, 0
  {
    es == [] ||
    var n := |es| - 1;
    && Runnable(s, es[..n])
    && Invariant(Run(s, es[..n]))
    && Enabled(Run(s, es[..n]), es[n])
  }

  ghost function Run(s: System, es: seq<Event>): System
    requires Invariant(s) && Runnable(s, es)
    decreases |es|, 1
  {
    if es == [] then s else Step(Run(s, es[..|es| - 1]), es[|es| - 1])
  }

  /** What the callers got, in order; a change of the globals has no reply. */
  ghost function Replies(s: System, es: seq<Event>): seq<Outcome>
    requires Invariant(s) && Runnable(s, es)
    decreases |es|
  {
    if es == [] then [] else
      var n := |es| - 1;
      Replies(s, es[..n]) + if es[n].Configure? then [] else [Reply(Run(s, es[..n]), es[n])]
  }

  lemma StepInvariant(s: System, e: Event)
    requires Invariant(s) && Enabled(s, e)
    ensures Invariant(Step(s, e))
  {
    if e.DoWrite? {
      WriteWellFormed(s.store, e.pos, e.data, e.luck);
    }
  }

  lemma NothingRun(s: System)
    requires Invariant(s)
    ensures Runnable(s, []) && Run(s, []) == s && Replies(s, []) == []
  {
  }

  /** The last step of a run. */
  lemma RunLast(s: System, es: seq<Event>)
    requires Invariant(s) && Runnable(s, es) && es != []
    ensures var n := |es| - 1;
            && Runnable(s, es[..n]) && Invariant(Run(s, es[..n])) && Enabled(Run(s, es[..n]), es[n])
            && Run(s, es) == Step(Run(s, es[..n]), es[n])
            && Replies(s, es)
               == Replies(s, es[..n]) + if es[n].Configure? then [] else [Reply(Run(s, es[..n]), es[n])]
  {
    hide Step, Reply, Enabled, Invariant;
  }

  /** A run with one more step. */
  lemma RunSnoc(s: System, es: seq<Event>, e: Event)
    requires Invariant(s) && Runnable(s, es) && Invariant(Run(s, es)) && Enabled(Run(s, es), e)
    ensures Runnable(s, es + [e])
    ensures Run(s, es + [e]) == Step(Run(s, es), e) && Invariant(Run(s, es + [e]))
    ensures Replies(s, es + [e]) == Replies(s, es) + if e.Configure? then [] else [Reply(Run(s, es), e)]
  {
    hide Step, Reply, Enabled, Invariant;
    var run := es + [e];
    assert run[..|run| - 1] == es && run[|run| - 1] == e;
    StepInvariant(Run(s, es), e);
  }

  // ----- the same runs on the flat file

  /** The flat file and the global quantum; the global number of slots plays no part. */
  datatype FlatSystem = FlatSystem(file: Flat, quantum: int)

  ghost predicate FlatInvariant(s: FlatSystem) {
    Valid(s.file) && 0 < s.quantum
  }

  predicate FlatEnabled(s: FlatSystem, e: Event)
    requires 0 < s.file.quantum
  {
    match e
    case DoRead(pos, count, _) => 0 <= pos && 0 <= count
    case DoWrite(pos, data, luck) => 0 <= pos && LuckFits(pos, |data|, s.file.quantum, luck)
    case DoTrim => true
    case Configure(q, _) => 0 < q
  }

  function FlatStep(s: FlatSystem, e: Event): FlatSystem
    requires FlatInvariant(s) && FlatEnabled(s, e)
  {
    match e
    case DoRead(_, _, _) => s
    case DoWrite(pos, data, luck) => s.(file := Write(s.file, pos, data, luck))
    case DoTrim => s.(file := Trim(s.quantum))
    case Configure(q, _) => s.(quantum := q)
  }

  function FlatReply(s: FlatSystem, e: Event): Outcome
    requires FlatInvariant(s) && FlatEnabled(s, e)
  {
    match e
    case DoRead(pos, count, faulty) => Read(s.file, pos, count, faulty)
    case DoWrite(pos, data, luck) => Outcome(WriteRet(pos, |data|, s.file.quantum, luck), [])
    case _ => Outcome(0, [])
  }

  ghost predicate FlatRunnable(s: FlatSystem, es: seq<Event>)
    requires FlatInvariant(s)
    decreases |es|, 0
  {
    es == [] ||
    var n := |es| - 1;
    && FlatRunnable(s, es[..n])
    && FlatInvariant(FlatRun(s, es[..n]))
    && FlatEnabled(FlatRun(s, es[..n]), es[n])
  }

  ghost function FlatRun(s: FlatSystem, es: seq<Event>): FlatSystem
    requires FlatInvariant(s) && FlatRunnable(s, es)
    decreases |es|, 1
  {
    if es == [] then s else FlatStep(FlatRun(s, es[..|es| - 1]), es[|es| - 1])
  }

  ghost function FlatReplies(s: FlatSystem, es: seq<Event>): seq<Outcome>
    requires FlatInvariant(s) && FlatRunnable(s, es)
    decreases |es|
  {
    if es == [] then [] else
      var n := |es| - 1;
      FlatReplies(s, es[..n]) + if es[n].Configure? then [] else [FlatReply(FlatRun(s, es[..n]), es[n])]
  }

  lemma FlatStepInvariant(s: FlatSystem, e: Event)
    requires FlatInvariant(s) && FlatEnabled(s, e)
    ensures FlatInvariant(FlatStep(s, e))
  {
    if e.DoWrite? {
      WriteValid(s.file, e.pos, e.data, e.luck);
    }
  }

  lemma {:induction false} FlatRunInvariant(s: FlatSystem, es: seq<Event>)
    requires FlatInvariant(s) && FlatRunnable(s, es)
    ensures FlatInvariant(FlatRun(s, es))
  {
    if es != [] {
      var n := |es| - 1;
      FlatStepInvariant(FlatRun(s, es[..n]), es[n]);
    }
  }

  // ----- refinement of whole runs

  function Forget(s: System): FlatSystem
    requires Shaped(s.store)
  {
    FlatSystem(Flatten(s.store), s.quantum)
  }

  lemma StepRefines(s: System, e: Event)
    requires Invariant(s) && Enabled(s, e)
    ensures Invariant(Step(s, e))
    ensures FlatInvariant(Forget(s)) && FlatEnabled(Forget(s), e)
    ensures Forget(Step(s, e)) == FlatStep(Forget(s), e)
    ensures Reply(s, e) == FlatReply(Forget(s), e)
  {
    StepInvariant(s, e);
    FlattenValid(s.store);
    match e
    case DoRead(pos, count, faulty) => ReadRefines(s.store, pos, count, faulty);
    case DoWrite(pos, data, luck) => WriteRefines(s.store, pos, data, luck);
    case DoTrim => FreshRefines(s.quantum, s.qset);
    case Configure(_, _) =>
  }

  /** Every run of the three-level device, whatever fails in it, keeps the structural invariant and is a
      run of the flat file: same final contents, same replies. */
  lemma {:induction false} RunRefines(s: System, es: seq<Event>)
    requires Invariant(s) && Runnable(s, es)
    ensures Invariant(Run(s, es))
    ensures FlatInvariant(Forget(s)) && FlatRunnable(Forget(s), es)
    ensures Forget(Run(s, es)) == FlatRun(Forget(s), es)
    ensures Replies(s, es) == FlatReplies(Forget(s), es)
    decreases |es|
  {
    FlattenValid(s.store);
    if es != [] {
      var n := |es| - 1;
      RunRefines(s, es[..n]);
      StepRefines(Run(s, es[..n]), es[n]);
    }
  }
}
