/** What a whole sequential run guarantees: which write a byte comes from, that files written without
    seeking past the end have no holes, and when a change of the global sizes takes effect. */
module History {
  import opened Geometry
  import opened FlatFile
  import opened Structure
  import opened Refinement
  import opened Runs
  import Loops

  // ----- the latest write

  /** The byte that the most recent successful write since the last truncation put at `p`, found by
      searching the calls backwards. `None` if there is none, or if a faulting write covered `p` since. */
  datatype Latest = None | Written(value: byte)

  ghost function LatestAt(s: FlatSystem, es: seq<Event>, p: int): Latest
    requires FlatInvariant(s) && FlatRunnable(s, es)
    decreases |es|
  {
    if es == [] then None else
      var n := |es| - 1;
      var earlier := LatestAt(s, es[..n], p);
      match es[n]
      case DoTrim => None
      case DoWrite(pos, data, luck) =>
        var k := WriteRet(pos, |data|, FlatRun(s, es[..n]).file.quantum, luck);
        if luck.Copied? && Within(p, pos, k) then Written(data[p - pos])
        else if luck.Faulted? && Within(p, pos, |luck.garble|) then None
        else earlier
      case _ => earlier
  }

  lemma {:induction false} PrefixRuns(s: FlatSystem, es: seq<Event>, i: int)
    requires FlatInvariant(s) && FlatRunnable(s, es) && 0 <= i <= |es|
    ensures FlatRunnable(s, es[..i]) && FlatInvariant(FlatRun(s, es[..i]))
    decreases |es|
  {
    if i < |es| {
      PrefixRuns(s, es[..|es| - 1], i);
      assert es[..|es| - 1][..i] == es[..i];
    } else {
      assert es[..i] == es;
      FlatRunInvariant(s, es);
    }
  }

  /** Call number `i` of the run is a successful write that covers `p`. */
  ghost predicate Puts(s: FlatSystem, es: seq<Event>, i: int, p: int)
    requires FlatInvariant(s) && FlatRunnable(s, es) && 0 <= i < |es|
  {
    PrefixRuns(s, es, i);
    && es[i].DoWrite? && es[i].luck.Copied?
    && Within(p, es[i].pos, Chunk(es[i].pos, |es[i].data|, FlatRun(s, es[..i]).file.quantum))
  }

  /** It takes away what was at `p`: it truncates, writes there, or faults there. */
  ghost predicate Clears(s: FlatSystem, es: seq<Event>, i: int, p: int)
    requires FlatInvariant(s) && FlatRunnable(s, es) && 0 <= i < |es|
  {
    || es[i].DoTrim?
    || Puts(s, es, i, p)
    || (es[i].DoWrite? && es[i].luck.Faulted? && Within(p, es[i].pos, |es[i].luck.garble|))
  }

  lemma ClearsPut(s: FlatSystem, es: seq<Event>, i: int, p: int)
    requires FlatInvariant(s) && FlatRunnable(s, es) && 0 <= i < |es| && Puts(s, es, i, p)
    ensures Clears(s, es, i, p)
  {
  }

  lemma SameCall(s: FlatSystem, es: seq<Event>, n: int, i: int, p: int)
    requires FlatInvariant(s) && FlatRunnable(s, es) && 0 <= i < n <= |es|
    ensures FlatRunnable(s, es[..n])
    ensures Puts(s, es[..n], i, p) == Puts(s, es, i, p) && Clears(s, es[..n], i, p) == Clears(s, es, i, p)
  {
    PrefixRuns(s, es, n);
    assert es[..n][..i] == es[..i];
  }

  /** Call `i` put a byte at `p` and no later call clears it. */
  ghost predicate PutsLast(s: FlatSystem, es: seq<Event>, i: int, p: int)
    requires FlatInvariant(s) && FlatRunnable(s, es) && 0 <= i < |es|
  {
    Puts(s, es, i, p) && forall j | i < j < |es| :: !Clears(s, es, j, p)
  }

  lemma PutsLastBefore(s: FlatSystem, es: seq<Event>, i: int, p: int)
    requires FlatInvariant(s) && FlatRunnable(s, es) && 0 <= i < |es| - 1
    ensures FlatRunnable(s, es[..|es| - 1])
    ensures PutsLast(s, es, i, p) <==> PutsLast(s, es[..|es| - 1], i, p) && !Clears(s, es, |es| - 1, p)
  {
    hide Puts, Clears, FlatRunnable;
    var n := |es| - 1;
    PrefixRuns(s, es, n);
    SameCall(s, es, n, i, p);
    forall j | i < j < n
      ensures Clears(s, es[..n], j, p) == Clears(s, es, j, p)
    {
      SameCall(s, es, n, j, p);
    }
  }

  /** One step of the backwards search. */
  lemma SearchStep(s: FlatSystem, es: seq<Event>, p: int)
    requires FlatInvariant(s) && FlatRunnable(s, es) && es != []
    ensures var n := |es| - 1;
            LatestAt(s, es, p) == if Puts(s, es, n, p) then Written(es[n].data[p - es[n].pos])
                                  else if Clears(s, es, n, p) then None
                                  else LatestAt(s, es[..n], p)
  {
  }

  /** What the backwards search finds, said forwards: call `i` put the latest byte at `p` if it covers
      `p` and no later call clears it. */
  lemma {:induction false} LatestIs(s: FlatSystem, es: seq<Event>, i: int, p: int)
    requires FlatInvariant(s) && FlatRunnable(s, es) && 0 <= i < |es| && PutsLast(s, es, i, p)
    ensures Puts(s, es, i, p) && LatestAt(s, es, p) == Written(es[i].data[p - es[i].pos])
    decreases |es|
  {
    hide LatestAt, Puts, Clears, FlatRunnable;
    var n := |es| - 1;
    SearchStep(s, es, p);
    if i < n {
      PutsLastBefore(s, es, i, p);
      LatestIs(s, es[..n], i, p);
      if Puts(s, es, n, p) {
        ClearsPut(s, es, n, p);
      }
    }
  }

  lemma LastCall(s: FlatSystem, es: seq<Event>, p: int)
    requires FlatInvariant(s) && FlatRunnable(s, es) && es != [] && Puts(s, es, |es| - 1, p)
    ensures PutsLast(s, es, |es| - 1, p)
  {
  }

  lemma NothingWritten(s: FlatSystem, p: int)
    requires FlatInvariant(s)
    ensures FlatRunnable(s, []) && LatestAt(s, [], p) == None
  {
  }

  /** The search finds a byte if and only if there is such a call. */
  lemma {:induction false} LatestExists(s: FlatSystem, es: seq<Event>, p: int)
    requires FlatInvariant(s) && FlatRunnable(s, es)
    ensures LatestAt(s, es, p).Written? <==> exists i | 0 <= i < |es| :: PutsLast(s, es, i, p)
    decreases |es|
  {
    hide LatestAt, Puts, Clears, PutsLast, FlatRunnable;
    if i :| 0 <= i < |es| && PutsLast(s, es, i, p) {
      LatestIs(s, es, i, p);
    } else if es != [] {
      var n := |es| - 1;
      SearchStep(s, es, p);
      if Puts(s, es, n, p) {
        LastCall(s, es, p);
      } else if !Clears(s, es, n, p) {
        PrefixRuns(s, es, n);
        LatestExists(s, es[..n], p);
        if i :| 0 <= i < n && PutsLast(s, es[..n], i, p) {
          PutsLastBefore(s, es, i, p);
        }
      }
    } else {
      NothingWritten(s, p);
    }
  }

  lemma StoredElsewhere(f: Flat, e: Event, p: int)
    requires Valid(f) && e.DoWrite? && 0 <= e.pos && LuckFits(e.pos, |e.data|, f.quantum, e.luck)
    requires p in f.bytes
    requires e.luck.Copied? ==> !Within(p, e.pos, WriteRet(e.pos, |e.data|, f.quantum, e.luck))
    requires e.luck.Faulted? ==> !Within(p, e.pos, |e.luck.garble|)
    ensures p in Write(f, e.pos, e.data, e.luck).bytes
    ensures Write(f, e.pos, e.data, e.luck).bytes[p] == f.bytes[p]
  {
    match e.luck
    case Copied(fill) => WriteEffect(f, e.pos, e.data, fill);
    case Faulted(fill, garble) =>
      ExtentBounds(e.pos, f.quantum, |e.data|);
      forall p' <- f.bytes | Within(p', Base(e.pos, f.quantum), f.quantum)
        ensures e.pos in f.bytes
      {
        Granular(f, p', e.pos);
      }
      LayEffect(f.bytes, e.pos, Base(e.pos, f.quantum), fill, garble);
    case _ =>
  }

  /** Last write wins: the stored byte is the one that the backwards search finds. */
  lemma {:induction false} StoredIsLatest(s: FlatSystem, es: seq<Event>, p: int)
    requires FlatInvariant(s) && FlatRunnable(s, es) && LatestAt(s, es, p).Written?
    ensures p in FlatRun(s, es).file.bytes
    ensures FlatRun(s, es).file.bytes[p] == LatestAt(s, es, p).value
    decreases |es|
  {
    var n := |es| - 1;
    var before, e := FlatRun(s, es[..n]).file, es[n];
    if e.DoWrite? {
      var k := WriteRet(e.pos, |e.data|, before.quantum, e.luck);
      if e.luck.Copied? && Within(p, e.pos, k) {
        WriteEffect(before, e.pos, e.data, e.luck.fill);
        assert p == e.pos + (p - e.pos);
      } else {
        StoredIsLatest(s, es[..n], p);
        StoredElsewhere(before, e, p);
      }
    } else {
      StoredIsLatest(s, es[..n], p);
    }
  }

  ghost predicate DeliversLatest(s: FlatSystem, es: seq<Event>, pos: int, reply: Outcome)
    requires FlatInvariant(s) && FlatRunnable(s, es)
  {
    && |reply.data| == reply.ret
    && forall i | 0 <= i < reply.ret ::
         LatestAt(s, es, pos + i).Written? ==> reply.data[i] == LatestAt(s, es, pos + i).value
  }

  lemma FlatReadDeliversLatest(s: FlatSystem, es: seq<Event>, pos: int, count: int)
    requires FlatInvariant(s) && FlatRunnable(s, es) && 0 <= pos && 0 <= count
    ensures Valid(FlatRun(s, es).file)
    ensures DeliversLatest(s, es, pos, Read(FlatRun(s, es).file, pos, count, false))
  {
    hide FlatRun, FlatRunnable, LatestAt, Read, Valid;
    FlatRunInvariant(s, es);
    var f := FlatRun(s, es).file;
    ReadEffect(f, pos, count, false);
    var reply := Read(f, pos, count, false);
    forall i | 0 <= i < reply.ret && LatestAt(s, es, pos + i).Written?
      ensures reply.data[i] == LatestAt(s, es, pos + i).value
    {
      StoredIsLatest(s, es, pos + i);
    }
  }

  /** Every byte that a read of the three-level device delivers after any run is the latest one written
      at its position, wherever a latest one exists. */
  lemma ReadDeliversLatest(s: System, es: seq<Event>, pos: int, count: int)
    requires Invariant(s) && Runnable(s, es) && 0 <= pos && 0 <= count
    ensures Invariant(Run(s, es)) && FlatInvariant(Forget(s)) && FlatRunnable(Forget(s), es)
    ensures DeliversLatest(Forget(s), es, pos, Reply(Run(s, es), DoRead(pos, count, false)))
  {
    RunRefines(s, es);
    StepRefines(Run(s, es), DoRead(pos, count, false));
    FlatReadDeliversLatest(Forget(s), es, pos, count);
  }

  // ----- dense runs

  /** Every write of the run starts at or before the end of the file. */
  ghost predicate Dense(s: FlatSystem, es: seq<Event>)
    requires FlatInvariant(s) && FlatRunnable(s, es)
    decreases |es|
  {
    es == [] ||
    var n := |es| - 1;
    && Dense(s, es[..n])
    && (es[n].DoWrite? ==> es[n].pos <= FlatRun(s, es[..n]).file.size)
  }

  /** The positions covered by successful writes since the last truncation. */
  ghost function Covered(s: FlatSystem, es: seq<Event>): set<int>
    requires FlatInvariant(s) && FlatRunnable(s, es)
    decreases |es|
  {
    if es == [] then {} else
      var n := |es| - 1;
      match es[n]
      case DoTrim => {}
      case DoWrite(pos, data, luck) =>
        var k := WriteRet(pos, |data|, FlatRun(s, es[..n]).file.quantum, luck);
        Covered(s, es[..n]) + set p | pos <= p < pos + k && Within(p, pos, k) && luck.Copied?
      case _ => Covered(s, es[..n])
  }

  ghost predicate NoHoles(f: Flat) {
    forall p | 0 <= p < f.size :: p in f.bytes
  }

  lemma DenseWrite(f: Flat, pos: int, data: seq<byte>, fill: seq<byte>)
    requires Valid(f) && NoHoles(f) && 0 <= pos <= f.size && |fill| == f.quantum
    ensures NoHoles(Write(f, pos, data, Copied(fill)))
  {
    WriteEffect(f, pos, data, fill);
    var f', k := Write(f, pos, data, Copied(fill)), WriteRet(pos, |data|, f.quantum, Copied(fill));
    forall p | 0 <= p < f'.size
      ensures p in f'.bytes
    {
      if Within(p, pos, k) {
        assert p == pos + (p - pos);
      }
    }
  }

  /** A run that starts empty and never writes past the end leaves no hole: every position below the size
      is backed and has been written. */
  lemma {:induction false} DenseHasNoHoles(s: FlatSystem, es: seq<Event>)
    requires FlatInvariant(s) && s.file.size == 0 && FlatRunnable(s, es) && Dense(s, es)
    ensures NoHoles(FlatRun(s, es).file)
    ensures forall p | 0 <= p < FlatRun(s, es).file.size :: p in Covered(s, es)
    decreases |es|
  {
    if es != [] {
      var n := |es| - 1;
      var before, e := FlatRun(s, es[..n]).file, es[n];
      DenseHasNoHoles(s, es[..n]);
      if e.DoWrite? && e.luck.Copied? {
        WriteEffect(before, e.pos, e.data, e.luck.fill);
        DenseWrite(before, e.pos, e.data, e.luck.fill);
      } else if e.DoWrite? {
        FailedWriteEffect(before, e.pos, e.data, e.luck);
        assert forall p <- before.bytes :: p in Write(before, e.pos, e.data, e.luck).bytes;
      }
    }
  }

  lemma ReadsWhole(st: Store, n: int)
    requires WellFormed(st) && st.size <= n && NoHoles(Flatten(st))
    ensures |Loops.StoreReadAll(st, 0, n).data| == st.size
    ensures Loops.Holds(Flatten(st), 0, Loops.StoreReadAll(st, 0, n).data)
    ensures ReadStore(st, st.size, n, false) == Outcome(0, [])
  {
    Loops.ReadAllRefines(st, 0, n);
    Loops.ReadWholeFile(Flatten(st), n);
  }

  /** On the device itself: after such a run a read loop from 0 delivers exactly `size` bytes, the ones
      stored, and the next read returns 0. */
  lemma DenseReadsBack(s: System, es: seq<Event>, n: int)
    requires Invariant(s) && s.store.size == 0 && Runnable(s, es)
    requires FlatInvariant(Forget(s)) && FlatRunnable(Forget(s), es) && Dense(Forget(s), es)
    requires Invariant(Run(s, es)) && Run(s, es).store.size <= n
    ensures var st, got := Run(s, es).store, Loops.StoreReadAll(Run(s, es).store, 0, n);
            && |got.data| == st.size
            && Loops.Holds(Flatten(st), 0, got.data)
            && ReadStore(st, st.size, n, false) == Outcome(0, [])
  {
    RunRefines(s, es);
    DenseHasNoHoles(Forget(s), es);
    ReadsWhole(Run(s, es).store, n);
  }

  // ----- geometry isolation

  function WithoutConfigure(es: seq<Event>): seq<Event> {
    if es == [] then [] else
      var n := |es| - 1;
      WithoutConfigure(es[..n]) + if es[n].Configure? then [] else [es[n]]
  }

  /** Apart from a truncation, no call looks at the global sizes. */
  lemma GlobalsIgnored(s: System, t: System, e: Event)
    requires Invariant(s) && Invariant(t) && s.store == t.store && Enabled(s, e) && !e.DoTrim? && !e.Configure?
    ensures Enabled(t, e) && Step(t, e).store == Step(s, e).store && Reply(t, e) == Reply(s, e)
  {
  }

  lemma ConfigureSparesStore(s: System, e: Event)
    requires Invariant(s) && Enabled(s, e) && e.Configure?
    ensures Step(s, e).store == s.store
  {
  }

  /** Until the next truncating open, changes of the global sizes at any point of the run affect neither
      the device nor any reply. */
  lemma {:induction false} GeometryIsolation(s: System, es: seq<Event>)
    requires Invariant(s) && Runnable(s, es) && DoTrim !in es
    ensures Runnable(s, WithoutConfigure(es)) && Invariant(Run(s, WithoutConfigure(es)))
    ensures Run(s, WithoutConfigure(es)).store == Run(s, es).store
    ensures Replies(s, WithoutConfigure(es)) == Replies(s, es)
    decreases |es|
  {
    hide Step, Reply, Enabled, Invariant, Run, Runnable, Replies;
    NothingRun(s);
    if es != [] {
      var n := |es| - 1;
      RunLast(s, es);
      GeometryIsolation(s, es[..n]);
      var fewer := WithoutConfigure(es[..n]);
      if !es[n].Configure? {
        GlobalsIgnored(Run(s, es[..n]), Run(s, fewer), es[n]);
        RunSnoc(s, fewer, es[n]);
        assert WithoutConfigure(es) == fewer + [es[n]];
      } else {
        ConfigureSparesStore(Run(s, es[..n]), es[n]);
        assert WithoutConfigure(es) == fewer;
      }
    }
  }

  /** The sizes that govern the device after a run: the globals as they stood at the last truncating
      open, or the initial ones. */
  ghost function Governing(s: System, es: seq<Event>): (int, int)
    requires Invariant(s) && Runnable(s, es)
    decreases |es|
  {
    if es == [] then (s.store.quantum, s.store.qset) else
      var n := |es| - 1;
      if es[n].DoTrim? then (Run(s, es[..n]).quantum, Run(s, es[..n]).qset) else Governing(s, es[..n])
  }

  lemma {:induction false} GeometryChangesAtTrim(s: System, es: seq<Event>)
    requires Invariant(s) && Runnable(s, es)
    ensures (Run(s, es).store.quantum, Run(s, es).store.qset) == Governing(s, es)
    ensures es != [] && es[|es| - 1].DoTrim? ==> BlockCount(Run(s, es).store) == 0
    decreases |es|
  {
    if es != [] {
      var n := |es| - 1;
      GeometryChangesAtTrim(s, es[..n]);
      var before, e := Run(s, es[..n]), es[n];
      if e.DoWrite? {
        assert WriteStore(before.store, e.pos, e.data, e.luck).quantum == before.store.quantum;
      }
    }
  }
}
