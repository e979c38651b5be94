/** A program that writes a buffer, seeks back and reads it again, on the heap and through one open file: the
    loops of `Loops`, around the calls of `OpenFile`, on a kernel in which any call may fail. */
module Client {
  import opened Geometry
  import opened FlatFile
  import opened Structure
  import opened Refinement
  import opened Loops
  import opened OpenFile
  import opened Device
  import opened Memory

  // ----- writing

  /** The size of the file once `done` bytes from `pos` on are written. */
  function SizeAfter(size: int, pos: int, done: int): int {
    if done == 0 then size else Max(size, pos + done)
  }

  lemma SizeAdvances(size: int, pos: int, done: int, k: int)
    requires 0 <= done && 0 < k
    ensures Max(SizeAfter(size, pos, done), pos + done + k) == SizeAfter(size, pos, done + k)
    ensures size <= SizeAfter(size, pos, done)
  {
  }

  /** How far a write loop has got after `calls` calls that went through: the first `done` bytes of `data` are
      stored from `pos` on, no other stored byte has changed but for what a failed call disturbed in the rest
      of the buffer, the size covers what is stored, and there was one call for each quantum touched. */
  ghost predicate Progress(f0: Flat, f: Flat, pos: int, data: seq<byte>, done: int, calls: int) {
    && 0 <= done <= |data| && 0 < f0.quantum
    && Holds(f, pos, data[..done]) && OnlyChanges(f0, f, pos, |data|)
    && f.size == SizeAfter(f0.size, pos, done)
    && calls == Crossings(pos, done, f0.quantum) && Tiled(pos, done, |data|, f0.quantum)
  }

  lemma CopiedMoves(pos: int, n: int, quantum: int, fill: seq<byte>)
    requires 0 < quantum
    ensures WriteRet(pos, n, quantum, Copied(fill)) == Chunk(pos, n, quantum)
  {
  }

  lemma HeldOn(f: Flat, f': Flat, pos: int, data: seq<byte>, done: int, k: int)
    requires 0 <= done <= done + k <= |data| && 0 <= k
    requires Holds(f, pos, data[..done]) && OnlyChanges(f, f', pos + done, k)
    requires Holds(f', pos + done, data[done..][..k])
    ensures Holds(f', pos, data[..done + k])
  {
    assert Holds(f', pos, data[..done]) by {
      assert forall p | Within(p, pos, done) :: !Within(p, pos + done, k);
    }
    HoldsJoin(f', pos, data[..done], data[done..][..k]);
    assert data[..done] + data[done..][..k] == data[..done + k];
  }

  lemma ChangesOn(f0: Flat, f: Flat, f': Flat, pos: int, data: seq<byte>, done: int, k: int)
    requires 0 <= done <= done + k <= |data| && 0 <= k
    requires OnlyChanges(f0, f, pos, |data|) && OnlyChanges(f, f', pos + done, k)
    ensures OnlyChanges(f0, f', pos, |data|)
  {
    assert forall p | Within(p, pos + done, k) :: Within(p, pos, |data|);
  }

  /** A write of the rest of the buffer that went through takes the loop one quantum further. */
  lemma WriteAdvances(f0: Flat, f: Flat, pos: int, data: seq<byte>, done: int, calls: int, fill: seq<byte>)
    requires Valid(f) && 0 <= pos && |fill| == f.quantum
    requires Progress(f0, f, pos, data, done, calls) && done < |data|
    ensures var k := WriteRet(pos + done, |data| - done, f.quantum, Copied(fill));
            && 0 < k <= |data| - done
            && Progress(f0, Write(f, pos + done, data[done..], Copied(fill)), pos, data, done + k, calls + 1)
  {
    hide Write, WriteRet, Crossings, Chunk, Tiled, SizeAfter, Holds;
    CopiedMoves(pos + done, |data| - done, f.quantum, fill);
    var rest, f' := data[done..], Write(f, pos + done, data[done..], Copied(fill));
    FirstChunk(f, pos + done, rest, fill);
    NextCrossing(pos, done, |data|, f.quantum);
    var k := WriteRet(pos + done, |rest|, f.quantum, Copied(fill));
    SizeAdvances(f0.size, pos, done, k);
    HeldOn(f, f', pos, data, done, k);
    ChangesOn(f0, f, f', pos, data, done, k);
  }

  /** A failed one does not undo what the loop has done. */
  lemma FailureKeeps(f0: Flat, f: Flat, pos: int, data: seq<byte>, done: int, calls: int, luck: WriteLuck)
    requires Valid(f) && 0 <= pos && !luck.Copied?
    requires Progress(f0, f, pos, data, done, calls) && done < |data|
    requires LuckFits(pos + done, |data| - done, f.quantum, luck)
    ensures Progress(f0, Write(f, pos + done, data[done..], luck), pos, data, done, calls)
  {
    hide WriteRet, Crossings, Chunk, Lay, Back, Tiled, SizeAfter;
    var rest, f' := data[done..], Write(f, pos + done, data[done..], luck);
    FailedWriteEffect(f, pos + done, rest, luck);
    var k := Chunk(pos + done, |rest|, f.quantum);
    assert forall p | Within(p, pos, done) :: !Within(p, pos + done, k);
    assert forall p | Within(p, pos + done, k) :: Within(p, pos, |data|);
  }

  lemma SizesKept(st: Store, pos: int, data: seq<byte>, luck: WriteLuck)
    requires WellFormed(st) && InRange(pos, st.quantum, st.qset) && Possible(st, pos, |data|, luck)
    ensures var st' := WriteStore(st, pos, data, luck);
            && st'.quantum == st.quantum == Flatten(st).quantum && st'.qset == st.qset
            && forall p, n :: Fits(st', p, n) == Fits(st, p, n)
  {
    hide Locate;
  }

  lemma FillFits(pos: int, n: int, quantum: int, luck: WriteLuck)
    requires 0 < quantum && luck.Copied? && LuckFits(pos, n, quantum, luck)
    ensures |luck.fill| == quantum && luck == Copied(luck.fill)
  {
  }

  lemma FailedRet(pos: int, n: int, quantum: int, luck: WriteLuck)
    requires 0 < quantum && !luck.Copied?
    ensures WriteRet(pos, n, quantum, luck) in {-ENOMEM, -EFAULT}
  {
  }

  /** A write as the flat file sees it. */
  lemma FlatWrite(st: Store, pos: int, data: seq<byte>, n: int, luck: WriteLuck)
    requires WellFormed(st) && InRange(pos, st.quantum, st.qset) && n == |data| && Possible(st, pos, n, luck)
    ensures LuckFits(pos, n, st.quantum, luck)
    ensures var st' := WriteStore(st, pos, data, luck);
            && WellFormed(st') && Shaped(st') && Valid(Flatten(st'))
            && st'.quantum == st.quantum == Flatten(st).quantum
            && (forall p, n :: Fits(st', p, n) == Fits(st, p, n))
            && Flatten(st') == Write(Flatten(st), pos, data, luck)
  {
    hide Write, Valid, Flatten, InRange, Possible, Locate, LuckFits, WriteStore, Fits, Capacity;
    SizesKept(st, pos, data, luck);
    WriteRefines(st, pos, data, luck);
    WellFormedFlattens(WriteStore(st, pos, data, luck));
  }

  lemma NothingWritten(st: Store, pos: int, data: seq<byte>)
    requires WellFormed(st) && 0 <= pos
    ensures Shaped(st) && Valid(Flatten(st)) && Flatten(st).quantum == st.quantum
    ensures Progress(Flatten(st), Flatten(st), pos, data, 0, 0)
  {
    WellFormedFlattens(st);
  }

  lemma FitsBelow(st: Store, pos: int, n: int)
    requires WellFormed(st) && Fits(st, pos, n)
    ensures 0 <= pos <= pos + n <= LONG_MAX
  {
  }

  lemma RestFits(st: Store, pos: int, n: int, done: int)
    requires WellFormed(st) && Fits(st, pos, n) && 0 <= done < n
    ensures InRange(pos + done, st.quantum, st.qset) && 0 <= pos + done
    ensures ValidGeometry(st.quantum, st.qset) && 0 <= Locate(pos + done, st.quantum, st.qset).item
  {
    Addressable(pos + done, st.quantum, st.qset);
  }

  /** The loop has written the first `done` bytes of `data` from `pos` on, onto a device that was `st0`. */
  ghost predicate Underway(st0: Store, st: Store, pos: int, data: seq<byte>, done: int, calls: int) {
    && WellFormed(st0) && WellFormed(st) && Valid(Flatten(st)) && st.quantum == st0.quantum
    && 0 <= pos && Fits(st, pos, |data|) && Progress(Flatten(st0), Flatten(st), pos, data, done, calls)
  }

  lemma StartsOut(st: Store, pos: int, data: seq<byte>)
    requires WellFormed(st) && Fits(st, pos, |data|)
    ensures Underway(st, st, pos, data, 0, 0)
  {
    hide Progress, Valid;
    NothingWritten(st, pos, data);
  }

  lemma UnderwayFits(st0: Store, st: Store, pos: int, data: seq<byte>, done: int, calls: int)
    requires Underway(st0, st, pos, data, done, calls) && 0 <= done < |data|
    ensures InRange(pos + done, st.quantum, st.qset) && 0 <= pos + done
    ensures ValidGeometry(st.quantum, st.qset) && 0 <= Locate(pos + done, st.quantum, st.qset).item
    ensures WellFormed(st)
  {
    hide Progress, Valid, Flatten;
    RestFits(st, pos, |data|, done);
  }

  /** A call that goes through. */
  lemma Succeeds(st0: Store, st: Store, pos: int, data: seq<byte>, done: int, calls: int, fill: seq<byte>)
    requires Underway(st0, st, pos, data, done, calls) && 0 <= done < |data| && WellFormed(st)
    requires InRange(pos + done, st.quantum, st.qset) && Possible(st, pos + done, |data| - done, Copied(fill))
    ensures var st', k := WriteStore(st, pos + done, data[done..], Copied(fill)),
                          WriteRet(pos + done, |data| - done, st.quantum, Copied(fill));
            0 < k <= |data| - done && Underway(st0, st', pos, data, done + k, calls + 1)
  {
    hide Write, WriteRet, WriteStore, Progress, Valid, InRange, Possible, Locate, LuckFits, Fits, Flatten;
    FlatWrite(st, pos + done, data[done..], |data| - done, Copied(fill));
    FillFits(pos + done, |data| - done, st.quantum, Copied(fill));
    WriteAdvances(Flatten(st0), Flatten(st), pos, data, done, calls, fill);
  }

  /** A call that does not. */
  lemma Fails(st0: Store, st: Store, pos: int, data: seq<byte>, done: int, calls: int, luck: WriteLuck)
    requires Underway(st0, st, pos, data, done, calls) && 0 <= done < |data| && WellFormed(st) && !luck.Copied?
    requires InRange(pos + done, st.quantum, st.qset) && Possible(st, pos + done, |data| - done, luck)
    ensures WriteRet(pos + done, |data| - done, st.quantum, luck) in {-ENOMEM, -EFAULT}
    ensures Underway(st0, WriteStore(st, pos + done, data[done..], luck), pos, data, done, calls)
  {
    hide Write, WriteRet, WriteStore, Progress, Valid, InRange, Possible, Locate, LuckFits, Fits, Flatten;
    FlatWrite(st, pos + done, data[done..], |data| - done, luck);
    FailureKeeps(Flatten(st0), Flatten(st), pos, data, done, calls, luck);
    FailedRet(pos + done, |data| - done, st.quantum, luck);
  }

  /** One call of the write loop. */
  method WriteOnce(file: OpenFile, data: seq<byte>, done: int, ghost st0: Store, ghost pos: int, ghost calls: int)
    returns (ret: int)
    requires file.dev.Valid() && file.dev.sem == 1 && 0 <= done < |data| && file.fPos == pos + done
    requires Underway(st0, file.dev.View(), pos, data, done, calls)
    modifies file`fPos, file.dev, file.dev.Items(), file.dev.arrays.Values, file.dev.quanta.Values
    modifies file.dev.slab
    ensures file.dev.Valid() && file.dev.sem == 1 && file.dev.Grown()
    ensures file.dev.slab.live - file.dev.Owned() == old(file.dev.slab.live - file.dev.Owned())
    ensures ret != 0 && done + Max(ret, 0) <= |data| && file.fPos == pos + done + Max(ret, 0)
    ensures ret < 0 ==> ret in {-ERESTARTSYS, -ENOMEM, -EFAULT}
    ensures file.dev.slab.calm ==> 0 < ret
    ensures file.dev.slab.tally == WriteTally(old(file.dev.slab.tally), ret)
    ensures Underway(st0, file.dev.View(), pos, data, done + Max(ret, 0), calls + if 0 < ret then 1 else 0)
  {
    hide Underway, WellFormed, Blocks, InRange, ValidGeometry, Possible, Locate, WriteStore, WriteCode, WriteRet;
    hide Device.Valid, Device.Owned;
    ghost var st := file.dev.View();
    UnderwayFits(st0, st, pos, data, done, calls);
    ghost var luck;
    ret, luck := file.Write(data[done..]);
    if ret != -ERESTARTSYS {
      if luck.Copied? {
        Succeeds(st0, st, pos, data, done, calls, luck.fill);
      } else {
        Fails(st0, st, pos, data, done, calls, luck);
      }
    }
  }

  lemma WriteCounts(t: Tally, ret: int)
    requires ret < 0 ==> ret in {-ERESTARTSYS, -ENOMEM, -EFAULT}
    ensures WriteTally(t, ret).waits == t.waits + 1
    ensures WriteTally(t, ret).Refusals() == t.Refusals() + if ret < 0 then 1 else 0
  {
  }

  lemma HowFar(st0: Store, st: Store, pos: int, data: seq<byte>, done: int, calls: int)
    requires Underway(st0, st, pos, data, done, calls)
    ensures WellFormed(st0) && WellFormed(st) && st.quantum == st0.quantum
    ensures Shaped(st0) && Shaped(st) && Progress(Flatten(st0), Flatten(st), pos, data, done, calls)
  {
  }

  /** Writes until the buffer is taken or a call fails. `last` is what the last of the `calls` calls returned. */
  method WriteFully(file: OpenFile, data: seq<byte>) returns (done: int, calls: int, last: int)
    requires file.dev.Valid() && file.dev.sem == 1 && Fits(file.dev.View(), file.fPos, |data|)
    modifies file`fPos, file.dev, file.dev.Items(), file.dev.arrays.Values, file.dev.quanta.Values
    modifies file.dev.slab
    ensures file.dev.Valid() && file.dev.sem == 1 && WellFormed(file.dev.View()) && file.dev.Grown()
    ensures file.dev.slab.live - file.dev.Owned() == old(file.dev.slab.live - file.dev.Owned())
    ensures 0 <= done <= |data| && file.fPos == old(file.fPos) + done
    ensures done == |data| <==> 0 <= last
    ensures last < 0 ==> last in {-ERESTARTSYS, -ENOMEM, -EFAULT}
    ensures file.dev.slab.tally.waits == old(file.dev.slab.tally.waits) + calls
    ensures file.dev.slab.tally.Refusals() == old(file.dev.slab.tally.Refusals()) + if last < 0 then 1 else 0
    ensures file.dev.slab.calm ==> 0 <= last
    ensures file.dev.quantum == old(file.dev.quantum)
    ensures Progress(Flatten(old(file.dev.View())), Flatten(file.dev.View()), old(file.fPos), data, done,
                     calls - if last < 0 then 1 else 0)
  {
    hide Underway, WellFormed, Blocks, Flatten, Progress, Fits, WriteTally, Device.Valid, Device.Owned;
    var dev := file.dev;
    dev.Sound();
    ghost var st0, pos := dev.View(), file.fPos;
    StartsOut(st0, pos, data);
    done, calls, last := 0, 0, 0;
    while done < |data| && 0 <= last
      invariant 0 <= done <= |data| && file.fPos == pos + done
      invariant last < 0 ==> done < |data| && last in {-ERESTARTSYS, -ENOMEM, -EFAULT} && !dev.slab.calm
      invariant dev.Valid() && dev.sem == 1 && dev.Grown()
      invariant dev.slab.live - dev.Owned() == old(dev.slab.live - dev.Owned())
      invariant dev.slab.tally.waits == old(dev.slab.tally.waits) + calls
      invariant dev.slab.tally.Refusals() == old(dev.slab.tally.Refusals()) + if last < 0 then 1 else 0
      invariant Underway(st0, dev.View(), pos, data, done, calls - if last < 0 then 1 else 0)
      decreases |data| - done, last
    {
      ghost var tally := dev.slab.tally;
      last := WriteOnce(file, data, done, st0, pos, calls);
      WriteCounts(tally, last);
      done, calls := done + Max(last, 0), calls + 1;
    }
    HowFar(st0, dev.View(), pos, data, done, calls - if last < 0 then 1 else 0);
  }

  // ----- reading

  /** What a read loop has got after `calls` calls that delivered something: `buf` is stored from `pos` on, and
      there was one call for each quantum touched. */
  ghost predicate Delivered(f: Flat, pos: int, n: int, buf: seq<byte>, calls: int) {
    && |buf| <= n && 0 < f.quantum
    && Holds(f, pos, buf) && calls == Crossings(pos, |buf|, f.quantum)
    && (Tiled(pos, |buf|, n, f.quantum) || f.size <= pos + |buf|)
  }

  /** What is still to come, if nothing fails. */
  ghost predicate Remaining(f: Flat, pos: int, n: int, buf: seq<byte>, calls: int)
    requires Valid(f) && 0 <= pos
  {
    && |buf| <= n
    && var rest := ReadAll(f, pos + |buf|, n - |buf|);
       ReadAll(f, pos, n) == Got(buf + rest.data, calls + rest.calls)
  }

  lemma RemainingAfter(f: Flat, pos: int, n: int, buf: seq<byte>, calls: int)
    requires Valid(f) && 0 <= pos && Remaining(f, pos, n, buf, calls) && |buf| < n
    ensures var reply := Read(f, pos + |buf|, n - |buf|, false);
            && 0 <= reply.ret == |reply.data| <= n - |buf|
            && (if reply.ret == 0 then ReadAll(f, pos, n) == Got(buf, calls + 1)
                else Remaining(f, pos, n, buf + reply.data, calls + 1))
  {
    hide Read, Valid;
    ReadEffect(f, pos + |buf|, n - |buf|, false);
    var reply := Read(f, pos + |buf|, n - |buf|, false);
    if reply.ret != 0 {
      var rest := ReadAll(f, pos + |buf| + reply.ret, n - |buf| - reply.ret);
      assert buf + (reply.data + rest.data) == (buf + reply.data) + rest.data;
    } else {
      assert buf + [] == buf;
    }
  }

  lemma TiledSooner(pos: int, m: int, n: int, n': int, quantum: int)
    requires 0 < quantum && m < n && Tiled(pos, m, n, quantum)
    ensures Tiled(pos, m, n', quantum)
  {
  }

  lemma TiledLater(pos: int, m: int, n: int, n': int, quantum: int)
    requires 0 < quantum && Tiled(pos, m, n, quantum) && m != n
    ensures Tiled(pos, m, n', quantum)
  {
  }

  /** A read takes the rest of its quantum, or of what is asked for, or of the file. */
  lemma ReadTiles(f: Flat, pos: int, m: int, n: int)
    requires 0 < f.quantum && 0 <= pos && 0 <= m < n && 0 < ReadLength(f, pos + m, n - m)
    requires Tiled(pos, m, n, f.quantum) || f.size <= pos + m
    ensures var k := ReadLength(f, pos + m, n - m);
            && Crossings(pos, m + k, f.quantum) == Crossings(pos, m, f.quantum) + 1
            && (Tiled(pos, m + k, n, f.quantum) || f.size <= pos + m + k)
  {
    hide Crossings, Tiled, Chunk;
    var k, left := ReadLength(f, pos + m, n - m), f.size - (pos + m);
    if left < n - m {
      TiledSooner(pos, m, n, m + left, f.quantum);
      NextCrossing(pos, m, m + left, f.quantum);
      if k != left {
        TiledLater(pos, m + k, m + left, n, f.quantum);
      }
    } else {
      NextCrossing(pos, m, n, f.quantum);
    }
  }

  lemma DeliveredAfter(f: Flat, pos: int, n: int, buf: seq<byte>, calls: int)
    requires Valid(f) && 0 <= pos && Delivered(f, pos, n, buf, calls) && |buf| < n
    requires 0 < Read(f, pos + |buf|, n - |buf|, false).ret
    ensures var reply := Read(f, pos + |buf|, n - |buf|, false);
            Delivered(f, pos, n, buf + reply.data, calls + 1)
  {
    hide Valid, Read, ReadLength, Crossings, Tiled, Holds;
    FirstRead(f, pos + |buf|, n - |buf|);
    ReadTiles(f, pos, |buf|, n);
    HoldsJoin(f, pos, buf, Read(f, pos + |buf|, n - |buf|, false).data);
  }

  /** One call of the read loop on the device, as the flat file sees it. */
  lemma ReadAdvances(st: Store, pos: int, n: int, buf: seq<byte>, calls: int, faulty: bool)
    requires WellFormed(st) && Shaped(st) && Valid(Flatten(st)) && 0 <= pos && |buf| < n
    requires Remaining(Flatten(st), pos, n, buf, calls) && Delivered(Flatten(st), pos, n, buf, calls)
    ensures var reply, f := ReadStore(st, pos + |buf|, n - |buf|, faulty), Flatten(st);
            && (reply.ret < 0 ==> faulty && reply.ret == -EFAULT)
            && (reply.ret == 0 ==>
                  && ReadAll(f, pos, n) == Got(buf, calls + 1)
                  && (f.size <= pos + |buf| || pos + |buf| !in f.bytes))
            && (0 < reply.ret ==>
                  && |reply.data| == reply.ret <= n - |buf|
                  && Remaining(f, pos, n, buf + reply.data, calls + 1)
                  && Delivered(f, pos, n, buf + reply.data, calls + 1))
  {
    hide ReadLength, ReadStore, Flatten, WellFormed, Shaped, Valid, InRange, Remaining, Delivered;
    ReadRefines(st, pos + |buf|, n - |buf|, faulty);
    ReadEffect(Flatten(st), pos + |buf|, n - |buf|, faulty);
    if 0 <= ReadStore(st, pos + |buf|, n - |buf|, faulty).ret {
      RemainingAfter(Flatten(st), pos, n, buf, calls);
    }
    if 0 < ReadStore(st, pos + |buf|, n - |buf|, faulty).ret {
      DeliveredAfter(Flatten(st), pos, n, buf, calls);
    }
  }

  lemma NothingRead(f: Flat, pos: int, n: int)
    requires Valid(f) && 0 <= pos && 0 <= n
    ensures Remaining(f, pos, n, [], 0) && Delivered(f, pos, n, [], 0)
  {
    assert [] + ReadAll(f, pos, n).data == ReadAll(f, pos, n).data;
  }

  lemma AllRead(f: Flat, pos: int, n: int, buf: seq<byte>, calls: int)
    requires Valid(f) && 0 <= pos && Remaining(f, pos, n, buf, calls) && n <= |buf|
    ensures ReadAll(f, pos, n) == Got(buf, calls)
  {
    assert buf + [] == buf;
  }

  lemma SizeOf(st: Store)
    requires Shaped(st)
    ensures Flatten(st).size == st.size
  {
  }

  /** Reads until `n` bytes have arrived or a call delivers nothing or fails. `last` is what the last of the
      `calls` calls returned. */
  method ReadFully(file: OpenFile, n: int) returns (buf: seq<byte>, calls: int, last: int)
    requires file.dev.Valid() && file.dev.sem == 1 && 0 <= file.fPos <= LONG_MAX && 0 <= n <= LONG_MAX
    modifies file`fPos, file.dev`sem, file.dev`data, file.dev`nodes, file.dev.nodes`next
    modifies file.dev.slab
    ensures file.dev.Valid() && file.dev.sem == 1
    ensures file.dev.View() == old(file.dev.View()) && file.dev.nodes == old(file.dev.nodes)
    ensures file.dev.slab.live == old(file.dev.slab.live) && file.dev.Owned() == old(file.dev.Owned())
    ensures |buf| <= n && file.fPos == old(file.fPos) + |buf|
    ensures Shaped(file.dev.View()) && Valid(Flatten(file.dev.View()))
    ensures Delivered(Flatten(file.dev.View()), old(file.fPos), n, buf, calls - if |buf| < n then 1 else 0)
    ensures file.dev.slab.tally.waits == old(file.dev.slab.tally.waits) + calls
    ensures file.dev.slab.tally.Refusals() == old(file.dev.slab.tally.Refusals()) + if last < 0 then 1 else 0
    ensures |buf| < n ==> last in {0, -ERESTARTSYS, -EFAULT}
    ensures last < 0 ==> |buf| < n
    ensures |buf| < n && last == 0 ==>
              file.dev.size <= file.fPos || file.fPos !in Flatten(file.dev.View()).bytes
    ensures 0 <= last ==> ReadAll(Flatten(file.dev.View()), old(file.fPos), n) == Got(buf, calls)
    ensures file.dev.slab.calm ==> 0 <= last
  {
    hide WellFormed, Shaped, Blocks, Flatten, Valid, Remaining, Delivered, ReadStore, ReadCode;
    hide Device.Valid;
    var dev := file.dev;
    dev.Sound();
    ghost var st, pos := dev.View(), file.fPos;
    WellFormedFlattens(st);
    NothingRead(Flatten(st), pos, n);
    buf, calls, last := [], 0, 0;
    while |buf| < n
      invariant |buf| <= n && file.fPos == pos + |buf| <= LONG_MAX && 0 <= last
      invariant dev.Valid() && dev.sem == 1 && dev.View() == st && dev.nodes == old(dev.nodes)
      invariant dev.arrays == old(dev.arrays) && dev.quanta == old(dev.quanta)
      invariant dev.slab.live == old(dev.slab.live)
      invariant dev.slab.tally.waits == old(dev.slab.tally.waits) + calls
      invariant dev.slab.tally.Refusals() == old(dev.slab.tally.Refusals())
      invariant Remaining(Flatten(st), pos, n, buf, calls) && Delivered(Flatten(st), pos, n, buf, calls)
      decreases n - |buf|
    {
      var bytes;
      ghost var faulty;
      last, bytes, faulty := file.Read(n - |buf|);
      calls := calls + 1;
      if last == -ERESTARTSYS {
        return;
      }
      ReadAdvances(st, pos, n, buf, calls - 1, faulty);
      SizeOf(st);
      if last <= 0 {
        return;
      }
      buf := buf + bytes;
    }
    AllRead(Flatten(st), pos, n, buf, calls);
  }

  // ----- there and back

  lemma AllWritten(f0: Flat, f: Flat, pos: int, data: seq<byte>, calls: int)
    requires Valid(f) && 0 <= pos && 0 < f0.quantum == f.quantum && Progress(f0, f, pos, data, |data|, calls)
    ensures calls == Crossings(pos, |data|, f.quantum)
    ensures ReadAll(f, pos, |data|) == Got(data, calls)
  {
    assert data[..|data|] == data;
    HeldReadsBack(f, pos, data);
  }

  /** What a program can rely on after a write loop: the first `done` bytes are stored, the rest of the file is
      as it was, and the size is. */
  ghost predicate Saved(f0: Flat, f: Flat, pos: int, data: seq<byte>, done: int) {
    && 0 <= done <= |data|
    && Holds(f, pos, data[..done])
    && OnlyChanges(f0, f, pos, |data|)
    && f.size == SizeAfter(f0.size, pos, done)
  }

  lemma ProgressSaves(f0: Flat, f: Flat, pos: int, data: seq<byte>, done: int, calls: int)
    requires Progress(f0, f, pos, data, done, calls)
    ensures Saved(f0, f, pos, data, done)
  {
  }

  /** The round trip of the whole driver: write by repeated calls, seek back, read by repeated calls. `ok` says
      that the kernel refused nothing. Then the buffer is on the device and comes back, and both loops have
      taken one call for each quantum touched, whatever the device held before. In any case what was written
      is stored, nothing else has changed, and nothing leaks. */
  method RoundTrip(file: OpenFile, data: seq<byte>)
    returns (buf: seq<byte>, done: int, writeCalls: int, readCalls: int, ok: bool)
    requires file.dev.Valid() && file.dev.sem == 1 && Fits(file.dev.View(), file.fPos, |data|) && data != []
    modifies file`fPos, file.dev, file.dev.Items(), file.dev.arrays.Values, file.dev.quanta.Values
    modifies file.dev.slab
    ensures file.dev.slab.calm ==> ok
    ensures ok <==> file.dev.slab.tally.Refusals() == old(file.dev.slab.tally.Refusals())
    ensures file.dev.slab.tally.waits == old(file.dev.slab.tally.waits) + writeCalls + readCalls
    ensures ok ==> buf == data && done == |data| && file.fPos == old(file.fPos) + |data|
    ensures file.dev.quantum == old(file.dev.quantum) && 0 < file.dev.quantum
    ensures var pos, quantum := old(file.fPos), old(file.dev.quantum);
            ok ==> writeCalls == readCalls == (pos + |data| - 1) / quantum - pos / quantum + 1
    ensures file.dev.Valid() && file.dev.sem == 1
    ensures Saved(Flatten(old(file.dev.View())), Flatten(file.dev.View()), old(file.fPos), data, done)
    ensures file.dev.slab.live - file.dev.Owned() == old(file.dev.slab.live - file.dev.Owned())
  {
    hide WellFormed, Blocks, Flatten, Valid, Progress, Delivered, Saved, Device.Valid, Device.Owned;
    var dev, pos := file.dev, file.fPos;
    dev.Sound();
    ghost var st0 := dev.View();
    NothingWritten(st0, pos, data);
    var last;
    done, writeCalls, last := WriteFully(file, data);
    ghost var st := dev.View();
    WellFormedFlattens(st);
    ProgressSaves(Flatten(st0), Flatten(st), pos, data, done, writeCalls - if last < 0 then 1 else 0);
    if last < 0 {
      return [], done, writeCalls, 0, false;
    }
    FitsBelow(st0, pos, |data|);
    AllWritten(Flatten(st0), Flatten(st), pos, data, writeCalls);
    var ret := file.Llseek(pos, SEEK_SET);
    buf, readCalls, last := ReadFully(file, |data|);
    ok := 0 <= last;
  }

  // ----- seeking

  /** Where the file position is. */
  method Tell(file: OpenFile) returns (ret: int)
    requires file.dev.Valid() && 0 <= file.fPos <= LONG_MAX
    modifies file`fPos
    ensures ret == file.fPos == old(file.fPos)
  {
    ret := file.Llseek(0, SEEK_CUR);
  }

  /** Two relative seeks end where one seek of the sum ends, if both succeed. */
  method SeekTwice(file: OpenFile, a: int, b: int) returns (ret: int)
    requires file.dev.Valid() && 0 <= file.fPos <= LONG_MAX
    requires -LONG_MAX - 1 <= a <= LONG_MAX && -LONG_MAX - 1 <= b <= LONG_MAX
    modifies file`fPos
    ensures 0 <= old(file.fPos) + a <= LONG_MAX && 0 <= old(file.fPos) + a + b <= LONG_MAX ==>
              ret == file.fPos == old(file.fPos) + (a + b)
  {
    ret := file.Llseek(a, SEEK_CUR);
    ret := file.Llseek(b, SEEK_CUR);
  }

  /** At the end of the file there is nothing to read. */
  method ReadAtEnd(file: OpenFile, count: int) returns (ret: int)
    requires file.dev.Valid() && file.dev.sem == 1 && 0 <= file.fPos <= LONG_MAX && 0 <= count < LONG_SPAN
    modifies file`fPos, file.dev`sem, file.dev`data, file.dev`nodes, file.dev.nodes`next, file.dev.slab
    ensures ret == 0 || ret == -ERESTARTSYS
    ensures file.fPos == file.dev.size == old(file.dev.size)
  {
    hide WellFormed, Blocks, Device.Valid, ReadAt, ReadStore;
    file.dev.Sound();
    SizeBound(file.dev.View());
    ret := file.Llseek(0, SEEK_END);
    var buf;
    ghost var faulty;
    ret, buf, faulty := file.Read(count);
  }

  lemma SavedAtEnd(f0: Flat, f: Flat, data: seq<byte>, done: int)
    requires Saved(f0, f, f0.size, data, done)
    ensures f.size == f0.size + done
  {
  }

  /** Seeking to the end and writing appends: the size grows by what the write returns, the bytes written are
      those from the old end on, and no stored byte below it changes. */
  method AppendTo(file: OpenFile, data: seq<byte>) returns (ret: int)
    requires file.dev.Valid() && file.dev.sem == 1 && 0 <= file.fPos <= LONG_MAX && data != []
    requires Fits(file.dev.View(), file.dev.size, |data|)
    modifies file`fPos, file.dev, file.dev.Items(), file.dev.arrays.Values, file.dev.quanta.Values
    modifies file.dev.slab
    ensures file.dev.Valid() && file.dev.sem == 1
    ensures ret <= |data| && ret != 0 && file.dev.size == old(file.dev.size) + Max(ret, 0)
    ensures ret < 0 <==> file.dev.slab.tally.Refusals() == old(file.dev.slab.tally.Refusals()) + 1
    ensures Saved(Flatten(old(file.dev.View())), Flatten(file.dev.View()), old(file.dev.size), data, Max(ret, 0))
  {
    hide WellFormed, Blocks, Valid, Underway, Progress, Fits, Saved, Device.Valid, Device.Owned;
    file.dev.Sound();
    ghost var st, end := file.dev.View(), file.dev.size;
    SizeBound(st);
    ret := file.Llseek(0, SEEK_END);
    StartsOut(st, end, data);
    ret := WriteOnce(file, data, 0, st, end, 0);
    HowFar(st, file.dev.View(), end, data, Max(ret, 0), if 0 < ret then 1 else 0);
    ProgressSaves(Flatten(st), Flatten(file.dev.View()), end, data, Max(ret, 0), if 0 < ret then 1 else 0);
    SavedAtEnd(Flatten(st), Flatten(file.dev.View()), data, Max(ret, 0));
  }
}
