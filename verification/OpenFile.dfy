/** `struct file` and the four file operations on it, as the driver runs them one after another. */
module OpenFile {
  import opened Geometry
  import opened FlatFile
  import opened Structure
  import opened Device
  import opened Memory

  const SEEK_SET := 0
  const SEEK_CUR := 1
  const SEEK_END := 2

  /** The sum of a position and an offset keeps its value if that is a position, and is negative if not. */
  lemma WrapsBelowZero(x: int)
    requires -LONG_MAX - 1 <= x < LONG_SPAN
    ensures if 0 <= x <= LONG_MAX then ToLong(x) == x else ToLong(x) < 0
  {
  }

  lemma SizeBound(st: Store)
    requires WellFormed(st)
    ensures 0 <= st.size <= LONG_MAX
  {
    MulMonotone(st.len, MAX_ITEMS, st.quantum * st.qset);
  }

  lemma Addressable(pos: int, quantum: int, qset: int)
    requires ValidGeometry(quantum, qset) && InRange(pos, quantum, qset)
    ensures 0 <= pos && 0 <= Locate(pos, quantum, qset).item
  {
    LocateRebuilds(pos, quantum, qset);
  }

  /** An addressable position and the rest of its quantum are far from the end of `loff_t`. */
  lemma RangeEnd(pos: int, quantum: int, qset: int)
    requires ValidGeometry(quantum, qset) && InRange(pos, quantum, qset)
    ensures pos + quantum <= LONG_MAX
  {
    MulMonotone(1, qset, quantum);
  }

  lemma StartsInRange(st: Store, pos: int, data: seq<byte>)
    requires WellFormed(st) && (InRange(pos, st.quantum, st.qset) || pos + |data| <= LONG_MAX)
    ensures pos <= LONG_MAX
  {
    hide InRange;
    if InRange(pos, st.quantum, st.qset) {
      RangeEnd(pos, st.quantum, st.qset);
    }
  }

  lemma ChunkEnds(pos: int, n: int, quantum: int, luck: WriteLuck)
    requires 0 < quantum && 0 <= pos && 0 <= n
    ensures 0 <= Max(WriteRet(pos, n, quantum, luck), 0) <= n
    ensures Max(WriteRet(pos, n, quantum, luck), 0) <= quantum
  {
    ExtentBounds(pos, quantum, n);
  }

  /** A write ends at a position that `loff_t` can hold. */
  lemma EndsInRange(st: Store, pos: int, data: seq<byte>, ret: int, luck: WriteLuck)
    requires WellFormed(st) && 0 <= pos && ret == WriteRet(pos, |data|, st.quantum, luck)
    requires InRange(pos, st.quantum, st.qset) || pos + |data| <= LONG_MAX
    ensures pos <= pos + Max(ret, 0) <= LONG_MAX
  {
    hide InRange, WriteRet;
    ChunkEnds(pos, |data|, st.quantum, luck);
    if InRange(pos, st.quantum, st.qset) {
      RangeEnd(pos, st.quantum, st.qset);
    }
  }

  /** The end-of-file test of `scull_read`, computed in 64-bit unsigned arithmetic. */
  function Clamp(pos: int, count: int, size: int): int {
    if (pos + count) % LONG_SPAN > size then size - pos else count
  }

  /** It cuts the count at the end of the file exactly when the sum does not wrap. */
  lemma ClampExact(pos: int, count: int, size: int)
    requires 0 <= pos < size < LONG_SPAN && 0 <= count < LONG_SPAN
    ensures Clamp(pos, count, size) == Min(count, size - pos) <==> pos + count < LONG_SPAN
    ensures LONG_SPAN <= pos + count ==> Clamp(pos, count, size) == count
  {
    if pos + count < LONG_SPAN {
      assert (pos + count) % LONG_SPAN == pos + count;
    } else {
      assert (pos + count) % LONG_SPAN == pos + count - LONG_SPAN;
    }
  }

  /** The device `st'` and the reply `ret` are those of `WriteStore` for a possible outcome. */
  ghost predicate WroteAs(st: Store, pos: int, data: seq<byte>, ret: int, luck: WriteLuck, st': Store)
    requires WellFormed(st) && InRange(pos, st.quantum, st.qset)
  {
    && Possible(st, pos, |data|, luck)
    && st' == WriteStore(st, pos, data, luck)
    && ret == WriteRet(pos, |data|, st.quantum, luck)
  }

  lemma GivenUpIs(st: Store, pos: int, data: seq<byte>, luck: WriteLuck)
    requires WellFormed(st) && InRange(pos, st.quantum, st.qset) && luck.NoMemory()
    requires ShortOfMemory(st, Locate(pos, st.quantum, st.qset), luck)
    ensures WroteAs(st, pos, data, -ENOMEM, luck, GivenUp(st, Locate(pos, st.quantum, st.qset), luck))
  {
  }

  /** A copy of the whole chunk, or of something else of its length, as `WriteStore` has it. */
  lemma StoredIs(st: Store, pos: int, data: seq<byte>, fill: seq<byte>, chunk: seq<byte>)
    requires WellFormed(st) && InRange(pos, st.quantum, st.qset) && |fill| == st.quantum
    requires |chunk| == Min(|data|, st.quantum - Locate(pos, st.quantum, st.qset).qPos)
    requires var a := Locate(pos, st.quantum, st.qset);
             && 0 <= a.qPos && a.qPos + |chunk| <= st.quantum
             && At(a) in Prepared(st, a, fill).blocks && |Prepared(st, a, fill).blocks[At(a)]| == st.quantum
    ensures var a := Locate(pos, st.quantum, st.qset);
            var stored := Poke(Prepared(st, a, fill), At(a), a.qPos, chunk);
            && stored.size == st.size
            && (0 < |chunk| ==> WroteAs(st, pos, data, -EFAULT, Faulted(fill, chunk), stored))
            && var stored' := stored.(size := Max(st.size, pos + |chunk|));
               (chunk == data[..|chunk|] ==>
                  WroteAs(st, pos, data, |chunk|, Copied(fill), stored') && WellFormed(stored'))
  {
    LocateRebuilds(pos, st.quantum, st.qset);
    if chunk == data[..|chunk|] {
      WriteWellFormed(st, pos, data, Copied(fill));
    }
  }

  /** The same, for the position that the code was given. */
  ghost predicate CodeAs(st: Store, pos: int, data: seq<byte>, ret: int, luck: WriteLuck, st': Store)
    requires WellFormed(st) && 0 <= pos && 0 <= Locate(pos, st.quantum, st.qset).item
  {
    && Possible(st, pos, |data|, luck)
    && st' == WriteCode(st, pos, data, luck)
    && ret == WriteRet(pos, |data|, st.quantum, luck)
  }

  /** A write that went as one at the position where it landed, but for the size. */
  lemma LandsAs(st: Store, pos: int, data: seq<byte>, ret: int, luck: WriteLuck, st': Store)
    requires WellFormed(st) && 0 <= pos && 0 <= Locate(pos, st.quantum, st.qset).item
    requires InRange(Landing(pos, st.quantum, st.qset), st.quantum, st.qset)
    requires WroteAs(st, Landing(pos, st.quantum, st.qset), data, ret, luck, st')
    ensures CodeAs(st, pos, data, ret, luck, if luck.Copied? then st'.(size := Max(st.size, pos + ret)) else st')
  {
    hide Locate, Landing, InRange, WriteStore, Possible;
    SamePlace(st, pos, |data|, luck);
  }

  lemma QuantumBound(pos: int, quantum: int, qset: int)
    requires ValidGeometry(quantum, qset) && 0 <= pos && 0 <= Locate(pos, quantum, qset).item
    ensures 0 <= Locate(pos, quantum, qset).qPos < quantum
  {
    LocateInBounds(pos, quantum, qset);
  }

  lemma CopiedRet(pos: int, n: int, quantum: int, luck: WriteLuck)
    requires 0 < quantum && 0 <= pos && 0 <= n
    ensures WriteRet(pos, n, quantum, luck) < 0 <==> !luck.Copied?
    ensures WriteRet(pos, n, quantum, luck) < 0 ==> WriteRet(pos, n, quantum, luck) in {-ENOMEM, -EFAULT}
  {
    ExtentBounds(pos, quantum, n);
  }

  /** What `scull_read` returns: `ReadStore`, but for the way the code cuts the count. */
  function ReadCode(st: Store, pos: int, count: int, faulty: bool): Outcome
    requires WellFormed(st) && 0 <= pos && 0 <= count
  {
    if st.size <= pos then Outcome(0, [])
    else
      SizeBound(st);
      ReadAt(st, pos, Max(0, Clamp(pos, count, st.size)), faulty)
  }

  /** Below the end of the file the address is in bounds, its item exists, and its quantum ends in the
      addressable range. */
  lemma ReadAddress(st: Store, pos: int)
    requires WellFormed(st) && 0 <= pos < st.size
    ensures ValidGeometry(st.quantum, st.qset)
    ensures var a := Locate(pos, st.quantum, st.qset);
            && InBounds(a, st.quantum, st.qset) && a.qPos == pos % st.quantum
            && 0 <= a.item < st.len <= MAX_ITEMS && Reach(st, a.item) == st
            && pos + (st.quantum - a.qPos) <= LONG_MAX
            && (At(a) in st.blocks ==> a.item in st.slots && |st.blocks[At(a)]| == st.quantum)
  {
    BelowSizeInRange(st, pos);
    LocateRebuilds(pos, st.quantum, st.qset);
    SizeBound(st);
  }

  lemma ClampBound(pos: int, count: int, size: int)
    requires 0 <= pos < size && 0 <= count
    ensures 0 <= Clamp(pos, count, size)
  {
  }

  /** There `ReadCode` is the hole test followed by one copy. */
  lemma ReadFacts(st: Store, pos: int, count: int)
    requires WellFormed(st) && 0 <= pos < st.size && 0 <= count < LONG_SPAN
    ensures ValidGeometry(st.quantum, st.qset) && 0 <= Clamp(pos, count, st.size)
    ensures var a := Locate(pos, st.quantum, st.qset);
            && InBounds(a, st.quantum, st.qset) && a.qPos == pos % st.quantum
            && 0 <= a.item < st.len <= MAX_ITEMS && Reach(st, a.item) == st
            && pos + (st.quantum - a.qPos) <= LONG_MAX
            && (At(a) in st.blocks ==> |st.blocks[At(a)]| == st.quantum)
    ensures forall faulty ::
              var a := Locate(pos, st.quantum, st.qset);
              ReadCode(st, pos, count, faulty) ==
              if At(a) !in st.blocks then Outcome(0, []) else
                var k := Min(Clamp(pos, count, st.size), st.quantum - a.qPos);
                if faulty && 0 < k then Outcome(-EFAULT, []) else Outcome(k, st.blocks[At(a)][a.qPos..a.qPos + k])
  {
    hide WellFormed, Locate, Clamp, ValidGeometry, Reach;
    ReadAddress(st, pos);
    ClampBound(pos, count, st.size);
  }

  /** The reply of the code is that of a read cut at the end of the file, exactly if the sum of position and
      count does not wrap or what is left of the quantum, or a hole, or the position make the cut needless. */
  lemma ReadCodeExact(st: Store, pos: int, count: int)
    requires WellFormed(st) && 0 <= pos && 0 <= count < LONG_SPAN
    ensures (forall faulty :: ReadCode(st, pos, count, faulty) == ReadStore(st, pos, count, faulty))
            <==> (|| pos + count < LONG_SPAN
                  || st.size <= pos
                  || At(Locate(pos, st.quantum, st.qset)) !in st.blocks
                  || st.quantum - pos % st.quantum <= st.size - pos)
  {
    if pos < st.size {
      ReadFacts(st, pos, count);
      SizeBound(st);
      ClampExact(pos, count, st.size);
      if pos + count >= LONG_SPAN {
        assert ReadStore(st, pos, count, false).ret == ReadCode(st, pos, count, false).ret
               <==> ReadStore(st, pos, count, false) == ReadCode(st, pos, count, false);
      }
    }
  }

  lemma ReadBeyond(st: Store, pos: int, count: int)
    requires WellFormed(st) && 0 <= count && st.size <= pos && 0 <= pos
    ensures ReadCode(st, pos, count, false) == Outcome(0, [])
  {
  }

  /** It fails on a file of two bytes, in quanta of at least three: a read of the largest count at position 1
      delivers what the quantum happened to hold beyond the end of the file. */
  lemma ReadsPastEnd(quantum: int, qset: int, data: seq<byte>, fill: seq<byte>)
    requires ValidGeometry(quantum, qset) && 3 <= quantum == |fill| && |data| == 2
    ensures InRange(0, quantum, qset)
    ensures var st := WriteStore(Fresh(quantum, qset), 0, data, Copied(fill));
            && WellFormed(st) && st.size == 2
            && ReadStore(st, 1, LONG_SPAN - 1, false) == Outcome(1, data[1..])
            && ReadCode(st, 1, LONG_SPAN - 1, false) == Outcome(quantum - 1, data[1..] + fill[2..])
  {
    LocateInverts(Address(0, 0, 0), quantum, qset);
    LocateInverts(Address(0, 0, 1), quantum, qset);
    WriteWellFormed(Fresh(quantum, qset), 0, data, Copied(fill));
  }

  /** What a write that returned `ret` asked of the kernel, and was refused: the reply says which. */
  ghost function WriteTally(t: Tally, ret: int): Tally {
    var waited := t.Waited(ret == -ERESTARTSYS);
    if ret == -ERESTARTSYS then waited
    else if ret == -ENOMEM then waited.Allocated(true)
    else waited.Copied(ret == -EFAULT)
  }

  /** The same for a read at `pos`, which copies only if it is below the size and not at a hole. */
  ghost function ReadTally(t: Tally, st: Store, pos: int, ret: int): Tally
    requires WellFormed(st) && 0 <= pos
  {
    var waited := t.Waited(ret == -ERESTARTSYS);
    if ret == -ERESTARTSYS || st.size <= pos || At(Locate(pos, st.quantum, st.qset)) !in st.blocks then waited
    else waited.Copied(ret == -EFAULT)
  }

  class OpenFile {
    const dev: Device
    var fPos: int

    /** `scull_open`: a write-only open empties the device, under the global sizes. */
    constructor (dev: Device)
      ensures this.dev == dev && fPos == 0
    {
      this.dev := dev;
      fPos := 0;
    }

    /** The truncating part of `scull_open`. It waits for the semaphore, and reports exactly if a signal
        interrupts that; then it does nothing else. */
    method Open(writeOnly: bool, globalQuantum: int, globalQset: int) returns (ret: int)
      requires dev.Valid() && dev.sem == 1 && ValidGeometry(globalQuantum, globalQset)
      modifies dev, dev.nodes`data, dev.slab
      ensures dev.slab.calm ==> ret == 0
      ensures dev.Valid() && dev.sem == 1 && dev.Grown()
      ensures ret == 0 || ret == -ERESTARTSYS
      ensures dev.slab.tally
              == if writeOnly then old(dev.slab.tally).Waited(ret == -ERESTARTSYS) else old(dev.slab.tally)
      ensures ret == -ERESTARTSYS <==> dev.slab.tally.interrupts == old(dev.slab.tally.interrupts) + 1
      ensures !writeOnly ==> ret == 0
      ensures !writeOnly || ret != 0 ==>
                && dev.View() == old(dev.View()) && dev.Owned() == old(dev.Owned())
                && dev.slab.live == old(dev.slab.live)
      ensures writeOnly && ret == 0 ==>
                && dev.View() == Fresh(globalQuantum, globalQset) && dev.Owned() == {}
                && dev.slab.live == old(dev.slab.live - dev.Owned())
                && dev.slab.frees == old(dev.slab.frees) + |old(dev.Owned())|
    {
      hide WellFormed, Blocks, Device.Valid, Device.Owned, Device.View;
      if writeOnly {
        var interrupted := dev.DownInterruptible();
        if interrupted {
          return -ERESTARTSYS;
        }
        dev.Trim(globalQuantum, globalQset);
        dev.Up();
      }
      return 0;
    }

    /** `scull_read` between `down` and `up`. */
    method ReadLocked(count: int, quantum: int, qset: int) returns (ret: int, buf: seq<byte>, ghost faulty: bool)
      requires dev.Valid() && quantum == dev.quantum && qset == dev.qset
      requires 0 <= fPos <= LONG_MAX && 0 <= count < LONG_SPAN && dev.sem == 0 && WellFormed(dev.View())
      modifies `fPos
      modifies dev`data, dev`nodes, dev.nodes`next, dev.slab
      ensures dev.slab.calm ==> !faulty
      ensures faulty <==> ret == -EFAULT
      ensures if old(dev.View()).size <= old(fPos) || At(Locate(old(fPos), quantum, qset)) !in old(dev.View()).blocks
              then ret == 0 && dev.slab.tally == old(dev.slab.tally)
              else dev.slab.tally == old(dev.slab.tally).Copied(faulty)
      ensures dev.Valid() && dev.View() == old(dev.View()) && dev.nodes == old(dev.nodes)
      ensures dev.arrays == old(dev.arrays) && dev.quanta == old(dev.quanta)
      ensures dev.slab.live == old(dev.slab.live) && dev.slab.allocs == old(dev.slab.allocs)
      ensures dev.slab.frees == old(dev.slab.frees)
      ensures Outcome(ret, buf) == ReadCode(dev.View(), old(fPos), count, faulty)
      ensures fPos == old(fPos) + Max(ret, 0) <= LONG_MAX && (0 <= ret || ret == -EFAULT)
    {
      hide WellFormed, Locate, ReadCode, Blocks, Clamp, InBounds, Device.Valid, Device.Owned;
      ghost var st := dev.View();
      dev.Sound();
      if fPos >= dev.size {
        ReadBeyond(st, fPos, count);
        return 0, [], false;
      }
      var n := Clamp(fPos, count, dev.size);
      ReadFacts(st, fPos, count);
      var a := Locate(fPos, quantum, qset);
      var dptr := dev.Follow(a.item);
      ret, buf, faulty := dev.Fetch(dptr, a, n);
      if 0 <= ret {
        fPos := fPos + ret;
      }
    }

    /** `scull_read`, for every `size_t` count: interruption aside, the reply is the one of `ReadStore`, but
        for counts so large that the 64-bit sum wraps (see `ReadCodeExact`). The device, its blocks and the
        allocator are exactly as before. */
    method Read(count: int) returns (ret: int, buf: seq<byte>, ghost faulty: bool)
      requires dev.Valid() && dev.sem == 1 && 0 <= fPos <= LONG_MAX && 0 <= count < LONG_SPAN
      modifies `fPos, dev`sem
      modifies dev`data, dev`nodes, dev.nodes`next, dev.slab
      ensures dev.slab.calm ==> ret != -ERESTARTSYS && !faulty
      ensures faulty <==> ret == -EFAULT
      ensures WellFormed(old(dev.View()))
      ensures dev.slab.tally == ReadTally(old(dev.slab.tally), old(dev.View()), old(fPos), ret)
      ensures ret == -ERESTARTSYS <==> dev.slab.tally.interrupts == old(dev.slab.tally.interrupts) + 1
      ensures ret == -EFAULT <==> dev.slab.tally.faults == old(dev.slab.tally.faults) + 1
      ensures dev.Valid() && dev.sem == 1
      ensures dev.View() == old(dev.View()) && dev.nodes == old(dev.nodes)
      ensures dev.arrays == old(dev.arrays) && dev.quanta == old(dev.quanta)
      ensures dev.slab.live == old(dev.slab.live) && dev.slab.allocs == old(dev.slab.allocs)
      ensures dev.slab.frees == old(dev.slab.frees)
      ensures ret < 0 ==> ret in {-ERESTARTSYS, -EFAULT}
      ensures ret == -ERESTARTSYS ==> fPos == old(fPos) && buf == []
      ensures ret != -ERESTARTSYS ==> Outcome(ret, buf) == ReadCode(dev.View(), old(fPos), count, faulty)
      ensures ret != -ERESTARTSYS && old(fPos) + count < LONG_SPAN ==>
                Outcome(ret, buf) == ReadStore(dev.View(), old(fPos), count, faulty)
      ensures ret != -ERESTARTSYS ==> fPos == old(fPos) + Max(ret, 0)
      ensures fPos <= LONG_MAX
    {
      hide WellFormed, Locate, ReadStore, ReadCode, Blocks, Device.Valid;
      dev.Sound();
      var quantum, qset := dev.quantum, dev.qset;
      var interrupted := dev.DownInterruptible();
      if interrupted {
        return -ERESTARTSYS, [], false;
      }
      ret, buf, faulty := ReadLocked(count, quantum, qset);
      dev.Sound();
      if old(fPos) + count < LONG_SPAN {
        ReadCodeExact(dev.View(), old(fPos), count);
      }
      dev.Up();
    }

    /** `scull_llseek`, with its 64-bit arithmetic. A position beyond the range of `loff_t` is refused just
        like a negative one, so no wrapped position is ever installed. */
    method Llseek(off: int, whence: int) returns (ret: int)
      requires dev.Valid() && 0 <= fPos <= LONG_MAX && -LONG_MAX - 1 <= off <= LONG_MAX
      modifies `fPos
      ensures whence == SEEK_SET ==> ret == if 0 <= off then off else -EINVAL
      ensures whence == SEEK_CUR ==> ret == if 0 <= old(fPos) + off <= LONG_MAX then old(fPos) + off else -EINVAL
      ensures whence == SEEK_END ==> ret == if 0 <= dev.size + off <= LONG_MAX then dev.size + off else -EINVAL
      ensures whence !in {SEEK_SET, SEEK_CUR, SEEK_END} ==> ret == -EINVAL
      ensures fPos == if 0 <= ret then ret else old(fPos)
      ensures 0 <= fPos <= LONG_MAX
    {
      hide WellFormed, Blocks, Device.Valid, ToLong;
      dev.Sound();
      SizeBound(dev.View());
      WrapsBelowZero(fPos + off);
      WrapsBelowZero(dev.size + off);
      var newPos;
      match whence {
        case 0 => newPos := off;
        case 1 => newPos := ToLong(fPos + off);
        case 2 => newPos := ToLong(dev.size + off);
        case _ => return -EINVAL;
      }
      if newPos < 0 {
        return -EINVAL;
      }
      fPos := newPos;
      return newPos;
    }

    /** The size update at the end of `scull_write`. */
    method RaiseTo(end: int)
      requires dev.Valid() && dev.sem == 0
      modifies dev`size
      ensures dev.View() == old(dev.View()).(size := Max(old(dev.size), end))
      ensures dev.Valid() <==> WellFormed(dev.View())
    {
      hide WellFormed, Device.Valid;
      dev.Sound();
      if dev.size < end {
        dev.SetSize(end);
      } else {
        assert dev.View().(size := Max(dev.size, end)) == dev.View();
      }
    }

    /** The second half of `scull_write`: the cut at the end of the quantum, the copy, and the updates of the
        position and the size. `st` and `pos` are the device and the position at the start of the call, `at`
        the position where it lands. */
    method Transfer(data: seq<byte>, quantum: int, a: Address, q: array<byte>,
                    ghost st: Store, ghost pos: int, ghost at: int, ghost fill: seq<byte>)
      returns (ret: int, ghost luck: WriteLuck)
      requires dev.Valid() && dev.sem == 0 && WellFormed(st) && pos == fPos && 0 <= pos
      requires a == Locate(pos, st.quantum, st.qset) && 0 <= a.item && at == Landing(pos, st.quantum, st.qset)
      requires InRange(at, st.quantum, st.qset) && Locate(at, st.quantum, st.qset) == a
      requires 0 <= a.qPos < quantum == st.quantum == |fill| && dev.View() == Prepared(st, a, fill)
      requires At(a) in dev.quanta && q == dev.quanta[At(a)] && q.Length == quantum
      modifies `fPos, dev`size, dev`contents, q, dev.slab`tally
      ensures dev.slab.tally == old(dev.slab.tally).Copied(ret == -EFAULT) && ret != -ENOMEM
      ensures dev.slab.calm ==> luck.Copied?
      ensures CodeAs(st, pos, data, ret, luck, dev.View()) && (dev.Valid() <==> WellFormed(dev.View()))
      ensures fPos == pos + Max(ret, 0) && ret != -ERESTARTSYS
    {
      hide WellFormed, Locate, InRange, Landing, WriteStore, WroteAs, CodeAs, Prepared, Poke, Device.Valid;
      var count := if |data| > quantum - a.qPos then quantum - a.qPos else |data|;
      var left := dev.CopyIn(q, a.qPos, data[..count], At(a));
      ghost var chunk := q[a.qPos..a.qPos + count];
      StoredIs(st, at, data, fill, chunk);
      if left != 0 {
        LandsAs(st, pos, data, -EFAULT, Faulted(fill, chunk), dev.View());
        dev.Sound();
        return -EFAULT, Faulted(fill, chunk);
      }
      LandsAs(st, pos, data, count, Copied(fill), dev.View().(size := Max(st.size, at + count)));
      fPos := fPos + count;
      RaiseTo(fPos);
      return count, Copied(fill);
    }

    /** `scull_write` between `down` and `up`. */
    method WriteLocked(data: seq<byte>, quantum: int, qset: int) returns (ret: int, ghost luck: WriteLuck)
      requires dev.Valid() && quantum == dev.quantum && qset == dev.qset && ValidGeometry(quantum, qset)
      requires 0 <= fPos && 0 <= Locate(fPos, quantum, qset).item && WellFormed(dev.View()) && dev.sem == 0
      modifies `fPos, dev`size
      modifies dev`data, dev`nodes, dev`arrays, dev`quanta, dev`contents, dev.nodes`data, dev.nodes`next
      modifies dev.arrays.Values, dev.quanta.Values, dev.slab
      ensures dev.slab.tally
              == if ret == -ENOMEM then old(dev.slab.tally).Allocated(true)
                 else old(dev.slab.tally).Copied(ret == -EFAULT)
      ensures dev.slab.calm ==> luck.Copied?
      ensures dev.Grown() && (dev.Valid() <==> WellFormed(dev.View()))
      ensures dev.slab.live - dev.Owned() == old(dev.slab.live - dev.Owned())
      ensures dev.slab.frees == old(dev.slab.frees)
      ensures CodeAs(old(dev.View()), old(fPos), data, ret, luck, dev.View())
      ensures fPos == old(fPos) + Max(ret, 0) && ret != -ERESTARTSYS
    {
      hide WellFormed, Locate, InRange, Landing, InBounds, WroteAs, CodeAs, Blocks, Prepared, GivenUp, Device.Valid;
      ghost var st, pos, at := dev.View(), fPos, Landing(fPos, quantum, qset);
      BeyondRangeAliases(pos, quantum, qset);
      var a := Locate(fPos, quantum, qset);
      var q;
      q, luck := dev.Secure(a);
      if q == null {
        GivenUpIs(st, at, data, luck);
        LandsAs(st, pos, data, -ENOMEM, luck, dev.View());
        dev.Sound();
        return -ENOMEM, luck;
      }
      QuantumBound(pos, quantum, qset);
      ret, luck := Transfer(data, quantum, a, q, st, pos, at, luck.fill);
    }

    /** `scull_write`, at any position whose narrowed item number is not negative. Interruption aside, the
        device afterwards is `WriteCode` of the device before, for an outcome the environment could bring
        about; for an addressable position that is `WriteStore`. Nothing leaks and nothing is freed. The
        heap invariant is kept exactly if the position is addressable or the call fails. */
    method Write(data: seq<byte>) returns (ret: int, ghost luck: WriteLuck)
      requires dev.Valid() && dev.sem == 1 && 0 <= fPos && 0 <= Locate(fPos, dev.quantum, dev.qset).item
      requires InRange(fPos, dev.quantum, dev.qset) || fPos + |data| <= LONG_MAX
      modifies `fPos, dev`sem, dev`size
      modifies dev`data, dev`nodes, dev`arrays, dev`quanta, dev`contents, dev.nodes`data, dev.nodes`next
      modifies dev.arrays.Values, dev.quanta.Values, dev.slab
      ensures dev.slab.calm ==> ret != -ERESTARTSYS && luck.Copied?
      ensures ret < 0 ==> ret in {-ERESTARTSYS, -ENOMEM, -EFAULT}
      ensures dev.slab.tally == WriteTally(old(dev.slab.tally), ret)
      ensures ret == -ERESTARTSYS <==> dev.slab.tally.interrupts == old(dev.slab.tally.interrupts) + 1
      ensures ret == -ENOMEM <==> dev.slab.tally.shortages == old(dev.slab.tally.shortages) + 1
      ensures ret == -EFAULT <==> dev.slab.tally.faults == old(dev.slab.tally.faults) + 1
      ensures dev.sem == 1 && dev.Grown()
      ensures dev.Valid() <==> old(InRange(fPos, dev.quantum, dev.qset)) || ret < 0
      ensures dev.slab.live - dev.Owned() == old(dev.slab.live - dev.Owned())
      ensures dev.slab.frees == old(dev.slab.frees)
      ensures ret == -ERESTARTSYS ==> dev.View() == old(dev.View()) && fPos == old(fPos)
      ensures ret != -ERESTARTSYS ==>
                && Possible(old(dev.View()), old(fPos), |data|, luck)
                && dev.View() == WriteCode(old(dev.View()), old(fPos), data, luck)
                && ret == WriteRet(old(fPos), |data|, old(dev.quantum), luck)
                && fPos == old(fPos) + Max(ret, 0)
      ensures ret != -ERESTARTSYS && old(InRange(fPos, dev.quantum, dev.qset)) ==>
                dev.View() == WriteStore(old(dev.View()), old(fPos), data, luck)
      ensures fPos <= LONG_MAX
    {
      hide WellFormed, Locate, InRange, WriteStore, WriteCode, Blocks, Possible, WriteRet;
      hide Device.Valid, Device.Owned;
      dev.Sound();
      ghost var st, pos := dev.View(), fPos;
      StartsInRange(st, pos, data);
      var quantum, qset := dev.quantum, dev.qset;
      var interrupted := dev.DownInterruptible();
      if interrupted {
        return -ERESTARTSYS, QuantumFail;
      }
      ret, luck := WriteLocked(data, quantum, qset);
      EndsInRange(st, pos, data, ret, luck);
      WriteCodeExact(st, pos, data, luck);
      CopiedRet(pos, |data|, quantum, luck);
      dev.Up();
    }
  }
}
