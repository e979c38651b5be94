/** The reference: what a scull device looks like to its users. A flat file of bytes with holes, backed
    in aligned extents of one quantum each. There is no list, no slot array and no quantum set here. */
module FlatFile {
  import opened Geometry

  /** `bytes` holds the backed positions; a hole is a position that is not in its domain. */
  datatype Flat = Flat(quantum: int, size: int, bytes: map<int, byte>)

  /** What the environment decides while a write holds the semaphore.
      - `NodeFail(len)`, `SlotsFail`, `QuantumFail`: the `kmalloc` of a list node (once the list has `len`
        nodes), of a slot array, or of a quantum returned NULL.
      - `Copied(fill)`: the copy succeeded; `fill` is whatever a newly allocated quantum contained.
      - `Faulted(fill, garble)`: `copy_from_user` failed and left `garble` in the range it was given. */
  datatype WriteLuck =
    | NodeFail(len: int)
    | SlotsFail
    | QuantumFail
    | Copied(fill: seq<byte>)
    | Faulted(fill: seq<byte>, garble: seq<byte>)
  {
    predicate NoMemory() {
      NodeFail? || SlotsFail? || QuantumFail?
    }
  }

  /** A return value and the bytes handed to the user. */
  datatype Outcome = Outcome(ret: int, data: seq<byte>)

  /** First position of the extent that `pos` lies in. */
  function Base(pos: int, quantum: int): int
    requires 0 < quantum
  {
    pos - pos % quantum
  }

  /** How much of an `n`-byte transfer at `pos` one call performs. */
  function Chunk(pos: int, n: int, quantum: int): int
    requires 0 < quantum
  {
    Min(n, quantum - pos % quantum)
  }

  predicate Within(p: int, at: int, n: int) {
    at <= p < at + n
  }

  predicate InExtent(p: int, pos: int, quantum: int)
    requires 0 < quantum
  {
    Within(p, Base(pos, quantum), quantum)
  }

  /** Backed positions are non-negative and come in whole extents. */
  ghost predicate Valid(f: Flat) {
    && 0 < f.quantum
    && 0 <= f.size
    && (forall p <- f.bytes :: 0 <= p)
    && (forall p, p' | p in f.bytes && InExtent(p', p, f.quantum) :: p' in f.bytes)
  }

  /** The map `m` with `data` laid over the positions from `at` on. */
  function Lay(m: map<int, byte>, at: int, data: seq<byte>): (r: map<int, byte>)
    ensures forall p :: p in r <==> p in m || Within(p, at, |data|)
    ensures forall p <- r :: r[p] == if Within(p, at, |data|) then data[p - at] else m[p]
  {
    m + map p: int | at <= p < at + |data| && Within(p, at, |data|) :: data[p - at]
  }

  /** The stored bytes once the extent that starts at `base` and holds `pos` is backed. */
  function Back(m: map<int, byte>, pos: int, base: int, fill: seq<byte>): map<int, byte> {
    if pos in m then m else Lay(m, base, fill)
  }

  predicate LuckFits(pos: int, n: int, quantum: int, luck: WriteLuck)
    requires 0 < quantum
  {
    && (luck.Copied? || luck.Faulted? ==> |luck.fill| == quantum)
    && (luck.Faulted? ==> |luck.garble| == Chunk(pos, n, quantum))
  }

  function Write(f: Flat, pos: int, data: seq<byte>, luck: WriteLuck): Flat
    requires 0 < f.quantum && 0 <= pos && LuckFits(pos, |data|, f.quantum, luck)
  {
    var k := Chunk(pos, |data|, f.quantum);
    match luck
    case Copied(fill) =>
      Flat(f.quantum, Max(f.size, pos + k), Lay(Back(f.bytes, pos, Base(pos, f.quantum), fill), pos, data[..k]))
    case Faulted(fill, garble) =>
      f.(bytes := Lay(Back(f.bytes, pos, Base(pos, f.quantum), fill), pos, garble))
    case _ => f
  }

  function WriteRet(pos: int, n: int, quantum: int, luck: WriteLuck): int
    requires 0 < quantum
  {
    match luck
    case Copied(_) => Chunk(pos, n, quantum)
    case Faulted(_, _) => -EFAULT
    case _ => -ENOMEM
  }

  /** How many bytes a read of `count` bytes at `pos` moves. */
  function ReadLength(f: Flat, pos: int, count: int): int
    requires 0 < f.quantum
  {
    if f.size <= pos || pos !in f.bytes then 0 else Chunk(pos, Min(count, f.size - pos), f.quantum)
  }

  /** `faulty`: `copy_to_user` fails, which it can only do when there is something to copy. */
  function Read(f: Flat, pos: int, count: int, faulty: bool): Outcome
    requires Valid(f) && 0 <= pos && 0 <= count
  {
    var k := ReadLength(f, pos, count);
    if faulty && 0 < k then Outcome(-EFAULT, [])
    else
      assert forall p | pos <= p < pos + k :: InExtent(p, pos, f.quantum);
      Outcome(k, seq(k, i requires 0 <= i < k => f.bytes[pos + i]))
  }

  /** A truncating open: an empty file under the geometry then in force. */
  function Trim(quantum: int): Flat {
    Flat(quantum, 0, map[])
  }

  /** Two positions share an extent exactly when they share a quotient. */
  lemma SameExtent(p: int, pos: int, quantum: int)
    requires 0 < quantum
    ensures InExtent(p, pos, quantum) <==> p / quantum == pos / quantum
  {
    assert p == (p / quantum) * quantum + p % quantum;
    assert pos == (pos / quantum) * quantum + pos % quantum;
    if InExtent(p, pos, quantum) {
      DivModUnique(p, quantum, pos / quantum, p - Base(pos, quantum));
    }
  }

  lemma ExtentBounds(pos: int, quantum: int, n: int)
    requires 0 < quantum && 0 <= pos && 0 <= n
    ensures 0 <= Base(pos, quantum) <= pos < Base(pos, quantum) + quantum
    ensures 0 <= Chunk(pos, n, quantum) <= n
    ensures 0 < n ==> 0 < Chunk(pos, n, quantum)
    ensures pos + Chunk(pos, n, quantum) <= Base(pos, quantum) + quantum
  {
    assert pos == (pos / quantum) * quantum + pos % quantum;
    MulMonotone(0, pos / quantum, quantum);
  }

  /** A position of the extent of `pos` is backed only if `pos` is. */
  lemma Granular(f: Flat, p: int, pos: int)
    requires Valid(f) && p in f.bytes && InExtent(p, pos, f.quantum)
    ensures pos in f.bytes
  {
    SameExtent(p, pos, f.quantum);
    SameExtent(pos, p, f.quantum);
  }

  /** Laying `data` inside a backed extent, on maps alone. */
  lemma LayEffect(m: map<int, byte>, pos: int, base: int, fill: seq<byte>, data: seq<byte>)
    requires base <= pos <= pos + |data| <= base + |fill|
    requires pos in m || forall p <- m :: !Within(p, base, |fill|)
    ensures var m' := Lay(Back(m, pos, base, fill), pos, data);
            && (forall i | 0 <= i < |data| :: pos + i in m' && m'[pos + i] == data[i])
            && (forall p <- m | !Within(p, pos, |data|) :: p in m' && m'[p] == m[p])
            && (forall p <- m' | p !in m :: Within(p, pos, |data|) || Within(p, base, |fill|))
  {
    var m' := Lay(Back(m, pos, base, fill), pos, data);
    forall i | 0 <= i < |data|
      ensures pos + i in m' && m'[pos + i] == data[i]
    {
      assert Within(pos + i, pos, |data|);
    }
  }

  /** A write keeps the extents whole, whatever the environment does. */
  lemma WriteValid(f: Flat, pos: int, data: seq<byte>, luck: WriteLuck)
    requires Valid(f) && 0 <= pos && LuckFits(pos, |data|, f.quantum, luck)
    ensures Valid(Write(f, pos, data, luck))
  {
    var q, f' := f.quantum, Write(f, pos, data, luck);
    ExtentBounds(pos, q, |data|);
    forall p, p' | p in f'.bytes && InExtent(p', p, q)
      ensures p' in f'.bytes
    {
      SameExtent(p', p, q);
      SameExtent(p, pos, q);
      SameExtent(p', pos, q);
    }
  }

  /** What a successful write does, said without the extents: it returns the chunk length, the chunk now
      reads back as written, every other stored byte is untouched, and the size covers the chunk.
      Only positions of the same extent can become backed. */
  lemma WriteEffect(f: Flat, pos: int, data: seq<byte>, fill: seq<byte>)
    requires Valid(f) && 0 <= pos && |fill| == f.quantum
    ensures var f' := Write(f, pos, data, Copied(fill));
            var k := WriteRet(pos, |data|, f.quantum, Copied(fill));
            && 0 <= k <= |data| && (0 < |data| ==> 0 < k)
            && (forall i | 0 <= i < k :: pos + i in f'.bytes && f'.bytes[pos + i] == data[i])
            && (forall p <- f.bytes | !Within(p, pos, k) :: p in f'.bytes && f'.bytes[p] == f.bytes[p])
            && (forall p <- f'.bytes | p !in f.bytes :: InExtent(p, pos, f.quantum))
            && f'.size == Max(f.size, pos + k)
  {
    ExtentBounds(pos, f.quantum, |data|);
    var k, base := Chunk(pos, |data|, f.quantum), Base(pos, f.quantum);
    forall p <- f.bytes | Within(p, base, |fill|)
      ensures pos in f.bytes
    {
      Granular(f, p, pos);
    }
    LayEffect(f.bytes, pos, base, fill, data[..k]);
  }

  /** A write that fails reports it, keeps the size, and may only have disturbed bytes of the chunk it was
      about to write; when memory ran out it has disturbed none. */
  lemma FailedWriteEffect(f: Flat, pos: int, data: seq<byte>, luck: WriteLuck)
    requires Valid(f) && 0 <= pos && LuckFits(pos, |data|, f.quantum, luck) && !luck.Copied?
    ensures var f', k := Write(f, pos, data, luck), Chunk(pos, |data|, f.quantum);
            && WriteRet(pos, |data|, f.quantum, luck) < 0
            && 0 <= k <= |data| && f'.size == f.size
            && (luck.NoMemory() ==> f' == f)
            && (forall p <- f.bytes | !Within(p, pos, k) :: p in f'.bytes && f'.bytes[p] == f.bytes[p])
            && (forall p <- f'.bytes | p !in f.bytes :: InExtent(p, pos, f.quantum))
  {
    ExtentBounds(pos, f.quantum, |data|);
    if luck.Faulted? {
      var base := Base(pos, f.quantum);
      forall p <- f.bytes | Within(p, base, f.quantum)
        ensures pos in f.bytes
      {
        Granular(f, p, pos);
      }
      LayEffect(f.bytes, pos, base, luck.fill, luck.garble);
    }
  }

  /** What a read returning `k` delivers: exactly the stored bytes `[pos, pos + k)`, all below the size.
      It returns nothing only at the end of the file, at a hole, or when nothing was asked for. */
  lemma ReadEffect(f: Flat, pos: int, count: int, faulty: bool)
    requires Valid(f) && 0 <= pos && 0 <= count
    ensures var reply := Read(f, pos, count, faulty);
            && (0 <= reply.ret ==> |reply.data| == reply.ret <= count)
            && (0 < reply.ret ==> pos + reply.ret <= f.size)
            && (forall i | 0 <= i < reply.ret :: pos + i in f.bytes && reply.data[i] == f.bytes[pos + i])
            && (reply.ret == 0 <==> f.size <= pos || pos !in f.bytes || count == 0)
            && (reply.ret < 0 ==> faulty && reply == Outcome(-EFAULT, []))
  {
    ExtentBounds(pos, f.quantum, Max(0, Min(count, f.size - pos)));
    var k := ReadLength(f, pos, count);
    assert forall p | Within(p, pos, k) :: InExtent(p, pos, f.quantum);
    assert forall i {:trigger f.bytes[pos + i]} | 0 <= i < k :: Within(pos + i, pos, k);
  }
}
