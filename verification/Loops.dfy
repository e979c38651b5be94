/** What a program sees that repeats `write` until its buffer is taken, or `read` until it has its bytes
    or gets nothing more: each call moves at most one quantum. */
module Loops {
  import opened Geometry
  import opened FlatFile
  import opened Structure
  import opened Refinement

  /** What new quanta happen to contain, by position. */
  type Junk = int -> byte

  function Fill(pos: int, quantum: int, junk: Junk): (r: seq<byte>)
    requires 0 < quantum
    ensures |r| == quantum
  {
    seq(quantum, i => junk(Base(pos, quantum) + i))
  }

  datatype Written = Written(file: Flat, calls: int)
  datatype Got = Got(data: seq<byte>, calls: int)

  /** Repeated writes from `pos`, none of which fails. */
  function WriteAll(f: Flat, pos: int, data: seq<byte>, junk: Junk): Written
    requires Valid(f) && 0 <= pos
    decreases |data|
  {
    if data == [] then Written(f, 0) else
      var luck := Copied(Fill(pos, f.quantum, junk));
      WriteValid(f, pos, data, luck);
      WriteEffect(f, pos, data, luck.fill);
      var k := WriteRet(pos, |data|, f.quantum, luck);
      var rest := WriteAll(Write(f, pos, data, luck), pos + k, data[k..], junk);
      rest.(calls := 1 + rest.calls)
  }

  /** Repeated reads from `pos` until `n` bytes have arrived or a call returns 0. */
  function ReadAll(f: Flat, pos: int, n: int): Got
    requires Valid(f) && 0 <= pos && 0 <= n
    decreases n
  {
    if n == 0 then Got([], 0) else
      ReadEffect(f, pos, n, false);
      var reply := Read(f, pos, n, false);
      if reply.ret == 0 then Got([], 1) else
        var rest := ReadAll(f, pos + reply.ret, n - reply.ret);
        Got(reply.data + rest.data, 1 + rest.calls)
  }

  /** The number of quanta that the positions `[pos, pos + n)` touch. */
  function Crossings(pos: int, n: int, quantum: int): int
    requires 0 < quantum
  {
    if n == 0 then 0 else (pos + n - 1) / quantum - pos / quantum + 1
  }

  lemma NoCrossings(f: Flat, pos: int)
    requires Valid(f)
    ensures 0 < f.quantum && Crossings(pos, 0, f.quantum) == 0
  {
  }

  lemma CrossingsStep(pos: int, n: int, quantum: int)
    requires 0 < quantum && 0 <= pos && 0 < n
    ensures var k := Chunk(pos, n, quantum);
            0 < k <= n && Crossings(pos, n, quantum) == 1 + Crossings(pos + k, n - k, quantum)
  {
    var k, q := Chunk(pos, n, quantum), pos / quantum;
    assert pos == q * quantum + pos % quantum;
    if k == n {
      DivModUnique(pos + n - 1, quantum, q, pos % quantum + n - 1);
    } else {
      assert pos + k == (q + 1) * quantum;
      DivModUnique(pos + k, quantum, q + 1, 0);
    }
  }

  /** The first `m` of `n` bytes from `pos` on end where a quantum does, or where all of them do. */
  predicate Tiled(pos: int, m: int, n: int, quantum: int)
    requires 0 < quantum
  {
    m == 0 || m == n || (pos + m) % quantum == 0
  }

  /** A call that takes what is left of a quantum, or all that is asked for, touches one more. */
  lemma NextCrossing(pos: int, m: int, n: int, quantum: int)
    requires 0 < quantum && 0 <= pos && 0 <= m < n && Tiled(pos, m, n, quantum)
    ensures var k := Chunk(pos + m, n - m, quantum);
            && 0 < k <= n - m && Tiled(pos, m + k, n, quantum)
            && Crossings(pos, m + k, quantum) == Crossings(pos, m, quantum) + 1
  {
    var k, p := Chunk(pos + m, n - m, quantum), pos + m;
    var q := p / quantum;
    assert p == q * quantum + p % quantum;
    DivModUnique(p + k - 1, quantum, q, p % quantum + k - 1);
    if k < n - m {
      assert p + k == (q + 1) * quantum;
      DivModUnique(p + k, quantum, q + 1, 0);
    }
    if m > 0 {
      assert p - 1 == (q - 1) * quantum + (quantum - 1);
      DivModUnique(p - 1, quantum, q - 1, quantum - 1);
    }
  }

  /** The bytes `data` are stored from `pos` on. */
  ghost predicate Holds(f: Flat, pos: int, data: seq<byte>) {
    forall p | Within(p, pos, |data|) :: p < f.size && p in f.bytes && f.bytes[p] == data[p - pos]
  }

  lemma HoldsJoin(f: Flat, pos: int, a: seq<byte>, b: seq<byte>)
    requires Holds(f, pos, a) && Holds(f, pos + |a|, b)
    ensures Holds(f, pos, a + b)
  {
    forall p | Within(p, pos, |a + b|)
      ensures p < f.size && p in f.bytes && f.bytes[p] == (a + b)[p - pos]
    {
      assert Within(p, pos, |a|) || Within(p, pos + |a|, |b|);
    }
  }

  /** `f'` differs from `f` only in `[pos, pos + n)`, as far as stored bytes go. */
  ghost predicate OnlyChanges(f: Flat, f': Flat, pos: int, n: int) {
    && f'.quantum == f.quantum
    && f.size <= f'.size
    && forall p <- f.bytes | !Within(p, pos, n) :: p in f'.bytes && f'.bytes[p] == f.bytes[p]
  }

  lemma FirstChunk(f: Flat, pos: int, data: seq<byte>, fill: seq<byte>)
    requires Valid(f) && 0 <= pos && |fill| == f.quantum && data != []
    ensures var f' := Write(f, pos, data, Copied(fill));
            var k := WriteRet(pos, |data|, f.quantum, Copied(fill));
            && Valid(f') && 0 < k <= |data|
            && Holds(f', pos, data[..k]) && OnlyChanges(f, f', pos, k)
            && f'.size == Max(f.size, pos + k)
            && Crossings(pos, |data|, f.quantum) == 1 + Crossings(pos + k, |data| - k, f.quantum)
  {
    WriteValid(f, pos, data, Copied(fill));
    WriteEffect(f, pos, data, fill);
    CrossingsStep(pos, |data|, f.quantum);
    var f', k := Write(f, pos, data, Copied(fill)), Chunk(pos, |data|, f.quantum);
    forall p | Within(p, pos, k)
      ensures p in f'.bytes && f'.bytes[p] == data[..k][p - pos]
    {
      assert p == pos + (p - pos);
    }
  }

  /** A write loop stores the whole buffer, touches nothing else, and makes one call per quantum. */
  lemma {:induction false} WriteAllEffect(f: Flat, pos: int, data: seq<byte>, junk: Junk)
    requires Valid(f) && 0 <= pos
    ensures var w := WriteAll(f, pos, data, junk);
            && Valid(w.file) && w.file.quantum == f.quantum
            && Holds(w.file, pos, data)
            && OnlyChanges(f, w.file, pos, |data|)
            && w.file.size == (if data == [] then f.size else Max(f.size, pos + |data|))
            && w.calls == Crossings(pos, |data|, f.quantum)
    decreases |data|
  {
    hide Write, WriteRet, Valid, Crossings, Fill;
    NoCrossings(f, pos);
    if data != [] {
      var luck := Copied(Fill(pos, f.quantum, junk));
      FirstChunk(f, pos, data, luck.fill);
      var f', k := Write(f, pos, data, luck), WriteRet(pos, |data|, f.quantum, luck);
      WriteAllEffect(f', pos + k, data[k..], junk);
      HoldsJoin(WriteAll(f, pos, data, junk).file, pos, data[..k], data[k..]);
      assert data == data[..k] + data[k..];
    }
  }

  lemma FirstRead(f: Flat, pos: int, n: int)
    requires Valid(f) && 0 <= pos && 0 < n
    ensures var reply := Read(f, pos, n, false);
            && |reply.data| == reply.ret == ReadLength(f, pos, n) <= n
            && Holds(f, pos, reply.data)
            && (reply.ret == 0 ==> f.size <= pos || pos !in f.bytes)
  {
    ReadEffect(f, pos, n, false);
    var reply := Read(f, pos, n, false);
    forall p | Within(p, pos, reply.ret)
      ensures p in f.bytes && f.bytes[p] == reply.data[p - pos]
    {
      assert p == pos + (p - pos);
    }
  }

  /** The first call of a read loop takes the rest of a quantum unless it is also the last that delivers. */
  lemma ReadCrossings(f: Flat, pos: int, n: int, m: int)
    requires Valid(f) && 0 <= pos && 0 < n && 0 < ReadLength(f, pos, n)
    requires 0 <= m && (0 < m ==> pos + ReadLength(f, pos, n) < f.size && ReadLength(f, pos, n) < n)
    ensures var k := ReadLength(f, pos, n);
            Crossings(pos, k + m, f.quantum) == 1 + Crossings(pos + k, m, f.quantum)
  {
    CrossingsStep(pos, ReadLength(f, pos, n) + m, f.quantum);
  }

  /** A read loop, holes included: it terminates having delivered exactly the stored bytes up to the first
      position that is unbacked or at the end of the file, or the `n` bytes asked for. It makes one call
      per quantum, and one more when it stops short. */
  lemma {:induction false} ReadAllEffect(f: Flat, pos: int, n: int)
    requires Valid(f) && 0 <= pos && 0 <= n
    ensures var got := ReadAll(f, pos, n);
            && Holds(f, pos, got.data)
            && |got.data| <= n
            && (|got.data| < n ==> f.size <= pos + |got.data| || pos + |got.data| !in f.bytes)
            && got.calls == Crossings(pos, |got.data|, f.quantum) + if |got.data| < n then 1 else 0
    decreases n
  {
    hide Read, ReadLength, Valid, Crossings;
    NoCrossings(f, pos);
    if n != 0 {
      FirstRead(f, pos, n);
      var reply := Read(f, pos, n, false);
      if reply.ret != 0 {
        var rest := ReadAll(f, pos + reply.ret, n - reply.ret);
        ReadAllEffect(f, pos + reply.ret, n - reply.ret);
        HoldsJoin(f, pos, reply.data, rest.data);
        if rest.data != [] {
          assert Within(pos + reply.ret, pos + reply.ret, |rest.data|);
        }
        ReadCrossings(f, pos, n, |rest.data|);
      }
    }
  }

  /** A read loop over stored bytes delivers them, in one call per quantum. */
  lemma HeldReadsBack(f: Flat, pos: int, data: seq<byte>)
    requires Valid(f) && 0 <= pos && Holds(f, pos, data)
    ensures ReadAll(f, pos, |data|) == Got(data, Crossings(pos, |data|, f.quantum))
  {
    ReadAllEffect(f, pos, |data|);
    var got := ReadAll(f, pos, |data|);
    assert |got.data| < |data| ==> Within(pos + |got.data|, pos, |data|);
    assert forall i {:trigger got.data[i]} | 0 <= i < |got.data| :: Within(pos + i, pos, |got.data|);
    assert got.data == data;
  }

  /** Reading back what a write loop wrote returns the same buffer, in as many calls. */
  lemma RoundTrip(f: Flat, pos: int, data: seq<byte>, junk: Junk)
    requires Valid(f) && 0 <= pos
    ensures var w := WriteAll(f, pos, data, junk);
            && Valid(w.file)
            && ReadAll(w.file, pos, |data|) == Got(data, w.calls)
            && w.calls == Crossings(pos, |data|, f.quantum)
  {
    WriteAllEffect(f, pos, data, junk);
    HeldReadsBack(WriteAll(f, pos, data, junk).file, pos, data);
  }

  /** On a file without holes a read loop from 0 delivers all `size` bytes, and then nothing. */
  lemma ReadWholeFile(f: Flat, n: int)
    requires Valid(f) && f.size <= n
    requires forall p | 0 <= p < f.size :: p in f.bytes
    ensures |ReadAll(f, 0, n).data| == f.size
    ensures Holds(f, 0, ReadAll(f, 0, n).data)
    ensures Read(f, f.size, n, false) == Outcome(0, [])
  {
    ReadAllEffect(f, 0, n);
    var m := |ReadAll(f, 0, n).data|;
    assert 0 < m ==> Within(m - 1, 0, m);
  }

  // ----- the same loops on the three-level device

  datatype StoreWritten = StoreWritten(store: Store, calls: int)

  /** The whole transfer stays in the addressable range. */
  predicate Fits(st: Store, pos: int, n: int) {
    0 <= pos && 0 <= n && pos + n <= MAX_ITEMS * (st.quantum * st.qset)
  }

  lemma CopiedProgress(st: Store, pos: int, data: seq<byte>, junk: Junk)
    requires WellFormed(st) && Fits(st, pos, |data|) && data != []
    ensures InRange(pos, st.quantum, st.qset)
    ensures Possible(st, pos, |data|, Copied(Fill(pos, st.quantum, junk)))
    ensures 0 < Chunk(pos, |data|, st.quantum) <= |data|
    ensures var st' := WriteStore(st, pos, data, Copied(Fill(pos, st.quantum, junk)));
            && WellFormed(st') && st'.quantum == st.quantum && st'.qset == st.qset
            && Fits(st', pos + Chunk(pos, |data|, st.quantum), |data| - Chunk(pos, |data|, st.quantum))
  {
    ExtentBounds(pos, st.quantum, |data|);
    WriteWellFormed(st, pos, data, Copied(Fill(pos, st.quantum, junk)));
  }

  function StoreWriteAll(st: Store, pos: int, data: seq<byte>, junk: Junk): StoreWritten
    requires WellFormed(st) && Fits(st, pos, |data|)
    decreases |data|
  {
    if data == [] then StoreWritten(st, 0) else
      CopiedProgress(st, pos, data, junk);
      var luck := Copied(Fill(pos, st.quantum, junk));
      var k := WriteRet(pos, |data|, st.quantum, luck);
      var rest := StoreWriteAll(WriteStore(st, pos, data, luck), pos + k, data[k..], junk);
      rest.(calls := 1 + rest.calls)
  }

  function StoreReadAll(st: Store, pos: int, n: int): Got
    requires WellFormed(st) && 0 <= pos && 0 <= n
    decreases n
  {
    if n == 0 then Got([], 0) else
      ReadRefines(st, pos, n, false);
      ReadEffect(Flatten(st), pos, n, false);
      var reply := ReadStore(st, pos, n, false);
      if reply.ret == 0 then Got([], 1) else
        var rest := StoreReadAll(st, pos + reply.ret, n - reply.ret);
        Got(reply.data + rest.data, 1 + rest.calls)
  }

  lemma {:induction false} WriteAllRefines(st: Store, pos: int, data: seq<byte>, junk: Junk)
    requires WellFormed(st) && Fits(st, pos, |data|)
    ensures Valid(Flatten(st))
    ensures var w := StoreWriteAll(st, pos, data, junk);
            && WellFormed(w.store)
            && Written(Flatten(w.store), w.calls) == WriteAll(Flatten(st), pos, data, junk)
    decreases |data|
  {
    hide WriteStore, InRange, Fits, Valid, Locate, Chunk, Fill, Write;
    FlattenValid(st);
    if data != [] {
      CopiedProgress(st, pos, data, junk);
      var luck := Copied(Fill(pos, st.quantum, junk));
      WriteRefines(st, pos, data, luck);
      var k := WriteRet(pos, |data|, st.quantum, luck);
      WriteAllRefines(WriteStore(st, pos, data, luck), pos + k, data[k..], junk);
    }
  }

  lemma WellFormedFlattens(st: Store)
    requires WellFormed(st)
    ensures Shaped(st) && Valid(Flatten(st)) && Flatten(st).quantum == st.quantum
  {
    FlattenValid(st);
  }

  lemma {:induction false} ReadAllRefines(st: Store, pos: int, n: int)
    requires WellFormed(st) && 0 <= pos && 0 <= n
    ensures Valid(Flatten(st))
    ensures StoreReadAll(st, pos, n) == ReadAll(Flatten(st), pos, n)
    decreases n
  {
    hide Read, ReadStore, Valid, WellFormed, InRange, Locate, Flatten;
    WellFormedFlattens(st);
    if n != 0 {
      ReadRefines(st, pos, n, false);
      ReadEffect(Flatten(st), pos, n, false);
      var reply := ReadStore(st, pos, n, false);
      if reply.ret != 0 {
        ReadAllRefines(st, pos + reply.ret, n - reply.ret);
      }
    }
  }

  /** The chunked round trip on the device itself: whatever it held before, and across any number of
      quantum and quantum-set borders, the buffer comes back, and both loops take one call per quantum
      touched. */
  lemma StoreRoundTrip(st: Store, pos: int, data: seq<byte>, junk: Junk)
    requires WellFormed(st) && Fits(st, pos, |data|) && data != []
    ensures var w := StoreWriteAll(st, pos, data, junk);
            var calls := (pos + |data| - 1) / st.quantum - pos / st.quantum + 1;
            && WellFormed(w.store)
            && w.calls == calls
            && StoreReadAll(w.store, pos, |data|) == Got(data, calls)
  {
    WriteAllRefines(st, pos, data, junk);
    RoundTrip(Flatten(st), pos, data, junk);
    ReadAllRefines(StoreWriteAll(st, pos, data, junk).store, pos, |data|);
  }
}
