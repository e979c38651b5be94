/** The device as a value without pointers: the list length, which list items have a slot array, and the
    contents of every quantum. Each step of `scull_write` is one small function on it. */
module Structure {
  import opened Geometry
  import opened FlatFile

  /** The quantum in slot `slot` of list item `item`. */
  datatype Key = Key(item: int, slot: int)

  datatype Store = Store(
    quantum: int,
    qset: int,
    size: int,
    len: int,
    slots: set<int>,
    blocks: map<Key, seq<byte>>)

  predicate KeyInBounds(st: Store, k: Key) {
    k.item in st.slots && 0 <= k.slot < st.qset
  }

  /** Everything but the size bound: holds even between two steps of one call. */
  ghost predicate Shaped(st: Store) {
    && ValidGeometry(st.quantum, st.qset)
    && 0 <= st.size
    && 0 <= st.len <= MAX_ITEMS
    && (forall i <- st.slots :: 0 <= i < st.len)
    && (forall k <- st.blocks :: KeyInBounds(st, k) && |st.blocks[k]| == st.quantum)
  }

  function Capacity(st: Store): int {
    st.len * (st.quantum * st.qset)
  }

  /** The structural invariant of every reachable device. */
  ghost predicate WellFormed(st: Store) {
    Shaped(st) && st.size <= Capacity(st)
  }

  function Fresh(quantum: int, qset: int): Store {
    Store(quantum, qset, 0, 0, {}, map[])
  }

  /** List nodes, slot arrays and quanta together. */
  function BlockCount(st: Store): int {
    st.len + |st.slots| + |st.blocks|
  }

  function At(a: Address): Key {
    Key(a.item, a.sPos)
  }

  // ----- the steps of scull_write

  /** `scull_follow` succeeded: the list reaches item `n`. */
  function Reach(st: Store, n: int): Store {
    st.(len := Max(st.len, n + 1))
  }

  function WithSlots(st: Store, item: int): Store {
    st.(slots := st.slots + {item})
  }

  function WithQuantum(st: Store, k: Key, fill: seq<byte>): Store {
    if k in st.blocks then st else st.(blocks := st.blocks[k := fill])
  }

  /** The block `b` with `data` written at offset `off`. */
  function Patch(b: seq<byte>, off: int, data: seq<byte>): (r: seq<byte>)
    requires 0 <= off <= off + |data| <= |b|
    ensures |r| == |b|
    ensures forall i | 0 <= i < |b| :: r[i] == if off <= i < off + |data| then data[i - off] else b[i]
  {
    b[..off] + data + b[off + |data|..]
  }

  function Poke(st: Store, k: Key, off: int, data: seq<byte>): Store
    requires k in st.blocks && 0 <= off <= off + |data| <= |st.blocks[k]|
  {
    st.(blocks := st.blocks[k := Patch(st.blocks[k], off, data)])
  }

  function RaiseSize(st: Store, end: int): Store {
    st.(size := Max(st.size, end))
  }

  /** The structure once all three allocations are in place. */
  function Prepared(st: Store, a: Address, fill: seq<byte>): Store {
    WithQuantum(WithSlots(Reach(st, a.item), a.item), At(a), fill)
  }

  /** The structure with `chunk` stored at `pos`, inside one quantum. */
  function Stored(st: Store, pos: int, chunk: seq<byte>, fill: seq<byte>): (st': Store)
    requires Shaped(st) && InRange(pos, st.quantum, st.qset) && |fill| == st.quantum
    requires |chunk| <= st.quantum - pos % st.quantum
    ensures Shaped(st') && st'.size == st.size
  {
    LocateRebuilds(pos, st.quantum, st.qset);
    var a := Locate(pos, st.quantum, st.qset);
    Poke(Prepared(st, a, fill), At(a), a.qPos, chunk)
  }

  /** The structure after a write at address `a` that ran out of memory. */
  function GivenUp(st: Store, a: Address, luck: WriteLuck): Store {
    match luck
    case NodeFail(len) => st.(len := len)
    case SlotsFail => Reach(st, a.item)
    case _ => WithSlots(Reach(st, a.item), a.item)
  }

  /** An allocation can only fail if it is attempted. */
  predicate ShortOfMemory(st: Store, a: Address, luck: WriteLuck) {
    match luck
    case NodeFail(len) => st.len <= len <= a.item
    case SlotsFail => a.item !in st.slots
    case QuantumFail => At(a) !in st.blocks
    case _ => false
  }

  /** Which outcomes the environment can bring about for this write; a copy can only fault if it moves
      something. */
  predicate Possible(st: Store, pos: int, n: int, luck: WriteLuck)
    requires ValidGeometry(st.quantum, st.qset) && 0 <= pos
  {
    var a := Locate(pos, st.quantum, st.qset);
    match luck
    case Copied(fill) => |fill| == st.quantum
    case Faulted(fill, garble) => |fill| == st.quantum && 0 < |garble| == Chunk(pos, n, st.quantum)
    case _ => ShortOfMemory(st, a, luck)
  }

  /** `scull_write` of `data` at `pos`: the structure it leaves behind. */
  function WriteStore(st: Store, pos: int, data: seq<byte>, luck: WriteLuck): Store
    requires Shaped(st) && InRange(pos, st.quantum, st.qset) && Possible(st, pos, |data|, luck)
  {
    LocateRebuilds(pos, st.quantum, st.qset);
    var a := Locate(pos, st.quantum, st.qset);
    match luck
    case Copied(fill) =>
      var k := Chunk(pos, |data|, st.quantum);
      RaiseSize(Stored(st, pos, data[..k], fill), pos + k)
    case Faulted(fill, garble) => Stored(st, pos, garble, fill)
    case _ => GivenUp(st, a, luck)
  }

  /** Below the size the wanted list item always exists, so the `scull_follow` in `scull_read` walks the
      list without growing it. */
  lemma BelowSizeInRange(st: Store, pos: int)
    requires WellFormed(st) && 0 <= pos < st.size
    ensures InRange(pos, st.quantum, st.qset)
    ensures 0 <= Locate(pos, st.quantum, st.qset).item < st.len
    ensures Reach(st, Locate(pos, st.quantum, st.qset).item) == st
  {
    var itemsize := st.quantum * st.qset;
    MulMonotone(st.len, MAX_ITEMS, itemsize);
    LocateRebuilds(pos, st.quantum, st.qset);
    DivBelow(pos, itemsize, st.len);
  }

  /** `scull_read` below the end of the file, of at most `n` bytes: hole test, quantum cut and copy. */
  function ReadAt(st: Store, pos: int, n: int, faulty: bool): Outcome
    requires WellFormed(st) && 0 <= pos < st.size && 0 <= n
  {
    BelowSizeInRange(st, pos);
    LocateRebuilds(pos, st.quantum, st.qset);
    var a := Locate(pos, st.quantum, st.qset);
    if a.item !in st.slots || At(a) !in st.blocks then Outcome(0, [])
    else
      var k := Min(n, st.quantum - a.qPos);
      if faulty && 0 < k then Outcome(-EFAULT, [])
      else Outcome(k, st.blocks[At(a)][a.qPos..a.qPos + k])
  }

  /** `scull_read` of `count` bytes at `pos`, cut at the end of the file. */
  function ReadStore(st: Store, pos: int, count: int, faulty: bool): Outcome
    requires WellFormed(st) && 0 <= pos && 0 <= count
  {
    if st.size <= pos then Outcome(0, []) else ReadAt(st, pos, Min(count, st.size - pos), faulty)
  }

  // ----- invariants

  /** The structural invariant survives a write, also one that runs out of memory at any of the three
      allocations or faults in the copy. */
  lemma WriteWellFormed(st: Store, pos: int, data: seq<byte>, luck: WriteLuck)
    requires WellFormed(st) && InRange(pos, st.quantum, st.qset) && Possible(st, pos, |data|, luck)
    ensures WellFormed(WriteStore(st, pos, data, luck))
  {
    LocateRebuilds(pos, st.quantum, st.qset);
    var a := Locate(pos, st.quantum, st.qset);
    var itemsize, st' := st.quantum * st.qset, WriteStore(st, pos, data, luck);
    MulMonotone(st.len, st'.len, itemsize);
    if luck.Copied? {
      var k := Chunk(pos, |data|, st.quantum);
      CellBound(a.sPos, st.quantum, a.qPos, st.qset);
      MulMonotone(a.item + 1, st'.len, itemsize);
      MulMonotone(a.sPos + 1, st.qset, st.quantum);
      assert pos + k <= st'.len * itemsize;
    }
  }

  lemma SamePlace(st: Store, pos: int, n: int, luck: WriteLuck)
    requires Shaped(st) && 0 <= pos && 0 <= Locate(pos, st.quantum, st.qset).item && 0 <= n
    ensures var at := Landing(pos, st.quantum, st.qset);
            && InRange(at, st.quantum, st.qset)
            && (Possible(st, at, n, luck) <==> Possible(st, pos, n, luck))
            && WriteRet(at, n, st.quantum, luck) == WriteRet(pos, n, st.quantum, luck)
            && Chunk(at, n, st.quantum) == Chunk(pos, n, st.quantum)
  {
    hide Locate, Landing;
    BeyondRangeAliases(pos, st.quantum, st.qset);
  }

  /** What `scull_write` does at any position whose narrowed item number is not negative: the bytes go to
      where the narrowed address lies, the size is raised to where the position says. */
  function WriteCode(st: Store, pos: int, data: seq<byte>, luck: WriteLuck): Store
    requires Shaped(st) && 0 <= pos && 0 <= Locate(pos, st.quantum, st.qset).item
    requires Possible(st, pos, |data|, luck)
  {
    SamePlace(st, pos, |data|, luck);
    var st' := WriteStore(st, Landing(pos, st.quantum, st.qset), data, luck);
    if luck.Copied? then st'.(size := Max(st.size, pos + Chunk(pos, |data|, st.quantum))) else st'
  }

  lemma ListBound(st: Store)
    requires WellFormed(st)
    ensures Capacity(st) <= MAX_ITEMS * (st.quantum * st.qset)
  {
    MulMonotone(st.len, MAX_ITEMS, st.quantum * st.qset);
  }

  lemma WrittenSize(st: Store, pos: int, data: seq<byte>, luck: WriteLuck)
    requires Shaped(st) && InRange(pos, st.quantum, st.qset) && Possible(st, pos, |data|, luck)
    ensures var st' := WriteStore(st, pos, data, luck);
            && st'.quantum == st.quantum && st'.qset == st.qset
            && (luck.Copied? ==> st'.size == Max(st.size, pos + Chunk(pos, |data|, st.quantum)))
  {
    hide Locate;
  }

  /** That is `WriteStore`, and keeps the invariant, exactly for addressable positions; but a write that
      fails keeps it anyway. */
  lemma WriteCodeExact(st: Store, pos: int, data: seq<byte>, luck: WriteLuck)
    requires WellFormed(st) && 0 <= pos && 0 <= Locate(pos, st.quantum, st.qset).item
    requires Possible(st, pos, |data|, luck)
    ensures InRange(pos, st.quantum, st.qset) ==> WriteCode(st, pos, data, luck) == WriteStore(st, pos, data, luck)
    ensures WellFormed(WriteCode(st, pos, data, luck)) <==> InRange(pos, st.quantum, st.qset) || !luck.Copied?
  {
    hide Locate, Landing, WriteStore, Possible;
    var at := Landing(pos, st.quantum, st.qset);
    BeyondRangeAliases(pos, st.quantum, st.qset);
    SamePlace(st, pos, |data|, luck);
    WriteWellFormed(st, at, data, luck);
    ListBound(WriteStore(st, at, data, luck));
    WrittenSize(st, at, data, luck);
    if !InRange(pos, st.quantum, st.qset) {
      FarBeyond(pos, st.quantum, st.qset);
    }
  }

  lemma WrittenShaped(st: Store, pos: int, data: seq<byte>, fill: seq<byte>)
    requires WellFormed(st) && InRange(pos, st.quantum, st.qset) && |fill| == st.quantum
    ensures Shaped(WriteStore(st, pos, data, Copied(fill)))
  {
    WriteWellFormed(st, pos, data, Copied(fill));
  }

  /** It fails on every device: the bytes of a write at item number 2^32 land at position 0, and the size is
      then beyond the list. */
  lemma FarWriteLandsAtZero(st: Store, data: seq<byte>, fill: seq<byte>)
    requires WellFormed(st) && |fill| == st.quantum
    ensures var pos := INT_SPAN * (st.quantum * st.qset);
            && 0 <= pos <= LONG_MAX && 0 <= Locate(pos, st.quantum, st.qset).item
            && Possible(st, pos, |data|, Copied(fill)) && Possible(st, 0, |data|, Copied(fill))
            && InRange(0, st.quantum, st.qset)
            && var st' := WriteCode(st, pos, data, Copied(fill));
               && st'.blocks == WriteStore(st, 0, data, Copied(fill)).blocks
               && Capacity(st') < st'.size
  {
    hide Locate, InRange, WriteStore;
    var pos := INT_SPAN * (st.quantum * st.qset);
    FarAliases(st.quantum, st.qset);
    WriteCodeExact(st, pos, data, Copied(fill));
    SamePlace(st, pos, |data|, Copied(fill));
    WrittenShaped(st, 0, data, fill);
  }

  /** A longer list keeps the invariant. */
  lemma LongerWellFormed(st: Store, len: int)
    requires WellFormed(st) && st.len <= len <= MAX_ITEMS
    ensures WellFormed(st.(len := len))
  {
    MulMonotone(st.len, len, st.quantum * st.qset);
  }

  lemma WithSlotsWellFormed(st: Store, item: int)
    requires WellFormed(st) && 0 <= item < st.len
    ensures WellFormed(WithSlots(st, item))
  {
  }

  lemma WithQuantumWellFormed(st: Store, k: Key, fill: seq<byte>)
    requires WellFormed(st) && KeyInBounds(st, k) && |fill| == st.quantum
    ensures WellFormed(WithQuantum(st, k, fill))
  {
  }

  lemma PokeWellFormed(st: Store, k: Key, off: int, data: seq<byte>)
    requires WellFormed(st) && k in st.blocks && 0 <= off <= off + |data| <= |st.blocks[k]|
    ensures WellFormed(Poke(st, k, off, data))
  {
  }

  // ----- what a call does that works with the sizes `q` and `n`, whatever those of the device are

  /** `k` bytes at address `a` lie inside a quantum. */
  predicate Holding(st: Store, a: Address, k: int) {
    At(a) in st.blocks && 0 <= k && 0 <= a.qPos && a.qPos + k <= |st.blocks[At(a)]|
  }

  /** The array of item `a.item`, which has the length `n` if it is new, has a slot for `a`. */
  predicate SlotThere(st: Store, a: Address, n: int) {
    if a.item in st.slots then a.sPos < st.qset else n == st.qset
  }

  /** How many of `len` bytes fit behind address `a`, as far as the sizes tell. */
  function Room(a: Address, q: int, len: int): int {
    Min(len, q - a.qPos)
  }

  /** The outcomes of a write of `len` bytes that stay inside the arrays and the quanta. */
  predicate PossibleWith(st: Store, q: int, n: int, pos: int, len: int, luck: WriteLuck)
    requires ValidGeometry(q, n) && 0 <= pos
  {
    var a := Locate(pos, q, n);
    && 0 <= a.item
    && (luck.NoMemory() ==> ShortOfMemory(st, a, luck))
    && (!luck.NodeFail? && !luck.SlotsFail? ==> SlotThere(st, a, n))
    && (luck.Copied? || luck.Faulted? ==>
          && (if At(a) in st.blocks then luck.fill == st.blocks[At(a)] else |luck.fill| == q)
          && Holding(Prepared(st, a, luck.fill), a, Room(a, q, len)))
    && (luck.Faulted? ==> 0 < |luck.garble| == Room(a, q, len))
  }

  /** The structure that such a write leaves behind. */
  function WriteWith(st: Store, q: int, n: int, pos: int, data: seq<byte>, luck: WriteLuck): Store
    requires ValidGeometry(q, n) && 0 <= pos && PossibleWith(st, q, n, pos, |data|, luck)
  {
    var a := Locate(pos, q, n);
    match luck
    case Copied(fill) =>
      var k := Room(a, q, |data|);
      RaiseSize(Poke(Prepared(st, a, fill), At(a), a.qPos, data[..k]), pos + k)
    case Faulted(fill, garble) => Poke(Prepared(st, a, fill), At(a), a.qPos, garble)
    case _ => GivenUp(st, a, luck)
  }

  function RetWith(q: int, n: int, pos: int, len: int, luck: WriteLuck): int
    requires ValidGeometry(q, n) && 0 <= pos
  {
    match luck
    case Copied(_) => Room(Locate(pos, q, n), q, len)
    case Faulted(_, _) => -EFAULT
    case _ => -ENOMEM
  }

  /** A read of `count` bytes may return `reply` and leave `st'`: it can only grow the list. */
  ghost predicate ReadsAs(st: Store, q: int, n: int, pos: int, count: int, faulty: bool, reply: Outcome, st': Store)
    requires ValidGeometry(q, n) && 0 <= pos
  {
    var a, k := Locate(pos, q, n), Room(Locate(pos, q, n), q, Min(count, st.size - pos));
    if st.size <= pos then st' == st && reply == Outcome(0, []) && !faulty
    else if st'.len <= a.item then
      0 <= a.item && st.len <= st'.len && st' == st.(len := st'.len) && reply == Outcome(0, []) && !faulty
    else
      && 0 <= a.item && st' == Reach(st, a.item) && (a.item in st.slots ==> a.sPos < st.qset)
      && if a.item !in st.slots || At(a) !in st.blocks then reply == Outcome(0, []) && !faulty
         else
           && Holding(st, a, k)
           && if faulty then 0 < k && reply == Outcome(-EFAULT, [])
              else reply == Outcome(k, st.blocks[At(a)][a.qPos..a.qPos + k])
  }

  /** What the environment says of a new quantum is what the quantum holds, also if it is not new. */
  predicate Recorded(st: Store, a: Address, luck: WriteLuck) {
    (luck.Copied? || luck.Faulted?) && At(a) in st.blocks ==> luck.fill == st.blocks[At(a)]
  }

  /** With the sizes of the device, that is `WriteStore`. */
  lemma WriteWithOwn(st: Store, pos: int, data: seq<byte>, luck: WriteLuck)
    requires Shaped(st) && InRange(pos, st.quantum, st.qset)
    ensures 0 <= pos && Locate(pos, st.quantum, st.qset).item >= 0
    ensures PossibleWith(st, st.quantum, st.qset, pos, |data|, luck)
            <==> Possible(st, pos, |data|, luck) && Recorded(st, Locate(pos, st.quantum, st.qset), luck)
    ensures PossibleWith(st, st.quantum, st.qset, pos, |data|, luck) ==>
              && WriteWith(st, st.quantum, st.qset, pos, data, luck) == WriteStore(st, pos, data, luck)
              && RetWith(st.quantum, st.qset, pos, |data|, luck) == WriteRet(pos, |data|, st.quantum, luck)
  {
    hide Locate;
    LocateRebuilds(pos, st.quantum, st.qset);
  }

  /** With the sizes of the device, a read changes nothing and returns `ReadStore`. */
  lemma ReadsAsOwn(st: Store, pos: int, count: int, faulty: bool, reply: Outcome, st': Store)
    requires WellFormed(st) && 0 <= pos && 0 <= count
    ensures ReadsAs(st, st.quantum, st.qset, pos, count, faulty, reply, st')
            <==> st' == st && reply == ReadStore(st, pos, count, faulty) && (faulty <==> reply.ret == -EFAULT)
  {
    if pos < st.size {
      BelowSizeInRange(st, pos);
      LocateRebuilds(pos, st.quantum, st.qset);
    }
  }

  /** A write that works with the sizes `q` and `n` on a device of other sizes: it stores what fits by `q`, at
      the place that its address has on the device, and replies that much. */
  lemma WriteWithLands(st: Store, q: int, n: int, pos: int, data: seq<byte>, fill: seq<byte>)
    requires Shaped(st) && ValidGeometry(q, n) && 0 <= pos
    requires PossibleWith(st, q, n, pos, |data|, Copied(fill))
    ensures var a, st' := Locate(pos, q, n), WriteWith(st, q, n, pos, data, Copied(fill));
            var k := Min(|data|, q - a.qPos);
            && RetWith(q, n, pos, |data|, Copied(fill)) == k && st'.size == Max(st.size, pos + k)
            && At(a) in st'.blocks && 0 <= a.qPos && 0 <= k && a.qPos + k <= |st'.blocks[At(a)]|
            && st'.blocks[At(a)][a.qPos..a.qPos + k] == data[..k]
            && |st'.blocks[At(a)]| == (if At(a) in st.blocks then st.quantum else q)
            && (forall key <- st.blocks | key != At(a) :: key in st'.blocks && st'.blocks[key] == st.blocks[key])
  {
  }

  lemma GivenUpShape(st: Store, a: Address, luck: WriteLuck)
    requires Shaped(st) && 0 <= a.item < MAX_ITEMS && luck.NoMemory() && ShortOfMemory(st, a, luck)
    ensures Shaped(GivenUp(st, a, luck))
  {
  }

  lemma PreparedShape(st: Store, a: Address, fill: seq<byte>)
    requires Shaped(st) && 0 <= a.item < MAX_ITEMS && 0 <= a.sPos < st.qset
    ensures Prepared(st, a, fill).size == st.size
    ensures Shaped(Prepared(st, a, fill)) <==> |fill| == st.quantum || At(a) in st.blocks
  {
    var st' := Prepared(st, a, fill);
    assert forall k <- st.blocks | k != At(a) :: k in st'.blocks && st'.blocks[k] == st.blocks[k];
    assert At(a) !in st.blocks ==> At(a) in st'.blocks && st'.blocks[At(a)] == fill;
  }

  lemma PokeShape(st: Store, k: Key, off: int, data: seq<byte>)
    requires k in st.blocks && 0 <= off <= off + |data| <= |st.blocks[k]|
    ensures Poke(st, k, off, data).size == st.size && (Shaped(Poke(st, k, off, data)) <==> Shaped(st))
  {
    var st' := Poke(st, k, off, data);
    assert forall k' <- st.blocks :: k' in st'.blocks && |st'.blocks[k']| == |st.blocks[k']|;
    assert forall k' <- st'.blocks :: k' in st.blocks;
  }

  lemma RaiseShape(st: Store, end: int)
    requires 0 <= st.size
    ensures Shaped(RaiseSize(st, end)) <==> Shaped(st)
  {
  }

  /** Such a write, completed or faulted, spoils the shape of the device exactly if it allocates a quantum of
      another length; one that runs out of memory never does. */
  lemma WriteWithShape(st: Store, q: int, n: int, pos: int, data: seq<byte>, luck: WriteLuck)
    requires Shaped(st) && ValidGeometry(q, n) && 0 <= pos
    requires PossibleWith(st, q, n, pos, |data|, luck)
    ensures Shaped(WriteWith(st, q, n, pos, data, luck))
            <==> luck.NoMemory() || q == st.quantum || At(Locate(pos, q, n)) in st.blocks
  {
    hide Locate, Prepared, Poke, RaiseSize, GivenUp, ValidGeometry;
    LocateInBounds(pos, q, n);
    var a := Locate(pos, q, n);
    if luck.NoMemory() {
      GivenUpShape(st, a, luck);
    } else {
      PreparedShape(st, a, luck.fill);
      var st' := Prepared(st, a, luck.fill);
      var chunk := if luck.Faulted? then luck.garble else data[..Room(a, q, |data|)];
      PokeShape(st', At(a), a.qPos, chunk);
      if luck.Copied? {
        RaiseShape(Poke(st', At(a), a.qPos, chunk), pos + |chunk|);
      }
    }
  }
}
