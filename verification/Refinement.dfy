/** The three-level structure refines the flat file: every operation commutes with forgetting the list,
    the slot arrays and the quantum sets. */
module Refinement {
  import opened Geometry
  import opened FlatFile
  import opened Structure

  predicate Backed(st: Store, p: int)
    requires ValidGeometry(st.quantum, st.qset)
  {
    InRange(p, st.quantum, st.qset) && At(Locate(p, st.quantum, st.qset)) in st.blocks
  }

  function CellAt(st: Store, p: int): byte
    requires Shaped(st) && Backed(st, p)
  {
    LocateRebuilds(p, st.quantum, st.qset);
    var a := Locate(p, st.quantum, st.qset);
    st.blocks[At(a)][a.qPos]
  }

  /** The flat file that a structure stands for. */
  function Flatten(st: Store): Flat
    requires Shaped(st)
  {
    Flat(st.quantum, st.size,
         map p: int | 0 <= p < MAX_ITEMS * (st.quantum * st.qset) && Backed(st, p) :: CellAt(st, p))
  }

  /** Two positions share a quantum exactly when they share an extent. */
  lemma SameKey(p: int, pos: int, quantum: int, qset: int)
    requires ValidGeometry(quantum, qset) && InRange(p, quantum, qset) && InRange(pos, quantum, qset)
    ensures At(Locate(p, quantum, qset)) == At(Locate(pos, quantum, qset)) <==> InExtent(p, pos, quantum)
  {
    LocateRebuilds(p, quantum, qset);
    LocateRebuilds(pos, quantum, qset);
    var a, b := Locate(p, quantum, qset), Locate(pos, quantum, qset);
    SameExtent(p, pos, quantum);
    if p / quantum == pos / quantum {
      DivModUnique(p / quantum, qset, a.item, a.sPos);
      DivModUnique(p / quantum, qset, b.item, b.sPos);
    }
  }

  /** The extent of an addressable position is addressable: no quantum straddles the end of the range. */
  lemma ExtentInRange(p: int, pos: int, quantum: int, qset: int)
    requires ValidGeometry(quantum, qset) && InRange(pos, quantum, qset) && InExtent(p, pos, quantum)
    ensures InRange(p, quantum, qset)
    ensures Locate(p, quantum, qset) == Locate(pos, quantum, qset).(qPos := p - Base(pos, quantum))
  {
    LocateRebuilds(pos, quantum, qset);
    LocateInverts(Locate(pos, quantum, qset).(qPos := p - Base(pos, quantum)), quantum, qset);
  }

  lemma FlattenValid(st: Store)
    requires Shaped(st)
    ensures Valid(Flatten(st))
  {
    var f := Flatten(st);
    forall p, p' | p in f.bytes && InExtent(p', p, f.quantum)
      ensures p' in f.bytes
    {
      ExtentInRange(p', p, st.quantum, st.qset);
    }
  }

  /** Equal structures but for the list and the slot arrays look the same. */
  lemma FlattenIgnoresList(st: Store, st': Store)
    requires Shaped(st) && Shaped(st')
    requires st'.quantum == st.quantum && st'.qset == st.qset && st'.size == st.size && st'.blocks == st.blocks
    ensures Flatten(st') == Flatten(st)
  {
    assert forall p :: Backed(st', p) == Backed(st, p);
  }

  lemma WithQuantumAt(st: Store, pos: int, fill: seq<byte>, p: int)
    requires Shaped(st) && InRange(pos, st.quantum, st.qset) && |fill| == st.quantum
    requires Locate(pos, st.quantum, st.qset).item in st.slots && !Backed(st, pos)
    ensures var st' := WithQuantum(st, At(Locate(pos, st.quantum, st.qset)), fill);
            && Shaped(st')
            && (Backed(st', p) <==> Backed(st, p) || InExtent(p, pos, st.quantum))
            && (Backed(st', p) && InExtent(p, pos, st.quantum) ==> CellAt(st', p) == fill[p - Base(pos, st.quantum)])
            && (Backed(st', p) && !InExtent(p, pos, st.quantum) ==> CellAt(st', p) == CellAt(st, p))
  {
    LocateRebuilds(pos, st.quantum, st.qset);
    if InExtent(p, pos, st.quantum) {
      ExtentInRange(p, pos, st.quantum, st.qset);
    } else if InRange(p, st.quantum, st.qset) {
      SameKey(p, pos, st.quantum, st.qset);
    }
  }

  /** A new quantum backs exactly one extent. */
  lemma FlattenWithQuantum(st: Store, pos: int, fill: seq<byte>)
    requires Shaped(st) && InRange(pos, st.quantum, st.qset) && |fill| == st.quantum
    requires Locate(pos, st.quantum, st.qset).item in st.slots
    ensures var st' := WithQuantum(st, At(Locate(pos, st.quantum, st.qset)), fill);
            && Shaped(st')
            && Backed(st', pos)
            && Flatten(st').bytes == Back(Flatten(st).bytes, pos, Base(pos, st.quantum), fill)
  {
    LocateRebuilds(pos, st.quantum, st.qset);
    if !Backed(st, pos) {
      forall p {
        WithQuantumAt(st, pos, fill, p);
      }
    }
  }

  lemma PokeAt(st: Store, pos: int, data: seq<byte>, p: int)
    requires Shaped(st) && Backed(st, pos) && |data| <= st.quantum - pos % st.quantum
    ensures 0 <= Locate(pos, st.quantum, st.qset).qPos
    ensures Locate(pos, st.quantum, st.qset).qPos + |data| <= st.quantum
    ensures var a := Locate(pos, st.quantum, st.qset);
            var st' := Poke(st, At(a), a.qPos, data);
            && Shaped(st')
            && (Backed(st', p) <==> Backed(st, p))
            && (Within(p, pos, |data|) ==> Backed(st, p) && CellAt(st', p) == data[p - pos])
            && (Backed(st, p) && !Within(p, pos, |data|) ==> CellAt(st', p) == CellAt(st, p))
  {
    LocateRebuilds(pos, st.quantum, st.qset);
    if InExtent(p, pos, st.quantum) {
      ExtentInRange(p, pos, st.quantum, st.qset);
    } else if InRange(p, st.quantum, st.qset) {
      SameKey(p, pos, st.quantum, st.qset);
    }
  }

  /** Patching a quantum overwrites exactly the positions it covers. */
  lemma FlattenPoke(st: Store, pos: int, data: seq<byte>)
    requires Shaped(st) && Backed(st, pos) && |data| <= st.quantum - pos % st.quantum
    ensures 0 <= Locate(pos, st.quantum, st.qset).qPos
    ensures Locate(pos, st.quantum, st.qset).qPos + |data| <= st.quantum
    ensures var a := Locate(pos, st.quantum, st.qset);
            var st' := Poke(st, At(a), a.qPos, data);
            && Shaped(st')
            && Flatten(st').bytes == Lay(Flatten(st).bytes, pos, data)
  {
    hide Locate, CellAt;
    forall p {
      PokeAt(st, pos, data, p);
    }
  }

  /** The three allocations and the copy, whatever ends up in the copied range. */
  lemma StoreRefines(st: Store, pos: int, chunk: seq<byte>, fill: seq<byte>)
    requires Shaped(st) && InRange(pos, st.quantum, st.qset) && |fill| == st.quantum
    requires |chunk| <= st.quantum - pos % st.quantum
    ensures Flatten(Stored(st, pos, chunk, fill))
            == Flatten(st).(bytes := Lay(Back(Flatten(st).bytes, pos, Base(pos, st.quantum), fill), pos, chunk))
  {
    LocateRebuilds(pos, st.quantum, st.qset);
    var a := Locate(pos, st.quantum, st.qset);
    var st1 := WithSlots(Reach(st, a.item), a.item);
    FlattenIgnoresList(st, st1);
    FlattenWithQuantum(st1, pos, fill);
    FlattenPoke(WithQuantum(st1, At(a), fill), pos, chunk);
  }

  lemma FlattenRaiseSize(st: Store, end: int)
    requires Shaped(st)
    ensures Shaped(RaiseSize(st, end))
    ensures Flatten(RaiseSize(st, end)) == Flatten(st).(size := Max(st.size, end))
  {
    assert forall p :: Backed(RaiseSize(st, end), p) == Backed(st, p);
  }

  /** The same, followed by the size update of a successful write. */
  lemma CopiedRefines(st: Store, pos: int, chunk: seq<byte>, fill: seq<byte>)
    requires Shaped(st) && InRange(pos, st.quantum, st.qset) && |fill| == st.quantum
    requires |chunk| <= st.quantum - pos % st.quantum
    ensures var st' := RaiseSize(Stored(st, pos, chunk, fill), pos + |chunk|);
            && Shaped(st')
            && Flatten(st') == Flat(st.quantum, Max(st.size, pos + |chunk|),
                                    Lay(Back(Flatten(st).bytes, pos, Base(pos, st.quantum), fill), pos, chunk))
  {
    hide InRange, Locate, Backed, CellAt;
    StoreRefines(st, pos, chunk, fill);
    FlattenRaiseSize(Stored(st, pos, chunk, fill), pos + |chunk|);
  }

  lemma NoMemoryRefines(st: Store, pos: int, data: seq<byte>, luck: WriteLuck)
    requires WellFormed(st) && InRange(pos, st.quantum, st.qset) && Possible(st, pos, |data|, luck)
    requires luck.NoMemory()
    ensures WellFormed(WriteStore(st, pos, data, luck))
    ensures Flatten(WriteStore(st, pos, data, luck)) == Flatten(st)
  {
    WriteWellFormed(st, pos, data, luck);
    FlattenIgnoresList(st, WriteStore(st, pos, data, luck));
  }

  /** The main step: a write of the structure is a write of the flat file, for every outcome. */
  lemma WriteRefines(st: Store, pos: int, data: seq<byte>, luck: WriteLuck)
    requires WellFormed(st) && InRange(pos, st.quantum, st.qset) && Possible(st, pos, |data|, luck)
    ensures LuckFits(pos, |data|, st.quantum, luck)
    ensures WellFormed(WriteStore(st, pos, data, luck))
    ensures Flatten(WriteStore(st, pos, data, luck)) == Write(Flatten(st), pos, data, luck)
  {
    hide InRange, Locate, Backed, CellAt, WithSlots, WithQuantum, Reach, Poke, Lay, Back;
    WriteWellFormed(st, pos, data, luck);
    match luck
    case Copied(fill) => CopiedRefines(st, pos, data[..Chunk(pos, |data|, st.quantum)], fill);
    case Faulted(fill, garble) => StoreRefines(st, pos, garble, fill);
    case _ => NoMemoryRefines(st, pos, data, luck);
  }

  /** The rest of a quantum holds the positions that follow. */
  lemma ConsecutiveCells(st: Store, pos: int, i: int)
    requires Shaped(st) && Backed(st, pos) && 0 <= i < st.quantum - pos % st.quantum
    ensures Backed(st, pos + i)
    ensures var a := Locate(pos, st.quantum, st.qset);
            0 <= a.qPos && a.qPos + i < st.quantum && CellAt(st, pos + i) == st.blocks[At(a)][a.qPos + i]
  {
    LocateRebuilds(pos, st.quantum, st.qset);
    ExtentInRange(pos + i, pos, st.quantum, st.qset);
  }

  /** A run of cells that stays inside one quantum reads the same from the structure and from the file. */
  lemma ChunkRefines(st: Store, pos: int, k: int)
    requires Shaped(st) && Backed(st, pos) && 0 <= k <= st.quantum - pos % st.quantum
    ensures forall p | Within(p, pos, k) :: p in Flatten(st).bytes
    ensures var a := Locate(pos, st.quantum, st.qset);
            && 0 <= a.qPos && a.qPos + k <= st.quantum && |st.blocks[At(a)]| == st.quantum
            && st.blocks[At(a)][a.qPos..a.qPos + k]
               == seq(k, i requires 0 <= i < k => assert Within(pos + i, pos, k); Flatten(st).bytes[pos + i])
  {
    LocateRebuilds(pos, st.quantum, st.qset);
    forall p | Within(p, pos, k)
      ensures p in Flatten(st).bytes
      ensures Flatten(st).bytes[p] == st.blocks[At(Locate(pos, st.quantum, st.qset))][pos % st.quantum + (p - pos)]
    {
      ConsecutiveCells(st, pos, p - pos);
    }
  }

  /** A read of the structure is a read of the flat file, holes included. */
  lemma ReadRefines(st: Store, pos: int, count: int, faulty: bool)
    requires WellFormed(st) && 0 <= pos && 0 <= count
    ensures Valid(Flatten(st))
    ensures ReadStore(st, pos, count, faulty) == Read(Flatten(st), pos, count, faulty)
  {
    FlattenValid(st);
    if pos < st.size {
      BelowSizeInRange(st, pos);
      LocateRebuilds(pos, st.quantum, st.qset);
      if Backed(st, pos) {
        ChunkRefines(st, pos, Chunk(pos, Min(count, st.size - pos), st.quantum));
      }
    }
  }

  lemma FreshRefines(quantum: int, qset: int)
    requires ValidGeometry(quantum, qset)
    ensures WellFormed(Fresh(quantum, qset))
    ensures Flatten(Fresh(quantum, qset)) == Trim(quantum)
  {
  }
}
