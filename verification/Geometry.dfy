/** How `Scull/main.c` turns a file position into a place in the three-level structure: two divisions,
    two remainders and three narrowing conversions from `long` to `int`. */
module Geometry {
  newtype byte = x: int | 0 <= x < 256

  const INT_MAX := 0x7fff_ffff
  const INT_SPAN := 0x1_0000_0000
  const LONG_MAX := 0x7fff_ffff_ffff_ffff
  const LONG_SPAN := 0x1_0000_0000_0000_0000

  /** The most list items that an `int` index can name. */
  const MAX_ITEMS := 0x8000_0000

  const ENOMEM := 12
  const EFAULT := 14
  const EINVAL := 22
  const ERESTARTSYS := 512

  function Min(a: int, b: int): int {
    if a < b then a else b
  }

  function Max(a: int, b: int): int {
    if a < b then b else a
  }

  /** What the driver silently relies on: positive sizes whose product is still an `int`. */
  predicate ValidGeometry(quantum: int, qset: int) {
    0 < quantum && 0 < qset && quantum * qset <= INT_MAX
  }

  /** The positions whose list item is still an `int`. */
  predicate InRange(pos: int, quantum: int, qset: int) {
    0 <= pos < MAX_ITEMS * (quantum * qset)
  }

  /** Conversion of a `long` to `int`: two's complement, keeping the low 32 bits. */
  function ToInt(x: int): int {
    var low := x % INT_SPAN;
    if low <= INT_MAX then low else low - INT_SPAN
  }

  /** Conversion of a 64-bit sum to `loff_t`. */
  function ToLong(x: int): int {
    var low := x % LONG_SPAN;
    if low <= LONG_MAX then low else low - LONG_SPAN
  }

  /** The conversions keep the number modulo the width, and give one of their range. */
  lemma ConversionsWrap(x: int)
    ensures -MAX_ITEMS <= ToInt(x) <= INT_MAX && (x - ToInt(x)) % INT_SPAN == 0
    ensures -LONG_MAX - 1 <= ToLong(x) <= LONG_MAX && (x - ToLong(x)) % LONG_SPAN == 0
  {
  }

  datatype Address = Address(item: int, sPos: int, qPos: int)

  /** The address computation shared by `scull_read` and `scull_write`, narrowing included. */
  function Locate(pos: int, quantum: int, qset: int): Address
    requires ValidGeometry(quantum, qset) && 0 <= pos
  {
    var itemsize := quantum * qset;
    var item := ToInt(pos / itemsize);
    var rest := ToInt(pos % itemsize);
    Address(item, rest / quantum, rest % quantum)
  }

  predicate InBounds(a: Address, quantum: int, qset: int) {
    0 <= a.item < MAX_ITEMS && 0 <= a.sPos < qset && 0 <= a.qPos < quantum
  }

  /** The position that an address stands for. */
  function Position(a: Address, quantum: int, qset: int): int {
    a.item * (quantum * qset) + a.sPos * quantum + a.qPos
  }

  lemma MulMonotone(a: int, b: int, c: int)
    requires a <= b && 0 <= c
    ensures a * c <= b * c
    ensures (a - 1) * c == a * c - c
  {
  }

  /** Euclid: quotient and remainder are determined by the equation they solve. */
  lemma DivModUnique(x: int, d: int, q: int, r: int)
    requires 0 < d && 0 <= r < d && x == q * d + r
    ensures x / d == q && x % d == r
  {
    var q' := x / d;
    assert x == q' * d + x % d;
    if q' < q {
      MulMonotone(q' + 1, q, d);
      assert false;
    }
    if q < q' {
      MulMonotone(q + 1, q', d);
      assert false;
    }
  }

  /** Offset `r` in block `q` of `n` blocks of size `d` lies below `n * d`. */
  lemma CellBound(q: int, d: int, r: int, n: int)
    requires 0 <= q < n && 0 <= r < d
    ensures 0 <= q * d <= q * d + r < n * d
  {
    MulMonotone(0, q, d);
    MulMonotone(q + 1, n, d);
    assert (q + 1) * d == q * d + d;
  }

  /** A number below `n` blocks of `d` lies in one of the first `n` blocks, and conversely. */
  lemma DivBelow(x: int, d: int, n: int)
    requires 0 < d && 0 <= x
    ensures 0 <= x / d
    ensures x / d < n <==> x < n * d
  {
    var q := x / d;
    assert x == q * d + x % d;
    assert (q + 1) * d == q * d + d;
    if q < n {
      MulMonotone(q + 1, n, d);
    } else {
      MulMonotone(n, q, d);
    }
  }

  /** Below `MAX_ITEMS` items a position narrows without loss, and beyond it never does. */
  lemma NarrowingIsExact(pos: int, quantum: int, qset: int)
    requires ValidGeometry(quantum, qset) && 0 <= pos
    ensures ToInt(pos % (quantum * qset)) == pos % (quantum * qset)
    ensures ToInt(pos / (quantum * qset)) == pos / (quantum * qset) <==> InRange(pos, quantum, qset)
  {
    DivBelow(pos, quantum * qset, MAX_ITEMS);
  }

  /** The address of a position is in bounds, rebuilds the position, and agrees with a plain division
      of the position by the quantum: the quantum-set level is invisible from outside. */
  lemma LocateRebuilds(pos: int, quantum: int, qset: int)
    requires ValidGeometry(quantum, qset) && InRange(pos, quantum, qset)
    ensures var a := Locate(pos, quantum, qset);
            && InBounds(a, quantum, qset)
            && a.item == pos / (quantum * qset)
            && Position(a, quantum, qset) == pos
            && pos / quantum == a.item * qset + a.sPos
            && pos % quantum == a.qPos
  {
    NarrowingIsExact(pos, quantum, qset);
    var itemsize := quantum * qset;
    var item, rest := pos / itemsize, pos % itemsize;
    var sPos, qPos := rest / quantum, rest % quantum;
    DivBelow(pos, itemsize, MAX_ITEMS);
    DivBelow(rest, quantum, qset);
    assert pos == (item * qset + sPos) * quantum + qPos by {
      assert item * itemsize == item * qset * quantum;
      assert rest == sPos * quantum + qPos;
      assert pos == item * itemsize + rest;
    }
    DivModUnique(pos, quantum, item * qset + sPos, qPos);
  }

  /** Every in-bounds address is the address of exactly the position it stands for. */
  lemma LocateInverts(a: Address, quantum: int, qset: int)
    requires ValidGeometry(quantum, qset) && InBounds(a, quantum, qset)
    ensures var pos := Position(a, quantum, qset);
            InRange(pos, quantum, qset) && Locate(pos, quantum, qset) == a
  {
    var itemsize, rest := quantum * qset, a.sPos * quantum + a.qPos;
    var pos := Position(a, quantum, qset);
    CellBound(a.sPos, quantum, a.qPos, qset);
    CellBound(a.item, itemsize, rest, MAX_ITEMS);
    assert pos == a.item * itemsize + rest;
    DivModUnique(pos, itemsize, a.item, rest);
    DivModUnique(rest, quantum, a.sPos, a.qPos);
    NarrowingIsExact(pos, quantum, qset);
  }

  /** The position that the address computed from `pos` stands for. */
  function Landing(pos: int, quantum: int, qset: int): int
    requires ValidGeometry(quantum, qset) && 0 <= pos
  {
    Position(Locate(pos, quantum, qset), quantum, qset)
  }

  /** The offset in a quantum does not depend on the items. */
  lemma OffsetOf(pos: int, quantum: int, qset: int)
    requires ValidGeometry(quantum, qset) && 0 <= pos
    ensures pos % (quantum * qset) % quantum == pos % quantum
  {
    var item, rest := pos / (quantum * qset), pos % (quantum * qset);
    assert pos == (item * qset + rest / quantum) * quantum + rest % quantum by {
      assert item * (quantum * qset) == item * qset * quantum;
    }
    DivModUnique(pos, quantum, item * qset + rest / quantum, rest % quantum);
  }

  /** Slot and offset are in bounds wherever the position is. */
  lemma LocateInBounds(pos: int, quantum: int, qset: int)
    requires ValidGeometry(quantum, qset) && 0 <= pos && 0 <= Locate(pos, quantum, qset).item
    ensures InBounds(Locate(pos, quantum, qset), quantum, qset)
    ensures Locate(pos, quantum, qset).qPos == pos % quantum
  {
    hide InRange;
    NarrowingIsExact(pos, quantum, qset);
    DivBelow(pos % (quantum * qset), quantum, qset);
    OffsetOf(pos, quantum, qset);
  }

  lemma LandsInRange(at: int, quantum: int, qset: int)
    requires ValidGeometry(quantum, qset) && InRange(at, quantum, qset)
    ensures 0 <= at && Locate(at, quantum, qset).qPos == at % quantum
  {
    hide Locate;
    LocateRebuilds(at, quantum, qset);
  }

  /** A position whose item number does not fit an `int` is mistaken for another one, at the same offset: an
      address stands for the position it was computed from exactly if that is addressable. */
  lemma BeyondRangeAliases(pos: int, quantum: int, qset: int)
    requires ValidGeometry(quantum, qset) && 0 <= pos && 0 <= Locate(pos, quantum, qset).item
    ensures var a, at := Locate(pos, quantum, qset), Landing(pos, quantum, qset);
            && InBounds(a, quantum, qset) && a.qPos == pos % quantum
            && InRange(at, quantum, qset) && Locate(at, quantum, qset) == a && at % quantum == pos % quantum
    ensures Landing(pos, quantum, qset) == pos <==> InRange(pos, quantum, qset)
  {
    hide InRange, Locate, InBounds, Position;
    LocateInBounds(pos, quantum, qset);
    LocateInverts(Locate(pos, quantum, qset), quantum, qset);
    LandsInRange(Landing(pos, quantum, qset), quantum, qset);
    if InRange(pos, quantum, qset) {
      LocateRebuilds(pos, quantum, qset);
    }
  }

  lemma WrapsTo(x: int)
    requires 0 <= x && 0 <= ToInt(x)
    ensures ToInt(x) == x % INT_SPAN && x == x / INT_SPAN * INT_SPAN + x % INT_SPAN
  {
  }

  lemma SlotSplit(rest: int, quantum: int)
    requires 0 < quantum
    ensures rest / quantum * quantum + rest % quantum == rest
  {
  }

  lemma ItemWraps(pos: int, itemsize: int, q: int, r: int)
    requires 0 < itemsize && 0 <= r < INT_SPAN && pos / itemsize == q * INT_SPAN + r
    ensures pos % (INT_SPAN * itemsize) == r * itemsize + pos % itemsize
  {
    CellBound(r, itemsize, pos % itemsize, INT_SPAN);
    assert pos == (q * INT_SPAN + r) * itemsize + pos % itemsize;
    assert (q * INT_SPAN + r) * itemsize == q * (INT_SPAN * itemsize) + r * itemsize;
    DivModUnique(pos, INT_SPAN * itemsize, q, r * itemsize + pos % itemsize);
  }

  /** Where a position lands that is not addressable: item numbers wrap at 2^32. */
  lemma LandsModulo(pos: int, quantum: int, qset: int)
    requires ValidGeometry(quantum, qset) && 0 <= pos && 0 <= Locate(pos, quantum, qset).item
    ensures Landing(pos, quantum, qset) == pos % (INT_SPAN * (quantum * qset))
  {
    var itemsize := quantum * qset;
    var item, rest := pos / itemsize, pos % itemsize;
    NarrowingIsExact(pos, quantum, qset);
    WrapsTo(item);
    ItemWraps(pos, itemsize, item / INT_SPAN, item % INT_SPAN);
    SlotSplit(rest, quantum);
  }

  /** Item number 2^32 is taken for item 0. */
  lemma FarAliases(quantum: int, qset: int)
    requires ValidGeometry(quantum, qset)
    ensures var pos := INT_SPAN * (quantum * qset);
            && 0 <= pos <= LONG_MAX && !InRange(pos, quantum, qset) && InRange(0, quantum, qset)
            && Locate(pos, quantum, qset) == Address(0, 0, 0) && Landing(pos, quantum, qset) == 0
  {
    var itemsize := quantum * qset;
    MulMonotone(1, qset, quantum);
    DivModUnique(INT_SPAN * itemsize, itemsize, INT_SPAN, 0);
  }

  lemma NegativeBand(x: int)
    requires MAX_ITEMS <= x && 0 <= ToInt(x)
    ensures MAX_ITEMS + 1 <= x
  {
  }

  /** A position that is not addressable, but whose narrowed item number is not negative either, lies beyond
      all addressable ones and their end. */
  lemma FarBeyond(pos: int, quantum: int, qset: int)
    requires ValidGeometry(quantum, qset) && 0 <= pos && 0 <= Locate(pos, quantum, qset).item
    requires !InRange(pos, quantum, qset)
    ensures MAX_ITEMS * (quantum * qset) < pos
  {
    hide ToInt;
    var itemsize := quantum * qset;
    assert 0 < itemsize;
    DivBelow(pos, itemsize, MAX_ITEMS);
    NegativeBand(pos / itemsize);
    DivBelow(pos, itemsize, MAX_ITEMS + 1);
  }

  /** Distinct positions name distinct cells. */
  lemma LocateInjective(p: int, p': int, quantum: int, qset: int)
    requires ValidGeometry(quantum, qset) && InRange(p, quantum, qset) && InRange(p', quantum, qset)
    requires Locate(p, quantum, qset) == Locate(p', quantum, qset)
    ensures p == p'
  {
    LocateRebuilds(p, quantum, qset);
    LocateRebuilds(p', quantum, qset);
  }

  /** At the end of the shorter quantum the offsets differ. */
  lemma LocatesApart(quantum: int, qset: int, quantum': int, qset': int)
    requires ValidGeometry(quantum, qset) && ValidGeometry(quantum', qset') && quantum < quantum'
    ensures InRange(quantum, quantum, qset) && InRange(quantum, quantum', qset')
    ensures Locate(quantum, quantum, qset) != Locate(quantum, quantum', qset')
  {
    MulMonotone(1, qset, quantum);
    MulMonotone(1, qset', quantum');
    LocateRebuilds(quantum, quantum, qset);
    LocateRebuilds(quantum, quantum', qset');
    DivModUnique(quantum, quantum, 1, 0);
    DivModUnique(quantum, quantum', 0, quantum);
  }

  /** At the end of the shorter item the items differ. */
  lemma ItemsApart(quantum: int, qset: int, qset': int)
    requires ValidGeometry(quantum, qset) && ValidGeometry(quantum, qset') && qset < qset'
    ensures InRange(quantum * qset, quantum, qset) && InRange(quantum * qset, quantum, qset')
    ensures Locate(quantum * qset, quantum, qset) != Locate(quantum * qset, quantum, qset')
  {
    var pos := quantum * qset;
    MulMonotone(1, quantum, qset);
    assert pos < quantum * qset' by {
      MulMonotone(qset + 1, qset', quantum);
    }
    LocateRebuilds(pos, quantum, qset);
    LocateRebuilds(pos, quantum, qset');
    DivModUnique(pos, quantum * qset, 1, 0);
    DivModUnique(pos, quantum * qset', 0, pos);
  }

  /** Addresses computed under other sizes than the device's are right for all positions only if the sizes
      are the same after all. */
  lemma SizesMatter(quantum: int, qset: int, quantum': int, qset': int)
    requires ValidGeometry(quantum, qset) && ValidGeometry(quantum', qset')
    ensures (forall pos | InRange(pos, quantum, qset) && InRange(pos, quantum', qset') ::
               Locate(pos, quantum, qset) == Locate(pos, quantum', qset'))
            <==> quantum == quantum' && qset == qset'
  {
    if quantum < quantum' {
      LocatesApart(quantum, qset, quantum', qset');
    } else if quantum' < quantum {
      LocatesApart(quantum', qset', quantum, qset);
    } else if qset < qset' {
      ItemsApart(quantum, qset, qset');
    } else if qset' < qset {
      ItemsApart(quantum, qset', qset);
    }
  }
}
