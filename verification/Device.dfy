/** `struct scull_dev` as a heap object: the linked list of quantum sets, followed, grown, read, written
    and freed in place. Every method is tied to the pointer-free `Structure`. */
module Device {
  import opened Geometry
  import opened FlatFile
  import opened Structure
  import opened Memory

  type SlotArray = array<array?<byte>>

  /** Every block a device with these parts has allocated. */
  ghost function Blocks(nodes: seq<Qset>, arrays: map<int, SlotArray>, quanta: map<Key, array<byte>>): set<object> {
    (set n: object | n in nodes)
    + (set i | i in arrays :: arrays[i] as object)
    + (set k | k in quanta :: quanta[k] as object)
  }

  lemma BlocksWithNode(nodes: seq<Qset>, arrays: map<int, SlotArray>, quanta: map<Key, array<byte>>, n: Qset)
    ensures Blocks(nodes + [n], arrays, quanta) == Blocks(nodes, arrays, quanta) + {n}
  {
    assert forall m :: m in nodes + [n] <==> m in nodes || m == n;
  }

  lemma BlocksWithArray(nodes: seq<Qset>, arrays: map<int, SlotArray>, quanta: map<Key, array<byte>>,
                        i: int, a: SlotArray)
    requires i !in arrays
    ensures Blocks(nodes, arrays[i := a], quanta) == Blocks(nodes, arrays, quanta) + {a}
  {
    var arrays' := arrays[i := a];
    assert arrays'[i] == a && forall j <- arrays :: j in arrays' && arrays'[j] == arrays[j];
  }

  lemma BlocksWithQuantum(nodes: seq<Qset>, arrays: map<int, SlotArray>, quanta: map<Key, array<byte>>,
                          k: Key, q: array<byte>)
    requires k !in quanta
    ensures Blocks(nodes, arrays, quanta[k := q]) == Blocks(nodes, arrays, quanta) + {q}
  {
    var quanta' := quanta[k := q];
    assert quanta'[k] == q && forall j <- quanta :: j in quanta' && quanta'[j] == quanta[j];
  }

  lemma EmptyDevice(quantum: int, qset: int)
    requires ValidGeometry(quantum, qset)
    ensures WellFormed(Fresh(quantum, qset)) && Blocks([], map[], map[]) == {}
  {
  }

  lemma SomeKey<K, V>(m: map<K, V>) returns (k: K)
    requires |m| != 0
    ensures k in m
  {
    assert |m.Keys| != 0;
    k :| k in m.Keys;
  }

  lemma QuantumElsewhere(nodes: seq<Qset>, arrays: map<int, SlotArray>, quanta: map<Key, array<byte>>, k: Key)
    requires k in quanta && forall k' <- quanta | k != k' :: quanta[k] != quanta[k']
    ensures quanta[k] !in Blocks(nodes, arrays, quanta - {k})
  {
  }

  lemma {:induction false} CountQuanta(nodes: seq<Qset>, arrays: map<int, SlotArray>, quanta: map<Key, array<byte>>)
    requires forall k, k' | k in quanta && k' in quanta && k != k' :: quanta[k] != quanta[k']
    ensures |Blocks(nodes, arrays, quanta)| == |Blocks(nodes, arrays, map[])| + |quanta|
    decreases |quanta|
  {
    hide Blocks;
    if |quanta| != 0 {
      var k := SomeKey(quanta);
      var fewer := quanta - {k};
      CountQuanta(nodes, arrays, fewer);
      BlocksWithQuantum(nodes, arrays, fewer, k, quanta[k]);
      assert fewer[k := quanta[k]] == quanta;
      QuantumElsewhere(nodes, arrays, quanta, k);
    } else {
      assert quanta == map[];
    }
  }

  lemma ArrayElsewhere(nodes: seq<Qset>, arrays: map<int, SlotArray>, i: int)
    requires i in arrays && forall j <- arrays | i != j :: arrays[i] != arrays[j]
    ensures arrays[i] !in Blocks(nodes, arrays - {i}, map[])
  {
  }

  lemma {:induction false} CountArrays(nodes: seq<Qset>, arrays: map<int, SlotArray>)
    requires forall i, j | i in arrays && j in arrays && i != j :: arrays[i] != arrays[j]
    ensures |Blocks(nodes, arrays, map[])| == |Blocks(nodes, map[], map[])| + |arrays|
    decreases |arrays|
  {
    hide Blocks;
    if |arrays| != 0 {
      var i := SomeKey(arrays);
      var fewer := arrays - {i};
      CountArrays(nodes, fewer);
      BlocksWithArray(nodes, fewer, map[], i, arrays[i]);
      assert fewer[i := arrays[i]] == arrays;
      ArrayElsewhere(nodes, arrays, i);
    } else {
      assert arrays == map[];
    }
  }

  lemma {:induction false} CountNodes(nodes: seq<Qset>)
    requires forall i, j | 0 <= i < j < |nodes| :: nodes[i] != nodes[j]
    ensures |Blocks(nodes, map[], map[])| == |nodes|
  {
    if nodes != [] {
      var n := |nodes| - 1;
      CountNodes(nodes[..n]);
      BlocksWithNode(nodes[..n], map[], map[], nodes[n]);
      assert nodes[..n] + [nodes[n]] == nodes;
      assert nodes[n] !in Blocks(nodes[..n], map[], map[]);
    } else {
      assert Blocks(nodes, map[], map[]) == {};
    }
  }

  lemma Remainder(live: set<object>, owned: set<object>)
    requires owned <= live
    ensures |live| == |live - owned| + |owned|
  {
    assert live == (live - owned) + owned;
  }

  /** A block that is allocated and recorded in one go leaves everything else that is live alone. */
  lemma Conserve(live: set<object>, owned: set<object>, p: object)
    requires owned <= live && p !in live
    ensures owned + {p} <= live + {p}
    ensures (live + {p}) - (owned + {p}) == live - owned
  {
  }

  /** What `scull_trim` has freed when it is about to free slot `s` of item `i`: everything in earlier
      items, and the earlier quanta of this one. */
  ghost function Freed(nodes: seq<Qset>, arrays: map<int, SlotArray>, quanta: map<Key, array<byte>>,
                       i: int, s: int): set<object>
    requires 0 <= i <= |nodes|
  {
    (set n: object | n in nodes[..i])
    + (set j | j in arrays && j < i :: arrays[j] as object)
    + (set k | k in quanta && (k.item < i || (k.item == i && k.slot < s)) :: quanta[k] as object)
  }

  /** What has been freed once the slots and the array of item `i` are gone too. */
  ghost function FreedSlots(nodes: seq<Qset>, arrays: map<int, SlotArray>, quanta: map<Key, array<byte>>,
                            qset: int, i: int): set<object>
    requires 0 <= i <= |nodes|
  {
    Freed(nodes, arrays, quanta, i, qset) + if i in arrays then {arrays[i] as object} else {}
  }

  /** Blocks in their places, none of them twice. */
  ghost predicate Parts(nodes: seq<Qset>, arrays: map<int, SlotArray>, quanta: map<Key, array<byte>>, qset: int) {
    && (forall i <- arrays :: 0 <= i < |nodes|)
    && (forall k <- quanta :: k.item in arrays && 0 <= k.slot < qset)
    && (forall i, j | 0 <= i < j < |nodes| :: nodes[i] != nodes[j])
    && (forall i, j | i in arrays && j in arrays && i != j :: arrays[i] != arrays[j])
    && (forall k, k' | k in quanta && k' in quanta && k != k' :: quanta[k] != quanta[k'])
  }

  lemma FreedStep(nodes: seq<Qset>, arrays: map<int, SlotArray>, quanta: map<Key, array<byte>>, qset: int,
                  i: int, s: int)
    requires Parts(nodes, arrays, quanta, qset) && 0 <= i < |nodes| && 0 <= s
    ensures Key(i, s) in quanta ==>
              && Freed(nodes, arrays, quanta, i, s + 1) == Freed(nodes, arrays, quanta, i, s) + {quanta[Key(i, s)]}
              && quanta[Key(i, s)] in Blocks(nodes, arrays, quanta) - Freed(nodes, arrays, quanta, i, s)
    ensures Key(i, s) !in quanta ==> Freed(nodes, arrays, quanta, i, s + 1) == Freed(nodes, arrays, quanta, i, s)
  {
  }

  /** Once the slots of item `i` are done, its array and its node are what is left of it. */
  lemma FreedItem(nodes: seq<Qset>, arrays: map<int, SlotArray>, quanta: map<Key, array<byte>>, qset: int, i: int)
    requires Parts(nodes, arrays, quanta, qset) && 0 <= i < |nodes| && 0 <= qset
    ensures Freed(nodes, arrays, quanta, i + 1, 0) == FreedSlots(nodes, arrays, quanta, qset, i) + {nodes[i]}
    ensures nodes[i] in Blocks(nodes, arrays, quanta) - FreedSlots(nodes, arrays, quanta, qset, i)
    ensures i in arrays ==>
              && FreedSlots(nodes, arrays, quanta, qset, i) == Freed(nodes, arrays, quanta, i, qset) + {arrays[i]}
              && arrays[i] in Blocks(nodes, arrays, quanta) - Freed(nodes, arrays, quanta, i, qset)
    ensures i !in arrays ==> FreedSlots(nodes, arrays, quanta, qset, i) == Freed(nodes, arrays, quanta, i, 0)
  {
    assert forall n :: n in nodes[..i + 1] <==> n in nodes[..i] || n == nodes[i];
  }

  lemma FreedEnds(nodes: seq<Qset>, arrays: map<int, SlotArray>, quanta: map<Key, array<byte>>, qset: int)
    requires Parts(nodes, arrays, quanta, qset)
    ensures Freed(nodes, arrays, quanta, 0, 0) == {}
    ensures Freed(nodes, arrays, quanta, |nodes|, 0) == Blocks(nodes, arrays, quanta)
  {
    assert nodes[..|nodes|] == nodes;
  }

  /** A block that changed only between `off` and `off + n` is the old one patched there. */
  lemma PatchIs(b: seq<byte>, off: int, b': seq<byte>, n: int)
    requires |b'| == |b| && 0 <= off <= off + n <= |b| && 0 <= n
    requires b'[..off] == b[..off] && b'[off + n..] == b[off + n..]
    ensures b' == Patch(b, off, b'[off..off + n])
  {
    assert b' == b'[..off] + b'[off..off + n] + b'[off + n..];
  }

  lemma PokeIs(st: Store, k: Key, off: int, data: seq<byte>)
    requires k in st.blocks && 0 <= off <= off + |data| <= |st.blocks[k]|
    ensures Poke(st, k, off, data) == st.(blocks := st.blocks[k := Patch(st.blocks[k], off, data)])
  {
  }

  class Device {
    var data: Qset?
    var quantum: int
    var qset: int
    var size: int
    var sem: int
    const slab: Slab

    /** The list items in order, the slot arrays by item, the quanta by item and slot. */
    ghost var nodes: seq<Qset>
    ghost var arrays: map<int, SlotArray>
    ghost var quanta: map<Key, array<byte>>
    ghost var contents: map<Key, seq<byte>>

    /** No block is used twice. Nodes, arrays and quanta are disjoint from each other by their types. */
    ghost predicate Apart()
      reads `nodes, `arrays, `quanta
    {
      && (forall i, j | 0 <= i < j < |nodes| :: nodes[i] != nodes[j])
      && (forall i, j | i in arrays && j in arrays && i != j :: arrays[i] != arrays[j])
      && (forall k, k' | k in quanta && k' in quanta && k != k' :: quanta[k] != quanta[k'])
    }

    /** The list is the chain of `nodes` and ends in null, so it never meets itself. */
    ghost predicate Linked()
      reads `data, `nodes, nodes`next
    {
      && data == (if nodes == [] then null else nodes[0])
      && forall i {:trigger nodes[i].next} | 0 <= i < |nodes| ::
           nodes[i].next == if i + 1 < |nodes| then nodes[i + 1] else null
    }

    /** Items hold the arrays of `arrays`, all of them `qset` long. */
    ghost predicate Slotted()
      reads `qset, `nodes, `arrays, nodes`data
    {
      && (forall i <- arrays :: 0 <= i < |nodes| && arrays[i].Length == qset)
      && (forall i | 0 <= i < |nodes| :: nodes[i].data == if i in arrays then arrays[i] else null)
    }

    /** Slots hold the quanta of `quanta`, all of them `quantum` bytes, with `contents` in them. */
    ghost predicate Filled()
      reads `quantum, `qset, `arrays, `quanta, `contents, arrays.Values, quanta.Values
    {
      && contents.Keys == quanta.Keys
      && (forall k <- quanta :: k.item in arrays && 0 <= k.slot < qset && quanta[k].Length == quantum)
      && (forall i, s | i in arrays && 0 <= s < qset && s < arrays[i].Length ::
            arrays[i][s] == if Key(i, s) in quanta then quanta[Key(i, s)] else null)
      && (forall k <- quanta :: contents[k] == quanta[k][..])
    }

    /** The value this device stands for. */
    ghost function View(): Store
      reads `quantum, `qset, `size, `nodes, `arrays, `contents
    {
      Store(quantum, qset, size, |nodes|, arrays.Keys, contents)
    }

    ghost function Items(): set<object>
      reads `nodes
    {
      set n: object | n in nodes
    }

    ghost function Owned(): set<object>
      reads `nodes, `arrays, `quanta
    {
      Blocks(nodes, arrays, quanta)
    }

    /** The heap invariant. Distinct kinds of block are disjoint by their types. */
    ghost predicate Valid()
      reads `data, `quantum, `qset, `size, `nodes, `arrays, `quanta, `contents
      reads slab`live, slab`allocs, slab`frees, nodes, arrays.Values, quanta.Values
    {
      && Apart() && Linked() && Slotted() && Filled()
      && WellFormed(View())
      && slab.Balanced()
      && Owned() <= slab.live
    }

    lemma Sound()
      requires Valid()
      ensures WellFormed(View()) && ValidGeometry(quantum, qset)
      ensures slab.Balanced() && Owned() <= slab.live
    {
    }

    /** The books: what a device owns, counted by kind, and so what its allocator has handed out for it. */
    lemma OwnedCount()
      requires Valid()
      ensures |Owned()| == BlockCount(View())
      ensures Owned() == slab.live ==> slab.allocs - slab.frees == BlockCount(View())
    {
      CountQuanta(nodes, arrays, quanta);
      CountArrays(nodes, arrays);
      CountNodes(nodes);
      assert |arrays.Keys| == |arrays| && |quanta.Keys| == |quanta|;
      assert |contents| == |contents.Keys|;
    }

    lemma Sizes()
      requires Valid()
      ensures 0 < quantum && 0 < qset && |nodes| <= MAX_ITEMS
      ensures contents.Keys == quanta.Keys
    {
    }

    /** The device's blocks are those it had, or new ones. */
    twostate predicate Grown()
      reads `nodes, `arrays, `quanta
    {
      && (forall n <- nodes :: n in old(nodes) || fresh(n))
      && (forall a <- arrays.Values :: a in old(arrays.Values) || fresh(a))
      && (forall q <- quanta.Values :: q in old(quanta.Values) || fresh(q))
    }

    /** A device at module initialisation: no data, the global sizes, the semaphore free. */
    constructor (slab: Slab, quantum: int, qset: int)
      requires ValidGeometry(quantum, qset) && slab.Balanced()
      ensures this.slab == slab && Valid() && sem == 1
      ensures View() == Fresh(quantum, qset) && Owned() == {}
    {
      this.slab := slab;
      this.data, this.size, this.sem := null, 0, 1;
      this.quantum, this.qset := quantum, qset;
      nodes, arrays, quanta, contents := [], map[], map[], map[];
    }

    /** Takes the semaphore, unless a signal interrupts the wait. */
    method DownInterruptible() returns (interrupted: bool)
      requires sem == 1
      modifies `sem, slab`tally
      ensures slab.tally == old(slab.tally).Waited(interrupted)
      ensures sem == (if interrupted then 1 else 0) && (slab.calm ==> !interrupted)
    {
      interrupted := slab.Wait();
      sem := if interrupted then sem else sem - 1;
    }

    method Up()
      requires sem == 0
      modifies `sem
      ensures sem == 1
    {
      sem := sem + 1;
    }

    /** Slots and quanta survive whatever leaves their contents alone. */
    twostate lemma FilledKept()
      requires old(Filled())
      requires quantum == old(quantum) && qset == old(qset)
      requires arrays == old(arrays) && quanta == old(quanta) && contents == old(contents)
      requires forall i, s | i in arrays && 0 <= s < arrays[i].Length :: arrays[i][s] == old(arrays[i][s])
      requires forall k <- quanta :: quanta[k][..] == old(quanta[k][..])
      ensures Filled()
    {
    }

    twostate lemma SlottedLonger(new p: Qset)
      requires old(Slotted()) && qset == old(qset) && arrays == old(arrays)
      requires nodes == old(nodes) + [p] && p.data == null
      requires forall n <- old(nodes) :: n.data == old(n.data)
      ensures Slotted()
    {
      assert forall i | 0 <= i < |old(nodes)| :: nodes[i] == old(nodes)[i];
    }

    twostate lemma LinkedLonger(tail: Qset?, new p: Qset)
      requires old(Linked() && Apart()) && nodes == old(nodes) + [p]
      requires tail == old(if nodes == [] then null else nodes[|nodes| - 1])
      requires data == if tail == null then p else old(data)
      requires tail != null ==> tail.next == p
      requires p.next == null
      requires forall n <- old(nodes) | n != tail :: n.next == old(n.next)
      ensures Linked()
    {
      assert forall i | 0 <= i < |old(nodes)| :: nodes[i] == old(nodes)[i] && nodes[i] in old(nodes);
    }

    twostate lemma ApartLonger(new p: Qset)
      requires old(Apart()) && arrays == old(arrays) && quanta == old(quanta)
      requires nodes == old(nodes) + [p] && p !in old(nodes)
      ensures Apart()
    {
    }

    /** A block the device does not own is none of its parts. */
    lemma Foreign(p: object)
      requires p !in Owned()
      ensures forall n <- nodes :: n != p
      ensures forall i <- arrays :: arrays[i] != p
      ensures forall k <- quanta :: quanta[k] != p
    {
    }

    /** Links the new item `p` behind `tail`, the last item so far. */
    method LinkNode(tail: Qset?, p: Qset)
      requires Valid() && |nodes| < MAX_ITEMS
      requires tail == if nodes == [] then null else nodes[|nodes| - 1]
      requires p in slab.live - Owned() && p.data == null && p.next == null
      modifies `data, `nodes, nodes`next
      ensures Valid() && nodes == old(nodes) + [p] && arrays == old(arrays) && quanta == old(quanta)
      ensures View() == old(View()).(len := |old(nodes)| + 1) && Owned() == old(Owned()) + {p}
    {
      hide WellFormed, Blocks, Linked, Slotted, Filled, Apart;
      Foreign(p);
      BlocksWithNode(nodes, arrays, quanta, p);
      LongerWellFormed(View(), |nodes| + 1);
      if tail == null {
        data := p;
      } else {
        tail.next := p;
      }
      nodes := nodes + [p];
      ApartLonger(p);
      LinkedLonger(tail, p);
      SlottedLonger(p);
      FilledKept();
      assert Apart() && WellFormed(View());
    }

    /** One zeroed item behind `tail`, unless memory is short. */
    method Append(tail: Qset?) returns (p: Qset?)
      requires Valid() && sem == 0 && |nodes| < MAX_ITEMS
      requires tail == if nodes == [] then null else nodes[|nodes| - 1]
      modifies `data, `nodes, nodes`next, slab
      ensures slab.tally == old(slab.tally).Allocated(p == null)
      ensures slab.calm ==> p != null
      ensures Valid()
      ensures arrays == old(arrays) && quanta == old(quanta)
      ensures p == null ==> nodes == old(nodes) && View() == old(View())
      ensures p != null ==> nodes == old(nodes) + [p] && fresh(p) && p.data == null
      ensures p != null ==> View() == old(View()).(len := |old(nodes)| + 1)
      ensures slab.live - Owned() == old(slab.live - Owned()) && slab.frees == old(slab.frees)
    {
      hide WellFormed, Blocks, Linked, Slotted, Filled, Apart;
      p := slab.KmallocNode();
      if p != null {
        Conserve(old(slab.live), old(Owned()), p);
        LinkNode(tail, p);
      }
    }

    lemma Chained(i: nat)
      requires Valid()
      ensures data == if nodes == [] then null else nodes[0]
      ensures i < |nodes| ==> nodes[i].next == if i + 1 < |nodes| then nodes[i + 1] else null
    {
    }

    /** `scull_follow`: item `n`, appending zeroed items as needed. On failure the list may have grown,
        but never to `n`; its old part, the arrays and the quanta are as before. */
    method Follow(n: int) returns (qs: Qset?)
      requires Valid() && sem == 0 && 0 <= n < MAX_ITEMS
      modifies `data, `nodes, nodes`next, slab
      ensures slab.tally == old(slab.tally).Allocated(qs == null)
      ensures slab.calm ==> qs != null
      ensures Valid()
      ensures old(nodes) <= nodes && arrays == old(arrays) && quanta == old(quanta) && Grown()
      ensures forall i | |old(nodes)| <= i < |nodes| :: fresh(nodes[i]) && nodes[i].data == null
      ensures qs != null ==> View() == Reach(old(View()), n) && qs == nodes[n]
      ensures qs == null ==> View() == old(View()).(len := |nodes|) && |old(nodes)| <= |nodes| <= n
      ensures n < |old(nodes)| ==> qs != null && slab.live == old(slab.live) && slab.allocs == old(slab.allocs)
      ensures slab.live - Owned() == old(slab.live - Owned()) && slab.frees == old(slab.frees)
    {
      hide Valid, Owned;
      Chained(0);
      qs := data;
      if qs == null {
        qs := Append(null);
        if qs == null {
          return;
        }
      }
      var m := n;
      while m != 0
        invariant 0 <= m <= n && Valid()
        invariant old(nodes) <= nodes && arrays == old(arrays) && quanta == old(quanta)
        invariant |nodes| == Max(|old(nodes)|, n - m + 1) && qs == nodes[n - m]
        invariant View() == old(View()).(len := |nodes|)
        invariant forall i | |old(nodes)| <= i < |nodes| :: fresh(nodes[i]) && nodes[i].data == null
        invariant slab.live - Owned() == old(slab.live - Owned()) && slab.frees == old(slab.frees)
        invariant |nodes| == |old(nodes)| ==> slab.live == old(slab.live) && slab.allocs == old(slab.allocs)
        invariant slab.tally == old(slab.tally)
      {
        Chained(n - m);
        var next := qs.next;
        if next == null {
          next := Append(qs);
          if next == null {
            return null;
          }
        }
        qs := next;
        m := m - 1;
      }
    }

    twostate lemma SlottedWithArray(item: int, new a: SlotArray)
      requires old(Slotted() && Apart()) && nodes == old(nodes) && qset == old(qset)
      requires 0 <= item < |nodes| && arrays == old(arrays)[item := a] && a.Length == qset
      requires nodes[item].data == a
      requires forall n <- nodes | n != nodes[item] :: n.data == old(n.data)
      ensures Slotted()
    {
    }

    twostate lemma FilledWithArray(item: int, new a: SlotArray)
      requires old(Filled()) && quantum == old(quantum) && qset == old(qset)
      requires item !in old(arrays) && arrays == old(arrays)[item := a]
      requires forall s | 0 <= s < a.Length :: a[s] == null
      requires quanta == old(quanta) && contents == old(contents)
      requires forall i, s | i in old(arrays) && 0 <= s < old(arrays)[i].Length :: arrays[i][s] == old(arrays[i][s])
      requires forall k <- quanta :: quanta[k][..] == old(quanta[k][..])
      ensures Filled()
    {
    }

    twostate lemma ApartWithArray(item: int, new a: SlotArray)
      requires old(Apart()) && nodes == old(nodes) && quanta == old(quanta)
      requires arrays == old(arrays)[item := a] && forall i <- old(arrays) :: old(arrays)[i] != a
      ensures Apart()
    {
    }

    /** Gives the item `dptr`, which has none, the new slot array `a`. */
    method LinkSlots(dptr: Qset, ghost item: int, a: SlotArray)
      requires Valid() && 0 <= item < |nodes| && dptr == nodes[item] && item !in arrays
      requires a in slab.live - Owned() && a.Length == qset && forall s | 0 <= s < a.Length :: a[s] == null
      modifies `arrays, dptr`data
      ensures Valid() && dptr.data == a && arrays == old(arrays)[item := a]
      ensures View() == WithSlots(old(View()), item) && Owned() == old(Owned()) + {a}
    {
      hide WellFormed, Blocks, Linked, Slotted, Filled, Apart;
      Foreign(a);
      BlocksWithArray(nodes, arrays, quanta, item, a);
      WithSlotsWellFormed(View(), item);
      dptr.data := a;
      arrays := arrays[item := a];
      assert arrays.Keys == old(arrays).Keys + {item};
      SlottedWithArray(item, a);
      FilledWithArray(item, a);
      ApartWithArray(item, a);
      assert WellFormed(View());
    }

    /** A zeroed slot array for the item `dptr`, unless memory is short. */
    method AttachSlots(dptr: Qset, ghost item: int)
      requires Valid() && sem == 0 && 0 <= item < |nodes| && dptr == nodes[item]
      requires dptr.data == null && item !in arrays
      modifies `arrays, dptr`data, slab
      ensures slab.tally == old(slab.tally).Allocated(dptr.data == null)
      ensures slab.calm ==> dptr.data != null
      ensures Valid()
      ensures dptr.data == null ==> View() == old(View()) && arrays == old(arrays)
      ensures dptr.data != null ==> View() == WithSlots(old(View()), item)
      ensures dptr.data != null ==> arrays == old(arrays)[item := dptr.data] && fresh(dptr.data)
      ensures slab.live - Owned() == old(slab.live - Owned()) && slab.frees == old(slab.frees)
    {
      hide WellFormed, Blocks, Linked, Slotted, Filled, Apart;
      Sizes();
      var a := slab.KmallocSlots(qset);
      if a != null {
        Conserve(old(slab.live), old(Owned()), a);
        LinkSlots(dptr, item, a);
      }
    }

    twostate lemma FilledWithQuantum(k: Key, new q: array<byte>)
      requires old(Filled() && Apart()) && quantum == old(quantum) && qset == old(qset) && arrays == old(arrays)
      requires k.item in arrays && 0 <= k.slot < qset == arrays[k.item].Length && q.Length == quantum
      requires k !in old(quanta) && quanta == old(quanta)[k := q] && contents == old(contents)[k := q[..]]
      requires arrays[k.item][k.slot] == q
      requires forall i, s | i in arrays && 0 <= s < arrays[i].Length && (arrays[i] != arrays[k.item] || s != k.slot) ::
                 arrays[i][s] == old(arrays[i][s])
      requires forall j <- old(quanta) :: old(quanta)[j][..] == old(quanta[j][..])
      ensures Filled()
    {
    }

    twostate lemma ApartWithQuantum(k: Key, new q: array<byte>)
      requires old(Apart()) && nodes == old(nodes) && arrays == old(arrays)
      requires quanta == old(quanta)[k := q] && forall j <- old(quanta) :: old(quanta)[j] != q
      ensures Apart()
    {
    }

    /** Puts the new quantum `q` into the empty slot `sPos` of the array `slots`. */
    method LinkQuantum(slots: SlotArray, sPos: int, q: array<byte>, ghost k: Key)
      requires Valid() && k.item in arrays && slots == arrays[k.item] && sPos == k.slot && 0 <= k.slot < qset
      requires slots.Length == qset && k !in quanta
      requires q in slab.live - Owned() && q.Length == quantum
      modifies `quanta, `contents, slots
      ensures Valid() && slots[sPos] == q && quanta == old(quanta)[k := q]
      ensures View() == WithQuantum(old(View()), k, q[..]) && Owned() == old(Owned()) + {q}
    {
      hide WellFormed, Blocks, Linked, Slotted, Filled, Apart;
      Sizes();
      Foreign(q);
      BlocksWithQuantum(nodes, arrays, quanta, k, q);
      WithQuantumWellFormed(View(), k, q[..]);
      slots[sPos] := q;
      quanta, contents := quanta[k := q], contents[k := q[..]];
      FilledWithQuantum(k, q);
      ApartWithQuantum(k, q);
      assert View() == WithQuantum(old(View()), k, q[..]);
      assert Slotted() && Apart() && WellFormed(View());
    }

    /** A quantum for the empty slot `sPos` of the array `slots`, unless memory is short; it comes with
        whatever it contained. */
    method AttachQuantum(slots: SlotArray, sPos: int, ghost k: Key)
      requires Valid() && sem == 0 && k.item in arrays && slots == arrays[k.item]
      requires sPos == k.slot && 0 <= k.slot < qset
      requires slots.Length == qset && slots[sPos] == null && k !in quanta
      modifies `quanta, `contents, slots, slab
      ensures slab.tally == old(slab.tally).Allocated(slots[sPos] == null)
      ensures slab.calm ==> slots[sPos] != null
      ensures Valid()
      ensures slots[sPos] == null ==> View() == old(View()) && quanta == old(quanta)
      ensures slots[sPos] != null ==>
                && quanta == old(quanta)[k := slots[sPos]] && fresh(slots[sPos])
                && slots[sPos].Length == quantum
                && View() == WithQuantum(old(View()), k, slots[sPos][..])
      ensures slab.live - Owned() == old(slab.live - Owned()) && slab.frees == old(slab.frees)
    {
      hide WellFormed, Blocks, Linked, Slotted, Filled, Apart;
      Sizes();
      var q := slab.KmallocQuantum(quantum);
      if q != null {
        Conserve(old(slab.live), old(Owned()), q);
        LinkQuantum(slots, sPos, q, k);
      }
    }

    twostate lemma FilledWithPatch(k: Key)
      requires old(Filled() && Apart()) && quantum == old(quantum) && qset == old(qset)
      requires arrays == old(arrays) && quanta == old(quanta) && k in quanta
      requires contents == old(contents)[k := quanta[k][..]]
      requires forall i, s | i in arrays && 0 <= s < arrays[i].Length :: arrays[i][s] == old(arrays[i][s])
      requires forall j <- quanta | quanta[j] != quanta[k] :: quanta[j][..] == old(quanta[j][..])
      ensures Filled()
    {
    }

    lemma ContentsAt(k: Key)
      requires Valid() && k in quanta
      ensures k in contents && contents[k] == quanta[k][..]
    {
    }

    /** Copies user data into the quantum `q`; after a fault the target range holds anything. */
    method CopyIn(q: array<byte>, off: int, src: seq<byte>, ghost k: Key) returns (left: int)
      requires Valid() && sem == 0 && k in quanta && q == quanta[k]
      requires 0 <= off <= off + |src| <= q.Length
      modifies `contents, q, slab`tally
      ensures slab.tally == old(slab.tally).Copied(left != 0)
      ensures slab.calm ==> left == 0
      ensures Valid()
      ensures 0 <= left <= |src| && (left == 0 ==> q[off..off + |src|] == src)
      ensures k in old(View()).blocks && |old(View()).blocks[k]| == q.Length
      ensures View() == Poke(old(View()), k, off, q[off..off + |src|])
    {
      hide WellFormed, Blocks, Linked, Slotted, Filled, Apart, Poke, Patch;
      ContentsAt(k);
      left := slab.CopyFromUser(q, off, src);
      contents := contents[k := q[..]];
      FilledWithPatch(k);
      PatchIs(old(q[..]), off, q[..], |src|);
      PokeWellFormed(old(View()), k, off, q[off..off + |src|]);
      PokeIs(old(View()), k, off, q[off..off + |src|]);
    }

    /** What the pointers met on the way to an address say about the value of the device. */
    lemma Lookup(a: Address)
      requires Valid() && 0 <= a.item < |nodes| && 0 <= a.sPos < qset
      ensures a.item in View().slots <==> nodes[a.item].data != null
      ensures a.item in arrays <==> nodes[a.item].data != null
      ensures nodes[a.item].data != null ==>
                && arrays[a.item] == nodes[a.item].data
                && nodes[a.item].data.Length == qset
                && (At(a) in View().blocks <==> nodes[a.item].data[a.sPos] != null)
                && (At(a) in quanta <==> nodes[a.item].data[a.sPos] != null)
      ensures nodes[a.item].data != null && nodes[a.item].data[a.sPos] != null ==>
                && quanta[At(a)] == nodes[a.item].data[a.sPos]
                && nodes[a.item].data[a.sPos].Length == quantum
                && View().blocks[At(a)] == nodes[a.item].data[a.sPos][..]
      ensures At(a) in View().blocks ==> a.item in View().slots
    {
    }

    /** The second half of `scull_read`: the hole test, the cut at the end of the quantum, and the copy of
        at most `n` bytes. */
    method Fetch(dptr: Qset, a: Address, n: int) returns (ret: int, buf: seq<byte>, ghost faulty: bool)
      requires Valid() && sem == 0 && InBounds(a, quantum, qset) && a.item < |nodes| && dptr == nodes[a.item] && 0 <= n
      modifies slab`tally
      ensures slab.calm ==> !faulty
      ensures 0 <= ret || ret == -EFAULT
      ensures faulty <==> ret == -EFAULT
      ensures slab.tally == if At(a) in View().blocks then old(slab.tally).Copied(faulty) else old(slab.tally)
      ensures At(a) !in View().blocks ==> ret == 0 && buf == [] && !faulty
      ensures At(a) in View().blocks ==>
                var b, k := View().blocks[At(a)], Min(n, quantum - a.qPos);
                && |b| == quantum
                && Outcome(ret, buf)
                   == if faulty && 0 < k then Outcome(-EFAULT, []) else Outcome(k, b[a.qPos..a.qPos + k])
    {
      hide WellFormed, Linked, Slotted, Filled, Apart, Blocks, Parts;
      faulty := false;
      Lookup(a);
      if dptr.data == null || dptr.data[a.sPos] == null {
        return 0, [], false;
      }
      var count := if n > quantum - a.qPos then quantum - a.qPos else n;
      var left;
      left, buf := slab.CopyToUser(dptr.data[a.sPos], a.qPos, count);
      if left != 0 {
        return -EFAULT, [], true;
      }
      ret := count;
    }

    /** The quantum of slot `a.sPos`, which is allocated if it is not there; `slots` is the array of item
        `a.item`. */
    method SecureQuantum(slots: SlotArray, a: Address) returns (q: array?<byte>, ghost luck: WriteLuck)
      requires Valid() && sem == 0 && InBounds(a, quantum, qset) && a.item < |nodes| && nodes[a.item].data == slots
      requires slots.Length == qset
      modifies `quanta, `contents, slots, slab
      ensures slab.tally == old(slab.tally).Allocated(q == null)
      ensures slab.calm ==> q != null
      ensures Valid()
      ensures q == null ==> luck == QuantumFail && View() == old(View()) && At(a) !in View().blocks
      ensures q != null ==>
                && luck.Copied? && |luck.fill| == quantum && View() == WithQuantum(old(View()), At(a), luck.fill)
                && At(a) in quanta && quanta[At(a)] == q && q.Length == quantum
      ensures Grown()
      ensures slab.live - Owned() == old(slab.live - Owned()) && slab.frees == old(slab.frees)
    {
      hide WellFormed, Blocks, Valid, Owned;
      Lookup(a);
      if slots[a.sPos] == null {
        AttachQuantum(slots, a.sPos, At(a));
        if slots[a.sPos] == null {
          return null, QuantumFail;
        }
      }
      Lookup(a);
      q := slots[a.sPos];
      luck := Copied(q[..]);
    }

    /** The allocating half of `scull_write`: the quantum at address `a`, obtained with up to three
        kinds of allocation. Whatever was allocated before a failure stays. */
    method Secure(a: Address) returns (q: array?<byte>, ghost luck: WriteLuck)
      requires Valid() && sem == 0 && InBounds(a, quantum, qset)
      modifies `data, `nodes, `arrays, `quanta, `contents
      modifies nodes`data, nodes`next, arrays.Values, slab
      ensures slab.tally == old(slab.tally).Allocated(q == null)
      ensures slab.calm ==> q != null
      ensures Valid()
      ensures q == null ==> luck.NoMemory() && View() == GivenUp(old(View()), a, luck)
      ensures q == null ==> ShortOfMemory(old(View()), a, luck)
      ensures q != null ==> luck.Copied? && |luck.fill| == quantum && View() == Prepared(old(View()), a, luck.fill)
      ensures q != null ==> At(a) in quanta && quanta[At(a)] == q && q.Length == quantum
      ensures Grown()
      ensures slab.live - Owned() == old(slab.live - Owned()) && slab.frees == old(slab.frees)
    {
      hide WellFormed, Blocks, Valid, Owned, Parts;
      ghost var st := View();
      var dptr := Follow(a.item);
      if dptr == null {
        return null, NodeFail(|nodes|);
      }
      Lookup(a);
      if dptr.data == null {
        AttachSlots(dptr, a.item);
        if dptr.data == null {
          return null, SlotsFail;
        }
      }
      Lookup(a);
      assert View() == WithSlots(Reach(st, a.item), a.item);
      q, luck := SecureQuantum(dptr.data, a);
    }

    /** The size field, raised by a write that succeeded. */
    method SetSize(end: int)
      requires Valid() && sem == 0
      modifies `size
      ensures View() == old(View()).(size := end) && (Valid() <==> WellFormed(View()))
    {
      size := end;
    }

    lemma ValidParts()
      requires Valid()
      ensures Parts(nodes, arrays, quanta, qset) && 0 <= qset
    {
    }

    lemma SlotsHold(i: int)
      requires Filled() && i in arrays && arrays[i].Length == qset
      ensures forall s | 0 <= s < qset :: arrays[i][s] == if Key(i, s) in quanta then quanta[Key(i, s)] else null
    {
    }

    lemma NextHolds(i: int)
      requires Linked() && 0 <= i < |nodes|
      ensures nodes[i].next == if i + 1 < |nodes| then nodes[i + 1] else null
    {
    }

    /** The items from `j` on still hold their arrays. */
    ghost predicate Untouched(j: int)
      reads `nodes, `arrays, nodes`data
    {
      forall i | 0 <= j <= i < |nodes| :: nodes[i].data == if i in arrays then arrays[i] else null
    }

    /** Frees the quanta of item `j` and its slot array. */
    method FreeSlots(data: SlotArray, slots: int, ghost j: int, ghost owner: set<object>)
      requires Filled() && Parts(nodes, arrays, quanta, qset)
      requires 0 <= j < |nodes| && j in arrays && data == arrays[j] && slots == qset == data.Length
      requires Blocks(nodes, arrays, quanta) <= owner
      requires slab.Balanced() && slab.live == owner - Freed(nodes, arrays, quanta, j, 0)
      modifies slab`live, slab`allocs, slab`frees
      ensures slab.Balanced() && slab.allocs == old(slab.allocs)
      ensures slab.live == owner - FreedSlots(nodes, arrays, quanta, qset, j)
    {
      hide Filled, Parts, Blocks, Freed, FreedSlots;
      SlotsHold(j);
      for i := 0 to slots
        invariant slab.Balanced() && slab.live == owner - Freed(nodes, arrays, quanta, j, i)
        invariant slab.allocs == old(slab.allocs)
      {
        FreedStep(nodes, arrays, quanta, qset, j, i);
        slab.Kfree(data[i]);
      }
      FreedItem(nodes, arrays, quanta, qset, j);
      slab.Kfree(data);
    }

    lemma UntouchedAt(j: int)
      requires Untouched(j) && 0 <= j < |nodes|
      ensures nodes[j].data == if j in arrays then arrays[j] else null
    {
    }

    twostate lemma UntouchedAfter(j: int)
      requires old(Untouched(j)) && Parts(nodes, arrays, quanta, qset) && 0 <= j < |nodes|
      requires nodes == old(nodes) && arrays == old(arrays)
      requires forall n <- nodes | n != nodes[j] :: n.data == old(n.data)
      ensures Untouched(j + 1)
    {
    }

    /** One round of the loop in `scull_trim`, for item `j`; `owner` is what was live before the first. */
    method FreeItem(dptr: Qset, slots: int, ghost j: int, ghost owner: set<object>) returns (next: Qset?)
      requires Linked() && Filled() && Parts(nodes, arrays, quanta, qset) && Untouched(j)
      requires 0 <= j < |nodes| && dptr == nodes[j] && slots == qset && 0 <= qset
      requires j in arrays ==> arrays[j].Length == qset
      requires Blocks(nodes, arrays, quanta) <= owner
      requires slab.Balanced() && slab.live == owner - Freed(nodes, arrays, quanta, j, 0)
      modifies dptr`data, slab`live, slab`allocs, slab`frees
      ensures next == (if j + 1 < |nodes| then nodes[j + 1] else null) && Untouched(j + 1)
      ensures slab.Balanced() && slab.live == owner - Freed(nodes, arrays, quanta, j + 1, 0)
      ensures slab.allocs == old(slab.allocs)
    {
      hide Linked, Filled, Parts, Blocks, Freed, FreedSlots, Untouched;
      FreedItem(nodes, arrays, quanta, qset, j);
      NextHolds(j);
      UntouchedAt(j);
      if dptr.data != null {
        FreeSlots(dptr.data, slots, j, owner);
        dptr.data := null;
      }
      UntouchedAfter(j);
      assert dptr in slab.live;
      next := dptr.next;
      slab.Kfree(dptr);
    }

    lemma ValidUntouched()
      requires Valid()
      ensures Untouched(0) && forall i <- arrays :: arrays[i].Length == qset
      ensures data == (if nodes == [] then null else nodes[0])
    {
    }

    lemma Emptied()
      requires data == null && size == 0
      requires nodes == [] && arrays == map[] && quanta == map[] && contents == map[]
      ensures Apart() && Linked() && Slotted() && Filled()
      ensures View() == Fresh(quantum, qset)
    {
    }

    /** The assignments at the end of `scull_trim`. */
    method Reset(globalQuantum: int, globalQset: int)
      requires slab.Balanced() && ValidGeometry(globalQuantum, globalQset)
      modifies `data, `quantum, `qset, `size, `nodes, `arrays, `quanta, `contents
      ensures Valid() && View() == Fresh(globalQuantum, globalQset) && Owned() == {} && Grown()
    {
      hide WellFormed, Blocks, Linked, Slotted, Filled, Apart;
      EmptyDevice(globalQuantum, globalQset);
      size := 0;
      quantum := globalQuantum;
      qset := globalQset;
      data := null;
      nodes, arrays, quanta, contents := [], map[], map[], map[];
      Emptied();
      assert WellFormed(View());
    }

    /** The loop of `scull_trim`. */
    method FreeAll()
      requires Valid()
      modifies nodes`data, slab`live, slab`allocs, slab`frees
      ensures slab.Balanced() && slab.live == old(slab.live - Owned())
      ensures slab.allocs == old(slab.allocs) && slab.frees == old(slab.frees) + |old(Owned())|
    {
      hide WellFormed, Blocks, Linked, Slotted, Filled, Apart, Parts, Freed;
      ghost var live, owned := slab.live, Owned();
      var slots := qset;
      var dptr := data;
      ghost var j := 0;
      ValidParts();
      ValidUntouched();
      FreedEnds(nodes, arrays, quanta, qset);
      while dptr != null
        invariant 0 <= j <= |nodes| && dptr == if j < |nodes| then nodes[j] else null
        invariant Linked() && Filled() && Untouched(j)
        invariant slab.Balanced() && slab.live == live - Freed(nodes, arrays, quanta, j, 0)
        invariant slab.allocs == old(slab.allocs)
        decreases |nodes| - j
      {
        dptr := FreeItem(dptr, slots, j, live);
        j := j + 1;
      }
      Remainder(live, owned);
    }

    /** `scull_trim`: frees every quantum, array and node exactly once, under the old sizes, and only then
        takes over the sizes that are global now. */
    method Trim(globalQuantum: int, globalQset: int)
      requires Valid() && sem == 0 && ValidGeometry(globalQuantum, globalQset)
      modifies `data, `quantum, `qset, `size, `nodes, `arrays, `quanta, `contents
      modifies nodes`data, slab`live, slab`allocs, slab`frees
      ensures Valid() && View() == Fresh(globalQuantum, globalQset) && Owned() == {} && Grown()
      ensures slab.live == old(slab.live - Owned())
      ensures slab.allocs == old(slab.allocs) && slab.frees == old(slab.frees) + |old(Owned())|
    {
      hide Valid, WellFormed, Blocks;
      FreeAll();
      Reset(globalQuantum, globalQset);
    }
  }
}
