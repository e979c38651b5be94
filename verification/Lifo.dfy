/** The LIFO device of `LIFO/main.c`: a linked stack and a separate counter `fset`. The heap is explicit,
    a map from addresses to nodes whose keys are the live blocks, so that freed addresses come back and
    pointers may dangle. It is the counter, not a null pointer, that bounds every walk. */
module Lifo {
  import opened Geometry

  const NULL := 0

  type Addr = nat

  /** `struct lifo_node`. */
  datatype Node = Node(next: Addr, value: byte)

  type Heap = map<Addr, Node>

  /** `chain` is a walk along `next` from `from`: live nodes, none twice. */
  ghost predicate Walk(heap: Heap, from: Addr, chain: seq<Addr>) {
    && (chain != [] ==> chain[0] == from)
    && (forall i | 0 <= i < |chain| :: chain[i] in heap && chain[i] != NULL)
    && (forall i | 0 <= i < |chain| - 1 :: heap[chain[i]].next == chain[i + 1])
    && (forall i, j | 0 <= i < j < |chain| :: chain[i] != chain[j])
  }

  /** Where the walk ends up. */
  function End(heap: Heap, from: Addr, chain: seq<Addr>): Addr
    requires chain != [] ==> chain[|chain| - 1] in heap
  {
    if chain == [] then from else heap[chain[|chain| - 1]].next
  }

  /** `chain` is a walk from `from` to `to`. */
  ghost predicate WalksTo(heap: Heap, from: Addr, chain: seq<Addr>, to: Addr) {
    Walk(heap, from, chain) && End(heap, from, chain) == to
  }

  function Values(heap: Heap, chain: seq<Addr>): (r: seq<byte>)
    requires forall i | 0 <= i < |chain| :: chain[i] in heap
    ensures |r| == |chain|
  {
    seq(|chain|, i requires 0 <= i < |chain| => heap[chain[i]].value)
  }

  /** The walk `chain` from `from` to `to` carries the bytes `stack`. */
  ghost predicate Carries(heap: Heap, from: Addr, chain: seq<Addr>, to: Addr, stack: seq<byte>) {
    WalksTo(heap, from, chain, to) && Values(heap, chain) == stack
  }

  // ----- the stack as a value, top first

  function Reverse(s: seq<byte>): (r: seq<byte>)
    ensures |r| == |s|
  {
    if s == [] then [] else [s[|s| - 1]] + Reverse(s[..|s| - 1])
  }

  function Push(stack: seq<byte>, w: seq<byte>): seq<byte> {
    Reverse(w) + stack
  }

  function Popped(stack: seq<byte>, count: int): seq<byte>
    requires 0 <= count
  {
    stack[..Min(count, |stack|)]
  }

  function Pop(stack: seq<byte>, count: int): seq<byte>
    requires 0 <= count
  {
    stack[Min(count, |stack|)..]
  }

  lemma {:induction false} ReverseAt(s: seq<byte>, i: nat)
    requires i < |s|
    ensures Reverse(s)[i] == s[|s| - 1 - i]
  {
    if i > 0 {
      ReverseAt(s[..|s| - 1], i - 1);
    }
  }

  /** What was written last is read first: reading `|w|` bytes after writing `w` returns `w` backwards and
      leaves the stack as it was. */
  lemma PushPop(stack: seq<byte>, w: seq<byte>)
    ensures Popped(Push(stack, w), |w|) == Reverse(w)
    ensures Pop(Push(stack, w), |w|) == stack
    ensures forall i | 0 <= i < |w| :: Reverse(w)[i] == w[|w| - 1 - i]
  {
    forall i | 0 <= i < |w|
      ensures Reverse(w)[i] == w[|w| - 1 - i]
    {
      ReverseAt(w, i);
    }
  }

  lemma {:induction false} ReverseConcat(a: seq<byte>, b: seq<byte>)
    ensures Reverse(a + b) == Reverse(b) + Reverse(a)
  {
    var t := a + b;
    if b == [] {
      assert t == a;
    } else {
      var front, last := b[..|b| - 1], [b[|b| - 1]];
      ReverseConcat(a, front);
      assert t[..|t| - 1] == a + front && [t[|t| - 1]] == last;
      assert Reverse(t) == last + (Reverse(front) + Reverse(a)) == (last + Reverse(front)) + Reverse(a);
    }
  }

  /** Two writes are one write of the concatenation. */
  lemma PushPush(stack: seq<byte>, a: seq<byte>, b: seq<byte>)
    ensures Push(Push(stack, a), b) == Push(stack, a + b)
  {
    ReverseConcat(a, b);
  }

  /** Two reads deliver what one read of the total delivers. */
  lemma PopPop(stack: seq<byte>, m: nat, n: nat)
    ensures Popped(stack, m) + Popped(Pop(stack, m), n) == Popped(stack, m + n)
    ensures Pop(Pop(stack, m), n) == Pop(stack, m + n)
  {
  }

  /** A call, with the index of the byte whose copy faults; an index out of range means that none does. */
  datatype Call = CallWrite(buf: seq<byte>, faultAt: int) | CallRead(count: nat, faultAt: int)

  function Effect(stack: seq<byte>, c: Call): seq<byte> {
    if c.CallWrite? then Push(stack, c.buf) else Pop(stack, c.count)
  }

  /** The stack after the calls, if no fault hits any of them. */
  function After(stack: seq<byte>, calls: seq<Call>): seq<byte> {
    if calls == [] then stack else
      Effect(After(stack, calls[..|calls| - 1]), calls[|calls| - 1])
  }

  /** The fault comes on one of the bytes that the call moves. */
  predicate Hit(stack: seq<byte>, c: Call) {
    0 <= c.faultAt < if c.CallWrite? then |c.buf| else Min(c.count, |stack|)
  }

  /** No fault hits any of the calls. */
  predicate Undisturbed(stack: seq<byte>, calls: seq<Call>) {
    calls == [] ||
    var front, last := calls[..|calls| - 1], calls[|calls| - 1];
    Undisturbed(stack, front) && !Hit(After(stack, front), last)
  }

  /** A list with a call that a fault hits is disturbed. */
  lemma {:induction false} HitDisturbs(stack: seq<byte>, calls: seq<Call>, i: nat)
    requires i < |calls| && Hit(After(stack, calls[..i]), calls[i])
    ensures !Undisturbed(stack, calls)
    decreases |calls|
  {
    var n := |calls| - 1;
    if i < n {
      assert calls[..n][..i] == calls[..i];
      HitDisturbs(stack, calls[..n], i);
    }
  }

  /** What their reads delivered, all together. */
  function Delivered(stack: seq<byte>, calls: seq<Call>): seq<byte> {
    if calls == [] then [] else
      var front, last := calls[..|calls| - 1], calls[|calls| - 1];
      Delivered(stack, front) + if last.CallWrite? then [] else Popped(After(stack, front), last.count)
  }

  function Written(calls: seq<Call>): nat {
    if calls == [] then 0 else
      var last := calls[|calls| - 1];
      Written(calls[..|calls| - 1]) + if last.CallWrite? then |last.buf| else 0
  }

  function WrittenBytes(calls: seq<Call>): seq<byte> {
    if calls == [] then [] else
      var last := calls[|calls| - 1];
      WrittenBytes(calls[..|calls| - 1]) + if last.CallWrite? then last.buf else []
  }

  lemma {:induction false} ReverseBag(s: seq<byte>)
    ensures multiset(Reverse(s)) == multiset(s)
  {
    if s != [] {
      ReverseBag(s[..|s| - 1]);
      assert s == s[..|s| - 1] + [s[|s| - 1]];
    }
  }

  lemma PushBag(stack: seq<byte>, w: seq<byte>)
    ensures multiset(Push(stack, w)) == multiset(w) + multiset(stack)
  {
    ReverseBag(w);
  }

  lemma PopBag(stack: seq<byte>, count: nat)
    ensures multiset(Popped(stack, count)) + multiset(Pop(stack, count)) == multiset(stack)
  {
    assert stack == Popped(stack, count) + Pop(stack, count);
  }

  /** Every byte written is either delivered or still on the stack. */
  lemma {:induction false} NothingLost(stack: seq<byte>, calls: seq<Call>)
    ensures multiset(Delivered(stack, calls)) + multiset(After(stack, calls))
            == multiset(stack) + multiset(WrittenBytes(calls))
  {
    hide Push, Pop, Popped;
    if calls != [] {
      var front, last := calls[..|calls| - 1], calls[|calls| - 1];
      NothingLost(stack, front);
      var earlier := After(stack, front);
      var d, b := multiset(Delivered(stack, front)), multiset(WrittenBytes(front));
      if last.CallWrite? {
        PushBag(earlier, last.buf);
        assert Delivered(stack, calls) == Delivered(stack, front);
        calc {
          d + multiset(Push(earlier, last.buf));
          d + multiset(earlier) + multiset(last.buf);
          multiset(stack) + b + multiset(last.buf);
          multiset(stack) + multiset(WrittenBytes(calls));
        }
      } else {
        PopBag(earlier, last.count);
        assert WrittenBytes(calls) == WrittenBytes(front);
        calc {
          multiset(Delivered(stack, calls)) + multiset(Pop(earlier, last.count));
          d + multiset(Popped(earlier, last.count)) + multiset(Pop(earlier, last.count));
          d + multiset(earlier);
        }
      }
    } else {
      assert Delivered(stack, calls) == [] == WrittenBytes(calls);
    }
  }

  lemma {:induction false} WrittenPrefix(calls: seq<Call>, i: nat)
    requires i <= |calls|
    ensures Written(calls[..i]) <= Written(calls)
    decreases |calls|
  {
    if i < |calls| {
      WrittenPrefix(calls[..|calls| - 1], i);
      assert calls[..|calls| - 1][..i] == calls[..i];
    } else {
      assert calls[..i] == calls;
    }
  }

  lemma PushNothing(stack: seq<byte>)
    ensures Push(stack, []) == stack
  {
  }

  lemma PushSnoc(stack: seq<byte>, w: seq<byte>, i: nat)
    requires i < |w|
    ensures Push(stack, w[..i + 1]) == [w[i]] + Push(stack, w[..i])
    ensures w[..|w|] == w
  {
    assert w[..i + 1][..i] == w[..i];
  }

  function Elems(chain: seq<Addr>): set<Addr> {
    set a | a in chain
  }

  lemma ElemsPush(chain: seq<Addr>, node: Addr)
    ensures Elems([node] + chain) == Elems(chain) + {node}
  {
  }

  lemma ElemsSnoc(chain: seq<Addr>, i: nat)
    requires i < |chain|
    ensures Elems(chain[..i + 1]) == Elems(chain[..i]) + {chain[i]}
    ensures Elems(chain[..0]) == {} && chain[..|chain|] == chain
  {
    assert chain[..i + 1] == chain[..i] + [chain[i]];
  }

  /** A new node in front of a walk. */
  lemma WalkPush(heap: Heap, from: Addr, chain: seq<Addr>, node: Addr, value: byte)
    requires Walk(heap, from, chain) && node !in heap && node != NULL
    ensures var heap' := heap[node := Node(from, value)];
            && Walk(heap', node, [node] + chain)
            && End(heap', node, [node] + chain) == End(heap, from, chain)
            && Values(heap', [node] + chain) == [value] + Values(heap, chain)
  {
  }

  lemma CarriesMore(heap: Heap, from: Addr, chain: seq<Addr>, to: Addr, stack: seq<byte>, node: Addr, value: byte)
    requires Carries(heap, from, chain, to, stack) && node !in heap && node != NULL
    ensures Carries(heap[node := Node(from, value)], node, [node] + chain, to, [value] + stack)
  {
    WalkPush(heap, from, chain, node, value);
  }

  lemma CarriesLive(heap: Heap, from: Addr, chain: seq<Addr>, to: Addr, stack: seq<byte>)
    requires Carries(heap, from, chain, to, stack)
    ensures forall i | 0 <= i < |chain| :: chain[i] in heap
  {
  }

  /** A walk without its first node, which is free. */
  lemma WalkPop(heap: Heap, from: Addr, chain: seq<Addr>)
    requires Walk(heap, from, chain) && chain != []
    ensures from == chain[0] && from in heap
    ensures var heap' := heap - {from};
            && Walk(heap', heap[from].next, chain[1..])
            && End(heap', heap[from].next, chain[1..]) == End(heap, from, chain)
            && Values(heap, chain) == [heap[from].value] + Values(heap', chain[1..])
  {
  }

  /** The same, in the middle of popping `chain`, whose values are `stack`. */
  lemma WalkPopAt(heap: Heap, from: Addr, chain: seq<Addr>, stack: seq<byte>, i: nat)
    requires i < |chain| == |stack| && Walk(heap, from, chain[i..]) && Values(heap, chain[i..]) == stack[i..]
    ensures from == chain[i] && from in heap
    ensures var heap' := heap - {from};
            && Walk(heap', heap[from].next, chain[i + 1..])
            && End(heap', heap[from].next, chain[i + 1..]) == End(heap, from, chain[i..])
            && Values(heap', chain[i + 1..]) == stack[i + 1..]
    ensures stack[..i] + [heap[from].value] == stack[..i + 1]
    ensures Elems(chain[..i + 1]) == Elems(chain[..i]) + {from}
  {
    WalkPop(heap, from, chain[i..]);
    ElemsSnoc(chain, i);
    assert chain[i..][1..] == chain[i + 1..];
    assert stack[i..][1..] == stack[i + 1..];
  }

  /** A walk that ends in null has come to its end exactly at null. */
  lemma WalkEnds(heap: Heap, from: Addr, chain: seq<Addr>)
    requires Walk(heap, from, chain) && End(heap, from, chain) == NULL
    ensures from == NULL <==> chain == []
  {
  }

  /** `n` live, distinct nodes can be reached from `from`. */
  ghost predicate Reaches(heap: Heap, from: Addr, n: int) {
    exists nodes :: |nodes| == n && Walk(heap, from, nodes)
  }

  /** Where a walk goes is determined by where it starts: a longer one passes through the end of a
      shorter one. */
  lemma {:induction false} WalkThrough(heap: Heap, from: Addr, c: seq<Addr>, d: seq<Addr>)
    requires Walk(heap, from, c) && Walk(heap, from, d) && |c| < |d|
    ensures d[|c|] == End(heap, from, c)
  {
    if c != [] {
      var n := |c| - 1;
      WalkThrough(heap, from, c[..n], d);
      assert n > 0 ==> heap[c[n - 1]].next == c[n - 1 + 1];
      assert heap[d[n]].next == d[n + 1];
    }
  }

  /** From the start of a list that ends in null, exactly its prefixes can be walked. */
  lemma ReachesUpToEnd(heap: Heap, from: Addr, chain: seq<Addr>, n: nat)
    requires Walk(heap, from, chain) && End(heap, from, chain) == NULL
    ensures Reaches(heap, from, n) <==> n <= |chain|
  {
    if n <= |chain| {
      assert Walk(heap, from, chain[..n]);
    } else {
      forall nodes | |nodes| == n
        ensures !Walk(heap, from, nodes)
      {
        if Walk(heap, from, nodes) {
          WalkThrough(heap, from, chain, nodes);
          assert false;
        }
      }
    }
  }

  /** Of two walks from the same place, the shorter one is the start of the longer one. */
  lemma {:induction false} WalkPrefix(heap: Heap, from: Addr, c: seq<Addr>, d: seq<Addr>)
    requires Walk(heap, from, c) && Walk(heap, from, d) && |c| <= |d|
    ensures c == d[..|c|]
  {
    if c != [] {
      var n := |c| - 1;
      WalkPrefix(heap, from, c[..n], d);
      WalkThrough(heap, from, c[..n], d);
      assert n > 0 ==> heap[c[n - 1]].next == c[n - 1 + 1];
      assert c == c[..n] + [c[n]];
    }
  }

  /** Following `next` from `from` one comes to null, through live nodes only. */
  ghost predicate LeadsToNull(heap: Heap, from: Addr) {
    exists nodes :: Walk(heap, from, nodes) && End(heap, from, nodes) == NULL
  }

  /** Everything that lives in `heap` is unchanged in `heap'`. */
  ghost predicate Grows(heap: Heap, heap': Heap) {
    forall a <- heap :: a in heap' && heap'[a] == heap[a]
  }

  lemma GrowsFrom(heap: Heap)
    ensures Grows(heap, heap)
  {
  }

  lemma GrowsOn(heap: Heap, heap': Heap, heap'': Heap)
    requires Grows(heap, heap') && Grows(heap', heap'')
    ensures Grows(heap, heap'')
  {
  }

  /** A walk is not disturbed by nodes elsewhere. */
  lemma WalkKept(heap: Heap, heap': Heap, from: Addr, chain: seq<Addr>)
    requires Walk(heap, from, chain) && Grows(heap, heap')
    ensures Walk(heap', from, chain) && End(heap', from, chain) == End(heap, from, chain)
  {
  }

  /** New nodes elsewhere do not cut off the way to null. */
  lemma StillLeadsToNull(heap: Heap, heap': Heap, from: Addr)
    requires LeadsToNull(heap, from) && Grows(heap, heap')
    ensures LeadsToNull(heap', from)
  {
    var nodes :| Walk(heap, from, nodes) && End(heap, from, nodes) == NULL;
    WalkKept(heap, heap', from, nodes);
  }

  /** A walk that has come to a node that is free, or that it has been to before, cannot be continued to
      null. */
  lemma DeadEnd(heap: Heap, from: Addr, walked: seq<Addr>)
    requires Walk(heap, from, walked)
    requires var ptr := End(heap, from, walked);
             ptr != NULL && (ptr in heap ==> ptr in walked)
    ensures !LeadsToNull(heap, from)
  {
    var ptr := End(heap, from, walked);
    forall nodes | Walk(heap, from, nodes)
      ensures End(heap, from, nodes) != NULL
    {
      if |nodes| < |walked| {
        WalkThrough(heap, from, nodes, walked);
      } else {
        WalkPrefix(heap, from, walked, nodes);
        if |walked| < |nodes| {
          WalkThrough(heap, from, walked, nodes);
          assert false;
        }
      }
    }
  }

  /** From a freed address no way leads to null. */
  lemma FreedLeadsNowhere(heap: Heap, from: Addr)
    requires from !in heap && from != NULL
    ensures !LeadsToNull(heap, from)
  {
    DeadEnd(heap, from, []);
  }

  /** If nothing but `chain` is live, what lies beyond it leads to null only if it is null. */
  lemma NothingBeyond(heap: Heap, from: Addr, chain: seq<Addr>)
    requires Walk(heap, from, chain) && heap.Keys == Elems(chain)
    ensures LeadsToNull(heap, from) <==> End(heap, from, chain) == NULL
  {
    if End(heap, from, chain) != NULL {
      DeadEnd(heap, from, chain);
    }
  }

  /** A walk through a live node that is new to it. */
  lemma WalkOn(heap: Heap, from: Addr, walked: seq<Addr>)
    requires Walk(heap, from, walked)
    requires var ptr := End(heap, from, walked);
             ptr != NULL && ptr in heap && ptr !in walked
    ensures var ptr := End(heap, from, walked);
            && Walk(heap, from, walked + [ptr])
            && End(heap, from, walked + [ptr]) == heap[ptr].next
            && Elems(walked + [ptr]) == Elems(walked) + {ptr}
  {
    var ptr := End(heap, from, walked);
    assert forall i | 0 <= i < |walked| - 1 :: heap[walked[i]].next == walked[i + 1];
  }

  /** There is one walk to null only. */
  lemma OneWayToNull(heap: Heap, from: Addr, c: seq<Addr>, d: seq<Addr>)
    requires Walk(heap, from, c) && Walk(heap, from, d)
    requires End(heap, from, c) == NULL == End(heap, from, d)
    ensures c == d
  {
    if |c| < |d| {
      WalkThrough(heap, from, c, d);
      assert false;
    } else if |d| < |c| {
      WalkThrough(heap, from, d, c);
      assert false;
    } else {
      WalkPrefix(heap, from, c, d);
    }
  }

  /** What a fault in the middle of a write leaves: more counted than reachable, unless it came first. */
  lemma WriteFaultDrift(heap: Heap, heap': Heap, from: Addr, chain: seq<Addr>, done: nat)
    requires Walk(heap, from, chain)
    requires Grows(heap, heap')
    ensures End(heap, from, chain) == NULL ==> (Reaches(heap', from, |chain| + done) <==> done == 0)
    ensures LeadsToNull(heap, from) ==> LeadsToNull(heap', from)
  {
    if End(heap, from, chain) == NULL {
      WalkKept(heap, heap', from, chain);
      ReachesUpToEnd(heap', from, chain, |chain| + done);
    }
    if LeadsToNull(heap, from) {
      StillLeadsToNull(heap, heap', from);
    }
  }

  /** What a fault in the middle of a read leaves: a head that is free, unless it came first. */
  lemma ReadFaultDrift(heap: Heap, from: Addr, chain: seq<Addr>, done: nat)
    requires Walk(heap, from, chain) && done < |chain|
    ensures Reaches(heap - Elems(chain[..done]), from, |chain| - done) <==> done == 0
    ensures 0 < done ==> !LeadsToNull(heap - Elems(chain[..done]), from)
  {
    var heap' := heap - Elems(chain[..done]);
    if done == 0 {
      assert heap' == heap;
    } else {
      assert chain[..done][0] == from && from !in heap';
      FreedLeadsNowhere(heap', from);
    }
  }

  lemma EmptyWalk(heap: Heap, from: Addr)
    ensures Walk(heap, from, []) && End(heap, from, []) == from && Values(heap, []) == []
    ensures Elems([]) == {}
  {
  }

  lemma ElemsHas(chain: seq<Addr>, a: Addr)
    ensures a in Elems(chain) <==> a in chain
  {
  }

  /** The nodes from the `n`-th on are those that are not among the first `n`. */
  lemma ElemsSplit(heap: Heap, from: Addr, chain: seq<Addr>, n: nat)
    requires Walk(heap, from, chain) && n <= |chain|
    ensures Elems(chain[n..]) == Elems(chain) - Elems(chain[..n])
  {
    assert chain == chain[..n] + chain[n..];
  }

  /** What a trim depends on if nothing has been leaked. */
  lemma TidyTrim(heap: Heap, from: Addr, chain: seq<Addr>)
    requires Walk(heap, from, chain)
    ensures heap.Keys == Elems(chain) ==> (LeadsToNull(heap, from) <==> End(heap, from, chain) == NULL)
    ensures End(heap, from, chain) == NULL ==> LeadsToNull(heap, from)
  {
    if heap.Keys == Elems(chain) {
      NothingBeyond(heap, from, chain);
    }
  }

  /** What a trim has done when it finds null. */
  lemma NullReached(heap: Heap, from: Addr, chain: seq<Addr>, walked: seq<Addr>)
    requires Walk(heap, from, chain) && Walk(heap, from, walked) && End(heap, from, walked) == NULL
    ensures LeadsToNull(heap, from)
    ensures End(heap, from, chain) == NULL ==> walked == chain
    ensures heap.Keys == Elems(chain) ==> heap - Elems(walked) == map[] && (from == NULL <==> chain == [])
  {
    if heap.Keys == Elems(chain) {
      NothingBeyond(heap, from, chain);
    }
    if End(heap, from, chain) == NULL {
      OneWayToNull(heap, from, chain, walked);
      WalkEnds(heap, from, chain);
    }
  }

  lemma {:induction false} BoundAbove(s: set<Addr>) returns (b: nat)
    ensures forall a <- s :: a <= b
  {
    if s == {} {
      b := 0;
    } else {
      var a :| a in s;
      var c := BoundAbove(s - {a});
      b := if a < c then c else a;
      assert s == (s - {a}) + {a};
    }
  }

  lemma SetTwice(heap: Heap, p: Addr, a: Node, b: Node)
    ensures heap[p := a][p := b] == heap[p := b]
  {
  }

  /** `heap'` is `heap` and the new node `p`. */
  ghost predicate OneMore(heap: Heap, heap': Heap, p: Addr) {
    heap'.Keys == heap.Keys + {p} && |heap'| == |heap| + 1 && Grows(heap, heap')
  }

  lemma NodeAdded(heap: Heap, p: Addr, node: Node)
    requires p !in heap
    ensures var heap' := heap[p := node];
            OneMore(heap, heap', p)
  {
    var heap' := heap[p := node];
    assert |heap'.Keys| == |heap'| && |heap.Keys| == |heap|;
  }

  /** There is always a free address. */
  lemma FreeAddressExists(heap: Heap)
    ensures exists p: Addr :: p !in heap && p != NULL
  {
    var b := BoundAbove(heap.Keys);
    assert b + 1 !in heap;
  }

  /** The dating of the allocations is consistent, and `nodes` are younger than the last trim. */
  ghost predicate Dated(heap: Heap, born: map<Addr, int>, clock: int, trimmed: int, nodes: seq<Addr>) {
    && heap.Keys <= born.Keys && trimmed <= clock
    && (forall a <- heap :: born[a] < clock)
    && (forall i | 0 <= i < |nodes| :: nodes[i] in born && trimmed <= born[nodes[i]])
  }

  lemma DatedFewer(heap: Heap, born: map<Addr, int>, clock: int, trimmed: int, nodes: seq<Addr>, freed: set<Addr>,
                   n: nat)
    requires Dated(heap, born, clock, trimmed, nodes) && n <= |nodes|
    ensures Dated(heap - freed, born, clock, trimmed, nodes[n..])
    ensures Dated(heap - freed, born, clock, trimmed, [])
  {
  }

  lemma DatedNone(heap: Heap, born: map<Addr, int>, clock: int, trimmed: int, nodes: seq<Addr>)
    requires Dated(heap, born, clock, trimmed, nodes)
    ensures Dated(heap, born, clock, trimmed, []) && Dated(heap, born, clock, clock, [])
  {
  }

  lemma DatedMore(heap: Heap, born: map<Addr, int>, clock: int, trimmed: int, nodes: seq<Addr>, p: Addr, node: Node)
    requires Dated(heap, born, clock, trimmed, nodes) && p !in heap && (forall i | 0 <= i < |nodes| :: nodes[i] in heap)
    ensures Dated(heap[p := node], born[p := clock], clock + 1, trimmed, nodes)
    ensures Dated(heap[p := node], born[p := clock], clock + 1, trimmed, [p] + nodes)
  {
  }

  class LifoDev {
    var data: Addr
    var fset: int

    /** The kernel heap, as far as this device uses it. */
    var heap: Heap

    /** The first `fset` nodes, and the pointer at the bottom of them. */
    ghost var chain: seq<Addr>
    ghost var bottom: Addr

    /** When the node that lives at an address now was allocated, the time now, and the time of the last
        trim: this tells a reused address from its former owner. */
    ghost var born: map<Addr, int>
    ghost var clock: int
    ghost var trimmed: int

    /** The first `fset` nodes from `data` are distinct, live, and younger than the last trim. Nothing is
        said about what lies beyond them: `bottom` may dangle. */
    ghost predicate Valid()
      reads this
    {
      && 0 <= fset == |chain|
      && Walk(heap, data, chain)
      && End(heap, data, chain) == bottom
      && Dated(heap, born, clock, trimmed, chain)
    }

    ghost function Stack(): seq<byte>
      requires Valid()
      reads this
    {
      Values(heap, chain)
    }

    /** The list ends in null right after the counted nodes. */
    ghost predicate Terminated()
      reads this
    {
      bottom == NULL
    }

    /** The counted nodes are all that is live: nothing has been leaked. */
    ghost predicate Tidy()
      reads this
    {
      heap.Keys == Elems(chain)
    }

    /** The books of the allocations are in order, also after a fault. */
    ghost predicate Booked()
      reads this
    {
      Dated(heap, born, clock, trimmed, [])
    }

    /** As many nodes as `fset` says can be reached from `data`, all of them live. */
    ghost predicate Readable()
      reads this
    {
      Reaches(heap, data, fset)
    }

    constructor ()
      ensures Valid() && Stack() == [] && Terminated() && Tidy()
    {
      data, fset, heap := NULL, 0, map[];
      chain, bottom, born, clock, trimmed := [], NULL, map[], 0, 0;
    }

    /** `kmalloc`: any address that is not in use, with unspecified contents. */
    method Kmalloc() returns (p: Addr)
      modifies `heap, `born, `clock
      ensures p !in old(heap) && p != NULL && p in heap && heap == old(heap)[p := heap[p]]
      ensures born == old(born)[p := old(clock)] && clock == old(clock) + 1
    {
      FreeAddressExists(heap);
      p :| p !in heap && p != NULL;
      var value: byte := *;
      var next: Addr := *;
      heap := heap[p := Node(next, value)];
      born, clock := born[p := clock], clock + 1;
    }

    method Kfree(p: Addr)
      requires p in heap
      modifies `heap
      ensures heap == old(heap) - {p}
    {
      heap := heap - {p};
    }

    /** One round of the loop in `lifo_write`: a node for the byte `value`, in front of `ptr`. If the copy
        faults, the node stays behind as it came from `kmalloc`. */
    method NewNode(ptr: Addr, value: byte, faulty: bool, ghost nodes: seq<Addr>, ghost stack: seq<byte>)
      returns (node: Addr)
      requires Carries(heap, ptr, nodes, bottom, stack) && Dated(heap, born, clock, trimmed, nodes)
      modifies `heap, `born, `clock
      ensures OneMore(old(heap), heap, node)
      ensures Dated(heap, born, clock, trimmed, nodes)
      ensures !faulty ==>
                && Carries(heap, node, [node] + nodes, bottom, [value] + stack)
                && Dated(heap, born, clock, trimmed, [node] + nodes)
    {
      hide Carries, Dated, OneMore;
      ghost var before := heap;
      node := Kmalloc();
      NodeAdded(before, node, heap[node]);
      CarriesLive(before, ptr, nodes, bottom, stack);
      if faulty {
        DatedMore(before, old(born), old(clock), trimmed, nodes, node, heap[node]);
        return;
      }
      ghost var raw := heap[node];
      heap := heap[node := heap[node].(value := value)];
      SetTwice(before, node, raw, Node(raw.next, value));
      heap := heap[node := heap[node].(next := ptr)];
      SetTwice(before, node, Node(raw.next, value), Node(ptr, value));
      NodeAdded(before, node, Node(ptr, value));
      DatedMore(before, old(born), old(clock), trimmed, nodes, node, Node(ptr, value));
      CarriesMore(before, ptr, nodes, bottom, stack, node, value);
    }

    lemma Stacked()
      requires Valid()
      ensures Walk(heap, data, chain) && End(heap, data, chain) == bottom
      ensures Carries(heap, data, chain, bottom, Stack())
      ensures 0 <= fset == |chain| && Dated(heap, born, clock, trimmed, chain)
    {
    }

    lemma Restacked(stack: seq<byte>)
      requires Carries(heap, data, chain, bottom, stack)
      requires 0 <= fset == |chain| && Dated(heap, born, clock, trimmed, chain)
      ensures Valid() && Stack() == stack
    {
    }

    /** `lifo_write`, where the copy of byte `faultAt` faults. Such a fault leaves `data` where it was
        although `fset` has already grown. */
    method Write(buf: seq<byte>, faultAt: int) returns (ret: int)
      requires Valid() && fset + |buf| <= INT_MAX
      modifies `data, `fset, `heap, `chain, `born, `clock
      ensures trimmed == old(trimmed) && bottom == old(bottom)
      ensures ret == if 0 <= faultAt < |buf| then -EFAULT else |buf|
      ensures ret >= 0 ==> Valid() && Stack() == Push(old(Stack()), buf)
      ensures ret >= 0 && old(Tidy()) ==> Tidy()
      ensures fset == old(fset) + if ret < 0 then faultAt else |buf|
      ensures ret < 0 ==> data == old(data) && chain == old(chain)
      ensures Grows(old(heap), heap)
      ensures |heap| == old(|heap|) + if ret < 0 then faultAt + 1 else |buf|
      ensures ret < 0 && old(Terminated()) ==> (Readable() <==> faultAt == 0)
      ensures Booked() && (ret < 0 && old(LeadsToNull(heap, data)) ==> LeadsToNull(heap, data))
    {
      hide Walk, Carries, Push, Reaches, LeadsToNull, Dated, Grows, LifoDev.Valid;
      Stacked();
      GrowsFrom(heap);
      PushNothing(Stack());
      var ptr := data;
      ghost var stack, nodes := Stack(), chain;
      for i := 0 to |buf|
        invariant data == old(data) && chain == old(chain) && fset == old(fset) + i == |nodes|
        invariant 0 <= faultAt < |buf| ==> i <= faultAt
        invariant Carries(heap, ptr, nodes, bottom, Push(stack, buf[..i])) && Dated(heap, born, clock, trimmed, nodes)
        invariant Grows(old(heap), heap) && |heap| == old(|heap|) + i
        invariant old(Tidy()) ==> heap.Keys == Elems(nodes)
      {
        ghost var before := heap;
        var node := NewNode(ptr, buf[i], i == faultAt, nodes, Push(stack, buf[..i]));
        GrowsOn(old(heap), before, heap);
        if i == faultAt {
          WriteFaultDrift(old(heap), heap, data, chain, i);
          DatedNone(heap, born, clock, trimmed, nodes);
          return -EFAULT;
        }
        PushSnoc(stack, buf, i);
        ElemsPush(nodes, node);
        fset := fset + 1;
        ptr := node;
        nodes := [node] + nodes;
      }
      assert buf[..|buf|] == buf;
      DatedNone(heap, born, clock, trimmed, nodes);
      data := ptr;
      chain := nodes;
      Restacked(Push(stack, buf));
      return |buf|;
    }

    /** `lifo_read`, where the copy of byte `faultAt` faults. Such a fault leaves `data` at the first of the
        nodes just freed; the bytes before it have reached the user. */
    method Read(fPos: int, count: int, faultAt: int) returns (ret: int, buf: seq<byte>)
      requires Valid() && 0 <= count
      modifies `data, `fset, `heap, `chain
      ensures ret == if fPos != 0 then -EINVAL
                     else if 0 <= faultAt < Min(count, old(fset)) then -EFAULT else Min(count, old(fset))
      ensures buf == Popped(old(Stack()), if ret >= 0 then count else if ret == -EFAULT then faultAt else 0)
      ensures ret >= 0 ==> Valid() && Stack() == Pop(old(Stack()), count)
      ensures ret >= 0 && old(Tidy()) ==> Tidy()
      ensures fset == old(fset) - |buf|
      ensures ret < 0 ==> data == old(data) && chain == old(chain)
      ensures |buf| <= old(|chain|) && heap == old(heap) - Elems(old(chain)[..|buf|])
      ensures ret == -EFAULT ==> (Readable() <==> faultAt == 0)
      ensures Booked() && (ret == -EFAULT && 0 < faultAt ==> !LeadsToNull(heap, data))
    {
      hide End, Values, Elems, Reaches, LeadsToNull, Dated;
      EmptyWalk(heap, data);
      DatedNone(heap, born, clock, trimmed, chain);
      buf := [];
      if fPos != 0 {
        return -EINVAL, [];
      }
      var n := if fset < count then fset else count;
      var ptr := data;
      for i := 0 to n
        invariant data == old(data) && chain == old(chain) && fset == old(fset) - i
        invariant 0 <= faultAt < n ==> i <= faultAt
        invariant Walk(heap, ptr, chain[i..]) && End(heap, ptr, chain[i..]) == bottom
        invariant heap == old(heap) - Elems(chain[..i])
        invariant buf == old(Stack())[..i] && Values(heap, chain[i..]) == old(Stack())[i..]
      {
        if i == faultAt {
          ReadFaultDrift(old(heap), data, chain, i);
          DatedFewer(old(heap), born, clock, trimmed, chain, Elems(chain[..i]), 0);
          return -EFAULT, buf;
        }
        WalkPopAt(heap, ptr, chain, old(Stack()), i);
        buf := buf + [heap[ptr].value];
        fset := fset - 1;
        var next := heap[ptr].next;
        Kfree(ptr);
        ptr := next;
      }
      ElemsSplit(old(heap), data, chain, n);
      DatedFewer(old(heap), born, clock, trimmed, chain, Elems(chain[..n]), n);
      data := ptr;
      chain := chain[n..];
      return n, buf;
    }

    lemma Sound()
      requires Valid()
      ensures Walk(heap, data, chain) && End(heap, data, chain) == bottom && |Stack()| == |chain| == fset
      ensures Booked()
    {
    }

    lemma Emptied()
      requires chain == [] && fset == 0 && bottom == data && Dated(heap, born, clock, trimmed, [])
      ensures Valid() && Stack() == [] && (heap == map[] ==> Tidy())
    {
    }

    /** The loop of `lifo_trim`: frees what it walks through, until it finds null. The walk is safe exactly
        if live nodes lead from `data` to null; the model stops where the code would go on through a node
        that is free. */
    method FreeAll() returns (safe: bool, ghost walked: seq<Addr>)
      modifies `heap
      ensures safe <==> old(LeadsToNull(heap, data))
      ensures heap == old(heap) - Elems(walked)
      ensures safe ==> WalksTo(old(heap), data, walked, NULL)
    {
      hide Walk, End, Values, Elems, LeadsToNull;
      var ptr := data;
      walked := [];
      EmptyWalk(heap, data);
      while ptr != NULL
        invariant heap == old(heap) - Elems(walked)
        invariant WalksTo(old(heap), data, walked, ptr)
        decreases |heap|
      {
        ElemsHas(walked, ptr);
        if ptr !in heap {
          DeadEnd(old(heap), data, walked);
          return false, walked;
        }
        WalkOn(old(heap), data, walked);
        ghost var before := heap;
        var next := heap[ptr].next;
        Kfree(ptr);
        assert heap.Keys == before.Keys - {ptr};
        walked := walked + [ptr];
        ptr := next;
      }
      NullReached(old(heap), data, [], walked);
      return true, walked;
    }

    /** `lifo_trim`, also of a device that a fault has upset. It resets the counter only: `data` keeps the
        address of the first node it freed. */
    method Trim() returns (safe: bool)
      requires Booked()
      modifies `fset, `heap, `chain, `bottom, `trimmed
      ensures safe <==> old(LeadsToNull(heap, data))
      ensures safe ==> Valid() && Stack() == [] && data == bottom == old(data) && trimmed == clock
      ensures old(Valid() && Terminated()) ==> safe && heap == old(heap) - Elems(old(chain))
      ensures old(Valid() && Tidy()) ==> (safe <==> old(Terminated()))
      ensures safe && old(Valid() && Tidy()) ==> Tidy() && (Terminated() <==> old(chain) == [])
    {
      hide Walk, End, Values, Elems, Dated, LeadsToNull, LifoDev.Valid;
      ghost var sound := Valid();
      if sound {
        Sound();
        TidyTrim(heap, data, chain);
      }
      ghost var walked;
      safe, walked := FreeAll();
      if !safe {
        return;
      }
      if sound {
        NullReached(old(heap), data, chain, walked);
      }
      fset := 0;
      DatedFewer(old(heap), born, clock, trimmed, [], Elems(walked), 0);
      DatedNone(heap, born, clock, trimmed, []);
      chain, bottom, trimmed := [], data, clock;
      Emptied();
    }

    lemma Counts()
      requires Valid()
      ensures 0 <= fset == |Stack()|
    {
    }

    /** Any calls between two trims, up to the first that a fault hits. Throughout, the counted nodes are
        live and were allocated after the last trim. */
    method Serve(calls: seq<Call>) returns (delivered: seq<byte>, served: nat)
      requires Valid() && fset + Written(calls) <= INT_MAX
      modifies `data, `fset, `heap, `chain, `born, `clock
      ensures trimmed == old(trimmed) && bottom == old(bottom) && served <= |calls|
      ensures served == |calls| <==> Undisturbed(old(Stack()), calls)
      ensures served < |calls| ==> Hit(After(old(Stack()), calls[..served]), calls[served])
      ensures Delivered(old(Stack()), calls[..served]) <= delivered
      ensures served == |calls| ==>
                && Valid() && Stack() == After(old(Stack()), calls)
                && delivered == Delivered(old(Stack()), calls)
                && (old(Tidy()) ==> Tidy())
    {
      hide Walk, End, Values, Push, Pop, Popped, Valid, Elems, Grows, Reaches;
      delivered := [];
      Counts();
      for i := 0 to |calls|
        invariant Valid() && trimmed == old(trimmed) && bottom == old(bottom) && (old(Tidy()) ==> Tidy())
        invariant Stack() == After(old(Stack()), calls[..i]) && Undisturbed(old(Stack()), calls[..i])
        invariant delivered == Delivered(old(Stack()), calls[..i])
        invariant 0 <= fset <= old(fset) + Written(calls[..i])
      {
        assert calls[..i + 1][..i] == calls[..i];
        WrittenPrefix(calls, i + 1);
        Counts();
        match calls[i]
        case CallWrite(buf, faultAt) =>
          var ret := Write(buf, faultAt);
          if ret < 0 {
            HitDisturbs(old(Stack()), calls, i);
            return delivered, i;
          }
        case CallRead(count, faultAt) =>
          var ret, buf := Read(0, count, faultAt);
          delivered := delivered + buf;
          if ret < 0 {
            HitDisturbs(old(Stack()), calls, i);
            return delivered, i;
          }
          Counts();
      }
      assert calls[..|calls|] == calls;
      served := |calls|;
    }
  }

  /** What is done with a device: a call, or a write-only open, which trims it. */
  datatype Use = Do(call: Call) | DoTrim

  function StackAfter(uses: seq<Use>): seq<byte> {
    if uses == [] then [] else
      var last := uses[|uses| - 1];
      if last.DoTrim? then [] else Effect(StackAfter(uses[..|uses| - 1]), last.call)
  }

  /** No fault hits the call, and `fset` stays an `int`. */
  predicate GoesThrough(stack: seq<byte>, c: Call) {
    !Hit(stack, c) && (c.CallWrite? ==> |stack| + |c.buf| <= INT_MAX)
  }

  /** Every trim among the first `n` uses finds the stack empty. */
  predicate FindsNothing(uses: seq<Use>, n: nat)
    requires n <= |uses|
  {
    forall i | 0 <= i < n && uses[i].DoTrim? :: StackAfter(uses[..i]) == []
  }

  lemma StackSnoc(uses: seq<Use>, i: nat)
    requires i < |uses|
    ensures StackAfter(uses[..i + 1])
            == if uses[i].DoTrim? then [] else Effect(StackAfter(uses[..i]), uses[i].call)
  {
    assert uses[..i + 1][..i] == uses[..i];
  }

  lemma NoUses()
    ensures StackAfter([]) == []
  {
  }

  /** Any calls and trims of a new device, in any order and under any reuse of addresses: all trims are safe
      exactly if each of them but the last finds the stack empty. It stops at a trim that is not. */
  method UseAll(uses: seq<Use>) returns (safe: bool)
    requires forall i | 0 <= i < |uses| && uses[i].Do? :: GoesThrough(StackAfter(uses[..i]), uses[i].call)
    ensures safe <==> forall j | 0 <= j < |uses| && uses[j].DoTrim? :: FindsNothing(uses, j)
  {
    hide Push, Pop, Popped, LeadsToNull, StackAfter, Walk, Elems, Values, Grows, Reaches, LifoDev.Valid, LifoDev.Booked;
    var dev := new LifoDev();
    NoUses();
    for i := 0 to |uses|
      invariant dev.Valid() && dev.Tidy() && dev.Stack() == StackAfter(uses[..i])
      invariant dev.Terminated() <==> FindsNothing(uses, i)
      invariant forall j | 0 <= j < i && uses[j].DoTrim? :: FindsNothing(uses, j)
    {
      StackSnoc(uses, i);
      dev.Counts();
      match uses[i] {
        case Do(call) =>
          match call {
            case CallWrite(buf, faultAt) =>
              var ret := dev.Write(buf, faultAt);
            case CallRead(count, faultAt) =>
              var ret, buf := dev.Read(0, count, faultAt);
          }
        case DoTrim =>
          dev.Sound();
          safe := dev.Trim();
          if !safe {
            return;
          }
      }
    }
    safe := true;
  }
}
