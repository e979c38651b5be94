/** The kernel services the driver uses: `kmalloc`, `kfree`, waiting, and the copies from and to user memory.
    Allocation, copying and waiting may fail at any call; which calls fail is left open, unless the kernel
    is `calm`, but it is on record. */
module Memory {
  import opened Geometry

  /** `struct scull_qset`: a list item with its (possibly absent) slot array. */
  class Qset {
    var data: array?<array?<byte>>
    var next: Qset?

    /** `kmalloc` followed by `memset` to zero. */
    constructor Zeroed()
      ensures data == null && next == null
    {
      data, next := null, null;
    }
  }

  /** How often the kernel was waited for, and how often a signal interrupted that; how often it was out of
      memory; how often it copied, and how often that faulted. */
  datatype Tally = Tally(waits: int, interrupts: int, shortages: int, copies: int, faults: int)
  {
    /** How often the kernel did not do what it was asked for. */
    ghost function Refusals(): int {
      interrupts + shortages + faults
    }

    ghost function Waited(interrupted: bool): Tally {
      this.(waits := waits + 1, interrupts := if interrupted then interrupts + 1 else interrupts)
    }

    ghost function Allocated(short: bool): Tally {
      this.(shortages := if short then shortages + 1 else shortages)
    }

    ghost function Copied(faulty: bool): Tally {
      this.(copies := copies + 1, faults := if faulty then faults + 1 else faults)
    }
  }

  /** The books of the kernel: the blocks handed out and not yet freed, the totals, and what it refused. */
  class Slab {
    /** On a calm kernel no allocation fails, no copy faults and no signal interrupts a wait. */
    const calm: bool

    ghost var live: set<object>
    ghost var allocs: int
    ghost var frees: int
    ghost var tally: Tally

    ghost predicate Balanced()
      reads `live, `allocs, `frees
    {
      allocs - frees == |live|
    }

    constructor (calm: bool)
      ensures this.calm == calm && Balanced() && live == {} && allocs == 0 && frees == 0
      ensures tally == Tally(0, 0, 0, 0, 0)
    {
      this.calm := calm;
      live, allocs, frees := {}, 0, 0;
      tally := Tally(0, 0, 0, 0, 0);
    }

    ghost method Record(p: object)
      requires Balanced() && p !in live
      modifies `live, `allocs, `frees
      ensures Balanced() && live == old(live) + {p}
      ensures allocs == old(allocs) + 1 && frees == old(frees)
    {
      live, allocs := live + {p}, allocs + 1;
    }

    /** A zeroed list item. */
    method KmallocNode() returns (p: Qset?)
      requires Balanced()
      modifies this
      ensures Balanced() && frees == old(frees) && (calm ==> p != null)
      ensures tally == old(tally).Allocated(p == null)
      ensures p == null ==> live == old(live) && allocs == old(allocs)
      ensures p != null ==> fresh(p) && p.data == null && p.next == null
      ensures p != null ==> live == old(live) + {p} && allocs == old(allocs) + 1
    {
      var short := *;
      if short && !calm {
        p := null;
        tally := tally.Allocated(true);
      } else {
        p := new Qset.Zeroed();
        Record(p);
      }
    }

    /** A zeroed slot array. */
    method KmallocSlots(n: int) returns (p: array?<array?<byte>>)
      requires Balanced() && 0 <= n
      modifies this
      ensures Balanced() && frees == old(frees) && (calm ==> p != null)
      ensures tally == old(tally).Allocated(p == null)
      ensures p == null ==> live == old(live) && allocs == old(allocs)
      ensures p != null ==> fresh(p) && p.Length == n && forall i | 0 <= i < n :: p[i] == null
      ensures p != null ==> live == old(live) + {p} && allocs == old(allocs) + 1
    {
      var short := *;
      if short && !calm {
        p := null;
        tally := tally.Allocated(true);
      } else {
        p := new array?<byte>[n](_ => null);
        Record(p);
      }
    }

    /** A quantum; its contents are whatever the memory held. */
    method KmallocQuantum(n: int) returns (p: array?<byte>)
      requires Balanced() && 0 <= n
      modifies this
      ensures Balanced() && frees == old(frees) && (calm ==> p != null)
      ensures tally == old(tally).Allocated(p == null)
      ensures p == null ==> live == old(live) && allocs == old(allocs)
      ensures p != null ==> fresh(p) && p.Length == n
      ensures p != null ==> live == old(live) + {p} && allocs == old(allocs) + 1
    {
      var short := *;
      if short && !calm {
        p := null;
        tally := tally.Allocated(true);
      } else {
        p := new byte[n];
        Record(p);
      }
    }

    /** `kfree`: a block may be freed once only; freeing NULL does nothing. */
    method Kfree(p: object?)
      requires Balanced() && (p != null ==> p in live)
      modifies `live, `allocs, `frees
      ensures Balanced() && allocs == old(allocs)
      ensures p == null ==> live == old(live) && frees == old(frees)
      ensures p != null ==> live == old(live) - {p} && frees == old(frees) + 1
    {
      if p != null {
        live, frees := live - {p}, frees + 1;
      }
    }

    /** `down_interruptible`, as far as the kernel decides how it ends. */
    method Wait() returns (interrupted: bool)
      modifies `tally
      ensures tally == old(tally).Waited(interrupted) && (calm ==> !interrupted)
    {
      interrupted := *;
      if calm {
        interrupted := false;
      }
      tally := tally.Waited(interrupted);
    }

    /** Copies `src` into `dst` at `off` and returns how many bytes it could not copy. After a fault the
        target range holds anything; no byte outside it changes. */
    method CopyFromUser(dst: array<byte>, off: int, src: seq<byte>) returns (left: int)
      requires 0 <= off <= off + |src| <= dst.Length
      modifies dst, `tally
      ensures 0 <= left <= |src| && (calm ==> left == 0)
      ensures tally == old(tally).Copied(left != 0)
      ensures dst[..off] == old(dst[..off]) && dst[off + |src|..] == old(dst[off + |src|..])
      ensures left == 0 ==> dst[off..off + |src|] == src
    {
      left :| 0 <= left <= |src| && (calm ==> left == 0);
      for i := 0 to |src|
        invariant dst[..off] == old(dst[..off]) && dst[off + |src|..] == old(dst[off + |src|..])
        invariant forall j | 0 <= j < i && j < |src| - left :: dst[off + j] == src[j]
        invariant tally == old(tally)
      {
        if i < |src| - left {
          dst[off + i] := src[i];
        } else {
          dst[off + i] := *;
        }
      }
      tally := tally.Copied(left != 0);
    }

    /** Copies `n` bytes of `src` from `off` out to the user; returns how many it could not copy. */
    method CopyToUser(src: array<byte>, off: int, n: int) returns (left: int, buf: seq<byte>)
      requires 0 <= off <= off + n <= src.Length && 0 <= n
      modifies `tally
      ensures 0 <= left <= n && (calm ==> left == 0)
      ensures tally == old(tally).Copied(left != 0)
      ensures left == 0 ==> buf == src[off..off + n]
    {
      left :| 0 <= left <= n && (calm ==> left == 0);
      buf := src[off..off + n - left];
      tally := tally.Copied(left != 0);
    }
  }
}
