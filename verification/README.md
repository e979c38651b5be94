# Kernel-training: verified models of scull, the IP header checksum and the LIFO device

This project models three pieces of the kernel-training repository and proves what they promise.

**scull** (`Scull/main.c`) is a byte file kept in memory in three levels: a linked list of items, each with an
array of slots, each slot leading to a block ("quantum") of bytes. It is modelled at three levels, each tied to
the next.

- `Memory.dfy`, `Device.dfy`, `OpenFile.dfy`: the code on the heap. Lists are followed, grown and freed in place,
  `kmalloc` may fail at any call, a new quantum holds whatever the memory held, `copy_from_user` may fault and
  leave anything in its own range. The books of the kernel (`Slab`) list the blocks in use and count allocations
  and frees; a block can be freed once only. A tally counts the waits and the copies, and every interruption,
  shortage and fault, so that what a call returns can be held against what the kernel refused it.
- `Structure.dfy`: the same device as a value without pointers, with one small function per step of a call.
- `FlatFile.dfy`: the reference. A flat file of bytes with holes, backed in aligned extents of one quantum. It
  knows no list, no array and no quantum set.

`Refinement.dfy` proves that each operation of the structure is the operation of the flat file, whatever fails in
it. `Runs.dfy`, `History.dfy` and `Loops.dfy` carry this over whole runs: last write wins, files written without
gaps have no holes, the chunked round trip, when a change of the global sizes takes effect. `Session.dfy` and
`Client.dfy` do so on the heap: any list of calls is answered call by call as the flat file answers it, at the
positions that the calls before left behind, the replies tell each refusal of the kernel once, and a program that
writes a buffer, seeks back and reads gets it back.

`Concurrent.dfy` splits the calls of any number of processes, and the resizing ioctls, into the steps that can
interleave. `Sections.dfy` proves what the call inside the critical section does in every execution, also with sizes
that have gone stale. `Serializability.dfy` and `Staleness.dfy` prove exactly when every interleaving gives the
replies of a serial run of the flat file in lock order, and that the steps leave no outcome of a call out.

**The header checksum** (`RawIP/src/ip_func.c`) is proved in `Checksum.dfy` against one's complement arithmetic:
section 3.1 of RFC 791 for what it is, section 2 of RFC 1071 for its independence of word order and byte order.

**The LIFO device** (`LIFO/main.c`) is modelled in `Lifo.dfy` over an explicit heap, a map whose keys are the live
addresses, so that addresses are reused and pointers can dangle. Reads and writes are bounded by the counter
`fset`, not by a null pointer, and that is what keeps them safe after a trim that leaves `data` dangling. A trim
is bounded by null only, and is not safe then.

Where the code does not do what one would expect, the input and the exact condition are proved.

- Positions survive the narrowing to `int` exactly below 2^31 items (`NarrowingIsExact`). Beyond, a write goes to
  another place and breaks the structural invariant, exactly if it succeeds (`WriteCodeExact`, `OpenFile.Write`); at
  item number 2^32, for example, it lands at position 0 (`FarWriteLandsAtZero`).
- The end-of-file test of `scull_read` cuts the count exactly when the 64-bit sum does not wrap (`ClampExact`); the
  reply is wrong exactly if, besides, neither the quantum nor a hole makes the cut (`ReadCodeExact`), as in a file of
  two bytes (`ReadsPastEnd`).
- `scull_read` and `scull_write` read the sizes before they take the semaphore. From any state of the device, the
  calls are serialisable in lock order exactly if nothing truncates, or if the device has the global sizes and no
  ioctl changes them, or if there is at most one process (`SerialisableExactly`). An ioctl long before is enough to
  break this: the first truncation then changes the sizes under a call that has already read them.
- A write with stale sizes stores and reports what fits the quantum it has read. It leaves a quantum of another length
  behind exactly if it had to allocate it and the sizes differ (`WriteWithShape`, `WritesNewAtZero`).
- A trim of the LIFO device is safe exactly if live nodes lead from `data` to null. On a device that never lost a
  node this means that the list ends in null, so in any sequence of calls and trims all trims are safe exactly if
  each but the last finds the stack empty (`LifoDev.Trim`, `UseAll`).
- A fault in a LIFO read or write leaves `fset` and `data` in agreement exactly if it came on the first byte
  (`ReadFaultDrift`, `WriteFaultDrift`, and the contracts of `Read` and `Write`).

What the code relies on without checking is a precondition here: `quantum` and `qset` are positive and their
product is an `int`. What the kernel guarantees to its drivers is one too: a transfer ends within `loff_t`.
Which allocation or copy fails, and which wait is interrupted, is left open everywhere, but it is on record;
`Slab.calm` describes the kernel on which none does.

## Model

| member | source | states |
|---|---|---|
| Geometry.NarrowingIsExact | Scull/main.c:261-262 | the item number survives the conversion to `int` exactly for positions below 2^31 items; the remainder always does |
| Geometry.ConversionsWrap | Scull/main.c:261-262 | the conversions to `int` and to 64 bits keep the number modulo their width and give one of their range |
| Geometry.LocateRebuilds | Scull/main.c:261-263 | item, slot and offset are in bounds and rebuild the position; `pos / quantum == item * qset + slot` and `pos % quantum` is the offset |
| Geometry.LocateInverts | Scull/main.c:301-303 | every in-bounds address is the address of exactly the position it stands for |
| Geometry.BeyondRangeAliases | Scull/main.c:301-303 | a position whose narrowed item number is not negative gets an in-bounds address, at the offset of the position; that address stands for the position itself exactly if it is below 2^31 items |
| Geometry.LandsModulo | Scull/main.c:301-303 | the position that such an address stands for is the wanted one modulo 2^32 items |
| Geometry.SizesMatter | Scull/main.c:249-263 | two geometries locate every common position alike only if they are the same |
| Geometry.LocateInjective | Scull/main.c:301-303 | distinct positions name distinct cells |
| FlatFile.WriteEffect | Scull/main.c:320-333 | a write returning k makes `[pos, pos+k)` read as written, leaves every other stored byte alone, sets the size to `max(size, pos+k)`, and makes progress on a non-empty buffer |
| FlatFile.FailedWriteEffect | Scull/main.c:307-327 | a failed write reports an error, keeps the size, and disturbs at most the bytes of the one chunk it was to write, up to the end of the quantum; none when memory ran out |
| FlatFile.ReadEffect | Scull/main.c:256-280 | a read returning k delivers exactly the stored bytes `[pos, pos+k)`, never beyond the size, and returns 0 exactly at the end, at a hole, or for a zero count |
| FlatFile.WriteValid | Scull/main.c:315-319 | storage always comes in whole quanta |
| Structure.BelowSizeInRange | Scull/main.c:256-266 | below the size the wanted list item always exists, so the `scull_follow` in `scull_read` adds nothing |
| Structure.WriteWellFormed | Scull/main.c:305-333 | the structural invariant, `size <= listLength * quantum * qset` included, survives a write that succeeds, faults, or runs out of memory at any of its allocations |
| Structure.WriteCodeExact | Scull/main.c:300-333 | at any position whose narrowed item number is not negative, the write is the one the position asks for if that is addressable; the structural invariant survives exactly if the position is addressable or the write fails |
| Structure.FarWriteLandsAtZero | Scull/main.c:300-333 | on every device, a write at item number 2^32 puts its bytes where a write at position 0 would, and leaves a size beyond the list |
| Structure.WriteWithOwn | Scull/main.c:292-333 | a write that works with the device's own sizes can end exactly as `WriteStore` can, and does the same |
| Structure.WriteWithLands | Scull/main.c:320-333 | a write that works with any sizes `q` and `n` stores exactly what fits a quantum of `q` bytes behind its address, replies that much, leaves every other quantum alone, and allocates a quantum of `q` bytes if it allocates one |
| Structure.WriteWithShape | Scull/main.c:315-319 | such a write, completed, faulted or short of memory, leaves every quantum of the device's length exactly if it had the memory refused, `q` is that length, or the quantum was there |
| Structure.ReadsAsOwn | Scull/main.c:249-280 | a read that works with the device's own sizes changes nothing, returns `ReadStore`, and faults exactly if it returns `-EFAULT` |
| Refinement.WriteRefines | Scull/main.c:287-338 | for every outcome, forgetting the three levels after `scull_write` gives the flat write of the forgotten device |
| Refinement.ReadRefines | Scull/main.c:245-285 | `scull_read` of the three levels returns what the flat read returns, holes and faults included |
| Refinement.FlattenWithQuantum | Scull/main.c:315-319 | a new quantum backs exactly one aligned extent and disturbs no stored byte |
| Refinement.FlattenIgnoresList | Scull/main.c:217-240 | growing the list, or adding an empty slot array, is invisible |
| Runs.RunRefines | Scull/main.c:217-338 | every sequential run, whatever fails in it, keeps the structural invariant and ends in the contents, with the replies, of the flat file's run |
| History.StoredIsLatest | Scull/main.c:324-333 | last write wins: the stored byte is the one a backwards search of the calls finds |
| History.LatestIs | Scull/main.c:324-333 | that search finds the byte of any successful write that covers the position and that no later truncation, write or fault there follows |
| History.LatestExists | Scull/main.c:324-333 | and it finds one exactly if there is such a write |
| History.ReadDeliversLatest | Scull/main.c:256-280 | after any run of the device a read delivers, byte for byte, what was written last |
| History.DenseHasNoHoles | Scull/main.c:305-333 | if no write of the run starts beyond the size, every byte below the size is backed and was written |
| History.DenseReadsBack | Scull/main.c:256-280 | after such a run a read loop from 0 delivers exactly `size` bytes, and then 0 |
| History.GeometryIsolation | Scull/main.c:370-443 | until the next truncation, changes of the global sizes anywhere in a run affect neither the device nor any reply |
| History.GeometryChangesAtTrim | Scull/main.c:59-62 | the sizes in force are the globals as of the last truncating open, which leaves no block |
| Loops.WriteAllEffect | Scull/main.c:320-333 | a write loop stores the whole buffer, touches nothing else, and takes one call per quantum touched |
| Loops.ReadAllEffect | Scull/main.c:256-284 | a read loop delivers exactly the bytes up to the first hole or the end, or what was asked for, and takes one call per quantum plus one if it stops short |
| Loops.StoreRoundTrip | Scull/main.c:245-338 | on the structure, writing a buffer by repeated calls and reading it back returns it, across quantum and quantum-set borders, in exactly `(p+n-1)/quantum - p/quantum + 1` calls each way |
| Device.Device.constructor | Scull/main.c:571-573 | a new device is empty, has the global sizes, and its semaphore is free |
| Device.Device.Follow | Scull/main.c:217-240 | success gives item n of a list of length `max(old, n+1)`; failure, exactly if an allocation was refused, leaves the old list as a prefix of one no longer than n; new items are empty, no array or quantum changes, nothing leaks, and nothing is allocated if the item exists; the semaphore is held |
| Device.Device.Secure | Scull/main.c:306-319 | the allocating half of a write, for each place where memory can run out, with what stays allocated; it fails exactly if one allocation was refused; the semaphore is held |
| Device.Device.CopyIn | Scull/main.c:324-327 | the copy, tallied as one, changes the target range only; exactly if it faults something is left over, and without a fault the range holds the user's bytes; the semaphore is held |
| Device.Device.Fetch | Scull/main.c:268-278 | the hole test, the cut at the quantum, and the bytes delivered; `-EFAULT` exactly if the copy to the user faulted, which is tallied; at a hole nothing is copied; the semaphore is held |
| Device.Device.Trim | Scull/main.c:44-64 | with the semaphore held, frees every node, array and quantum exactly once under the old sizes, leaves nothing live, and adopts the global sizes with an empty list |
| Device.Device.OwnedCount | Scull/main.c:44-64 | the blocks a device owns are its nodes, arrays and quanta, each counted once, so allocations minus frees is their number |
| OpenFile.OpenFile.Open | Scull/main.c:195-209 | a write-only open waits once for the semaphore, returns `-ERESTARTSYS` exactly if that wait was interrupted, and otherwise empties the device while it holds it; any other open returns 0 without waiting, and it or an interrupted one changes nothing; the semaphore is free again |
| OpenFile.OpenFile.Read | Scull/main.c:245-285 | for every `size_t` count: the reply is `ReadStore` of the device, or `ReadCode` where the 64-bit sum wraps; `-ERESTARTSYS` exactly if its one wait was interrupted, `-EFAULT` exactly if its copy faulted, and it copies exactly if it is below the size and not at a hole; device, list, blocks and allocations are exactly as before; the position moves by what was delivered |
| OpenFile.ReadCodeExact | Scull/main.c:256-280 | what the code returns is a read cut at the end of the file exactly if the 64-bit sum does not wrap, or the position, a hole or the end of the quantum makes that cut needless |
| OpenFile.ReadsPastEnd | Scull/main.c:256-280 | in a file of two bytes, with quanta of at least three, a read of 2^64 - 1 bytes at position 1 delivers the rest of the quantum, and not the one byte up to the end of the file |
| OpenFile.OpenFile.Write | Scull/main.c:287-338 | the device becomes `WriteStore` of the device before, for an outcome that was possible, or `WriteCode` where the position is not addressable; `-ERESTARTSYS`, `-ENOMEM` and `-EFAULT` each exactly if the wait was interrupted, one allocation was refused, or the one copy faulted; the heap invariant (acyclic list, no block used twice, all arrays and quanta of the fixed sizes, size within the list) is kept exactly if the position is addressable or the call fails; nothing leaks, nothing is freed, every exit releases the semaphore |
| OpenFile.OpenFile.Llseek | Scull/main.c:457-480 | for each `whence` the new position is the offset, counted from 0, from the position found, or from the size, exactly if that is a valid position; otherwise, and for any other `whence`, `-EINVAL` and the position is kept, so no wrapped value is ever installed |
| OpenFile.ClampExact | Scull/main.c:257-258 | the end-of-file test cuts the count to what is left exactly if the 64-bit sum does not wrap; if it wraps, the count stays uncut |
| Session.Issue | Scull/main.c:195-480 | one call on the heap: it is interrupted and changes nothing, or happens as the event of its kind, with its arguments, at the current position, and returns what the flat file returns, 0 for a truncation; the position moves as the reply says; reads, writes and truncations wait once, and the reply is `-ERESTARTSYS`, `-ENOMEM` or `-EFAULT` exactly if the kernel refused just that, once |
| Session.Serve | Scull/main.c:195-480 | any list of calls, ended by any mix of failures: each gets one reply, the one of the flat file as the earlier calls left it, at the position they left behind; the replies tell every interruption, shortage and fault, once each; device and position end up where that run ends, and the allocator's blocks beyond the device's are untouched; it stops early only before a write from a position that is not addressable |
| Client.WriteFully | Scull/main.c:287-338 | a write loop on the heap stops exactly when everything is written or a call has failed, which it does exactly if the kernel refused something; what it has written is stored, the size is raised to its end, and it has made one call per quantum touched, by the count of the waits, and one that failed if it stopped short |
| Client.ReadFully | Scull/main.c:245-285 | a read loop on the heap delivers stored bytes only, in one call per quantum touched, by the count of the waits, plus one that returned 0 or failed if it stops short; 0 means the end of the file or a hole; if no call fails it delivers what the read loop on the flat file delivers, in as many calls, and one fails exactly if the kernel refused something; it leaves the device alone |
| Client.RoundTrip | Scull/main.c:245-480 | the round trip of the driver: if the kernel refuses nothing, and only then, it succeeds: a buffer written by repeated calls is on the device, and sought back to with `Llseek` and read by repeated calls it comes back, in exactly `(p+n-1)/quantum - p/quantum + 1` calls each way, by the count of the waits; in any case the part that was written is stored, the size is the larger of the old one and its end, no other stored byte has changed and nothing leaks |
| Client.Tell | Scull/main.c:466-468 | a relative seek by 0 returns the position it found and keeps it |
| Client.SeekTwice | Scull/main.c:466-468 | two relative seeks end where one seek of the sum ends, if both end at valid positions |
| Client.ReadAtEnd | Scull/main.c:470-472 | after a seek to the end a read returns 0, unless it is interrupted, and the position is the size |
| Client.AppendTo | Scull/main.c:330-333 | after a seek to the end a write appends: the size grows by what it returns, which is not 0, the bytes are stored from the old end on and no other changes; it fails exactly if the kernel refused something |
| Sections.WriteBodyMid | Scull/main.c:300-333 | whatever sizes a write has read: between any two of its steps the structure is the corresponding partial write, with those sizes, of the device as the last `up` left it |
| Sections.ReadBodyMid | Scull/main.c:256-280 | whatever sizes a read has read: its steps change nothing but the length of the list, and that only by following it to the item it looks for |
| Sections.EveryWrite | Scull/main.c:287-338 | in every execution, with ioctls, truncations and stale sizes: a write that is about to leave has made the device, as the last `up` left it, what `WriteWith` under the sizes it has read makes of it, with that reply and that move of the position |
| Sections.EveryRead | Scull/main.c:245-285 | a read in every execution likewise: its reply is one that `ReadsAs` allows under the sizes it has read, faults included, and `-EFAULT` exactly if it faulted |
| Sections.EveryTruncation | Scull/main.c:44-64 | a truncation in every execution leaves an empty device, returns 0 and keeps the position |
| Sections.MutualExclusion | Scull/main.c:254-338 | in every execution, whatever the sizes: at most one process is between `down` and `up`, the semaphore is then 0, and no step of another process changes the device or the process inside |
| Sections.AtTheSemaphore | Scull/main.c:254-255 | in every execution a process at the semaphore can be interrupted at any time, which leaves nothing but itself changed, and can go in exactly if nobody is inside and the model follows its call at all; it can do nothing else |
| Sections.CriticalSectionEnds | Scull/main.c:282-284 | in every execution, whatever the sizes: inside, each step brings a process closer to `up`, only `up` leads out, and it frees the semaphore |
| Serializability.StepKeeps | Scull/main.c:195-443 | every step of every process keeps the invariant of the interleaving: under any ioctls if nothing truncates, with truncations if the sizes stay the global ones, and under both if there is one process only |
| Serializability.SnapshotsHold | Scull/main.c:292-298 | if nothing truncates, or the device has the global sizes and no ioctl changes them, or there is at most one process, the sizes read before `down` are the device's whenever the call uses them |
| Serializability.Serialisable | Scull/main.c:195-443 | under the same condition, after any interleaving the finished calls returned what a serial run of the flat file returns, in the order of the `down`s; with nobody inside, contents and positions are that run's too |
| Serializability.CanGoOn | Scull/main.c:335-337 | under the condition of `Serialisable`, a process inside is never stuck |
| Staleness.Writes | Scull/main.c:287-338 | the converse: every outcome that a write with the device's sizes can have, at each of its allocations and in the copy, is reached by an execution of the steps |
| Staleness.WritesWith | Scull/main.c:287-338 | the same for a write with whatever sizes it has read: every possible outcome of `WriteWith` is reached, so `EveryWrite` is exact |
| Staleness.Reads | Scull/main.c:245-285 | every reply of `ReadStore`, faults included, is that of an execution |
| Staleness.ReadsWith | Scull/main.c:245-285 | the same for a read with whatever sizes it has read |
| Staleness.WritesAtZero | Scull/main.c:320-333 | a write at 0 to a quantum that is there, with a stale quantum `q`, replies `min(n, q)` and stores exactly those bytes, whatever the device's sizes, as long as they end inside the quantum |
| Staleness.WritesNewAtZero | Scull/main.c:315-333 | one that has to allocate the first quantum leaves one of `q` bytes, so the device is out of shape exactly if that is not its quantum |
| Staleness.ReadsHole | Scull/main.c:245-270 | a read with stale sizes that looks for its byte in another quantum returns 0 below the end of the file |
| Staleness.ReadsShort | Scull/main.c:249-280 | a read with a stale, shorter quantum stops at that quantum's end |
| Staleness.GoesWrong | Scull/main.c:245-285 | for all sizes that differ and any contents: a reader takes its sizes, a writer truncates the device and writes, and the reader then gets nothing, or no more than its old quantum, where the bytes of that write are |
| Staleness.SizesDiffer | Scull/main.c:59-62 | from every state whose device does not have the global sizes, whatever it holds and wherever its processes stand, any two processes have an execution with a truncation whose replies no serial run in lock order gives, whatever fails in that run |
| Staleness.SizesChange | Scull/main.c:370-443 | if ioctls may come, any two processes have one from every state |
| Staleness.SerialisableExactly | Scull/main.c:195-443 | for every state to start from: every execution gives the replies of a serial run in lock order if and only if nothing truncates, or the device has the global sizes and no ioctl changes them, or there is at most one process |
| Checksum.IpChecksum | RawIP/src/ip_func.c:19-41 | the loop, the two folds and the truncating complement compute the checksum of the first `ihl * 4` bytes |
| Checksum.ResidueUnique | RawIP/src/ip_func.c:33-38 | what is complemented is the only r in 1..65535 congruent to the word sum, or 0 if all words are 0 |
| Checksum.TwoFoldsSuffice | RawIP/src/ip_func.c:34-38 | two folds are enough for every 32-bit sum |
| Checksum.OneFoldSuffices | RawIP/src/ip_func.c:34-35 | one fold is enough exactly when the halves add up without a carry |
| Checksum.NoWrapUpTo65537 | RawIP/src/ip_func.c:26-29 | the accumulator cannot wrap for any header of n words exactly if n is at most 65537 |
| Checksum.Reordering | RawIP/src/ip_func.c:26-29 | the order of the words does not matter |
| Checksum.ByteOrder | RawIP/src/ip_func.c:24-40 | swapping the bytes of every word swaps the bytes of the result |
| Checksum.ZeroCheck | RawIP/src/ip_func.c:33-40 | the result is 0 exactly on a positive multiple of 65535 |
| Checksum.SelfVerifies | RawIP/src/ip_func.c:19-41 | a header with the returned value stored unswapped in its zero check word checks to 0 |
| Checksum.DetectsOneWord | RawIP/src/ip_func.c:19-41 | replacing one word of a header that checks to 0 goes unnoticed exactly if the two words are congruent modulo 65535 and not all words are 0 then |
| Lifo.LifoDev.Write | LIFO/main.c:114-141 | pushes the buffer, last byte on top, onto nodes that are live and younger than the last trim; if the copy of byte `faultAt` faults, `fset` has grown by `faultAt`, `data` has not moved, and a null-terminated list still has `fset` nodes exactly if `faultAt` is 0, while just `faultAt + 1` more nodes are live; a trim stays as safe as it was |
| Lifo.LifoDev.Read | LIFO/main.c:83-112 | delivers and frees the top `min(count, fset)` nodes; if the copy of byte `faultAt` faults, the bytes before it have arrived and their nodes are free, `fset` nodes are still reachable exactly if `faultAt` is 0, and a trim is then unsafe if it is not; a non-zero position is refused |
| Lifo.LifoDev.Trim | LIFO/main.c:41-51 | in any state: safe exactly if live nodes lead from `data` to null; a safe one resets the counter and keeps the stale head. It frees exactly a null-terminated list; on a device without leaks it is safe exactly if the list is null-terminated, which it is afterwards exactly if it was empty |
| Lifo.UseAll | LIFO/main.c:41-141 | for any fault-free calls and trims of a new device, in any order: all trims are safe exactly if each of them but the last finds the stack empty |
| Lifo.NothingBeyond | LIFO/main.c:41-51 | if the counted nodes are all that is live, live nodes lead to null exactly if the counted list ends in null |
| Lifo.LifoDev.Serve | LIFO/main.c:83-141 | any calls between two trims are served in order up to the first that a fault hits, so all of them exactly if none is hit; the stack and the bytes delivered are those of the pushes and pops, with the counted nodes live and younger than the trim throughout, under any reuse of addresses, and nothing leaks |
| Lifo.PushPop | LIFO/main.c:83-141 | reading back as much as was just written returns it reversed and restores the stack |
| Lifo.PushPush | LIFO/main.c:125-138 | two writes are one write of the concatenation |
| Lifo.PopPop | LIFO/main.c:95-109 | two reads deliver what one read of the total delivers |
| Lifo.NothingLost | LIFO/main.c:83-141 | over any calls, every byte written is delivered or still on the stack, once each |
| Lifo.ReachesUpToEnd | LIFO/main.c:41-51 | from the head of a null-terminated list exactly its prefixes can be walked |
| Lifo.WriteFaultDrift | LIFO/main.c:128-131 | a fault in a write makes the counter exceed the list exactly if it did not come first, and cuts no way to null off |
| Lifo.ReadFaultDrift | LIFO/main.c:98-101 | a fault in a read leaves a freed head, from which nothing leads to null, exactly if it did not come first |

## Left out

- Concurrent: with stale sizes, a step that would reach beyond an array or a quantum, or allocate an array of another length than the device's, is not followed; the executions of `SizesDiffer` and `SizesChange` take no such step.
- Concurrent: a copy to or from user memory, and the freeing loop of a truncation, are one step each; both happen inside the critical section, where no other process looks. A `SEEK_END`, which reads the size without the semaphore, is not among the concurrent calls, nor is a write from a position that is not addressable. An interrupted call appears neither in the log nor among the replies.
- Staleness.WritesAtZero: requires that the bytes end inside the quantum that is there; beyond it the code overwrites other memory, which the model does not have.
- Staleness.SerialisableExactly: is about the order of the semaphore. Whether the replies of a stale call could be those of a serial run in some other order is not asked.
- OpenFile.OpenFile.Write: requires that the narrowed item number is not negative; the countdown in `scull_follow` would then overflow an `int`, which C leaves undefined.
- Session.Serve: issues its calls through one open file; a truncating open by another file is one of the calls. It stops before a write from a position that is not addressable, after which the device no longer meets its invariant (`OpenFile.Write`). Read counts are at most the largest `ssize_t`, so that no sum wraps.
- Lifo.LifoDev.Trim: where the code would go on through a node that is free, the model stops and says so; what the code then finds there is not modelled.
- Lifo.LifoDev.Write: assumes that `kmalloc` succeeds, as the code does not check it, and that `fset` stays within an `int`. The node of the faulting byte and those before it are leaked, as in the code.
- Memory: on the scull heap an allocation is always a new object; that the kernel hands freed addresses out again is modelled for the LIFO device only.
- Module initialisation and exit, device registration, printing, the `/proc` files: kernel plumbing.
- The decoding, permission checks and user-pointer faults of the ioctls: only their effect on the two global sizes is modelled.
- The odd-byte tail of the checksum (RawIP/src/ip_func.c:30-31): never taken, as the length is a multiple of four.
- The `htons` around the checksum (RawIP/src/main.c:85-86): on a little-endian host it stores the swapped value, so `SelfVerifies` is about the unswapped one.
- The raw-socket programs, the packet capture, the netfilter hook and the Eudyptula tasks: input and output, or trivial.
