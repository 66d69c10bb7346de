# novm: models and proofs

novm is a monitor for KVM virtual machines. This project models its hardest parts in Dafny and proves what
they are meant to guarantee, over every input, every run or every reachable state.

| files | what they model |
|---|---|
| `Words`, `Vring`, `KickProtocol`, `Virtqueue`, `DescriptorChain`, `VirtioChannel` | the device side of a split virtqueue: 16-bit rings, the wake-up handshake with the guest, exactly-once completion across save and restore |
| `RegisterCache`, `VcpuPause` | stopping a running vcpu by any number of pausers, with a register cache that is flushed lazily |
| `ByteStrings`, `VirtioStream`, `StraddlingWrites` | scatter-gather buffers and the stream over them, which must act like one flat byte string, and where it does not |
| `Plan9Wire`, `Plan9RoundTrip`, `Plan9Requests`, `Plan9Codec`, `Plan9Stream`, `Plan9Unpack`, `DirectoryPaging` | the 9P reply printer and the parser, on a flat buffer and through the stream, and directory reads in pages |
| `FileRefs`, `FileLru`, `Overlay` | the 9P server's reference counts, its bounded set of open files, and where a path lives on the host |
| `Regions`, `GuestMemory`, `UserMemory`, `PageTables`, `BootTables` | guest physical memory: regions, chunks handed out to loaders, placement of user memory, the boot page tables and where they lie |

`dafny verify dfyconfig.toml` checks everything.

How the models are built:

- Code that changes state in place is a class or a method with a loop, proved against a function of the old
  state. Code that several threads run together is a transition system: a `State`, an `Action` per atomic step,
  and theorems over all traces (`IsRun`).
- Memory is sequentially consistent. Condition variables wake their waiters only on a broadcast.
- What the host, KVM or the guest answers is an argument, so the theorems hold for all of it and say what
  follows from each answer. Scans of hash tables pick their next key arbitrarily.
- Integers that wrap in the source wrap in the model: ring indices at 16 bits, addresses at 64.
- The codec is written against `Plan9Codec.FlatBuffer`, whose contracts are in terms of `PutNumber`, `Splice`,
  `NumberAt` and `Padded` on one string. `VirtioStream.VirtioStream` carries the same contracts on the joined
  segments, reading without condition and writing as long as no number straddles a segment boundary;
  `Plan9Stream` packs every reply through it and says exactly when the result is the reply, and the parser of
  `Plan9Unpack` reads from either.

What the proofs bring out about the code:

- `Layout` (`src/novmm/machine/user.go:109-155`) scans the memory map by index while it inserts into it. The
  region behind a filled hole is met a second time, and the distance from its end to its start, modulo 2^64, is
  taken for a hole that swallows all the rest. So memory goes only into the first hole and right behind the
  region that closes it; more is refused although there is room (`UserMemory.RefusedDespiteRoom`). The comment
  there says that nothing will conflict. `UserMemory.UserMemory.Layout` gives the exact success condition. A piece
  behind all regions is not recorded in `Allocated`.
- `Overlaps` does not see a range strictly inside a region, nor any range that ends exactly at 2^64;
  `Regions.AddKeepsOrder` gives the exact condition under which a region added without a conflict leaves the map
  in order, for both.
- `start` runs the incoming worker before it walks the outstanding set, so a head consumed in the meantime is in
  the set too and can be resubmitted and come back to the guest twice. A saved device is safe to resume if and only
  if its `Consumed` equals the index in the available ring (`Virtqueue.ResumeSafeExactlyWhenDrained`); having nothing
  outstanding is not enough, because the worker may put the first head into the set before the walk begins. The run
  theorems hold for every run in which the walks resubmit nothing but what was saved, which includes all runs with
  safe restarts (`Virtqueue.DrainedSavesWalkSaved`).
- A descriptor chain that comes back to itself, with every range on it mapped, keeps the worker in `processOne` for
  ever, and no other chain does (`DescriptorChain.EndlessMeansCycle`).
- A ring of 65536 entries passes the size test, and then a kick can be lost; below that none is
  (`KickProtocol.KickSafeExactlyBelowWrap`).
- A register read while an exit is handled is stale when a pauser has read the registers before that entry
  (`VcpuPause.StaleHandlerRead`): the flush at the top of `Run` drops the copy, but the pauser makes a new one while
  the thread waits, and the thread goes from the wait to the guest without another flush. Pausers that hold the vcpu
  always read current values.
- The comment in `Run` says a vcpu is running by default; the flag starts out false, and the model follows the code.
- The two tables of minimum message sizes are used the wrong way round for the two dialects, and the one used for plain
  9P2000 has no slot for Rwstat, so every later type is compared with its neighbour's size; an Rwstat reply is the only
  one that is rejected for it (`Plan9RoundTrip.MinSizeAdmits`).
- `WriteN` across a segment boundary moves the cursor by at least twice the size of the number. The bytes still land
  where they should if and only if the first half lies in one segment and the second half, taken alone, lands
  (`StraddlingWrites.LandsExactly`).
- Page-table pages are not cleared. Whatever else memory holds, nothing above the first gigabyte is mapped if and only
  if the two upper pages had no present entry behind the first (`PageTables.BuildTables`).
- Removing a file whose parent cannot be found unlocks the file twice, and a request that is led back to a file whose
  lock it holds waits for ever: removing the root itself, or making the root directory when the write layer lacks it.
  The model ends such requests with `Crashed` and `Hung`. A file created in the root directory and removed through the
  same fid is an ordinary case, although the fid keeps the path of the root.

## Model

| member | source | states |
|---|---|---|
| `Words.SlotOfWrapped` | src/novmm/machine/virtio.c:38 | a 16-bit index selects the same slot as the unbounded counter it stands for, if the ring size divides 2^16 |
| `Words.SlotsDiffer` | src/novmm/machine/virtio.c:77 | two counters less than a ring apart never share a slot |
| `Words.AcceptedSizeDivides` | src/novmm/machine/virtio.go:652-662 | the sizes up to 2^16 that pass the test are exactly the powers of two, and they divide 2^16 |
| `Vring.Ring.GetBuf` | src/novmm/machine/virtio.c:21-44 | a head is found exactly when the index differs from the guest's; it is the one in that slot; when more are known to wait, notifications are switched off, otherwise they are on with the event at the next index |
| `Vring.Ring.PutBuf` | src/novmm/machine/virtio.c:70-85 | the head goes to the next used slot and the index moves on modulo 2^16; the event flag tells whether the guest asked for that index; nothing else changes |
| `Vring.Ring.PutAll` | src/novmm/machine/virtio.go:303-330 | a batch leaves the ring as the heads put one by one, and raises exactly one event interrupt if the event index lies in the window of the batch, else none |
| `Vring.InterruptWindow` | src/novmm/machine/virtio.c:79 | the number of events raised in k puts is one or zero, by where the event index lies modulo 2^16 |
| `Vring.NeedEventIsInterval` | src/novmm/machine/virtio.c:79 | the wrapped window test of VIRTIO 1.1 section 2.6.7 is membership in an interval of unbounded counters |
| `Vring.InterruptFollowsStandard` | src/novmm/machine/virtio.go:321-326 | the device interrupts in a batch exactly when the standard's test says it must |
| `KickProtocol.MoreIsSound` | src/novmm/machine/virtio.c:30 | the comparison that switches notifications off can be wrong at the wrap only by leaving them on |
| `KickProtocol.DifferenceIsSound` | src/novmm/machine/virtio.c:28 | wrapped indices differ exactly when heads wait, less than 2^16 of them |
| `KickProtocol.InvStep` | src/novmm/machine/virtio.go:273-301 | every step of guest, notifier and worker keeps the handshake invariant: a drained worker has the event at its own index and notifications on, and something under way will wake it if heads wait |
| `KickProtocol.NoLostKick` | src/novmm/machine/virtio.go:524-536 | on every run, a worker blocked on an empty channel with no kick or notification in flight has consumed everything published |
| `KickProtocol.LostKickInOversizedRing` | src/novmm/machine/virtio.go:652-662 | with 2^16 heads or more the guest can publish exactly 2^16 without a kick, and the worker sleeps on |
| `KickProtocol.KickSafeExactlyBelowWrap` | src/novmm/machine/virtio.c:21-44 | no run loses a kick if and only if the ring is smaller than 2^16 |
| `KickProtocol.WorkGetsDone` | src/novmm/machine/virtio.go:273-301 | from every state the invariant allows in which the guest has decided about its kick and the worker has not returned, register writers and worker alone can come to a worker that is blocked and has consumed everything published |
| `KickProtocol.TurnIsGetBuf` | src/novmm/machine/virtio.c:21-44 | the steps of one undisturbed turn of the worker do to flag and event index together what fetching a buffer does, and nothing when there is none |
| `Virtqueue.InvStep` | src/novmm/machine/virtio.go:228-346 | every step of guest, workers and start routine, save and restart included, keeps indices, ring windows and the account of heads, as long as a head that is resubmitted was saved as outstanding |
| `Virtqueue.Fifo` | src/novmm/machine/virtio.go:228-258 | on every run whose walks resubmit only saved heads, the n-th head consumed is the n-th published and the n-th collected is the n-th returned, for unbounded n |
| `Virtqueue.ExactlyOnce` | src/novmm/machine/virtio.go:260-346 | on every such run published heads are those returned, those outstanding, those not yet consumed and those lost to unmapped descriptors, each once |
| `Virtqueue.NothingLost` | src/novmm/machine/virtio.go:137-226 | on every run at all, heads are lost only by consuming a chain that cannot be mapped |
| `Virtqueue.ChannelsNeverFull` | src/novmm/machine/virtio.go:208-211 | on every such run a send on the incoming or the outgoing channel finds room in a channel of the queue's size |
| `Virtqueue.Spread` | src/novmm/machine/virtio.go:303-346 | the heads the guest has given away lie, each once, in the available ring, the used ring, or the outstanding set |
| `Virtqueue.SpreadCount` | src/novmm/machine/virtio.go:687-690 | rings, channels and device hands together never hold more than the queue size |
| `Virtqueue.ResumeSafeExactlyWhenDrained` | src/novmm/machine/virtio.go:652-685 | for every saved state: all runs on from it, with the workers running during the walk and the guest after it, keep consumed equal to returned plus outstanding plus lost, if and only if all published heads had been consumed |
| `Virtqueue.DrainedSavesWalkSaved` | src/novmm/machine/virtio.go:652-685 | if every state saved was drained, no walk meets a new head |
| `Virtqueue.WaitingHeadReturnsTwice` | src/novmm/machine/virtio.go:662-679 | from every other saved state some run returns the waiting head twice |
| `Virtqueue.RacedStartReturnsTwice` | src/novmm/machine/virtio.go:664-684 | from a fresh device: one head published, the device saved and resumed, the head returned twice |
| `VirtioChannel.Channel.constructor` | src/novmm/machine/virtio.go:692-702 | a new channel has consumed nothing and holds nothing |
| `DescriptorChain.Collect` | src/novmm/machine/virtio.go:137-226 | the result is said of the table alone: sent if and only if some n-th descriptor on the way has no next and all up to it can be used, and then the segments are address and length of the n + 1 descriptors in order, indirect ones left out, with the direction of the head; unmapped or outside if and only if the way stops at such a descriptor; or endless |
| `DescriptorChain.FateIsTheOutcome` | src/novmm/machine/virtio.go:137-226 | for every chain exactly one outcome meets that statement, and it is the fate the recursive walk computes |
| `DescriptorChain.FateIsOutcome` | src/novmm/machine/virtio.go:149-222 | the fate is what the walk returns after any number of descriptors, and Endless if and only if it returns after none |
| `DescriptorChain.EndlessMeansCycle` | src/novmm/machine/virtio.go:149-222 | the walk never returns if and only if it comes back to a descriptor having passed all before |
| `VirtioChannel.Channel.ProcessOne` | src/novmm/machine/virtio.go:137-226 | a chain that can be collected makes its head outstanding and is sent to the device; any other fate of the walk changes nothing |
| `VirtioChannel.Channel.ConsumeOne` | src/novmm/machine/virtio.go:228-258 | the next head is consumed like the abstract step, with the fate of its chain; the index moves on even if the chain does not map |
| `VirtioChannel.Channel.PutOne` | src/novmm/machine/virtio.go:303-346 | a finished buffer is put on the used ring with the length the device gave and stops being outstanding; the interrupt rule for either feature set |
| `VirtioChannel.Channel.ConsumeOutstanding` | src/novmm/machine/virtio.go:260-271 | in whatever order, each outstanding head is sent once more up to the first chain that cannot be collected, which ends the walk; the set stays as it was |
| `VirtioChannel.Channel.Save` | src/novmm/machine/virtio.go:892-902 | the saved list names every outstanding head once |
| `VirtioChannel.Channel.Load` | src/novmm/machine/virtio.go:904-919 | a loaded channel has the saved index and heads, and empty channels |
| `VirtioChannel.SavedSetComesBack` | src/novmm/machine/virtio.go:892-919 | loading a saved list gives back the set it was made from |
| `VirtioChannel.ResumeIsResubmissions` | src/novmm/machine/virtio.go:652-690 | the walk of the whole set is the abstract restart followed by one resubmission step per outstanding head, after which the walk can end |
| `RegisterCache.ReadIsCurrent` | src/novmm/platform/kvm_x86.go:46-69 | a refreshed copy is KVM's file with the pending writes applied, and refreshing changes no current value |
| `RegisterCache.WriteUpdatesCurrent` | src/novmm/platform/kvm_x86.go:141-189 | a write changes exactly that register's current value and leaves the group dirty |
| `RegisterCache.FlushSettles` | src/novmm/platform/kvm_x86.go:71-87 | a flush puts the current values into KVM and leaves nothing dirty or cached |
| `RegisterCache.Registers.RefreshRegs` | src/novmm/platform/kvm_x86.go:46-69 | the fields after a refresh, and the error exactly when the call is made and fails |
| `RegisterCache.Registers.FlushRegs` | src/novmm/platform/kvm_x86.go:71-87 | the fields after a flush, and the error exactly when the call is made and fails |
| `RegisterCache.Registers.SetRegister` | src/novmm/platform/kvm_x86.go:141-189 | which of the three outcomes comes when; a write through the cache keeps it coherent, and a failed call changes nothing |
| `RegisterCache.Registers.GetRegister` | src/novmm/platform/kvm_x86.go:191-237 | which of the three outcomes comes when; a read of a coherent cache returns the register's current value |
| `VcpuPause.InvStep` | src/novmm/platform/kvm_run.go:66-192 | every step of vcpu thread, pausers and operator keeps the lock, running, counting, interrupt and register invariants |
| `VcpuPause.RunKeepsInv` | src/novmm/platform/kvm_run.go:66-192 | the invariant holds in every state of every run |
| `VcpuPause.PauseSafety` | src/novmm/platform/kvm_run.go:122-159 | between the return of an internal pause and its release the vcpu is neither in the guest nor handling an exit, and the count is the number of outstanding pausers |
| `VcpuPause.NoLostInterrupt` | src/novmm/platform/kvm_run.c:56-133 | with an internal pause outstanding and the interrupt sent, a vcpu on its way into the guest sees the cancel flag, and one past that check has the signal pending, although only the first pauser interrupts |
| `VcpuPause.PauseTakesEffect` | src/novmm/platform/kvm_run.go:66-120 | while a pause is outstanding the vcpu thread makes at most nine moves before it sleeps or stops |
| `VcpuPause.NoDeadlock` | src/novmm/platform/kvm_run.go:143-159 | while a pauser waits the vcpu is not asleep, and it or the holder of the lock can move unless the thread has ended |
| `VcpuPause.RunsWhenWanted` | src/novmm/platform/kvm_run.go:66-120 | with nobody pausing it the thread can get into the guest from every reachable place, whatever cancel flag or signal is left over, unless it has failed |
| `VcpuPause.StopsExactly` | src/novmm/platform/kvm_run.go:66-120 | the thread gives up exactly when a flush of a dirty group or the entry fails, the guest reports a failure, or the handler abandons it |
| `VcpuPause.OthersOnlyRouse` | src/novmm/platform/kvm_run.go:122-192 | pausers and operator never move the thread, except that lifting the last pause of either kind wakes it |
| `VcpuPause.ExitLeadsTo` | src/novmm/platform/kvm_run.go:102-119 | a run that was broken off begins again, a failed one ends the thread, any other exit is handled |
| `VcpuPause.HandlesRealExits` | src/novmm/platform/kvm_run.c:56-133 | on every run, what the thread carries away is how the last KVM_RUN came back, and an exit is handled only if the guest did leave with one |
| `VcpuPause.HolderReadsCurrent` | src/novmm/platform/x86.go:211-269 | a pauser that holds the vcpu reads KVM's registers with pending writes applied, for both groups |
| `VcpuPause.WriteChangesOneRegister` | src/novmm/platform/kvm_x86.go:141-189 | on every run, a write by a pauser or a handler changes the current value and the readable value of that register in that group, exactly when the group has it, and nothing in the other group; KVM does not have it yet |
| `VcpuPause.ReadChangesNothing` | src/novmm/platform/kvm_x86.go:46-69 | on every run, a read makes a copy of the values it shows and changes nothing else in either group |
| `VcpuPause.FlushReachesKvm` | src/novmm/platform/x86.go:387-388 | the flush that ends setting registers puts the current values of both groups into KVM |
| `VcpuPause.WriteReachesGuest` | src/novmm/platform/x86.go:335-388 | until the next write or stay in the guest every read shows the value written, and unless a register call failed the guest is entered with it |
| `VcpuPause.HolderLeavesRegisters` | src/novmm/platform/kvm_run.go:66-120 | unless a register call failed, the guest is entered with all the registers, of both groups, that a holder of the vcpu left |
| `VcpuPause.NoDirtyEntry` | src/novmm/platform/kvm_run.go:66-75 | while no register call failed the guest is never entered with unflushed registers |
| `VcpuPause.HandlerReadsGuestExactlyWhenNoCopy` | src/novmm/platform/kvm_x86.go:46-87 | for either register group, an exit handler sees what the guest left exactly when no copy of the group was cached at entry, and only a read by a pauser caches one |
| `VcpuPause.StaleHandlerRead` | src/novmm/platform/kvm_x86.go:71-87 | a run in which the handler reads a value the guest has already overwritten |
| `ByteStrings.FromToLE` | src/novmm/machine/ram.go:38-68 | a number written little-endian in n bytes is read back |
| `ByteStrings.FlatUpdate` | src/novmm/machine/virtio_buffer.go:50-53 | overwriting one segment is a splice of the joined string |
| `VirtioStream.VirtioBuffer.Append` | src/novmm/machine/virtio_buffer.go:50-53 | the joined string grows by the segment |
| `VirtioStream.VirtioBuffer.Map` | src/novmm/machine/virtio_buffer.go:161-191 | the slice found is the longest piece of one segment that starts at the offset and is at most as long as asked for; none is found exactly past the end |
| `VirtioStream.VirtioBuffer.Gather` | src/novmm/machine/virtio_buffer.go:63-100 | the slices joined are the bytes of the flat string from the offset, as many as there are |
| `VirtioStream.GatherParts` | src/novmm/machine/virtio_buffer.go:63-100 | the same for any segmentation, as the loop computes it |
| `VirtioStream.VirtioStream.ReadLeft` | src/novmm/machine/virtio_stream.go:46-48 | the bytes from the read cursor to the end of the flat string |
| `VirtioStream.VirtioStream.WriteLeft` | src/novmm/machine/virtio_stream.go:54-56 | the bytes from the write cursor to the end of the flat string |
| `VirtioStream.VirtioStream.ReadRewind` | src/novmm/machine/virtio_stream.go:50-52 | the read cursor is back at the bookmark |
| `VirtioStream.VirtioStream.WriteRewind` | src/novmm/machine/virtio_stream.go:58-60 | the write cursor is back at the bookmark |
| `VirtioStream.VirtioStream.ReadN` | src/novmm/machine/virtio_stream.go:62-95 | for 1, 2, 4 and 8 bytes the little-endian number at the cursor of the flat string (zero when it runs past the end), however it is split; the cursor moves by the size |
| `VirtioStream.VirtioStream.WriteN` | src/novmm/machine/virtio_stream.go:97-127 | the exact effect on flat string and cursor for every segmentation; the cursor moves by the size if and only if the number does not straddle a boundary, and then the flat string has the number at the cursor and is otherwise unchanged |
| `VirtioStream.VirtioStream.WriteStraddling` | src/novmm/machine/virtio_stream.go:108-114 | across a boundary both halves are written one after the other and then the number again as far as its first segment goes, and the cursor moves by at least twice the size |
| `StraddlingWrites.LandsExactly` | src/novmm/machine/virtio_stream.go:97-127 | all numbers written at a place are then in the flat string with nothing else changed, if and only if the first half does not straddle and the second half lands |
| `StraddlingWrites.LastByteMissing` | src/novmm/machine/virtio_stream.go:108-114 | where a number does not land its last byte is not written |
| `VirtioStream.VirtioStream.ReadBytes` | src/novmm/machine/virtio_stream.go:145-165 | a slice of the flat string, padded with zeros past its end; the cursor moves by the count |
| `VirtioStream.VirtioStream.WriteBytes` | src/novmm/machine/virtio_stream.go:188-210 | a splice into the flat string, dropping what lies past its end; the cursor moves by the count |
| `VirtioStream.VirtioStream.ReadString` | src/novmm/machine/virtio_stream.go:167-170 | a 16-bit count and that many bytes |
| `VirtioStream.VirtioStream.WriteString` | src/novmm/machine/virtio_stream.go:212-216 | a 16-bit count and the bytes behind wherever that leaves the cursor; the cursor moves by their length if and only if the count does not straddle |
| `VirtioStream.HalvesMakeWhole` | src/novmm/machine/virtio_stream.go:77-84 | two half-width reads combine to the full-width number |
| `Plan9Codec.Pqid` | src/novmm/plan9/buffer.go:83-87 | extends the message by the 13 bytes of a qid |
| `Plan9Codec.Pstat` | src/novmm/plan9/buffer.go:89-110 | extends the message by exactly the computed number of bytes, in either dialect |
| `Plan9Unpack.Gqid` | src/novmm/plan9/buffer.go:42-46 | reads the qid at the cursor |
| `Plan9Unpack.Gstat` | src/novmm/plan9/buffer.go:48-71 | reads the stat at the cursor in either dialect |
| `Plan9Wire.StatBytes` | src/novmm/plan9/buffer.go:73-81 | a packed stat is as long as its computed size |
| `Plan9Codec.PackCommon` | src/novmm/plan9/pack.go:30-47 | succeeds exactly when header and body fit, leaves the header at the start of the buffer, and touches nothing when it refuses |
| `Plan9Codec.PackRversion` | src/novmm/plan9/pack.go:49-65 | if it fits, the buffer holds exactly an Rversion reply, of type 101 in its fifth byte, with these fields behind the bookmark and is otherwise as before; if not, it is refused and the buffer is as before |
| `Plan9Codec.PackRauth` | src/novmm/plan9/pack.go:67-81 | if it fits, the buffer holds exactly an Rauth reply, of type 103 in its fifth byte, with these fields behind the bookmark and is otherwise as before; if not, it is refused and the buffer is as before |
| `Plan9Codec.PackRerror` | src/novmm/plan9/pack.go:83-106 | if it fits, the buffer holds exactly an Rerror reply, of type 107 in its fifth byte, with these fields behind the bookmark and is otherwise as before; the error number goes along in 9P2000.u only; if not, it is refused and the buffer is as before |
| `Plan9Codec.PackRflush` | src/novmm/plan9/pack.go:108-112 | if it fits, the buffer holds exactly an Rflush reply, of type 109 in its fifth byte, with these fields behind the bookmark and is otherwise as before; if not, it is refused and the buffer is as before |
| `Plan9Codec.PackRattach` | src/novmm/plan9/pack.go:114-128 | if it fits, the buffer holds exactly an Rattach reply, of type 105 in its fifth byte, with these fields behind the bookmark and is otherwise as before; if not, it is refused and the buffer is as before |
| `Plan9Codec.PackRwalk` | src/novmm/plan9/pack.go:130-148 | if it fits, the buffer holds exactly an Rwalk reply, of type 111 in its fifth byte, with these fields behind the bookmark and is otherwise as before, for any list of qids; if not, it is refused and the buffer is as before |
| `Plan9Codec.PackRopen` | src/novmm/plan9/pack.go:150-166 | if it fits, the buffer holds exactly an Ropen reply, of type 113 in its fifth byte, with these fields behind the bookmark and is otherwise as before; if not, it is refused and the buffer is as before |
| `Plan9Codec.PackRcreate` | src/novmm/plan9/pack.go:168-184 | if it fits, the buffer holds exactly an Rcreate reply, of type 115 in its fifth byte, with these fields behind the bookmark and is otherwise as before; if not, it is refused and the buffer is as before |
| `Plan9Codec.PackRread` | src/novmm/plan9/pack.go:186-200 | if it fits, the buffer holds exactly an Rread reply, of type 117 in its fifth byte, with these fields behind the bookmark and is otherwise as before; the size in its header also counts the data that follows, modulo 2^32; if not, it is refused and the buffer is as before |
| `Plan9Codec.PackRwrite` | src/novmm/plan9/pack.go:202-214 | if it fits, the buffer holds exactly an Rwrite reply, of type 119 in its fifth byte, with these fields behind the bookmark and is otherwise as before; if not, it is refused and the buffer is as before |
| `Plan9Codec.PackRclunk` | src/novmm/plan9/pack.go:216-221 | if it fits, the buffer holds exactly an Rclunk reply, of type 121 in its fifth byte, with these fields behind the bookmark and is otherwise as before; if not, it is refused and the buffer is as before |
| `Plan9Codec.PackRremove` | src/novmm/plan9/pack.go:223-228 | if it fits, the buffer holds exactly an Rremove reply, of type 123 in its fifth byte, with these fields behind the bookmark and is otherwise as before; if not, it is refused and the buffer is as before |
| `Plan9Codec.PackRstat` | src/novmm/plan9/pack.go:230-246 | if it fits, the buffer holds exactly an Rstat reply, of type 125 in its fifth byte, with these fields behind the bookmark and is otherwise as before in the given dialect; if not, it is refused and the buffer is as before |
| `Plan9Codec.PackRwstat` | src/novmm/plan9/pack.go:248-253 | if it fits, the buffer holds exactly an Rwstat reply, of type 127 in its fifth byte, with these fields behind the bookmark and is otherwise as before; if not, it is refused and the buffer is as before |
| `Plan9Unpack.Unpack` | src/novmm/plan9/unpack.go:27-193 | from a flat buffer or a segmented stream alike, reads field by field what the parser function finds at the cursor of the string, with every refusal, and stops where it stops |
| `Plan9Unpack.UnpackRequest` | src/novmm/plan9/unpack.go:76-189 | reads, field by field, what the request part of the parser finds; what that is, the request layouts say |
| `Plan9Unpack.UnpackReply` | src/novmm/plan9/unpack.go:76-189 | the same for the body of each reply |
| `Plan9Codec.PackedThenParsed` | src/novmm/plan9/pack.go:30-253 | what a packer left in the buffer is parsed back to every packed field, with the size in the header equal to the bytes of the message; the one exception is Rwstat in plain 9P2000, which is refused |
| `Plan9Unpack.PackAndUnpack` | src/novmm/plan9/pack.go:30-253 | packing any reply in either dialect, rewinding and unpacking succeeds exactly when it fits and gives back every field, except for Rwstat in plain 9P2000 |
| `Plan9Unpack.PackAndUnpackSegments` | src/novmm/plan9/unpack.go:27-193 | the same through the stream on any segmentation, if no number of the reply straddles a boundary |
| `Plan9Stream.FieldsMakeReply` | src/novmm/plan9/pack.go:30-253 | the numbers and strings a packer writes, in order, are the bytes of the reply |
| `Plan9Stream.WriteFields` | src/novmm/machine/virtio_stream.go:97-210 | a list of numbers and strings written to any segmentation leaves the cursor where it should be if and only if no number straddles a boundary, and then the flat string has exactly their bytes there |
| `Plan9Stream.PackReply` | src/novmm/plan9/pack.go:20-47 | on a segmented buffer a reply is refused untouched when it does not fit; otherwise the cursor is right if and only if no number straddled, and then the flat string holds the reply and is otherwise as before |
| `Plan9Stream.PackedOverSegmentsParses` | src/novmm/plan9/unpack.go:27-193 | a reply packed so is parsed back to every field |
| `Plan9Stream.OneSegmentUnbroken` | src/novmm/machine/virtio_stream.go:97-127 | a reply that lies in one segment has no straddling number |
| `Plan9Requests.RequestParses` | src/novmm/plan9/unpack.go:27-193 | every request laid out as the protocol says, in either dialect, is parsed to exactly its fields with no other fid set, ending where the request or the data of a write begin |
| `Plan9Requests.RequestAdmitted` | src/novmm/plan9/p9.go:184-257 | no minimum size stops a request |
| `Plan9Requests.MinimumOfRequest` | src/novmm/plan9/p9.go:184-257 | the minimum size looked up for a request kind is the length of its shortest body in the other dialect, except for Twstat, where it is eight |
| `Plan9Requests.MinimumOfReply` | src/novmm/plan9/p9.go:184-257 | the same for replies, except for Rstat and for the Rwstat entry that is missing |
| `Plan9Requests.RequestTypes` | src/novmm/plan9/p9.go:21-50 | the numbers of the requests on the wire |
| `Plan9Requests.ReplyTypes` | src/novmm/plan9/p9.go:21-50 | on the wire a reply has the type of the request it answers plus one, and an error has 107 |
| `Plan9Requests.ReplyTypesDiffer` | src/novmm/plan9/p9.go:21-50 | no two kinds of reply share a type |
| `Plan9Requests.TruncatedIsRefused` | src/novmm/plan9/unpack.go:31-52 | a message of which any byte is missing is refused as too short |
| `Plan9Requests.RequestPrefixIsRefused` | src/novmm/plan9/unpack.go:31-52 | no proper prefix of a request is taken for a message |
| `Plan9Requests.RefusedExactly` | src/novmm/plan9/unpack.go:31-70 | for every string of bytes: refused as too short if and only if there is no header, the announced size is below seven, above what is there or below the minimum of a known type; refused as invalid if and only if otherwise the type is unknown |
| `Plan9RoundTrip.RoundTrip` | src/novmm/plan9/unpack.go:27-193 | the same for reply bytes anywhere in a string |
| `Plan9RoundTrip.BodyRoundTrip` | src/novmm/plan9/unpack.go:76-189 | the body of every reply type parses back |
| `Plan9RoundTrip.AtStat` | src/novmm/plan9/buffer.go:48-110 | reading a packed stat gives back all fields the dialect carries and ends right behind it |
| `Plan9RoundTrip.MinSizeAdmits` | src/novmm/plan9/p9.go:180-257 | with the tables as they are used, a reply is refused as too short if and only if it is Rwstat in plain 9P2000 |
| `DirectoryPaging.DirectoryFid.ReadDir` | src/novmm/plan9/ops.go:273-303 | offset zero captures a new listing and forgets what was sent, any other must be the running offset |
| `DirectoryPaging.DirectoryFid.ReadDirPost` | src/novmm/plan9/ops.go:319-333 | moves the entries sent from what remains to what was returned |
| `DirectoryPaging.PackEntries` | src/novmm/plan9/fs.go:239-259 | packs the longest run of whole entries that fits the count and the buffer |
| `DirectoryPaging.PackPage` | src/novmm/plan9/fs.go:238-265 | the page left in the buffer is an announced size and that many bytes of whole entries; it is refused only if not even an empty reply fits |
| `DirectoryPaging.DirectoryFid.Read` | src/novmm/plan9/fs.go:231-269 | returned entries followed by remaining ones are always the listing captured at offset zero and the running offset is the bytes returned, in whatever dialect each page went out; a page holds whole entries and its header counts them; the second packing of the header cannot fail |
| `DirectoryPaging.HeaderKeepsData` | src/novmm/plan9/fs.go:256-269 | writing the final header leaves the entries behind it intact |
| `DirectoryPaging.EmptyPage` | src/novmm/plan9/fs.go:239-259 | a page is empty if and only if nothing remains or the next entry alone does not fit |
| `DirectoryPaging.FetchAll` | src/novmm/plan9/fs.go:231-269 | a client reading at offset zero and then at successive offsets until an empty page gets the whole listing, once and in order, even if the dialect changes between pages |
| `FileRefs.Server.constructor` | src/novmm/plan9/fs.go:411-453 | the root is referenced once and the pool is empty |
| `FileRefs.Server.IncRef` | src/novmm/plan9/file.go:931-935 | the account holds with one more reference in the request's hands |
| `FileRefs.Server.DecRef` | src/novmm/plan9/file.go:937-960 | the account holds with one reference less; the path is unlisted exactly with the last reference, and never the root |
| `FileRefs.Server.Lookup` | src/novmm/plan9/file.go:208-253 | fails exactly when the path is not listed and the host does not find it; the file listed under the path, or a new one listed there, is referenced once for the caller; no other path changes, and a failure leaves the account alone |
| `FileRefs.Server.GetFid` | src/novmm/plan9/fid.go:63-73 | a known fid gains a reference, an unknown one changes nothing |
| `FileRefs.Server.NewFid` | src/novmm/plan9/fid.go:75-97 | enters a fid exactly when its number is free; the file reference passes to the pool, or stays with the caller |
| `FileRefs.Server.DecRefFid` | src/novmm/plan9/fid.go:99-118 | the last reference takes the fid out and gives its file back |
| `FileRefs.Server.Attach` | src/novmm/plan9/ops.go:61-88 | enters a fid at the root or, if the number is taken, changes nothing |
| `FileRefs.Server.WalkNames` | src/novmm/plan9/ops.go:95-122 | at every name exactly the file reached is held, and on every failure nothing is; the path reached is the names joined on and the file is the one listed there; it succeeds only if every file on the way exists, and certainly if the host finds them all |
| `FileRefs.Server.Walk` | src/novmm/plan9/ops.go:90-154 | a successful walk enters the new fid, or moves and closes the fid itself, at the joined path with the file listed there; a failed one leaves the pool as it was; it succeeds if everything on the way is there and the number is free or its own |
| `FileRefs.Server.Open` | src/novmm/plan9/ops.go:156-179 | opens the fid exactly when it is not open, its kind and mode admit it and the reply fits, and changes nothing else |
| `FileRefs.Server.CreateTree` | src/novmm/plan9/file.go:457-561 | creating missing parents gives back every reference it takes; coming to a file whose lock the request holds hangs it, and a parent that the write layer has does not; a file is made exactly when it is missing, its place can be cleared and the host makes it |
| `FileRefs.Server.CreateNew` | src/novmm/plan9/ops.go:228-245 | the file made is the one listed under its path and is referenced for the caller; with every parent found it is made exactly when the host lets it be, and a parent in the write layer excludes hanging |
| `FileRefs.Server.Create` | src/novmm/plan9/ops.go:181-271 | moves an unopened fid onto the file listed under the joined path and opens it, exactly when it is allowed, made and answered, or leaves it alone; the reference of the directory is given back |
| `FileRefs.Server.Children` | src/novmm/plan9/file.go:864-925 | a listing gives back every child it looks up, also when it fails half way, and fails only if a child cannot be found or an existing one cannot be read |
| `FileRefs.Server.Remove` | src/novmm/plan9/ops.go:384-401 | gives up the pool's reference whatever becomes of the removal; the server goes down if and only if the file was unlinked and its parent is neither listed nor found; a parent that is the locked file itself hangs it, and one in the write layer does not |
| `FileRefs.Server.Operate` | src/novmm/plan9/fs.go:161-400 | what each request does to the pool while it holds its fid, and for attach, open and clunk exactly when; an attached fid points at the root, a walked one at the file listed under the joined path |
| `FileRefs.Server.Handle` | src/novmm/plan9/fs.go:106-409 | an answered request leaves every fid with one reference under its own number, every file's count equal to the fids pointing at it plus one for the root, the set of pending tags as it was, and in the pool exactly the change its type makes given the host's answers; only creates, removes and requests that name no fid where one is needed can go unanswered |
| `FileRefs.Server.Serve` | src/novmm/plan9/fs.go:106-409 | the same after any sequence of requests, on all success and error paths |
| `FileRefs.EffectAnswers` | src/novmm/plan9/fs.go:137-159 | taking the fid, operating and giving it back adds up to the request's net effect on the pool |
| `FileRefs.UnusedHasNoCount` | src/novmm/plan9/file.go:937-960 | a file other than the root has count zero if and only if no fid points at it |
| `FileRefs.JoinIsClean` | src/novmm/plan9/ops.go:103-107 | joining any name to a clean path leaves a clean path |
| `FileRefs.JoinInParts` | src/novmm/plan9/ops.go:103-107 | joining name by name is joining at once |
| `FileRefs.JoinLaws` | src/novmm/plan9/ops.go:103-107 | a plain name leads to a child of its own, whose directory is the path; two dots undo it and stay at the root; one dot and the empty name stay |
| `FileLru.Fs.SwapLru` | src/novmm/plan9/file.go:255-263 | two files change places and the indices stay true |
| `FileLru.Fs.Bubble` | src/novmm/plan9/file.go:322-346 | the same files are queued with true indices, the file is not above one used earlier, and a newest file does not move up |
| `FileLru.Fs.RemoveLru` | src/novmm/plan9/file.go:265-299 | the file is out and closed, indices are true, below the limit nothing else leaves, and files still queued keep their descriptors |
| `FileLru.Fs.UpdateLru` | src/novmm/plan9/file.go:301-348 | terminates in the mutual recursion with `FlushLru` and `RemoveLru`, keeps the structure, ends within the limit, and keeps a newest file that does not sit at the root of a list one over the limit |
| `FileLru.Fs.FlushLru` | src/novmm/plan9/file.go:362-371 | ends within the limit; from one over, exactly the first file goes; files still queued keep their descriptors |
| `FileLru.Fs.TouchLru` | src/novmm/plan9/file.go:350-360 | the file has the time of the touch; nobody but the touched file joins the list, which ends within the limit and holds every file with a descriptor; files still queued keep theirs |
| `FileLru.Fs.LockRead` | src/novmm/plan9/file.go:727-765 | opens when needed; if the clock is monotone and the limit at least one, the file is queued and has a descriptor to read from |
| `FileLru.Fs.LockWrite` | src/novmm/plan9/file.go:644-725 | the same with a descriptor to write to |
| `FileLru.Fs.Release` | src/novmm/plan9/file.go:767-785 | a dropped file holds no descriptor and is not queued |
| `FileLru.NoDuplicates` | src/novmm/plan9/file.go:255-263 | true indices exclude duplicates |
| `FileLru.Fs.DescriptorBound` | src/novmm/plan9/file.go:362-371 | between requests at most the limit of files hold descriptors |
| `Overlay.File.FindPaths` | src/novmm/plan9/file.go:140-206 | the resolution: longest non-empty write prefix, longest read prefix that serves the path and the last directory of its list that has it, the fallback, and the mode rule |
| `Overlay.File.FindWrite` | src/novmm/plan9/file.go:142-155 | the longest matching write prefix in any scan order |
| `Overlay.File.FindRead` | src/novmm/plan9/file.go:173-202 | the longest prefix with an existing file that is not marked deleted, in any scan order; otherwise the write choice |
| `Overlay.FindBacking` | src/novmm/plan9/file.go:182-201 | the last directory of a list that has the file |
| `Overlay.ResolutionIsUnique` | src/novmm/plan9/file.go:140-206 | two scans in any orders give the same six fields |
| `Overlay.ExistsThroughLayers` | src/novmm/plan9/file.go:451-455 | a file exists exactly when its writable place has it unmarked, or has nothing and some readable directory serves it |
| `Regions.OverlapsExactly` | src/novmm/machine/memory.go:82-85 | below 2^64 the test is intersection, except for a range strictly inside the region |
| `Regions.TopRangeOverlapsNothing` | src/novmm/machine/memory.go:82-85 | a range ending at 2^64 is never seen to overlap |
| `Regions.AddKeepsOrder` | src/novmm/machine/memory.go:103-120 | a region added without a conflict leaves the map sorted and disjoint if and only if it ends below 2^64 and does not lie strictly inside another, or ends at 2^64 and starts behind all others |
| `Regions.InsertKeepsDisorder` | src/novmm/machine/memory.go:112-120 | adding a region cannot bring a broken map back in order |
| `GuestMemory.MemoryMap.Conflicting` | src/novmm/machine/memory.go:103-110 | true exactly when some region overlaps |
| `GuestMemory.MemoryMap.Add` | src/novmm/machine/memory.go:112-120 | a region is sorted in exactly when none overlaps |
| `GuestMemory.MemoryMap.Reserve` | src/novmm/machine/memory.go:133-188 | which error comes when, given the answer of the hypervisor, and the map after each of them; a region the hypervisor refuses stays listed |
| `GuestMemory.MemoryMap.Map` | src/novmm/machine/memory.go:190-231 | the first region of the kind that contains the range answers: taken if a chunk is in the way, else the chunk is recorded and its host memory returned |
| `GuestMemory.ClashesExactly` | src/novmm/machine/memory.go:203-215 | a range of a region is refused if and only if some chunk shares a byte with it, begins exactly where it ends, or is empty and lies inside it |
| `GuestMemory.ContainsExactly` | src/novmm/machine/memory.go:87-89 | below 2^64 a region contains a range if and only if every byte of it is the region's own and the region does not end at 2^64 |
| `GuestMemory.GrantsExactly` | src/novmm/machine/memory.go:190-220 | in bytes: a range is granted if and only if a region of the kind has all of it and no chunk of the first such region keeps it |
| `GuestMemory.MarkedStaysChunked` | src/novmm/machine/memory.go:203-220 | a granted chunk keeps chunks in bounds and disjoint if and only if it ends inside the region |
| `GuestMemory.ContainedIsInside` | src/novmm/machine/memory.go:87-89 | a range accepted as contained is inside if and only if it ends below 2^64, or at 2^64 with the region |
| `GuestMemory.WrappedGrant` | src/novmm/machine/memory.go:190-231 | a page at the top of the address space is granted from a region that does not hold it |
| `GuestMemory.GrantKeepsChunks` | src/novmm/machine/memory.go:203-220 | a grant that ends below 2^64 keeps all chunks in bounds and pairwise disjoint |
| `GuestMemory.GrantAvoidsChunks` | src/novmm/machine/memory.go:203-220 | no host byte of a grant belongs to an earlier chunk of any region |
| `GuestMemory.MemoryMap.AllocateUp` | src/novmm/machine/memory.go:248-257 | the lowest page step at which the range is granted, or none is granted at any step; where counting leaves the address space, none was before that |
| `GuestMemory.MemoryMap.AllocateDown` | src/novmm/machine/memory.go:239-247 | the highest page step; it leaves the address space only when the start lies within the first step |
| `GuestMemory.MemoryMap.Allocate` | src/novmm/machine/memory.go:233-261 | first fit in the direction asked for, with nothing else recorded |
| `GuestMemory.MemoryMap.Load` | src/novmm/machine/memory.go:263-285 | the block is in a granted chunk at the first fit in the direction asked for, or no step is granted, and no block loaded before has changed |
| `GuestMemory.MemoryMap.LoadAll` | src/novmm/machine/memory.go:263-285 | after any sequence of loads every block loaded is still there |
| `GuestMemory.MemoryMap.LoadSegment` | src/novmm/loader/elf_load.go:40-56 | a segment goes to its own address in whole pages, is refused exactly when they are not granted, and without overflow is there afterwards while no earlier block changed |
| `GuestMemory.PagesCover` | src/novmm/loader/elf_load.go:40-56 | the length is rounded up to whole pages by less than a page, unless it wraps |
| `UserMemory.UserMemory.Layout` | src/novmm/machine/user.go:97-173 | success leaves the map in order if and only if nothing wrapped; then the map is exactly the placement and the recorded segments are those in holes; a conflict means it did not fit; aligned requests are never refused as unaligned; an aligned request that fits and for which the file is long enough succeeds if and only if the hypervisor maps every planned piece |
| `UserMemory.UserMemory.PlaceTail` | src/novmm/machine/user.go:157-169 | the rest goes behind all regions and is not recorded |
| `UserMemory.PlacedConserves` | src/novmm/machine/user.go:109-169 | the map after a placement is sorted and disjoint and has grown by exactly the memory asked for |
| `UserMemory.SegmentsAreContiguous` | src/novmm/machine/user.go:143-151 | the pieces follow each other in the file from the start and add up to the memory |
| `UserMemory.PlacedIsBacked` | src/novmm/machine/user.go:131-141 | no byte of the file stands behind two regions, which is what the chunk allocator relies on |
| `UserMemory.SecondFillFits` | src/novmm/machine/user.go:113-125 | the region met again takes all the rest right behind it |
| `UserMemory.SecondFillRefused` | src/novmm/machine/memory.go:112-120 | the rest is refused when it reaches into the next region |
| `UserMemory.SecondFillWraps` | src/novmm/machine/user.go:113-125 | if the rest wraps, a conflict is seen or the map is broken |
| `UserMemory.RefusedDespiteRoom` | src/novmm/machine/user.go:109-155 | three pages are refused with two free pages in front and all space behind |
| `UserMemory.UnseenConflict` | src/novmm/machine/memory.go:82-120 | three pages on a map with two pages free below the last region: the rest ends at 2^64 and is placed across that region without an error |
| `PageTables.BuildPde` | src/novmm/loader/linux_x86.go:81-93 | entry i is a present, writable 2 MB page at i times 2 MB, and no byte outside the page changes |
| `PageTables.BuildLink` | src/novmm/loader/linux_x86.go:55-80 | the first entry links the next table, the others stay, and so do all bytes outside the page |
| `PageTables.BuildTables` | src/novmm/loader/linux_x86.go:230-232 | on three pages of host memory without common bytes: the walk maps every address below 1 GB to itself, writable at every level, whatever else memory holds; every other one below 2^48 is not present, whatever else memory holds, if and only if the upper pages had no present entries behind the first; no byte outside the pages changes |
| `PageTables.BuiltTablesMap` | src/novmm/loader/linux_x86.go:55-93 | the same for any three pages as the builders leave them |
| `PageTables.SomethingAbove` | src/novmm/loader/linux_x86.go:55-80 | a present entry left behind the first of an upper page makes an address above 1 GB present |
| `PageTables.IdentityBelow` | src/novmm/loader/linux_x86.go:55-93 | the four-level walk through the linked tables is the identity below 1 GB, and every level gives the right to write |
| `PageTables.NothingAbove` | src/novmm/loader/linux_x86.go:55-80 | and finds nothing above |
| `PageTables.LeftoverIsMapped` | src/novmm/loader/linux_x86.go:68-80 | an entry left in the second page stays in force |
| `BootTables.AllocateTables` | src/novmm/loader/linux_x86.go:200-228 | the three pages allocated have three different page-aligned addresses, below 2^52 if memory ends there |
| `BootTables.SetupTables` | src/novmm/loader/linux_x86.go:200-245 | allocation and building together: in guest memory as the memory map then shows it the first gigabyte is mapped to itself and writable, nothing else is mapped if the upper pages held no present entries, and no block loaded before has changed |
| `BootTables.TakenStays` | src/novmm/machine/memory.go:203-220 | an address taken is not granted again and stays taken |

## Left out

- VirtioStream.VirtioStream.WriteN: the bytes that a number straddling a boundary leaves behind the end of its first segment, in whatever memory lies there, are not modelled; segments are taken not to touch.
- DescriptorChain.Collect: what a read outside the descriptor table finds is not followed, and guest memory does not change during a walk.
- UserMemory.UserMemory.Layout: `Reload` of recorded segments is not modelled; the start offset is taken to lie within the file.
- GuestMemory.MemoryMap.Add: equal start addresses, which only a wrapped range can bring about, are sorted in after the regions there.
- GuestMemory.MemoryMap.AllocateDown: what the countdown does after passing address zero is outside the model, which stops there with `Wrapped`; counting up stops likewise at 2^64.
- FileRefs.Server.Handle: races between requests inside the two DecRef functions, the wait of Tflush, and rename through wstat are left out; a request that ends the server or never returns is followed no further.
- FileLru.Fs.UpdateLru: that the oldest file is evicted is not claimed, because bubbling down prefers the left child.
- Overlay.File.FindPaths: joining and cleaning host path names is a parameter, and the host does not change during a call.
- Virtio device reset, the no-event-index interrupt flag beyond its branch in `PutOne`, MSI-X vectors, and device pause counting.
- KVM ioctls themselves, signal delivery below the pending bit, eventfd, mmap and sockets; clearing the interrupt bitmap when special registers are flushed.
- `CopyOut`, file I/O over buffers, block, net and console request loops.
- The rest of the 64-bit boot set-up: descriptor tables, control registers and segments.
- RTC, UART, PIT, APIC, ACPI, PCI configuration space, cpuid and msr copies, tracing, the system map, the in-guest agent and the Python front end: easy members or thin wrappers.
