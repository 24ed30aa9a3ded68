# A verified model of MigTD's stateful core

MigTD is the service TD that moves Intel TDX guests between hosts. Its device drivers talk to a
host it does not trust, its pre-session protocol talks to a peer it does not know yet, and its
measurements are what that peer will judge it by. This project models that code in Dafny and
proves what it keeps. Everything outside the trust boundary is arbitrary: the device may rewrite
shared memory between any two reads, configuration reads return anything, a transport splits
bytes as it likes, the hash and the certificate libraries are parameters.

The main results, by part of the system:

- **Virtqueue** (`Slots`, `QueueState`, `QueueHistory`, `VirtQueues`, `QueueRuns`). Whatever the device writes
  and in whatever order the driver adds and pops, the free list and the outstanding chains
  partition the slots, both bitmaps and the counter say exactly which slots are on a chain, and
  the error branches inside recycling are dead. Over a whole run an add succeeds exactly if its
  buffers fit beside those lent, a pop exactly if the ring has something new and names a head
  given out and not used since; it then returns exactly the buffers of the one add that got that
  head, and the length reported, cut to them. Each add is returned at most once.
- **Serial driver** (`DmaPages`, `ConsoleWorld`, `VirtioSerial`, `SerialRuns`). In every run every
  buffer the device holds is live memory on no other chain, on error paths too; no page is freed
  twice or while the device owns it. The world around the driver is an input: it answers every
  access, wait, look at a used ring, message and request for pages. As long as its answers are
  good (there are such worlds: `ConsoleWorld.KindIsGood`) the device comes up, no call fails but
  for its arguments, for want of data or for a port that is not open, and what is sent to a port
  goes out in order. Which replies can go with a leak is stated, and a run without them has leaked
  nothing. Two openings of a port have a closing between them.
- **Pre-session exchange** (`PeerData`, `PreSession`, `PreSessionTransport`). The blob format is
  canonical. Two compatible endpoints never fail and never deadlock however the bytes are split
  and the sides interleaved, every run is finite, and a run that cannot go on has exchanged the
  same version and each other's blob. One endpoint alone, against any peer, accepts exactly the
  byte strings that carry a well-formed exchange.
- **PCI resources** (`Mmio`, `PciBars`, `Intervals`, `Capabilities`). Regions handed out are
  pairwise disjoint, inside their window, clear of RAM and aligned; recorded BARs are 0 or the
  base of such a region and are what the device's registers hold, each what the allocator gives
  behind the earlier ones. The capability walk is tied to every configuration read: it follows the
  list the device describes as long as links are in range and new, at most sixteen of them, ends
  exactly as those answers say, and keeps the last structure of each kind; these are long enough,
  clear of RAM and apart from one another, which the sort-and-compare-neighbours test is proved to
  imply.
- **Byte streams** (`ByteQueues`, `TlsBuffers`, `Vsock`). Chunk queues refine a flat queue of
  bytes for every series of operations, operation by operation; the TLS buffer answers every
  series as a growing byte string does and leaves no byte behind it; what a vsock sender
  takes for its peer's free space is never too small, and it is exact while the counters are in
  step; sending only then, as every run below 2^32 bytes does, never overruns an honest peer.
- **Measurement** (`Measurement`, `EventLogs`, `MigtdHash`). Successful log writes keep the log
  replaying to the registers exactly if they leave a spare byte; logs accepted against the same
  registers recorded the same digests; the offline tool computes the registers the boot measures,
  except for one combination of options.
- **Encodings and certificates** (`Der`, `Base64`, `CertChains`). DER wrapping, base64 and PEM are
  inverse to strict reference decoders, in both directions; the leaf of an accepted chain of any
  length lies in every set of certificates that holds the local root and is closed under issuing
  by a CA.

`Words` holds machine words, bit operations on natural numbers and bitmaps. A method that changes
state is tied to a function of the old state by its contract; what the state keeps is then proved
as lemmas about that function.

Where the code does not meet a property, the model follows the code and the exact condition is
proved:

- A log write that exactly fills its buffer reports success, but no reader shows its event
  (`EventLogs.ExactFillIsHidden`); the log verifies afterwards if and only if a byte is spare, or
  the extension leaves the register as it was. A write that fails for space has extended the
  register already.
- The offline tool extends RTMR1 with the issuer chain whenever the policy is version 2; the boot
  does so only if remote attestation is enabled (`MigtdHash.DoMeasurements`).
- The overlap test skips entries with base 0: `Intervals.AcceptedExactly` says what it accepts,
  `Intervals.MissedExactly` what it misses, and `Intervals.ZeroBaseEscapes` has a row in which
  the entry at 0 covers two others. `Capabilities.CoveringStructure` is a device that is set up
  with that row.
- The header comment of `virtio_pci.rs` lists a check of offset and length against the size of
  the BAR. The code has no such check: `Capabilities.StrayStructure` is a device that is set up
  with a structure wholly in the region of another BAR. A structure lies in the region of its BAR
  if and only if the BAR has one and offset plus length is at most the size probed
  (`Capabilities.InsideBarExactly`, and `Init` for the structures kept).
- The vsock sender computes the peer's free space from 32-bit counters with saturating
  differences. It is the true free space if and only if both counters have wrapped around equally
  often, or the difference of the wrapped counters alone fills the peer's buffer
  (`Vsock.FreeSpaceExactly`); otherwise it is too large, and `Vsock.WrapOverruns` is a run past
  2^32 bytes towards an honest peer that keeps to the computed space and puts twice what fits into
  the peer's buffer.
- The serial driver computes a port's queue index from the low 16 bits of the port number. Port
  0x1_0000 gets the control queue and port 0x1_0001 that of port 1 (`VirtioSerial.AliasedPorts`); a
  port has a queue of its own if and only if it is a supported one (`VirtioSerial.OwnQueueExactly`).

## Model

| member | source | states |
|---|---|---|
| `VirtQueues.VirtQueue.New` | src/devices/virtio/src/virtqueue.rs:73-124 | a queue is created exactly for a power of two within both limits if the transport works, consistent and with an empty history; otherwise the error says which |
| `VirtQueues.VirtQueue.constructor` | src/devices/virtio/src/virtqueue.rs:104-123 | linking the slots one to the next gives a consistent queue with every slot free |
| `VirtQueues.AddDescriptors` | src/devices/virtio/src/virtqueue.rs:195-220 | programming one loop's worth of buffers fills the next slots of the free list in both tables and advances the head along the private links; the index is never out of range |
| `VirtQueues.VirtQueue.Add` | src/devices/virtio/src/virtqueue.rs:127-183 | fails exactly for no buffers or too few free slots and then changes nothing; else the chain is the front of the free list, the shared table holds the buffers with their flags, the head is in the available ring, and the queue stays consistent |
| `VirtQueues.VirtQueue.AvailableDesc` | src/devices/virtio/src/virtqueue.rs:191-193 | the difference of size and counter is the length of the free list |
| `VirtQueues.ReapChain` | src/devices/virtio/src/virtqueue.rs:235-275 | following the private links visits exactly the chain of the head, so every error branch of the loop is dead |
| `VirtQueues.Recycle` | src/devices/virtio/src/virtqueue.rs:225-278 | recycling clears exactly the chain's bits, counts exactly its slots and collects its buffers in order, split by direction |
| `VirtQueues.VirtQueue.RecycleDescriptors` | src/devices/virtio/src/virtqueue.rs:225-278 | the chain goes to the front of the free list in both tables |
| `VirtQueues.VirtQueue.PopUsed` | src/devices/virtio/src/virtqueue.rs:283-317 | succeeds exactly if the used id, cut to 16 bits, heads an outstanding chain; returns that chain's buffers in order and direction and the length cut to their saturated sum; a failed pop changes nothing |
| `VirtQueues.VirtQueue.DeviceWrites` | src/devices/virtio/src/virtqueue.rs:38-64 | no write of the device to the shared tables breaks consistency |
| `VirtQueues.Run` | src/devices/virtio/src/virtqueue.rs:127-317 | for any interleaving of adds, pops and device writes every call is answered as the history of earlier successful calls says (which adds fit, which pops name an outstanding head, with which buffers and length), that history is legal, and the queue returned has it and is consistent |
| `Bits.RingSlotMasks` | src/devices/virtio/src/virtqueue.rs:167 | the ring slot of an index is the index masked with the size less one |
| `QueueState.InitialIsConsistent` | src/devices/virtio/src/virtqueue.rs:104-123 | the fresh free list satisfies the invariant |
| `QueueState.PostedIsConsistent` | src/devices/virtio/src/virtqueue.rs:127-183 | taking a chain from the free list keeps the partition of slots, the links, the recorded buffers and the bitmaps |
| `QueueState.RecycledIsConsistent` | src/devices/virtio/src/virtqueue.rs:225-278 | giving a chain back keeps them too, although the tail link of the free list dangles |
| `QueueState.BitmapsAcceptHeads` | src/devices/virtio/src/virtqueue.rs:303-308 | range check and both bitmaps together accept exactly the heads of outstanding chains |
| `QueueState.NumUsedCountsInUse` | src/devices/virtio/src/virtqueue.rs:50-69 | the counter is the number of bits set in the bitmap of slots in use |
| `Slots.SaturatedLengthIsCappedTotal` | src/devices/virtio/src/virtqueue.rs:253 | the saturating sum of lengths is the true sum capped at the largest word |
| `Slots.TakeKeepsPartition` | src/devices/virtio/src/virtqueue.rs:195-220 | taking the front of the free list as a chain keeps every slot in exactly one place |
| `Slots.GiveKeepsPartition` | src/devices/virtio/src/virtqueue.rs:225-278 | so does putting a chain back |
| `QueueHistory.ReturnHasOffer` | src/devices/virtio/src/virtqueue.rs:283-317 | every return in a legal history answers one earlier add with the same buffers, with no other use of the head in between, and its length is within them |
| `QueueHistory.MatchIsOneToOne` | src/devices/virtio/src/virtqueue.rs:283-317 | no add is returned twice and no return answers two adds |
| `QueueHistory.OutstandingIffUnreturned` | src/devices/virtio/src/virtqueue.rs:283-317 | a head is outstanding exactly if its last use was an add |
| `QueueHistory.InFlightCountsHeads` | src/devices/virtio/src/virtqueue.rs:50-55 | with chains of one buffer the buffers in flight are the heads outstanding |
| `QueueRuns.PopAnswersAdd` | src/devices/virtio/src/virtqueue.rs:127-317 | in any run, every successful pop answers the one earlier successful add whose head is the used id cut to 16 bits, read at the number of earlier successful pops; its caller gets exactly the buffers of that add, split the same way, and the length reported, cut to their sum |
| `QueueRuns.AddSucceedsExactly` | src/devices/virtio/src/virtqueue.rs:127-133 | in any run, an add succeeds exactly if it has buffers and they fit beside those lent by earlier calls |
| `QueueRuns.PopSucceedsExactly` | src/devices/virtio/src/virtqueue.rs:283-308 | in any run, a pop succeeds exactly if the index differs from the number of successful pops modulo 2^16 and the id names a head given out and not used since |
| `QueueRuns.CountsAgree` | src/devices/virtio/src/virtqueue.rs:50-55 | the counters of the queue are the counts a caller can make from the answers |
| `QueueRuns.AnswersOnce` | src/devices/virtio/src/virtqueue.rs:127-317 | in any run, no add is answered twice and no pop answers two adds |
| `DmaPages.PageAllocator.AllocPages` | src/devices/virtio_serial/src/lib.rs:139-142 | the place offered is taken exactly if it is apart from all live allocations |
| `DmaPages.PageAllocator.FreePages` | src/devices/virtio_serial/src/lib.rs:139-142 | only a live allocation of that size may be freed |
| `DmaPages.AlignUp` | src/devices/virtio_serial/src/lib.rs:911-913 | the least multiple of a page not below the size |
| `DmaPages.HeldBuffersApart` | src/devices/virtio_serial/src/lib.rs:604-676 | two buffers on chains are live and share no byte |
| `DmaPages.OwnedAfterPost` | src/devices/virtio_serial/src/lib.rs:641-662 | lending live memory that is on no chain keeps ownership exact |
| `DmaPages.OwnedAfterReturn` | src/devices/virtio_serial/src/lib.rs:793-802 | so does taking a buffer back |
| `DmaPages.OwnedAfterFree` | src/devices/virtio_serial/src/lib.rs:852-860 | so does freeing memory that is on no chain |
| `VirtioSerial.VirtioSerial.AllocateDmaMemory` | src/devices/virtio_serial/src/lib.rs:842-850 | new memory is live, recorded, and the driver's own; there is some if the world has it |
| `VirtioSerial.VirtioSerial.FreeDmaMemory` | src/devices/virtio_serial/src/lib.rs:852-860 | memory the device does not hold is freed exactly if it is recorded |
| `VirtioSerial.VirtioSerial.AddTo` | src/devices/virtio_serial/src/lib.rs:614-615 | a buffer put on a queue belongs to its chain; it is refused exactly if the queue holds sixteen chains already |
| `VirtioSerial.AddOne` | src/devices/virtio/src/virtqueue.rs:127-133 | on a queue of one-buffer chains an add is refused exactly if there are as many chains as slots |
| `VirtioSerial.VirtioSerial.PopFrom` | src/devices/virtio_serial/src/lib.rs:629-631 | a completed chain gives back one buffer that was on it, live and again the driver's; if the queue holds a chain and the ring names one, it does, and on a receive queue with a length |
| `VirtioSerial.VirtioSerial.InitQueues` | src/devices/virtio_serial/src/lib.rs:319-399 | six empty queues, and ring memory that is never on a chain, if the accesses work and there is memory |
| `VirtioSerial.VirtioSerial.Transmit` | src/devices/virtio_serial/src/lib.rs:641-676 | one buffer of that length is offered to the device and one is returned; only memory the device no longer holds is freed; it succeeds if the world's answers are good, and of the failures only a refused add leaks, exactly one allocation |
| `VirtioSerial.VirtioSerial.SendControl` | src/devices/virtio_serial/src/lib.rs:604-639 | the same for a control message, with the timer, leaving the control receive queue alone |
| `VirtioSerial.VirtioSerial.Enqueue` | src/devices/virtio_serial/src/lib.rs:641-676 | the same for port data; exactly empty data, data over 32 bits of length and unknown ports are refused as bad arguments |
| `VirtioSerial.VirtioSerial.LendBuffer` | src/devices/virtio_serial/src/lib.rs:691-703 | one more receive buffer is the device's; a refused add leaves exactly one allocation with the driver, no other failure does |
| `VirtioSerial.VirtioSerial.FillControlQueue` | src/devices/virtio_serial/src/lib.rs:686-709 | refilling tops the queue up from half empty and keeps ownership exact; it succeeds if the world's answers are good and leaks nothing unless an add is refused |
| `VirtioSerial.VirtioSerial.FillPortQueue` | src/devices/virtio_serial/src/lib.rs:711-743 | the same for a port's receive queue |
| `VirtioSerial.VirtioSerial.HandleControlMsg` | src/devices/virtio_serial/src/lib.rs:565-602 | exactly the messages that are long enough, about a port there is and of a known kind are acted on; any message keeps the invariant and does not touch the queue it came from, and connects or removes exactly the port it names |
| `VirtioSerial.VirtioSerial.RecvOneControl` | src/devices/virtio_serial/src/lib.rs:537-559 | one message takes one buffer from the device and frees it on success; with the buffer freed first, nothing leaks unless an add is refused |
| `VirtioSerial.VirtioSerial.RecvControl` | src/devices/virtio_serial/src/lib.rs:472-563 | draining ends however the device moves its index, keeps the invariant and connects only ports there are queues for; at start-up it may time out before the first message |
| `VirtioSerial.VirtioSerial.ReceiveData` | src/devices/virtio_serial/src/lib.rs:816-840 | the bytes lent memory holds, as many as reported, reach the port and the buffer is freed, exactly if there are any and the port is open; else nothing changes |
| `VirtioSerial.VirtioSerial.PopUsedRx` | src/devices/virtio_serial/src/lib.rs:793-814 | receiving keeps ownership exact and the counters above what the device holds, so the counter never runs out; with good answers it fails only if the port is not open; it leaks nothing if it succeeds |
| `VirtioSerial.VirtioSerial.Dequeue` | src/devices/virtio_serial/src/lib.rs:745-762 | data already received comes out oldest first; otherwise the same as for one receive; the index is out of range, where the source panics, exactly for ports whose low 16 bits are above 1 |
| `VirtioSerial.PortQueueIndex` | src/devices/virtio_serial/src/lib.rs:678-684 | the index is in range exactly if the low 16 bits of the port are at most 1, it is then even, and it is the control queue's exactly for the ports other than 0 whose low 16 bits are 0 |
| `VirtioSerial.OwnQueueExactly` | src/devices/virtio_serial/src/lib.rs:678-684 | a port has a queue that is there, is no control queue and is no other supported port's exactly if it is a supported port |
| `VirtioSerial.AliasedPorts` | src/devices/virtio_serial/src/lib.rs:678-684 | port 0x1_0000 gets the control queue, port 0x1_0001 the queue of port 1 |
| `VirtioSerial.VirtioSerial.PortQueuePush` | src/devices/virtio_serial/src/lib.rs:880-891 | data is appended to the queue of a known port, empty data to none |
| `VirtioSerial.VirtioSerial.PortQueuePop` | src/devices/virtio_serial/src/lib.rs:893-895 | the oldest data of a port comes out first |
| `VirtioSerial.VirtioSerial.AllocatePort` | src/devices/virtio_serial/src/lib.rs:243-255 | a port is allocated exactly if it is in range, connected and free; its receive queue is reset even when that fails |
| `VirtioSerial.VirtioSerial.FreePort` | src/devices/virtio_serial/src/lib.rs:257-265 | a port is released exactly if it is in range and connected; its data is dropped even when that fails |
| `VirtioSerial.VirtioSerial.Init` | src/devices/virtio_serial/src/lib.rs:267-275 | bringing the device up succeeds if the world's answers are good, and on success establishes the invariant with nothing leaked |
| `SerialRuns.Perform` | src/devices/virtio_serial/src/lib.rs:243-762 | each call, whatever the world answers, keeps the invariant, gets a reply that belongs to it and leaks only with a reply that says so; with good answers it fails only for its arguments, for want of data or for a port that is not open, and only a send touches its port's transmit queue |
| `SerialRuns.Run` | src/devices/virtio_serial/src/lib.rs:243-860 | in any world and for any calls every outstanding buffer is a distinct live entry, and if no reply is one that can go with a leak all memory is the rings' or still with the device; two openings of a port have a closing between them; as long as the world's answers are good the device comes up, every reply is a success or explained by its arguments, want of data or a port not open, and the lengths offered on a port's transmit queue are those sent to it, in order |
| `PeerData.EncodePeerData` | src/migtd/src/migration/pre_session_data.rs:344-354 | encodes exactly if both lengths fit a word, into 8 bytes more than the parts |
| `PeerData.DecodeEncode` | src/migtd/src/migration/pre_session_data.rs:344-382 | decoding an encoding returns the pair |
| `PeerData.EncodeDecode` | src/migtd/src/migration/pre_session_data.rs:359-382 | a blob that decodes is byte for byte the encoding of what it decodes to |
| `PeerData.HeaderRoundTrip` | src/migtd/src/migration/pre_session_data.rs:26-57 | a header gives back its kind, and its length exactly if that fits a word |
| `PeerData.HelloRoundTrip` | src/migtd/src/migration/pre_session_data.rs:59-103 | a hello payload gives back its version range |
| `PeerData.NegotiationAgrees` | src/migtd/src/migration/pre_session_data.rs:105-113 | both sides settle on the same version, the greatest in both ranges, and on none exactly if there is none |
| `PreSession.DriveInPieces` | src/migtd/src/migration/pre_session_data.rs:131-147 | where an endpoint gets to does not depend on how its input is split |
| `PreSession.TurnKeepsDrive` | src/migtd/src/migration/pre_session_data.rs:116-147 | none of an endpoint's own turns changes where the bytes on their way will take it |
| `PreSession.InitialInv` | src/migtd/src/migration/pre_session_data.rs:397-434 | two endpoints at their start satisfy the invariant |
| `PreSession.WriteKeepsInv` | src/migtd/src/migration/pre_session_data.rs:116-129 | writing any part of what is pending keeps the channel equal to the piece of the script written and not read |
| `PreSession.ReadKeepsInv` | src/migtd/src/migration/pre_session_data.rs:131-147 | reading any part of what has arrived keeps it too |
| `PreSession.AfterReceiveLocal` | src/migtd/src/migration/pre_session_data.rs:176-338 | an endpoint accepts each message of a compatible peer and remembers the agreed version and the peer's blob |
| `PreSession.StepKeepsInv` | src/migtd/src/migration/pre_session_data.rs:116-434 | every move of either side keeps the invariant and leaves less to do |
| `PreSession.NoDeadlock` | src/migtd/src/migration/pre_session_data.rs:397-434 | until both sides are done one of them can move |
| `PreSession.DoneIsExchanged` | src/migtd/src/migration/pre_session_data.rs:397-434 | when both are done they hold the same version and exactly the other's blob, and nothing is left on the way |
| `PreSession.RunKeepsInv` | src/migtd/src/migration/pre_session_data.rs:397-434 | the invariant holds in every state of every run, and the length of a run is bounded from its start |
| `PreSession.ExchangeSucceeds` | src/migtd/src/migration/pre_session_data.rs:397-434 | for compatible endpoints no run fails, deadlocks or goes on for ever, and a run that cannot go on has exchanged version and blobs |
| `PreSession.RunCompletes` | src/migtd/src/migration/pre_session_data.rs:397-434 | every run can be continued to one that has exchanged version and blobs |
| `PreSession.EncodedIsCompatible` | src/migtd/src/migration/pre_session_data.rs:384-434 | endpoints with overlapping version ranges and encoded blobs of non-empty parts that fit the header are compatible |
| `PreSessionTransport.SendPreSessionData` | src/migtd/src/migration/pre_session_data.rs:116-129 | all of the data goes out in order, or exactly if a write failed a proper prefix did |
| `PreSessionTransport.ReceivePreSessionData` | src/migtd/src/migration/pre_session_data.rs:131-147 | the buffer holds exactly the next bytes of the stream, or exactly if a read failed it is not full |
| `PreSessionTransport.SendHelloPacket` | src/migtd/src/migration/pre_session_data.rs:254-274 | a hello header and payload go out, unless exactly a write failed |
| `PreSessionTransport.ReceiveHelloPacket` | src/migtd/src/migration/pre_session_data.rs:276-317 | reports a version range, a malformed hello or a broken transport exactly as the bytes read take the state machine, and the last exactly if a read failed |
| `PreSessionTransport.ExchangeHelloPacket` | src/migtd/src/migration/pre_session_data.rs:320-338 | the same for the hello exchange and the version settled on |
| `PreSessionTransport.SendPreSessionDataPacket` | src/migtd/src/migration/pre_session_data.rs:149-174 | a header with the blob's length and the blob go out, unless exactly a write failed |
| `PreSessionTransport.ReceivePreSessionDataPacket` | src/migtd/src/migration/pre_session_data.rs:176-206 | the payload is exactly as long as its header says |
| `PreSessionTransport.ReceiveStartSessionPacket` | src/migtd/src/migration/pre_session_data.rs:225-252 | done exactly on a start header of length 0 |
| `PreSessionTransport.PreSessionDataExchange` | src/migtd/src/migration/pre_session_data.rs:397-434 | succeeds, rejects or breaks exactly as the bytes read take the state machine, breaks exactly if the transport failed, and success has sent the whole script |
| `PreSessionTransport.AcceptsExactly` | src/migtd/src/migration/pre_session_data.rs:397-434 | an endpoint ends with a version and a blob exactly if the bytes it read are a hello with that version agreed, that blob with two non-empty parts, and a start message |
| `Mmio.AlignUp` | src/devices/pci/src/mmio.rs:126-131 | for every positive size the masked sum lies between the address and the address plus the size less one; none exactly for size 0 or overflow |
| `Mmio.AlignUpMultiple` | src/devices/pci/src/mmio.rs:126-131 | the result is a multiple of every power of two that divides the size |
| `Mmio.MmioSpace.InitMmio` | src/devices/pci/src/mmio.rs:21-41 | succeeds exactly if no RAM region reaches into a window, and then nothing is granted |
| `Mmio.MmioSpace.AllocMmio32` | src/devices/pci/src/mmio.rs:88-102 | grants exactly if the aligned region fits the window; a grant lies past all earlier ones, and a failed call changes nothing |
| `Mmio.MmioSpace.AllocMmio64` | src/devices/pci/src/mmio.rs:114-124 | the same for the upper window |
| `Mmio.MmioSpace.GrantsMissRam` | src/devices/pci/src/mmio.rs:21-41 | no grant meets RAM |
| `Mmio.Serve` | src/devices/pci/src/mmio.rs:21-131 | for every memory map and series of requests: the windows are accepted exactly if no RAM reaches into them, and then every request is answered from where the earlier ones left the cursors; what is granted is pairwise disjoint, in its window, clear of RAM, as long as asked for and aligned |
| `Mmio.ServedApart` | src/devices/pci/src/mmio.rs:88-124 | the answers to two requests of any series share no byte |
| `PciBars.Mask32` | src/devices/pci/src/config.rs:577 | the mask clears exactly the low four bits |
| `PciBars.BarSize` | src/devices/pci/src/config.rs:577-582 | a probed size is 0 or a multiple of 16, and 0 exactly if no address bit is set |
| `PciBars.BarSize64` | src/devices/pci/src/config.rs:605-610 | the same for a register pair |
| `PciBars.BarSizeOfDevice` | src/devices/pci/src/config.rs:571-583 | the probe recovers the size of a device that decodes a power of two, whatever its flags |
| `PciBars.BarSize64OfDevice` | src/devices/pci/src/config.rs:593-611 | the same for a register pair |
| `PciBars.ConfigSpace.GetBarSize` | src/devices/pci/src/config.rs:571-583 | the size is that of the device's answer to all ones; probing puts the register back and touches no lower one |
| `PciBars.ConfigSpace.GetBarSize64` | src/devices/pci/src/config.rs:593-611 | the same for a register pair |
| `PciBars.Place32` | src/devices/pci/src/config.rs:440-454 | a 32-bit BAR gets address 0 or the base of a fresh region in the window, which its register then holds |
| `PciBars.Place64` | src/devices/pci/src/config.rs:463-474 | the same for a 64-bit BAR and its two registers |
| `PciBars.MasksAreIdentity` | src/devices/pci/src/config.rs:456-476 | the bit masks of 32-bit and 64-bit BARs leave a placed address as it is |
| `PciBars.PciDevice.Look` | src/devices/pci/src/config.rs:430-481 | the entry has the kind the device's word tells and the region its answer to all ones asks for, carved at the cursor of its window |
| `PciBars.PciDevice.Register` | src/devices/pci/src/config.rs:429-485 | one turn of the loop settles one entry and keeps those before it |
| `PciBars.PciDevice.Registers` | src/devices/pci/src/config.rs:425-485 | the loop never leaves the six entries, what it recorded are exactly the new grants, each is what the allocator gives its probe behind the earlier ones, and the probes are all the accesses made; every failure has its access or answer |
| `PciBars.AssignedApart` | src/devices/pci/src/config.rs:429-485 | recorded regions are apart because grants are |
| `PciBars.PciDevice.Init` | src/devices/pci/src/config.rs:407-497 | every recorded memory BAR is 0 or the base of a region of the probed size, carved behind the earlier ones and apart from all others and from earlier grants, and decoding is enabled only then; every failure has its access or answer |
| `Intervals.SortInPlace` | src/devices/virtio/src/virtio_pci.rs:368 | the array is sorted by base in place, stably |
| `Intervals.SortSorts` | src/devices/virtio/src/virtio_pci.rs:368 | sorted, and a permutation |
| `Intervals.NeighboursApart` | src/devices/virtio/src/virtio_pci.rs:369-376 | accepts exactly if every entry passes against the one before it |
| `Intervals.AcceptedExactly` | src/devices/virtio/src/virtio_pci.rs:368-376 | on sorted entries that is: those away from 0 end before all later ones, and the last one at 0 ends before the first one away from it |
| `Intervals.SortPairs` | src/devices/virtio/src/virtio_pci.rs:368 | whether all pairs are apart does not depend on the order |
| `Intervals.NeighboursSuffice` | src/devices/virtio/src/virtio_pci.rs:368-376 | comparing neighbours after sorting makes every two entries away from 0 disjoint |
| `Intervals.ZeroBaseEscapes` | src/devices/virtio/src/virtio_pci.rs:369-376 | six entries of which the one at 0 covers two others pass |
| `Intervals.MissedExactly` | src/devices/virtio/src/virtio_pci.rs:368-376 | on sorted entries that pass, every entry ends before each later one away from 0 exactly if those directly followed by another entry at 0 do |
| `Capabilities.RegionOverlapsPrivateDram` | src/devices/pci/src/mmio.rs:49-74 | false exactly if the region does not wrap, lies above 1 MiB and misses every RAM region |
| `Capabilities.NewMemoryRegion` | src/devices/virtio/src/mem.rs:33-43 | a region is made exactly if it is safe |
| `Capabilities.CheckRegionOverlap.SetRegion` | src/devices/virtio/src/virtio_pci.rs:85-95 | records one entry and leaves the others |
| `Capabilities.VirtioPciTransport.Record` | src/devices/virtio/src/virtio_pci.rs:235-313 | exactly the region and the entry of the structure's type change, and the entries stand for the regions kept, which are long enough and safe |
| `Capabilities.VirtioPciTransport.VirtioCapability` | src/devices/virtio/src/virtio_pci.rs:198-313 | the structure read is accepted exactly if it is aligned, names a BAR, its sums do not overflow and it is usable as its type; only then it is recorded, and the accesses are exactly those of its parts |
| `Capabilities.VirtioPciTransport.MsixCapability` | src/devices/virtio/src/virtio_pci.rs:314-347 | the capability is accepted exactly if it names a BAR and its table is clear of RAM; then the table kept starts at that BAR plus the offset read and has 16 bytes for each vector |
| `Capabilities.VirtioPciTransport.Walk` | src/devices/virtio/src/virtio_pci.rs:164-354 | the walk is determined by the accesses made: the first pointer is the answer at 0x34, each next one the answer behind the last, ids are read at exactly those; it ends well exactly at a link out of range after fewer than sixteen accepted capabilities, and what is kept and recorded is the fold over them; it ends badly exactly on a link met before, a refused capability, the sixteenth one or a failed access |
| `Capabilities.VirtioPciTransport.Capability` | src/devices/virtio/src/virtio_pci.rs:183-347 | one capability is read by its id, judged and, if accepted, joined to what was found; the accesses are exactly its own |
| `Capabilities.GatheredIsTracked` | src/devices/virtio/src/virtio_pci.rs:198-347 | over any list of accepted capabilities the entries recorded stand for the regions kept, which are long enough and clear of RAM |
| `Capabilities.KeptIsLast` | src/devices/virtio/src/virtio_pci.rs:235-313 | what is kept of a kind is the last structure of that kind |
| `Capabilities.VirtioPciTransport.Conclude` | src/devices/virtio/src/virtio_pci.rs:363-379 | accepts exactly if the four required structures were found and neighbours pass after sorting |
| `Capabilities.VirtioPciTransport.Discover` | src/devices/virtio/src/virtio_pci.rs:162-382 | succeeds exactly if the device offers a list, the walk ends well and the test after it passes; each failure has its cause in the accesses |
| `Capabilities.InsideBarExactly` | src/devices/virtio/src/virtio_pci.rs:220-235 | a structure lies in the region of its BAR exactly if there is one and offset plus length is at most its size |
| `Capabilities.TwoBarsPlaced` | src/devices/pci/src/config.rs:407-497 | six registers, two with 4 kB each and four with nothing, are what placing a device can leave |
| `Capabilities.StrayStructure` | src/devices/virtio/src/virtio_pci.rs:160-382 | a device with those registers is set up with a common structure wholly in the region of the other one |
| `Capabilities.CoveringStructure` | src/devices/virtio/src/virtio_pci.rs:160-382 | a device with those registers is set up with an ISR structure that covers the common and the notify structure |
| `Capabilities.PassedIsUsable` | src/devices/virtio/src/virtio_pci.rs:363-379 | what was recorded makes the structures usable once neighbours pass |
| `Capabilities.VirtioPciTransport.Init` | src/devices/virtio/src/virtio_pci.rs:160-382 | on success the registers are placed, the walk went as the device's answers say, and the common, notify and device structures kept are the last described, long enough, clear of RAM, pairwise disjoint and apart from the ISR and PCI-config entries away from 0; each lies in its BAR's region exactly if it ends within the probed size; every failure has its cause |
| `ByteQueues.ChunkVecBuffer.Append` | src/crypto/src/rustls_impl/tls.rs:754-762 | the bytes join the end of the flat queue, and no chunk is empty |
| `ByteQueues.ChunkVecBuffer.Len` | src/crypto/src/rustls_impl/tls.rs:746-752 | the number of bytes held |
| `ByteQueues.ChunkVecBuffer.IsEmpty` | src/crypto/src/rustls_impl/tls.rs:742-744 | no chunk means no byte |
| `ByteQueues.ChunkVecBuffer.IsFull` | src/crypto/src/rustls_impl/tls.rs:736-740 | more bytes held than the limit, if there is one |
| `ByteQueues.ChunkVecBuffer.Read` | src/crypto/src/rustls_impl/tls.rs:764-782 | moves the front of the flat queue, as many bytes as fit or as there are, and leaves the rest of the buffer alone |
| `ByteQueues.ChunkVecBuffer.Consume` | src/crypto/src/rustls_impl/tls.rs:784-798 | drops exactly the first bytes asked for, or all |
| `ByteQueues.Run` | src/crypto/src/rustls_impl/tls.rs:723-799 | over any series of operations every one takes out exactly what it would take out of a flat queue, and the bytes delivered followed by those held are those appended |
| `ByteQueues.NothingLost` | src/crypto/src/rustls_impl/tls.rs:754-798 | over any series of operations on a flat queue the bytes taken out followed by those held are those appended |
| `TlsBuffers.TlsBuffer.TryOrResizeAndRetry` | src/crypto/src/rustls_impl/tls.rs:458-478 | what a writer writes at its first call, or after the buffer grew by what it asked for at its second, is appended; otherwise the contents stay and the error says which call failed |
| `TlsBuffers.TlsBuffer.Resize` | src/crypto/src/rustls_impl/tls.rs:468-469 | keeps the used prefix and fills with zeros |
| `TlsBuffers.TlsBuffer.Reset` | src/crypto/src/rustls_impl/tls.rs:496-500 | empties the buffer and leaves zeros |
| `TlsBuffers.TlsBuffer.Consume` | src/crypto/src/rustls_impl/tls.rs:503-505 | takes bytes into use, never more than are allocated |
| `TlsBuffers.TlsBuffer.Discard` | src/crypto/src/rustls_impl/tls.rs:508-514 | drops exactly the first bytes and wipes the vacated tail |
| `TlsBuffers.Run` | src/crypto/src/rustls_impl/tls.rs:444-515 | over any series of operations each is answered as its inputs and the bytes in use say, the buffer holds what they leave, the bytes that went in are those dropped followed by those in use, and only zeros lie behind them |
| `TlsBuffers.Conserved` | src/crypto/src/rustls_impl/tls.rs:456-514 | over any series of operations the bytes that went in are those dropped followed by those in use |
| `TlsBuffers.RetrySuffices` | src/crypto/src/rustls_impl/tls.rs:458-478 | a writer of the same bytes at both calls always gets them in |
| `TlsBuffers.WriteFailsExactly` | src/crypto/src/rustls_impl/tls.rs:458-478 | a write fails exactly if the first call fails outright, or asks for room and the second call does not do with it |
| `Vsock.RunKept` | src/devices/vsock/src/stream.rs:258-301 | in every state of every run that sends only while the counters are in step the unread bytes fit the buffer of an honest peer, however late its reports |
| `Vsock.BelowWrapInStep` | src/devices/vsock/src/stream.rs:258-301 | every run of fewer than 2^32 bytes towards an honest peer sends only while the counters are in step |
| `Vsock.FreeSpaceExactly` | src/devices/vsock/src/stream.rs:440-443 | the computed free space is never below the true one, and equals it exactly if the counters are in step or the difference of the wrapped counters fills the buffer |
| `Vsock.WrapOverruns` | src/devices/vsock/src/stream.rs:258-301 | a run towards an honest peer that keeps to the computed free space and leaves twice the peer's buffer unread |
| `Vsock.VsockStream.RecvData` | src/devices/vsock/src/stream.rs:385-404 | a payload joins the queue exactly if it is there in full and, when own space runs short, the peer can be told; the count advances even if that fails |
| `Vsock.VsockStream.RecvPacketConnected` | src/devices/vsock/src/stream.rs:371-414 | the count and the buffer size of any packet are taken over; each kind of packet succeeds exactly when stated, only data joins the queue, only a shutdown ends the connection |
| `Vsock.VsockStream.Send` | src/devices/vsock/src/stream.rs:258-301 | sends all bytes in order, each packet within the computed free space; whatever fails, a prefix went out and is what is counted, and below 2^32 bytes the unread bytes fit the buffer of an honest peer |
| `Vsock.VsockStream.WithinCredit` | src/devices/vsock/src/stream.rs:440-443 | bytes sent and not read fit the buffer of an honest peer below 2^32 bytes, and beyond as long as sending was in step |
| `Vsock.VsockStream.Drain` | src/devices/vsock/src/stream.rs:313-326 | moves the front of the flat queue, as many bytes as fit or as there are |
| `Measurement.FoldTells` | src/migtd/src/event_log.rs:239-271 | a register tells the digests it was extended with, in order, unless folding them collides |
| `EventLogs.ReplayEventLogWithReport` | src/migtd/src/event_log.rs:235-288 | accepts exactly the logs that name only registers there are and fold to the reported values |
| `EventLogs.ExtendSlot` | src/migtd/src/event_log.rs:255-257 | the double-width register holds the extended value in its lower half |
| `EventLogs.EventLog.EventLogSize` | src/migtd/src/event_log.rs:80-91 | the size of the events shown |
| `EventLogs.EventLog.ExtendRtmr` | src/migtd/src/event_log.rs:164-175 | extends one of the four registers, or none for another index or if the TDX call fails |
| `EventLogs.EventLog.WriteTaggedEventLog` | src/migtd/src/event_log.rs:116-153 | the register is extended before space is checked; the log verifies afterwards exactly if a byte is spare or the extension leaves the register as it was |
| `EventLogs.VerifiesAfterWrite` | src/migtd/src/event_log.rs:116-153 | with the new event the log replays to the new registers, without it only if they did not change |
| `EventLogs.ExactFillIsHidden` | src/migtd/src/event_log.rs:68-78 | an event that fills its buffer to the last byte is never shown |
| `EventLogs.SliceShowsAll` | src/migtd/src/event_log.rs:68-78 | a slice with one byte more than the events shows all of them |
| `EventLogs.WriteAll` | src/migtd/src/event_log.rs:116-175 | a series of writes goes through with a byte to spare exactly if the TDX calls work, all name registers and the sizes sum up to less than the capacity; then the log verifies, holds exactly these events more, and every register is the fold of the blobs measured into it |
| `EventLogs.AcceptedLogsAgree` | src/migtd/src/event_log.rs:239-271 | two logs accepted against the same registers have the same digests for each, however they interleave them |
| `MigtdHash.Rtmr.ExtendWithRawData` | tools/migtd-hash/src/lib.rs:179-187 | extends the register with the hash of the data |
| `MigtdHash.Rtmr1` | tools/migtd-hash/src/lib.rs:123-140 | the fold of the issuer chain, for version 2 policies, on the firmware's value |
| `MigtdHash.Rtmr2` | tools/migtd-hash/src/lib.rs:142-159 | the fold of the policy and, for version 1, the root CA, or of the test event |
| `MigtdHash.BootBlobs` | src/migtd/src/bin/migtd/main.rs:156-209 | what the boot measures into each register |
| `MigtdHash.DoMeasurements` | src/migtd/src/bin/migtd/main.rs:156-209 | the measurements go through exactly if the TDX calls work and they fit with a byte to spare; then the tool's RTMR2 is the boot's, and its RTMR1 exactly if the image is not built with both options, or the extension leaves the register as it was |
| `CertChains.IsCaMeans` | src/crypto/src/lib.rs:355-368 | a certificate counts as a CA exactly if its first BasicConstraints extension decodes with cA=TRUE |
| `CertChains.IsCaCertificate` | src/crypto/src/lib.rs:355-368 | the loop computes that, errors included |
| `CertChains.ExtractCertChain` | src/crypto/src/lib.rs:139-155 | all certificates in order, if there is one and all decode |
| `CertChains.VerifyCertificateChain` | src/crypto/src/lib.rs:158-180 | accepts exactly the chains whose every link verifies, and reports the first that does not |
| `CertChains.ValidateChains` | src/crypto/src/lib.rs:294-326 | accepts exactly if the links verify, the roots are equal, the leaf subjects are equal and every issuer is a CA |
| `CertChains.ValidatePeerCertChain` | src/crypto/src/lib.rs:290-327 | the same from PEM text |
| `CertChains.ChainIsTrusted` | src/crypto/src/lib.rs:158-180 | trust passes from the root down a chain of any length |
| `CertChains.AcceptedLeafIsTrusted` | src/crypto/src/lib.rs:290-327 | an accepted leaf is in every set that holds the local root and is closed under issuing by its CAs |
| `CertChains.AcceptedLeafKeyIsTrusted` | src/crypto/src/lib.rs:290-327 | the same for keys |
| `Der.Asn1Wrap` | src/crypto/src/x509.rs:467-495 | tag, shortest length and content; the assertion in the long form cannot fail |
| `Der.WrapInSequence` | src/crypto/src/x509.rs:458-460 | the bytes as the content of a sequence |
| `Der.WrapInBitString` | src/crypto/src/x509.rs:463-465 | the bytes after a zero count of unused bits |
| `Der.ReadWrap` | src/crypto/src/x509.rs:467-495 | a strict decoder gives back exactly the content and whatever follows |
| `Der.WrapRead` | src/crypto/src/x509.rs:467-495 | whatever the decoder accepts is the encoding of what it returns |
| `Der.NestedWraps` | src/crypto/src/x509.rs:458-495 | wraps nest |
| `Base64.Base64Encode` | tools/migtd-collateral-generator/src/collateral.rs:230-264 | the loop produces the groups of the encoding, four characters for every three bytes begun |
| `Base64.DecodeEncode` | tools/migtd-collateral-generator/src/collateral.rs:230-264 | a strict decoder recovers every byte string |
| `Base64.EncodeDecode` | tools/migtd-collateral-generator/src/collateral.rs:230-264 | and accepts no other text for it |
| `Base64.TableValue` | tools/migtd-collateral-generator/src/collateral.rs:231 | the table holds the alphabet in order, without padding or line end |
| `Base64.LinesShape` | tools/migtd-collateral-generator/src/collateral.rs:215-219 | lines of 64 characters, the last of 1 to 64, that make up the text |
| `Base64.DerToPem` | tools/migtd-collateral-generator/src/collateral.rs:212-227 | the loop produces those lines, between the markers |
| `Base64.PemRoundTrip` | tools/migtd-collateral-generator/src/collateral.rs:212-264 | reading the text between the markers gives back the bytes |

## Left out

- Memory ordering, fences and caches: each driver call is atomic, and the device's writes fall between reads.
- Transport registers, interrupts and the layout of the rings in memory: an access works or fails, a wait ends or times out, as the world says. The wait of a send to a port has no timer and is taken to end.
- The contents of DMA memory written by the driver; what the device returns are bytes of the right length, as the world says.
- DmaPages.PageAllocator.AllocPages: addresses are natural numbers, not words of 64 bits.
- `VirtQueue` fields that are inline arrays in the source are sequences that the methods reassign; aliasing of the shared tables with other memory is not modelled.
- VirtioSerial.VirtioSerial.Dequeue: the panic on an index out of range is an error of its own.
- VirtioSerial: the counters of prefilled buffers as such; the control queue's counter is not decremented on receive, so it is only a bound on the outstanding buffers.
- PreSessionTransport.PreSessionDataExchange: the transport moves at least one byte per call or fails; timeouts and the async executor are not modelled.
- The `fuzz` variants of the allocator and of the BAR loop, and the port-I/O access to configuration space.
- PciBars.PciDevice.Init: the vendor and device ids and the command and status words it logs are not modelled; entries of `bars` are counted, not tied to register numbers; what a failed call leaves in `bars` is not modelled.
- Mmio.MmioSpace.InitMmio: the panic is a result of false.
- Capabilities: the library sort is an insertion sort, stable as the library's is; the MSI-X table takes no part in the overlap test, as in the code.
- Wiping of consumed chunks in the chunk queue; the TLS record layer, including the client's read loop, which drops records over its limit.
- TlsBuffers.TlsBuffer.TryOrResizeAndRetry: a writer's two calls are given by what each would do, and bytes that do not fit are asked room for.
- TlsBuffers.Run: discarding more than is in use, where the source panics, is refused.
- TlsBuffers.TlsBuffer.Consume: the sum of used and size does not overflow a machine word.
- Vsock.VsockStream.Send: the counter wraps around, as in a release build; the transport takes at least one byte or fails, and waiting for credit gives up after some number of packets.
- Vsock.VsockStream.RecvPacketConnected: of a shutdown, only that the stream leaves the connected state.
- The vsock transports below header and payload, the rest of the connection state machine, and port allocation.
- The port object of the serial driver drains its cache by the same loop as the vsock stream (`Vsock.VsockStream.Drain`); it is not modelled a second time.
- The bytes of the event log: a log is a row of events with their sizes, and its reader is a stated contract, as the reader is not part of the repository. When a hidden event is overwritten by a shorter one, what is left of it is not modelled.
- EventLogs.EventLog.WriteTaggedEventLog: the 32-bit size field of an event is taken to hold its size.
- SHA-384 and ECDSA, DER parsing of certificates and PEM decoding: parameters. `Measurement.NoCollision` speaks of the inputs the two replays hash, because no hash of all byte strings is injective.
- Der.Asn1Wrap: the content's length is a machine word of 64 bits.
- The policy checks after authentication, the collateral downloads, the remaining fields of TDINFO, emulation and command-line tools: sequenced calls, constants or I/O.
