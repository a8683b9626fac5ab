# Protofire drivers and boot code, in Dafny

This project models the stateful core of the protofire kernel and proves what that code is for:

- the **NVMe** submission and completion queues, as a driver class beside a controller that fetches,
  runs and answers commands in any order with any outcome;
- the **HD Audio** playback ring, its descriptor list and the command rings to the codec;
- the **interrupt identity registry**, a first-fit allocator over per-base windows;
- the **initial user stack** a new process reads its arguments from;
- the **keyboard** decoder with its three bounded queues, and the **user-mapping check**;
- the **boot hand-off** walks, the **virgl** command stream and the **framebuffer console**.

Code that changes things in place is a class or a method on arrays here, and each method is proved
against a specification: a transition of a state machine, an unbounded stream, a ledger of grants, a
history of bytes, a picture. Properties of whole runs are lemmas about those specifications. The
device is always somebody else: where a driver waits, the model lets the device do any finite amount
of work, nondeterministically, before each look at the ring. So are the other callers: where the NVMe
driver gives up its lock, any finite number of their calls may come between.

## How the pieces fit

| file | what it holds |
|---|---|
| `Machine.dfy` | fixed-width integers, results, blits, little-endian words |
| `NvmeProtocol.dfy`, `NvmeRing.dfy` | submission and completion entries, PRP pairs, the phase tag |
| `NvmeModel.dfy`, `NvmeSteps.dfy`, `NvmeRuns.dfy` | the queue pair as a state machine: its invariant, its steps, its runs |
| `NvmeTickets.dfy`, `NvmeRequests.dfy` | answered once; requests from submission to answer among other callers |
| `NvmeDevice.dfy`, `NvmeCredit.dfy`, `NvmeBuffers.dfy` | what a colliding identifier or a shared buffer leads to, and exactly when nothing goes wrong |
| `NvmeRunning.dfy` | what holds even then: the rings, the controller and the reap loop stay in step |
| `NvmeAnswers.dfy` | why a call was answered as it was |
| `NvmeDriver.dfy`, `NvmeAccidents.dfy` | the driver class that takes the steps; accidents on a controller just initialised |
| `NvmeAdminModel.dfy`, `NvmeAdmin.dfy` | the admin queue, a second ring with one caller: its state machine and its class |
| `HdaRing.dfy`, `HdaDriver.dfy` | the playback ring as a FIFO; the rate change and the feed loop |
| `HdaVerbs.dfy` | the verb rings, their state machine and `send_verb` |
| `IrqHandlers.dfy` | the registry against a ledger of grants |
| `UserStack.dfy` | the stack builder and the C runtime that reads it back |
| `Keyboard.dfy`, `UserAccess.dfy` | the decoder against its history; the page walk against a byte walk |
| `Boot.dfy`, `Virgl.dfy` | tag and table walks; the command stream |
| `Screen.dfy`, `Console.dfy` | pixels and scrolling; the console's cursor machine |

Integers are unbounded unless the source's width matters; there the wrap is written out, and where
a debug build would panic instead the model follows the release build, which wraps.

## Where the code and its intent part

- `claim` and its relatives say that a refused claim writes nothing (src/arch/irq_handlers.rs:116-118). A
  refusal for want of room keeps the window it opened for its base, so four refusals of new bases leave a
  registry with no handlers that refuses every other base (`IrqHandlers.RefusalsUseUpWindows`). Handler
  tables are indeed untouched by every refusal.
- The run check adds a start and a count in 32 bits, so it is right exactly for runs that end below the
  last identity (`IrqHandlers.CheckRunExact`). A run that ends with it is granted whoever holds it. The ledger
  survives a claim exactly unless its range reaches the last identity, a run fits, and no run in the range is
  clear (`IrqHandlers.Registry.ClaimRun`, whose condition speaks of the state before the call); two claims of
  the last identity are both granted it (`IrqHandlers.TwoOwners`).
- `run_blocks` compares a saturated sum with the block count. It accepts exactly the runs inside the
  namespace if and only if the namespace has fewer than 2^64 - 1 blocks (`NvmeDriver.RunBlocksExact`).
- A flush always carries identifier 0, which a slot can also hold. Every completion goes to its own request,
  in every continuation of a flush, if and only if nothing outstanding has that identifier
  (`NvmeCredit.FlushExact`). A read that waits under it can be answered Done(Ok) before it has run
  (`NvmeCredit.FlushAnswersRead`), and the flush can only time out (`NvmeAccidents.FlushBehindRead`). The same
  holds of a reservation and the identifier it hands out (`NvmeCredit.BookExact`, `NvmeSteps.FreshIds`): behind
  a flush that timed out the first read can be answered before it has run (`NvmeAccidents.ReadBehindFlush`).
- A read that times out leaves its slot booked, with the caller's buffer as destination. A later read into
  that buffer is right in every continuation if and only if no other slot waits for an unanswered read that
  brings other bytes to a shared part of it (`NvmeBuffers.DestinationExact`); on a fresh controller two reads
  into one buffer can end with Done(Ok) and the first one's bytes (`NvmeAccidents.StaleRead`).
- An admin command is given the oldest completion not yet consumed, or that of any unanswered command the
  controller can take: each of these on some schedule, and no other on any (`NvmeAdminModel.AnswerableExact`).
  It is its own on every schedule if and only if nothing was outstanding (`NvmeAdminModel.OwnAnswer`); behind a
  command that timed out it can be the earlier one's (`NvmeAccidents.LateAdminAnswer`). The submission ring is
  not checked for room, and a full one looks empty: the controller can ever take the command if and only if
  there was room (`NvmeAdminModel.RoomExact`).
- A codec verb is given the newest answer. It is its own on every schedule if and only if nothing was
  outstanding (`HdaVerbs.OwnVerb`); behind a verb that timed out it can be the earlier one's
  (`HdaVerbs.LateVerb`).
- A change of sample rate starts the engine before the codec is told and before the ring is reset. If the
  codec does not answer, ring and rate stay the old ones while the engine has started again: it goes on with
  what was left exactly when it is where it had stopped. If the codec answers, nothing stale is played
  exactly when the engine has not moved yet (`HdaDriver.PlaybackStream.Reprogram`, `HdaRing.RestartExact`).
  Later writes at that rate join whatever stream the restart left (`HdaDriver.PlaybackStream.WritePcm`).
- The count of waits is set back only by a copy or a rate change. After a timeout the next write that finds the
  ring full gives up at its first look (`HdaDriver.PlaybackStream.FeedOnce`).
- The page walk agrees with a walk over every byte if and only if inside a page nothing allowed at an address
  is refused further up (`UserAccess.WalkExact`), which mappings of whole pages satisfy.
- The Multiboot2 searches compare tag headers with the block's size, but not a tag's own size, although
  every read is said to be bounded by it (src/arch/boot.rs:104-106). They stay inside the block exactly under
  the conditions of `Boot.CommandLineInside`, `Boot.RegionsInside` and `Boot.FramebufferInside`, and always
  inside one a loader laid out (`Boot.HandedInside`); a block of sixteen bytes whose one tag claims a hundred
  makes each of them leave it (`Boot.ShortBlockLeft`).
- `run_prp` describes the run it is asked for exactly when the run lies inside one page or starts on a
  page boundary and has at most two pages (`NvmeProtocol.RunPrpDescribes`).
- The console's scroll leaves the intended picture on every screen if and only if the mode and background
  colour meet a condition (`Screen.ScrollExact`): for pixels of other than four bytes the height is a
  multiple of 16, since the code clears the last whole row of glyphs; for four-byte pixels the fill word
  looks the same from the start of every row, as it does when the pitch is a multiple of four. A clear with
  four-byte pixels writes whole words only; `Screen.ClearExact` gives the condition in the same way.

## Model

| member | source | states |
|---|---|---|
| `NvmeProtocol.NvmeSqe.Zeroed` | src/drivers/nvme_protocol.rs:117-119 | every field of a zeroed entry decodes to zero |
| `NvmeProtocol.NvmeSqe.SetOpcode` | src/drivers/nvme_protocol.rs:121-124 | sets the opcode the controller decodes and leaves every other decoded field as it was |
| `NvmeProtocol.NvmeSqe.SetNsid` | src/drivers/nvme_protocol.rs:125-127 | sets the namespace and no other field |
| `NvmeProtocol.NvmeSqe.SetCommandId` | src/drivers/nvme_protocol.rs:129-137 | sets the command identifier in the upper half of the first word and no other field |
| `NvmeProtocol.NvmeSqe.SetPrp1` | src/drivers/nvme_protocol.rs:151-160 | a 64-bit address split over two words decodes back whole; no other field moves |
| `NvmeProtocol.NvmeSqe.SetPrp2` | src/drivers/nvme_protocol.rs:167-174 | as above for the second address |
| `NvmeProtocol.NvmeSqe.SetCdw` | src/drivers/nvme_protocol.rs:177-181 | sets words 10 to 12 and no other field |
| `NvmeProtocol.RunSqe` | src/drivers/nvme.rs:644-663 | the controller recovers the 64-bit block address from its two halves and the block count from its zero-based field, for every address and 1 to 65536 blocks |
| `NvmeProtocol.StatusWord` | src/drivers/nvme_protocol.rs:214-235 | status code, phase tag and success are read back exactly from the word a controller posts |
| `NvmeProtocol.RunPrpDescribes` | src/drivers/nvme_protocol.rs:25-32 | the address pair covers exactly the run's bytes, in order, if and only if the run is inside one page or page-aligned and at most two pages |
| `NvmeProtocol.RunTransfer` | src/drivers/nvme_protocol.rs:19-32 | a transfer through the pair of a page-aligned buffer is a plain copy, in both directions |
| `NvmeRing.TaggedPost` | src/drivers/nvme.rs:730-750 | posting a completion keeps the tag discipline of the ring and disturbs no entry of the last lap |
| `NvmeRing.TaggedRead` | src/drivers/nvme.rs:730-750 | in a ring that is never lapped the entry at the head carries the expected tag if and only if it was published, through any number of wraps |
| `NvmeModel.Occupancy` | src/drivers/nvme.rs:682-704 | outstanding commands are at most the waiting slots plus one flush, so the unchecked tail never reaches an unfetched entry and the completion ring never fills |
| `NvmeSteps.FetchKeeps` | src/drivers/nvme.rs:682-704 | the controller fetching an entry keeps the queue invariant |
| `NvmeSteps.CanAlwaysRun` | src/drivers/nvme.rs:644-675 | every entry a controller can fetch names a run inside its slot's own buffer and inside the medium |
| `NvmeSteps.RunKeeps` | src/drivers/nvme.rs:857-899 | running a command, with any outcome, keeps the invariant and touches no other request's data |
| `NvmeSteps.PublishKeeps` | src/drivers/nvme.rs:721-784 | posting a completion keeps the invariant |
| `NvmeSteps.PhaseTag` | src/drivers/nvme.rs:721-750 | the driver sees an entry if and only if there is a completion it has not consumed, and it is the oldest such |
| `NvmeSteps.Credit` | src/drivers/nvme.rs:760-780 | the slot a completion's identifier names is the slot of the request that caused it; none exactly for a flush |
| `NvmeSteps.ReapKeeps` | src/drivers/nvme.rs:721-784 | consuming a completion, crediting its slot and copying a read out keeps the invariant |
| `NvmeSteps.ReleaseKeeps` | src/drivers/nvme.rs:901-923 | giving a finished slot back keeps the invariant |
| `NvmeSteps.FreshIds` | src/drivers/nvme.rs:633-640 | the identifier a reservation hands out is unused if and only if no booked slot is a multiple of 65536 reservations old and, for 0, no flush is outstanding |
| `NvmeSteps.BookKeeps` | src/drivers/nvme.rs:633-704 | booking a slot and submitting its entry keeps the invariant |
| `NvmeSteps.FillKeeps` | src/drivers/nvme.rs:875-899 | filling a free slot's buffer with a caller's bytes disturbs no request |
| `NvmeSteps.FlushKeeps` | src/drivers/nvme.rs:1011-1021 | a flush with its identifier unused keeps the invariant |
| `NvmeRuns.InitialInv` | src/drivers/nvme.rs:223-256 | the queues as initialisation leaves them satisfy the invariant |
| `NvmeRuns.PathKeeps` | src/drivers/nvme.rs:605-784 | every interleaving of driver and controller steps keeps the invariant |
| `NvmeRuns.ConsumesInOrder` | src/drivers/nvme.rs:721-784 | over any run the driver consumes exactly the posted completions, each once, in publication order, none stale or unpublished |
| `NvmeRuns.DoneMeansCompleted` | src/drivers/nvme.rs:901-923 | a slot is Done only after its own request's completion, posted exactly once, was consumed; the answer is that status and a read's bytes are in the caller's buffer |
| `NvmeRuns.SlotKept` | src/drivers/nvme.rs:633-640 | until it is released a booked slot keeps its request, buffer and destination, and an answer does not change |
| `NvmeRuns.Linearizable` | src/drivers/nvme.rs:605-784 | for a controller that runs each command at one moment, there is one order of the commands that explains the medium and every read, and respects answered-before-submitted, for every schedule |
| `NvmeRuns.ByteAlong` | src/drivers/nvme.rs:875-899 | along any run a byte with one write on its way is either the old byte or that write's, and changes by that write alone |
| `NvmeRuns.ReadAlong` | src/drivers/nvme.rs:857-873 | a read running on the way with no write over a byte returns the byte the medium had at the start |
| `NvmeTickets.AnsweredOnce` | src/drivers/nvme.rs:901-923 | over every run a request is answered Done, and its slot released, at most once |
| `NvmeTickets.ReleasedUnknown` | src/drivers/nvme.rs:901-923 | once a slot is released no slot has its ticket |
| `NvmeTickets.StaysUnknown` | src/drivers/nvme.rs:901-923 | such a ticket finds no slot, over every run, until a booking hands out the same identifier |
| `NvmeRequests.ReadDone` | src/drivers/nvme.rs:857-923 | when a queued read's slot answers Done(Ok) the caller's buffer holds the medium's bytes, over every run of callers and controller that neither releases the slot nor submits a write to the range |
| `NvmeRequests.WriteDone` | src/drivers/nvme.rs:875-923 | when a queued write's slot answers Done(Ok) the medium has its bytes, over every run that neither releases the slot nor submits another write to the byte; whatever it answers, no other byte changed |
| `NvmeRequests.ReadRound` | src/drivers/nvme.rs:857-923 | one read from submission to answer among other callers: the medium's bytes when Ok, and the caller's other bytes and every byte nobody may write kept |
| `NvmeRequests.WriteRound` | src/drivers/nvme.rs:875-923 | one write from submission to answer among other callers, byte by byte |
| `NvmeDevice.DeviceIsPath` | src/drivers/nvme.rs:721-784 | from a state of the invariant whatever the controller and the reap loop do is a run of the machine |
| `NvmeCredit.PathFaithful` | src/drivers/nvme.rs:760-780 | with unused identifiers at every submission, every completion and every ticket is its own request's in every state of every run |
| `NvmeCredit.FlushMiscredits` | src/drivers/nvme.rs:1011-1021 | with identifier 0 in use a flush leads to a completion credited to another request |
| `NvmeCredit.FlushExact` | src/drivers/nvme.rs:1011-1021 | every continuation of a flush credits every completion to its own request if and only if nothing outstanding has identifier 0 |
| `NvmeCredit.FlushAnswersRead` | src/drivers/nvme.rs:760-780 | a read waiting under identifier 0 that has not run is answered Done(Ok) by the flush's completion |
| `NvmeCredit.BookMiscredits` | src/drivers/nvme.rs:633-640 | with its identifier in use a submission leads to a ticket that answers for another request, or to a completion credited to another |
| `NvmeCredit.BookExact` | src/drivers/nvme.rs:633-640 | every continuation of a submission credits every completion and ticket to its own request if and only if the identifier reserved is unused |
| `NvmeBuffers.StaleOverwrites` | src/drivers/nvme.rs:760-780 | a read answered Done(Ok) whose buffer an older waiting read shares can be overwritten by the older one's bytes |
| `NvmeBuffers.DestinationExact` | src/drivers/nvme.rs:857-873 | every continuation that answers a read Done(Ok) leaves its bytes in its buffer if and only if no other slot waits for an unanswered read that brings other bytes to a shared part of it |
| `NvmeRunning.RunsReap` | src/drivers/nvme.rs:721-784 | whatever identifiers collide, a published entry is the completion of a live command, and consuming it keeps rings and controller in step |
| `NvmeRunning.RiddenAlong` | src/drivers/nvme.rs:721-784 | whatever identifiers collide, the controller and the reap loop change neither requests nor identifiers nor destinations of the slots |
| `NvmeDriver.RunBlocksExact` | src/drivers/nvme.rs:666-675 | runs accepted are exactly the non-empty block multiples of at most two pages inside the namespace, if and only if the namespace has fewer than 2^64 - 1 blocks |
| `NvmeDriver.NvmeController.constructor` | src/drivers/nvme.rs:223-256 | zeroed queues, phase one, and the two bounce buffers given, one per slot |
| `NvmeDriver.NvmeController.ReserveSlot` | src/drivers/nvme.rs:633-640 | the first free slot and the next identifier, which wraps at 16 bits; Busy with nothing changed when there is none |
| `NvmeDriver.NvmeController.IoSubmit` | src/drivers/nvme.rs:682-704 | the new state is the machine's submission step: entry at the tail, tail advanced, doorbell rung |
| `NvmeDriver.NvmeController.SubmitRead` | src/drivers/nvme.rs:857-873 | InvalidArgument, then Busy, with nothing changed; otherwise the booking of a slot whose entry, for the driver's namespace, reads exactly the asked run into the slot's buffer, which is a step of the machine when the identifier and the destination are unused |
| `NvmeDriver.NvmeController.SubmitWrite` | src/drivers/nvme.rs:875-899 | as above, the caller's bytes copied into the slot's buffer before the entry goes out |
| `NvmeDriver.NvmeController.Consume` | src/drivers/nvme.rs:736-784 | one completion: head advanced, phase flipped at the wrap, doorbell rung, slot credited, read copied out |
| `NvmeDriver.NvmeController.Deliver` | src/drivers/nvme.rs:760-778 | the slot gets its answer, and a successful read its bytes in the caller's buffer; nothing else changes |
| `NvmeDriver.NvmeController.Reap` | src/drivers/nvme.rs:721-784 | from any state with the rings in step: ends with everything published consumed, or with a completion of the awaited identifier that no slot has; from a state of the invariant the whole call is a run of the machine and the completion the awaited flush's own |
| `NvmeDriver.NvmeController.Poll` | src/drivers/nvme.rs:901-923 | the answer of the slot holding the ticket after draining the ring; a Done answer releases the slot, and after it no slot has the ticket; InvalidArgument when none has |
| `NvmeDriver.NvmeController.OthersRun` | src/drivers/nvme.rs:857-923 | any number of other callers' polls, reads, writes and flushes is a run of the machine that leaves this caller's slot, buffer and range alone |
| `NvmeDriver.NvmeController.Await` | src/drivers/nvme.rs:925-969 | polls its own ticket until it answers; times out exactly when the last of 1 000 001 looks, with everything published consumed, finds the slot still waiting; other callers run before every look |
| `NvmeDriver.NvmeController.ReadRun` | src/drivers/nvme.rs:925-969 | one run submitted and awaited among other callers leaves the medium's bytes at its destination when Ok and in any case the earlier part of the caller's buffer as it was; each answer has its one cause, below at `NvmeAnswers.SentAnswered` |
| `NvmeDriver.NvmeController.ReadChunk` | src/drivers/nvme.rs:925-969 | one more chunk extends the part of the buffer that holds the medium's bytes, or leaves it and passes on the run's answer |
| `NvmeDriver.NvmeController.ReadBlocks` | src/drivers/nvme.rs:925-969 | when no write to the range was on its way or allowed to others, the first `done` bytes of the buffer are exactly the medium's, across run splitting and for every schedule of controller and other callers; Ok exactly when that is the whole of a block multiple; InvalidArgument exactly for another length, with nothing changed, or when the next run reaches past the medium; any other answer is the next run's own, for its own cause; no byte of the medium changes that others may not write |
| `NvmeDriver.NvmeController.WriteRun` | src/drivers/nvme.rs:971-1009 | one run of a write among other callers: its bytes on the medium when Ok, no byte changed in any case but its own and those others may write, and the answer's cause as for a read |
| `NvmeDriver.NvmeController.WriteChunk` | src/drivers/nvme.rs:971-1009 | one more chunk extends the part of the range that is on the medium, or leaves every byte but its own and passes on the run's answer |
| `NvmeDriver.NvmeController.WriteBlocks` | src/drivers/nvme.rs:971-1009 | the medium has the first `done` bytes, and every byte outside them but those of the next run is as it was, where no other write was on its way or allowed; Ok exactly when that is the whole of a block multiple; refusals and other answers as for a read |
| `NvmeAnswers.SentAnswered` | src/drivers/nvme.rs:925-1009 | a run that was sent is answered Ok or DeviceError exactly as the controller's own run of that submission went, its completion consumed, and TimedOut only with the looks used up, everything published consumed, and a slot still waiting for that submission |
| `NvmeAnswers.RefusedAnswered` | src/drivers/nvme.rs:633-678 | a run that was not sent is refused InvalidArgument if it is not whole blocks, some but at most one run, inside the medium, and otherwise Busy, with every slot taken, and taken before the call if others book none |
| `NvmeAnswers.AnsweredRefusal` | src/drivers/nvme.rs:665-675 | a part of a longer request is refused exactly for reaching past the medium |
| `NvmeDriver.NvmeController.Flush` | src/drivers/nvme.rs:605-622 | with identifier 0 unused the answer is the flush's own completion, Ok exactly when it succeeded, and a timeout, which comes only with the looks used up and everything published consumed, leaves a command without a slot; while a slot has the identifier it can only time out; behind an abandoned flush the answer is that of one of the two |
| `NvmeDriver.NvmeController.WriteThenRead` | src/drivers/nvme.rs:925-1009 | what is written reads back, through any schedule of controller and other callers; the read is made exactly when the write went well, and then fails only as Busy, TimedOut or DeviceError, for their own causes |
| `NvmeAccidents.FlushBehindRead` | src/drivers/nvme.rs:605-622 | on a controller just initialised a flush behind the first read times out on every schedule |
| `NvmeAccidents.ReadBehindFlush` | src/drivers/nvme.rs:633-640 | on a controller just initialised, behind a flush that timed out, the first read can be answered Done(Ok) before it has run |
| `NvmeAccidents.StaleRead` | src/drivers/nvme.rs:857-873 | on a controller just initialised, of two reads of different blocks into one buffer the second can be answered Done(Ok) with the buffer not holding its block |
| `NvmeAccidents.LateAdminAnswer` | src/drivers/nvme.rs:517-590 | on a new admin queue, behind a command that timed out, the next caller can be given that command's completion |
| `NvmeAdmin.AdminQueue.TakeNext` | src/drivers/nvme.rs:549-588 | consumes the entry at the head exactly when it is published, and it is the oldest completion not consumed |
| `NvmeAdmin.AdminQueue.AdminSubmitAndWait` | src/drivers/nvme.rs:517-590 | after some schedule of the controller the entry at the head is consumed, or the wait times out at the last of 1 000 001 looks with none published; from a ring in order it is an answerable command's and carries its identifier, and the ring stays in order exactly when it had room |
| `NvmeAdminModel.RunProgress` | src/drivers/nvme.rs:517-590 | whatever the controller does from a ring in order, it answers commands not answered before, overwrites nothing, and takes none while the doorbell shows none |
| `NvmeAdminModel.AnswerableExact` | src/drivers/nvme.rs:517-590 | a command's completion is what the next look finds on some schedule if and only if it is the oldest unconsumed one, or none is unconsumed and the command is unanswered and can be taken |
| `NvmeAdminModel.RoomExact` | src/drivers/nvme.rs:517-546 | some schedule takes the command if and only if the submission ring had room for it |
| `NvmeAdminModel.OwnAnswer` | src/drivers/nvme.rs:517-590 | a caller can be given a completion, and on every schedule that gives one it is its own command's, if and only if every earlier command was answered and its answer taken |
| `HdaRing.EntryRoundTrip` | src/drivers/hda_protocol.rs:344-362 | a descriptor read back from its sixteen bytes is the one encoded |
| `HdaRing.PopulateBdl` | src/drivers/hda_protocol.rs:370-382 | the list describes consecutive pieces that cover the ring exactly, and the interrupt bit is set in the last entry's bytes and no other's; a list too short is refused and untouched |
| `HdaRing.LocateInRing` | src/drivers/hda_protocol.rs:370-382 | through a populated list every link position is the byte at that offset of the ring |
| `HdaRing.PositionsExact` | src/drivers/hda_protocol.rs:409-421 | the two positions give exactly the bytes written and not yet known played, and the free space before the reserve; equal positions mean empty and only that |
| `HdaRing.BdlRingState.SyncReadFromLink` | src/drivers/hda_protocol.rs:425-427 | a link position that may be stale moves the consumer to the stream position it stands for, whatever it said before |
| `HdaRing.BdlRingState.CopyInto` | src/drivers/hda_protocol.rs:435-446 | the stream grows by exactly the prefix that fits before the reserve, and no unplayed byte is overwritten |
| `HdaRing.CopyWrapped` | src/drivers/hda_protocol.rs:435-446 | the bytes lie in order from the position, round the end of the ring, and no other byte changes |
| `HdaRing.FifoPlays` | src/drivers/hda_protocol.rs:392-447 | the engine finds the next byte of the stream at its link position |
| `HdaRing.RingIsFifo` | src/drivers/hda_protocol.rs:370-447 | for every interleaving of copies, playing and late re-synchronisation, through any number of wraps, what is played through the descriptor list is a prefix of what was written |
| `HdaRing.RestartExact` | src/drivers/hda.rs:572-630 | an engine restarted at a link position goes on with what was left if and only if that is where it had stopped |
| `HdaDriver.PlaybackStream.FeedOnce` | src/drivers/hda.rs:700-726 | one turn copies exactly what fits and forgets the waits, or finds the ring full and counts one; it is stuck exactly at the limit of waits |
| `HdaDriver.PlaybackStream.Feed` | src/drivers/hda.rs:700-726 | the stream grows by exactly the samples counted as done, and the loop ends: with all of them, or with the ring full and the waits used up |
| `HdaDriver.PlaybackStream.Reprogram` | src/drivers/hda.rs:572-699 | a rate change the codec answers starts an empty ring, with nothing stale to play exactly when the engine has not moved; one it does not answer keeps ring and rate, and the engine goes on with what was left exactly when it is where it had stopped |
| `HdaDriver.PlaybackStream.WritePcm` | src/drivers/hda.rs:678-728 | the stream being played, or the one a rate change left, grows by a prefix of the samples, by all of them exactly when the answer is Ok; otherwise the ring is full and the waits are used up; a rate change that fails writes nothing; Unsupported without converter or buffers; the loop ends for every sequence of link positions |
| `HdaVerbs.PointersApart` | src/drivers/hda.rs:446-503 | the response write pointer tells any two moments fewer than 256 answers apart |
| `HdaVerbs.CommandRings.QueueVerb` | src/drivers/hda.rs:446-470 | the verb goes after the last one; the rings stay in step exactly when there was room, and then it is where the controller will look and no verb it has yet to take is overwritten |
| `HdaVerbs.CommandRings.SendVerb` | src/drivers/hda.rs:446-503 | after some schedule of the controller the newest answer, or a timeout after the last of the polls with none to see; with room it is the codec's answer to one of the verbs outstanding, and this verb's own when nothing was |
| `HdaVerbs.QueuedSeen` | src/drivers/hda.rs:446-465 | the controller sees a verb to take after one more is queued if and only if fewer than 255 were unanswered |
| `HdaVerbs.SeesExact` | src/drivers/hda.rs:463-497 | the pointer differs from the one remembered exactly when an answer was not gone past, and the entry read is the newest answer |
| `HdaVerbs.OwnVerb` | src/drivers/hda.rs:446-503 | on every schedule that shows an answer it is the verb's own if and only if nothing was outstanding |
| `HdaVerbs.LateVerb` | src/drivers/hda.rs:446-503 | on new rings, behind a verb that timed out, the next caller can be given that verb's answer |
| `IrqHandlers.CheckRunExact` | src/arch/irq_handlers.rs:200-204 | the check answers for every table whether a run is free if and only if the run ends below the last 32-bit identity |
| `IrqHandlers.OpenKeeps` | src/arch/irq_handlers.rs:80-91 | opening a window registers nothing, hides nothing and keeps bases distinct |
| `IrqHandlers.GrantChanges` | src/arch/irq_handlers.rs:159-215 | writing a run changes the handlers of exactly that run of that base, even where another base uses the same slot numbers |
| `IrqHandlers.LedgerGrows` | src/arch/irq_handlers.rs:159-215 | a grant of identities nobody had keeps table and ledger in step and every identity with at most one owner |
| `IrqHandlers.RunVsLedger` | src/arch/irq_handlers.rs:200-204 | the table check is exactly the question whether any earlier claim holds part of the run, for every run that ends below the last identity, and always passes for one that ends with it |
| `IrqHandlers.Registry.constructor` | src/arch/irq_handlers.rs:61-68 | no window, no handler, no grant |
| `IrqHandlers.Registry.Open` | src/arch/irq_handlers.rs:80-91 | the base's window, or the first unused one; none exactly when the base is new and all are taken |
| `IrqHandlers.Registry.ClaimRun` | src/arch/irq_handlers.rs:159-215 | the least start whose whole run, ending by the bound given and inside the 256 identities of the base, is free or ends with the last identity; NoSpace exactly when there is none or no window, InvalidArgument for a bad request; tables and ledger unchanged on every error, and windows too exactly unless a new base opened one; the ledger survives exactly unless the range reaches the last identity, a run fits and none is clear |
| `IrqHandlers.Registry.Search` | src/arch/irq_handlers.rs:200-215 | tries every start in turn and grants the first whose whole run the check passes |
| `IrqHandlers.Registry.GrantRun` | src/arch/irq_handlers.rs:205-210 | exactly the run's handlers change, and the ledger survives the grant exactly when nobody held any of it |
| `IrqHandlers.Registry.Claim` | src/arch/irq_handlers.rs:130-138 | the same, with one handler for the whole run |
| `IrqHandlers.Registry.ClaimEach` | src/arch/irq_handlers.rs:147-151 | the same, with one handler per identity in order and the count cut to 32 bits |
| `IrqHandlers.TwoOwners` | src/arch/irq_handlers.rs:159-215 | two claims of the last identity are both granted it, and the ledger is broken |
| `IrqHandlers.Registry.IsRegistered` | src/arch/irq_handlers.rs:106-112 | true exactly for identities some claim of this base was granted |
| `IrqHandlers.Registry.Dispatch` | src/arch/irq_handlers.rs:225-241 | runs exactly the handler the identity's claim gave it, and none for an identity no claim of this base was granted |
| `IrqHandlers.RefusalsUseUpWindows` | src/arch/irq_handlers.rs:116-118 | refused claims can leave no room for any further base, against the documentation |
| `UserStack.PushCStrings` | src/arch/user_loader.rs:271-292 | the strings lie below the old top in caller order with terminators, at the addresses answered; fails exactly when they do not fit above zero |
| `UserStack.WriteU64StackEntry` | src/arch/user_loader.rs:298-308 | one little-endian word recorded at the cursor, which advances unless the addresses end there |
| `UserStack.WriteMetadata` | src/arch/user_loader.rs:228-244 | argc, the pointers with their NULLs, and the auxiliary vector with its AT_NULL, contiguous from the final pointer |
| `UserStack.LayOut` | src/arch/user_loader.rs:246-260 | the recorded writes over zeros |
| `UserStack.BuildInitialUserStack` | src/arch/user_loader.rs:191-265 | OutOfMemory exactly when the aligned layout does not fit; otherwise the image, a 16-byte aligned pointer not below the bottom, and disjoint writes inside the stack with zeros between |
| `UserStack.StackRead` | src/arch/user_loader.rs:191-308 | a C runtime reading the bytes from the returned pointer finds every string up to its first NUL and the vector up to its first AT_NULL |
| `UserStack.StackRoundTrip` | src/arch/user_loader.rs:191-308 | it finds exactly the given lists, in order, if and only if no string holds a NUL and no entry has the key AT_NULL |
| `Keyboard.HeldLater` | src/drivers/keyboard.rs:500-540 | a byte decides whether a modifier is held if it is a plain make or break of it, and changes nothing otherwise |
| `Keyboard.CapsLater` | src/drivers/keyboard.rs:524-531 | the number of plain CapsLock presses grows by one exactly at such a press |
| `Keyboard.ModifiersLater` | src/drivers/keyboard.rs:486-534 | the decoder's step is the step of the history specification: held by the last plain make or break, caps by parity |
| `Keyboard.OneEventEach` | src/drivers/keyboard.rs:486-568 | for every byte sequence the events are as many as the plain bytes and the mapped prefixed pairs, one each |
| `Keyboard.MakesEventExact` | src/drivers/keyboard.rs:343-358 | a byte makes an event if and only if it is plain or ends a pair of one of the ten keys behind the prefix |
| `Keyboard.NothingLost` | src/drivers/keyboard.rs:561-568 | a drop-newest queue that refused nothing has handed out or holds every arrival, in order |
| `Keyboard.Typed` | src/drivers/keyboard.rs:524-551 | over the bytes fed, a plain make types what is printed on its key, alone or with shift as shift and CapsLock say, and nothing else types anything |
| `Keyboard.LetterTyped` | src/drivers/keyboard.rs:524-551 | the three letter rows type q to p, a to l and z to m, a capital exactly when shift is held or CapsLock was pressed an odd number of times, but not both |
| `Keyboard.DigitTyped` | src/drivers/keyboard.rs:524-551 | the digit row types 1 to 9 and 0 exactly when a letter would be small |
| `Keyboard.NothingTyped` | src/drivers/keyboard.rs:524-551 | modifiers, Escape, keys past Space, releases and the keys behind the prefix type nothing |
| `Keyboard.KeyboardCore.Decode` | src/drivers/keyboard.rs:486-559 | prefix state, modifiers and event of one byte |
| `Keyboard.KeyboardCore.QueueRaw` | src/drivers/keyboard.rs:474-480 | the raw queue stays the newest bytes, dropping its oldest when full |
| `Keyboard.KeyboardCore.QueueChar` | src/drivers/keyboard.rs:540-551 | a full character queue refuses; the console gets the character all the same |
| `Keyboard.KeyboardCore.QueueEvent` | src/drivers/keyboard.rs:561-568 | a full event queue refuses; otherwise the event is last |
| `Keyboard.KeyboardCore.FeedScancode` | src/drivers/keyboard.rs:472-577 | modifiers and prefix state are functions of all bytes fed; the raw queue is the newest 64 of them, event and character queues grow by what the byte makes unless they hold 256, and every character reaches the console; what the byte types is what is printed on its key |
| `Keyboard.KeyboardCore.TryReadScancode` | src/drivers/keyboard.rs:587-593 | takes the oldest raw byte; None exactly when there is none |
| `Keyboard.KeyboardCore.TryReadEvent` | src/drivers/keyboard.rs:595-601 | takes the oldest event; what was taken and what waits stays the arrivals in order, less the refused |
| `Keyboard.KeyboardCore.TryReadChar` | src/drivers/keyboard.rs:579-585 | as above for characters |
| `Keyboard.KeyboardCore.EveryEventOnce` | src/drivers/keyboard.rs:472-601 | while none was refused, the events taken and waiting are exactly those the bytes make, in order |
| `UserAccess.NextAddress` | src/arch/user_access.rs:177-182 | the walk strictly advances, inside the page, to the next page or the end, also in the last page of the address space |
| `UserAccess.ContainsExact` | src/arch/user_access.rs:146-148 | the permission test holds if and only if each of the eight bits that is wanted is there |
| `UserAccess.ValidateUserMapping` | src/arch/user_access.rs:129-154 | for whole-page mappings Ok if and only if every byte is mapped with every bit wanted, PermissionDenied if and only if the lowest byte that is not is mapped, InvalidArgument if and only if it is unmapped; overflow refused first; an empty range accepted |
| `UserAccess.ByteWalkUnique` | src/arch/user_access.rs:129-154 | that answer is unique |
| `UserAccess.WalkExact` | src/arch/user_access.rs:129-182 | page walk and byte walk agree on every range and permission if and only if inside a page nothing allowed is refused further up |
| `UserAccess.PassedOver` | src/arch/user_access.rs:129-154 | a byte that refuses what an earlier byte of its page allows is passed over: the walk answers Ok, a byte walk does not |
| `Boot.WalkFindsFirst` | src/arch/boot.rs:112-150 | over any proper list of padded tags the walk finds the first of its kind before the end tag, whatever the others are |
| `Boot.Multiboot2CommandLine` | src/arch/boot.rs:89-153 | for any memory the walk ends, answers the bytes up to a NUL of the tag it finds, and reads exactly the addresses named |
| `Boot.ReadString` | src/arch/boot.rs:131-145 | the bytes before the first NUL, or all of them, and how many were read |
| `Boot.CommandLineRead` | src/arch/boot.rs:112-150 | a loader's block gives the text of its first command-line tag, and None without one |
| `Boot.CommandLineInside` | src/arch/boot.rs:104-145 | the search stays inside the block if and only if the tag found ends there or a NUL comes before the block's end |
| `Boot.SameCommandLine` | src/arch/boot.rs:104-145 | the answer depends on the addresses read and on nothing else |
| `Boot.Multiboot2MemoryRegionsAt` | src/arch/boot.rs:195-276 | for any memory the walk ends, answers the table of the first map tag, or nothing for a tag or entry too small, and reads exactly the addresses named |
| `Boot.ReadTable` | src/arch/boot.rs:250-268 | as many whole entries as fit the tag, those of non-zero length in order |
| `Boot.NonEmptyIs` | src/arch/boot.rs:250-268 | which entries of a table come back, by index: those of non-zero length, each once, in increasing order |
| `Boot.RegionsAre` | src/arch/boot.rs:250-268 | any table in memory gives its entries by that rule |
| `Boot.TableRead` | src/arch/boot.rs:250-268 | a table written to memory reads back as its entries of non-zero length, for every entry size of at least 24 |
| `Boot.RegionsRead` | src/arch/boot.rs:195-276 | a block whose first map lists some entries gives exactly those of non-zero length, in order, for every entry size of at least 24 |
| `Boot.NoRegions` | src/arch/boot.rs:195-276 | a block without a map answers None |
| `Boot.RegionsInside` | src/arch/boot.rs:195-276 | the search stays inside the block if and only if the last entry the tag claims does |
| `Boot.SameRegions` | src/arch/boot.rs:195-276 | the answer depends on the addresses read and on nothing else |
| `Boot.PvhMemoryRegionsAt` | src/arch/boot.rs:458-516 | answers exactly for a block with the magic, a version, 1 to 128 entries and a table inside the map limit |
| `Boot.PvhExact` | src/arch/boot.rs:458-498 | a start-of-day block is trusted exactly when, field by field, it has the magic, a version of at least 1, a table not at 0, 1 to 128 entries, and the table ends by the limit |
| `Boot.PvhRead` | src/arch/boot.rs:458-498 | a start-of-day block laid out byte by byte is recognised and its table found |
| `Boot.TwoProtocols` | src/arch/boot.rs:439-516 | one table handed over either way, in a laid-out PVH block or among Multiboot2 tags, gives the same regions |
| `Boot.Multiboot2FramebufferAt` | src/arch/boot.rs:548-607 | for any memory the walk ends, answers the first framebuffer tag's mode, and reads exactly the addresses named |
| `Boot.FramebufferRead` | src/arch/boot.rs:548-607 | the mode a loader wrote comes back, or None when its address, pitch or a dimension is zero |
| `Boot.FramebufferInside` | src/arch/boot.rs:548-607 | the search stays inside the block if and only if a tag large enough has its fields there |
| `Boot.SameFramebuffer` | src/arch/boot.rs:548-607 | the answer depends on the addresses read and on nothing else |
| `Boot.HandedInside` | src/arch/boot.rs:89-607 | in a block a loader laid out all three searches stay inside |
| `Boot.ShortBlockLeft` | src/arch/boot.rs:104-145 | a block whose one tag claims more than the block has makes each search read past its end |
| `Boot.AvailableBytes` | src/arch/boot.rs:628-633 | the saturating total is the true sum of the available lengths, capped once |
| `Virgl.EncodeClear` | src/abi/virgl.rs:86-95 | the command's words go in whole and nothing else changes, or BufferTooSmall and nothing changes |
| `Virgl.EncodeDraw` | src/abi/virgl.rs:99-118 | as above, with the reserved word zero |
| `Virgl.WalkCommands` | src/abi/virgl.rs:140-163 | accepted commands flatten back to the input; rejection exactly when no framing exists, for the reason the unframed rest gives |
| `Virgl.DecodesOnce` | src/abi/virgl.rs:140-163 | every stream has at most one meaning |
| `Virgl.DecodesBehind` | src/abi/virgl.rs:140-163 | behind an accepted stream any stream decodes as it would alone, accepted or not |
| `Virgl.WordsToLeBytes` | src/abi/virgl.rs:167-173 | as many whole words as fit, little-endian, from the front; the rest of the buffer unchanged |
| `Virgl.LeBytesToWords` | src/abi/virgl.rs:177-187 | as many whole words as there are and as fit; the rest unchanged |
| `Virgl.WordsRoundTrip` | src/abi/virgl.rs:167-187 | words to bytes and back is the identity |
| `Virgl.BytesRoundTrip` | src/abi/virgl.rs:167-187 | bytes to words and back is the identity on whole words |
| `Virgl.SendAndDecode` | src/abi/virgl.rs:86-187 | any sequence of clears and draws, encoded, serialised, deserialised and decoded, comes out the same, whenever the buffer has room |
| `Screen.ScrollExact` | src/drivers/framebuffer_console.rs:497-539 | the picture the code leaves is the intended one on every screen if and only if the mode and colour meet the condition |
| `Screen.WholeWordPitch` | src/drivers/framebuffer_console.rs:520-531 | a pitch of whole words is enough for the word fill |
| `Screen.ClearExact` | src/drivers/framebuffer_console.rs:369-396 | with four-byte pixels a clear leaves background everywhere, on every screen, if and only if mode and colour meet the condition |
| `Screen.WholeWordsClear` | src/drivers/framebuffer_console.rs:369-396 | a pitch of whole words is enough for it |
| `Screen.PixelsApart` | src/drivers/framebuffer_console.rs:473-495 | different pixels share no byte |
| `Console.RowCountsLines` | src/drivers/framebuffer_console.rs:399-442 | for every byte sequence the row is the number of lines started, held at the last row |
| `Console.ColumnStays` | src/drivers/framebuffer_console.rs:399-442 | without escapes the column never passes the end of the line |
| `Console.ColumnAfter` | src/drivers/framebuffer_console.rs:399-442 | after any bytes: the column after a carriage return, a line feed, a backspace, a tab and a character |
| `Console.TextWraps` | src/drivers/framebuffer_console.rs:425-441 | text on a fresh line fills the columns in turn and starts a line each time it is full |
| `Console.BitsOfRow` | src/drivers/framebuffer_console.rs:464-467 | the bits of a glyph row, from left to right, are its binary digits |
| `Console.FramebufferConsole.WritePixel` | src/drivers/framebuffer_console.rs:473-495 | exactly the pixel's bytes are written, inside pitch times height; a pixel off the panel is not |
| `Console.FramebufferConsole.Paint` | src/drivers/framebuffer_console.rs:459-471 | a block of pixels takes its colours; no other pixel and nothing past the screen changes |
| `Console.FramebufferConsole.PutChar` | src/drivers/framebuffer_console.rs:459-471 | the set bits of the glyph are in the foreground colour and all other pixels of the cell in the background colour; no other pixel changes; columns wrap at sixteen bits |
| `Console.FramebufferConsole.DrawCursor` | src/drivers/framebuffer_console.rs:556-572 | the two bottom pixel rows of the cursor's cell, if the cursor is shown |
| `Console.FramebufferConsole.MoveUp` | src/drivers/framebuffer_console.rs:497-512 | the overlapping copy moves the whole image up one row of glyphs |
| `Console.FramebufferConsole.ClearBottom` | src/drivers/framebuffer_console.rs:520-537 | the word fill of the last 16 pixel rows, or the pixels of the last whole row of glyphs |
| `Console.FramebufferConsole.Scroll` | src/drivers/framebuffer_console.rs:497-539 | every visible pixel is the one the mode determines; under the condition each moves up 16 rows and the bottom 16 are background, for both fill paths; nothing past the screen is written |
| `Console.FramebufferConsole.StartLine` | src/drivers/framebuffer_console.rs:404-410 | column zero of the next row, or of the last one with the screen scrolled |
| `Console.FramebufferConsole.Tabulate` | src/drivers/framebuffer_console.rs:411-417 | blanks up to the next multiple of eight or the last column |
| `Console.FramebufferConsole.Advance` | src/drivers/framebuffer_console.rs:399-441 | cursor and picture of one byte: glyph cell, blanked cell, line break with scroll, or nothing |
| `Console.FramebufferConsole.WriteByte` | src/drivers/framebuffer_console.rs:399-442 | the same with the cursor drawn; the row stays on the screen and no byte outside pitch times height is written |
| `Console.FramebufferConsole.WriteStr` | src/drivers/framebuffer_console.rs:444-448 | a string takes a fresh console's cursor where its bytes say |
| `Console.FramebufferConsole.Clear` | src/drivers/framebuffer_console.rs:369-396 | cursor home, and background everywhere whenever the condition holds; with four-byte pixels the picture the word fill leaves, in every mode and for every height |

## Left out

- Register bring-up, volatile access, memory mapping, bus probing and printing in the drivers: the device is a set of abstract steps instead.
- Interrupt parking (`NvmeSignal`, `wait_step`) and the keyboard's timed waits: a wakeup only leads to another look at the same state.
- Identify data, namespaces and shutdown of the NVMe controller; the reserved and fused-operation bits of a submission entry.
- NvmeRuns.Linearizable: that the controller moves all of a command's data at one moment is assumed of it; a controller that interleaves the blocks of two commands is not modelled.
- NvmeDriver.NvmeController.ReadBlocks: stated where the code is right. No slot's destination overlaps the caller's buffer (`DestinationExact` says what happens otherwise), and the identifiers reserved meanwhile are unused (`FreshFor`; `BookExact` says what happens otherwise). `FreshFor` leaves out identifier 0 only where a flush is or may be out, and lets at most 65536 reservations be made while other callers may book, since a slot of theirs may stay booked to the end. The namespace has fewer than 2^64 - 1 blocks.
- NvmeDriver.NvmeController.ReadRun: the same conditions, for one run.
- NvmeDriver.NvmeController.ReadChunk: as `ReadRun`.
- NvmeDriver.NvmeController.WriteBlocks: the same conditions without the one on destinations.
- NvmeDriver.NvmeController.WriteChunk: as `WriteBlocks`.
- NvmeDriver.NvmeController.WriteThenRead: the conditions of both.
- NvmeDriver.NvmeController.OthersRun: other callers submit with unused identifiers into buffers of their own, write only where this caller allows, and make a bounded number of reservations during one call.
- NvmeDriver.NvmeController.Flush: after a flush with its identifier in use only the rings are known to be in step, since enough abandoned flushes overrun the submission ring.
- Lost or repeated completions: the controller answers each command at most once, and names the identifier it was given.
- HdaDriver.PlaybackStream.Reprogram: the three set-up verbs are one question the codec answers or not; format and verb packing are not modelled.
- HdaDriver.PlaybackStream.EngineRuns: the engine never plays past the write position; underrun is not modelled.
- HdaVerbs.CommandRings.SendVerb: what is answered once 255 verbs are outstanding after timeouts is not stated beyond the steps taken, and the codec sends no unsolicited response.
- HdaVerbs.CommandRings.QueueVerb: the rings stay in step exactly when there was room; what a full ring holds is not stated beyond the step taken and `QueuedSeen`.
- IrqHandlers.Registry.ClaimRun: what later calls do after a claim broke the ledger is not stated.
- IrqHandlers.Registry.Dispatch: answers which handler runs; what the handler does and the lock around it are not modelled.
- Loading the program image and the thread's registers in src/arch/user_loader.rs: only the stack is modelled.
- Keyboard.KeyboardCore.FeedScancode: keys are named by their make codes, since the source's table of names is one-to-one; wake-ups and their statistics are not modelled.
- UserAccess.ValidateUserMapping: the address space is any function of the address; how the page tables answer is not modelled.
- Boot.Multiboot2CommandLine: addresses do not wrap at 2^64; the same holds of the other walks.
- The PVH command line and the option search of src/arch/boot.rs, which copy a string the start-of-day block points at and look up a `key=value` word in it, are not modelled.
- Virgl.SendAndDecode: the render-target descriptor and the demo stream are not modelled.
- Console.FramebufferConsole.Scroll: needs a screen of at least one row of glyphs; on a lower one the source's subtraction underflows. The calls that may scroll need the same, the others do not.
- Console.FramebufferConsole.WriteByte: the font is any table of glyph rows; underlines a moved cursor leaves behind stay, as in the source, so no character grid is claimed.
- The system-call, exception and device-tree records, interrupt placement, the mouse, timers and the per-architecture facades: finite tables or thin forwarding.
