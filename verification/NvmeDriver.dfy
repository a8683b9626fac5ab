/** The driver itself: `NvmeController` of src/drivers/nvme.rs, its fields and its methods,
    beside the controller it shares memory with.  Every method's effect is a path of the
    state machine, so what holds of all runs holds of every sequence of calls. */
module NvmeDriver {
  import opened Machine
  import opened NvmeProtocol
  import opened NvmeRing
  import opened NvmeModel
  import opened NvmeSteps
  import opened NvmeRuns
  import opened NvmeRequests
  import opened NvmeTickets
  import opened NvmeDevice
  import opened NvmeCredit
  import opened NvmeRunning
  import opened NvmeAnswers

  /** PRP entries are physical addresses below 52 bits. */
  const PHYSICAL_LIMIT := 0x10_0000_0000_0000

  /** `run_blocks`: check a run against a namespace, and answer the blocks it covers. */
  function RunBlocks(blockCount: u64, lba: u64, bytes: nat): (r: Result<u32>) {
    if bytes == 0 || bytes % BLOCK_SIZE != 0 || bytes > RUN_BYTES then Err(InvalidArgument)
    else
      var blocks: u32 := bytes / BLOCK_SIZE;
      if SaturatingAdd(lba, blocks) > blockCount then Err(InvalidArgument) else Ok(blocks)
  }

  /** A run that is accepted lies inside the namespace, and one that lies inside is accepted,
      exactly because the namespace does not reach the end of the 64-bit block numbers; there
      the saturated sum would let a run past the end. */
  lemma RunBlocksExact(blockCount: u64)
    ensures blockCount < MAX_U64 <==>
            forall lba: u64, bytes: nat ::
              RunBlocks(blockCount, lba, bytes) ==
                if 0 < bytes <= RUN_BYTES && bytes % BLOCK_SIZE == 0 && lba + bytes / BLOCK_SIZE <= blockCount
                then Ok(bytes / BLOCK_SIZE) else Err(InvalidArgument)
  {
    if blockCount == MAX_U64 {
      assert RunBlocks(blockCount, MAX_U64, BLOCK_SIZE) == Ok(1);
    }
  }

  /** The runs the code accepts, as bytes of the medium. */
  lemma ProperIs(blockCount: u64, lba: u64, run: Asked)
    requires blockCount < MAX_U64 && run.lo == lba * BLOCK_SIZE
    ensures RunBlocks(blockCount, lba, run.size).Ok? <==> Proper(run, blockCount * BLOCK_SIZE)
  {
  }

  class NvmeController {
    const nsid: u32
    const blockCount: u64
    // NvmeIoState
    var iosqTail: nat
    var iocqHead: nat
    var iocqPhase: bool
    var nextCmdId: u16
    var slots: seq<IoSlot>
    // Shared memory: the rings, and the memory bounce buffers and callers' buffers live in
    const iosq: array<Words>
    const iocq: array<Cqe>
    var ram: seq<u8>
    // Doorbells
    var sqTailDoorbell: nat
    var cqHeadDoorbell: nat
    // The controller
    var devHead: nat
    var devFetched: nat
    var devTail: nat
    var devPhase: bool
    var jobs: seq<Job>
    var disk: seq<u8>
    var flushesOut: nat
    ghost var h: History

    ghost function View(): Sys
      reads this, iosq, iocq
    {
      Sys(iosqTail, iocqHead, iocqPhase, nextCmdId, slots, iosq[..], iocq[..], ram, sqTailDoorbell, cqHeadDoorbell,
          devHead, devTail, devPhase, jobs, disk, h)
    }

    /** The fields fit together, and the rings and the controller are in step.  Identifiers may
        collide and destinations may overlap. */
    ghost predicate Running()
      reads this, iosq, iocq
    {
      Wired() && Runs(View())
    }

    ghost predicate Wired()
      reads this, iosq, iocq
    {
      && iosq.Length == iocq.Length == QUEUE_ENTRIES
      && |disk| == blockCount * BLOCK_SIZE && blockCount < MAX_U64
      && |ram| <= PHYSICAL_LIMIT
      && devFetched == FetchCount(View())
    }

    ghost predicate Valid()
      reads this, iosq, iocq
    {
      Wired() && flushesOut == |h.strays| && Inv(View())
    }

    /** The controller as `init` leaves it: zeroed queues and one bounce buffer per slot. */
    constructor (nsid: u32, blocks: u64, medium: seq<u8>, memory: seq<u8>, bounce0: nat, bounce1: nat)
      requires |medium| == blocks * BLOCK_SIZE && blocks < MAX_U64 && |memory| <= PHYSICAL_LIMIT
      requires bounce0 % NVME_PAGE_SIZE == 0 && bounce1 % NVME_PAGE_SIZE == 0
      requires bounce0 + RUN_BYTES <= |memory| && bounce1 + RUN_BYTES <= |memory|
      requires Apart(bounce0, RUN_BYTES, bounce1, RUN_BYTES)
      ensures Valid() && Initial(View()) && disk == medium && ram == memory
      ensures |slots| == QUEUE_DEPTH && slots[0].bounce == bounce0 && slots[1].bounce == bounce1
      ensures fresh(iosq) && fresh(iocq)
    {
      this.nsid := nsid;
      blockCount := blocks;
      iosqTail, iocqHead, iocqPhase, nextCmdId := 0, 0, true, 0;
      slots := [IoSlot(SLOT_FREE, bounce0, 0, 0, Pending), IoSlot(SLOT_FREE, bounce1, 0, 0, Pending)];
      iosq := new Words[QUEUE_ENTRIES](_ => seq(SQE_WORDS, _ => 0));
      iocq := new Cqe[QUEUE_ENTRIES](_ => Cqe(0, 0, 0, 0, 0));
      ram := memory;
      sqTailDoorbell, cqHeadDoorbell := 0, 0;
      devHead, devFetched, devTail, devPhase, jobs, disk, flushesOut := 0, 0, 0, true, [], medium, 0;
      h := History([], [], 0, {}, {}, map[], [], medium, [0, 0], [0, 0], 0);
      new;
      InitialInv(View());
    }

    // ---------------------------------------------------------- the controller

    method ControllerFetch()
      requires Running() && CanFetch(View())
      modifies this`devHead, this`devFetched, this`jobs
      ensures Running() && View() == Fetch(old(View()))
    {
      hide Runs;
      ghost var before := View();
      RunsFetch(before);
      jobs := jobs + [Job(devFetched, Interpret(Decode(iosq[devHead])), false, false)];
      devHead, devFetched := Bump(devHead), devFetched + 1;
      assert View() == Fetch(before);
    }

    method ControllerRun(j: nat, ok: bool, junk: seq<u8>)
      requires Running() && j < |jobs| && !jobs[j].ran && |junk| == jobs[j].op.size
      modifies this`jobs, this`ram, this`disk, this`h
      ensures Running() && CanRun(old(View()), j, junk) && View() == Run(old(View()), j, ok, junk)
    {
      hide Runs, Gather, Scatter, Blit, PrpInside;
      ghost var before := View();
      RunsJob(before, j, junk);
      RunsRun(before, j, ok, junk);
      var job, op := jobs[j], jobs[j].op;
      var data :=
        if !ok || op.kind == Other then junk
        else if op.kind == Read then disk[op.lo..op.lo + op.size]
        else Gather(ram, op.prp1, op.prp2, op.size);
      assert data == Moved(View(), op, ok, junk);
      jobs := jobs[j := job.(ran := true, ok := ok)];
      if op.kind == Read {
        ram := Scatter(ram, op.prp1, op.prp2, data);
      } else if op.kind == Write {
        disk := Blit(disk, op.lo, data);
      }
      h := Ran(h, job.req, Outcome(ok, data));
      assert View() == Run(before, j, ok, junk);
    }

    method ControllerPublish(j: nat, code: nat, dw0: u32)
      requires Running() && CanPost(View(), j, code)
      modifies this`jobs, this`devTail, this`devPhase, this`h, iocq
      ensures Running() && View() == Publish(old(View()), j, code, dw0)
    {
      hide Runs, StatusWord, Bump;
      ghost var before := View();
      RunsPublish(before, j, code, dw0);
      ghost var posted := Post(jobs[j].req, code);
      iocq[devTail] := Cqe(dw0, devHead % 0x1_0000, 1, jobs[j].op.cid, StatusWord(code, devPhase));
      devTail := Bump(devTail);
      if devTail == 0 {
        devPhase := !devPhase;
      }
      jobs := jobs[..j] + jobs[j + 1..];
      h := h.(posts := h.posts + [posted]);
      assert View() == Publish(before, j, code, dw0);
    }

    /** Any finite stretch of controller activity: entries fetched, run in any order with any
        status, and completed in any order. */
    method ControllerRuns() returns (ghost acts: seq<Action>)
      requires Running()
      modifies this`devHead, this`devFetched, this`devTail, this`devPhase, this`jobs, this`ram, this`disk, this`h, iocq
      ensures Running() && DeviceRun(old(View()), acts, View()) && Background(acts)
      ensures h.reaped == old(h.reaped) && h.strays == old(h.strays)
    {
      hide Runs, DeviceRun, StatusWord, CanRun, CanPost, Run, Publish, Fetch;
      acts := [];
      DeviceNone(View());
      var n: nat := *;
      while n > 0
        invariant Running() && DeviceRun(old(View()), acts, View()) && Background(acts)
        invariant h.reaped == old(h.reaped) && h.strays == old(h.strays)
        decreases n
      {
        ghost var before, act := View(), ActReap;
        var what: nat, j: nat, code: nat, dw0: u32, ok: bool, junk: seq<u8> := *, *, *, *, *, *;
        if what == 0 && devHead < iosq.Length && devHead != sqTailDoorbell {
          act := ActFetch;
          ControllerFetch();
        } else if what == 1 && j < |jobs| && !jobs[j].ran && |junk| == jobs[j].op.size {
          act := ActRun(j, ok, junk);
          ControllerRun(j, ok, junk);
        } else if what == 2 && j < |jobs| && jobs[j].ran && devTail < iocq.Length && Bump(devTail) != cqHeadDoorbell
                  && code < 0x8000 && (code == 0 <==> jobs[j].ok) {
          act := ActPublish(j, code, dw0);
          assert CanPost(before, j, code) by { MayPost(before, j, code); }
          ControllerPublish(j, code, dw0);
        }
        if act != ActReap {
          ControllerQuiet(before, act);
          DeviceOne(old(View()), acts, before, act);
          acts := acts + [act];
        }
        n := n - 1;
      }
    }

    // ---------------------------------------------------------- submitting

    /** Book the first free slot and the next identifier, or answer Busy. */
    method ReserveSlot() returns (r: Result<(nat, u16)>)
      modifies this`nextCmdId
      ensures var i := FindSlot(slots, SLOT_FREE);
              if i == |slots| then r == Err(Busy) && nextCmdId == old(nextCmdId)
              else r == Ok((i, old(nextCmdId))) && nextCmdId == (old(nextCmdId) + 1) % 0x1_0000
    {
      var index := FindSlot(slots, SLOT_FREE);
      if index == |slots| {
        return Err(Busy);
      }
      var cid := nextCmdId;
      nextCmdId := (nextCmdId + 1) % 0x1_0000;
      return Ok((index, cid));
    }

    /** Write an entry at the tail and ring the doorbell. */
    method IoSubmit(sqe: Words, ghost payload: seq<u8>, ghost stray: bool)
      requires iosqTail < iosq.Length == QUEUE_ENTRIES
      modifies this`iosqTail, this`sqTailDoorbell, this`h, iosq
      ensures View() == Submit(old(View()), sqe, payload, stray)
    {
      iosq[iosqTail] := sqe;
      iosqTail := (iosqTail + 1) % QUEUE_ENTRIES;
      sqTailDoorbell := iosqTail;
      h := Sent(h, Request(Interpret(Decode(sqe)), payload), stray);
      assert View() == Submit(old(View()), sqe, payload, stray);
    }

    /** The entry for a run through slot `index`, as the controller will understand it. */
    method RunEntry(opcode: u8, cid: u16, lba: u64, blocks: u32, base: nat) returns (sqe: Words)
      requires opcode == NVM_READ || opcode == NVM_WRITE
      requires 1 <= blocks <= RUN_BYTES / BLOCK_SIZE && base + RUN_BYTES <= PHYSICAL_LIMIT
      ensures var prp := RunPrp(base, blocks * BLOCK_SIZE);
              Interpret(Decode(sqe)) == Op(if opcode == NVM_READ then Read else Write, cid, prp.0, prp.1,
                                           lba * BLOCK_SIZE, blocks * BLOCK_SIZE)
      ensures Decode(sqe).nsid == nsid
    {
      var (prp1, prp2) := RunPrp(base, blocks * BLOCK_SIZE);
      sqe := RunSqe(opcode, nsid, cid, lba, blocks, prp1, prp2);
    }

    /** The tail both submits share: send the entry, then book the slot it names. */
    method SendBooked(ghost from: Sys, index: nat, sqe: Words, ghost payload: seq<u8>, dst: nat, len: nat)
      requires iosqTail < iosq.Length == QUEUE_ENTRIES && index < |slots| && index < |h.owner| && index < |h.bookedAt|
      requires View() == from.(nextCid := (from.nextCid + 1) % 0x1_0000)
      modifies this`iosqTail, this`sqTailDoorbell, this`slots, this`h, iosq
      ensures View() == Book(from, index, sqe, payload, dst, len) && h.posts == from.h.posts
      ensures h.strays == from.h.strays
    {
      IoSubmit(sqe, payload, false);
      slots := slots[index := IoSlot(Decode(sqe).cid, slots[index].bounce, dst, len, Pending)];
      h := Reserved(h, index, |from.h.reqs|);
    }

    /** What both submits do once a slot is booked: build the entry, send it, book the slot. */
    method SendRun(ghost from: Sys, index: nat, opcode: u8, cid: u16, lba: u64, blocks: u32, ghost payload: seq<u8>,
                   dst: nat, len: nat)
      returns (ghost act: Action)
      requires opcode == NVM_READ || opcode == NVM_WRITE
      requires 1 <= blocks <= RUN_BYTES / BLOCK_SIZE && index < |slots|
      requires slots[index].bounce + RUN_BYTES <= PHYSICAL_LIMIT
      requires iosqTail < iosq.Length == QUEUE_ENTRIES && index < |h.owner| && index < |h.bookedAt|
      requires View() == from.(nextCid := (from.nextCid + 1) % 0x1_0000)
      modifies this`iosqTail, this`sqTailDoorbell, this`slots, this`h, iosq
      ensures act.ActBook? && act == ActBook(index, act.sqe, payload, dst, len) && Decode(act.sqe).nsid == nsid
      ensures BookedOp(act, if opcode == NVM_READ then Read else Write, cid, from.slots[index].bounce,
                       lba, blocks * BLOCK_SIZE)
      ensures View() == Book(from, index, act.sqe, payload, dst, len) && h.posts == from.h.posts
      ensures h.strays == from.h.strays
    {
      hide Interpret, Decode, Book, RunPrp;
      var sqe := RunEntry(opcode, cid, lba, blocks, slots[index].bounce);
      act := ActBook(index, sqe, payload, dst, len);
      SendBooked(from, index, sqe, payload, dst, len);
    }

    /** Queue a read of `len` bytes at block `lba` into the caller's buffer at `dst`.  The code
        checks neither that the identifier is unused nor that no slot's destination overlaps;
        where both hold the submission is a step of the state machine. */
    method SubmitRead(lba: u64, dst: nat, len: nat) returns (r: Result<u64>, ghost act: Action)
      requires Valid() && dst != 0 && dst + len <= |ram| && BounceClear(slots, dst, len)
      modifies this`iosqTail, this`sqTailDoorbell, this`nextCmdId, this`slots, this`h, iosq
      ensures var i, s := FindSlot(old(slots), SLOT_FREE), old(View());
              if RunBlocks(blockCount, lba, len).Err? then r == Err(InvalidArgument) && View() == s && Valid()
              else if i == QUEUE_DEPTH then r == Err(Busy) && View() == s && Valid()
              else
                && r == Ok(s.nextCid)
                && act.ActBook? && act.i == i && act.payload == [] && act.dst == dst && act.len == len
                && Decode(act.sqe).nsid == nsid
                && BookedOp(act, Read, s.nextCid, s.slots[i].bounce, lba, len)
                && FitsAnywhere(s, i, act.sqe, [], dst, len) && s.tail < |s.sq|
                && |s.h.owner| == |s.h.bookedAt| == QUEUE_DEPTH
                && View() == Book(s, i, act.sqe, [], dst, len)
                && (IdFree(s.slots, s.h, s.nextCid) && DstFree(s.slots, dst, len) ==>
                      Valid() && Enabled(s, act) && View() == Do(s, act))
    {
      hide Inv, Enabled, Do, IdFree, Interpret, Decode, Book, FindSlot, BounceClear, DstFree, FitsAnywhere;
      act := ActReap;
      ghost var before := View();
      InvShape(before);
      InvBounces(before);
      var run := RunBlocks(blockCount, lba, len);
      if run.Err? {
        return Err(InvalidArgument), act;
      }
      var slot := ReserveSlot();
      if slot.Err? {
        return Err(Busy), act;
      }
      var (index, cid) := slot.value;
      RunInside(blockCount, lba, len);
      TailInside(before);
      act := SendRun(before, index, NVM_READ, cid, lba, run.value, [], dst, len);
      ReadFits(before, act, lba);
      if IdFree(before.slots, before.h, before.nextCid) && DstFree(before.slots, dst, len) {
        Bookable(before, act, Read, lba);
      }
      return Ok(cid), act;
    }

    /** A write's part of it: the caller's bytes go into the slot's buffer first. */
    method FillAndSend(ghost from: Sys, index: nat, cid: u16, lba: u64, blocks: u32, data: seq<u8>)
      returns (ghost filled: Sys, ghost act: Action)
      requires 1 <= blocks <= RUN_BYTES / BLOCK_SIZE && |data| == blocks * BLOCK_SIZE && index < |slots|
      requires slots[index].bounce + RUN_BYTES <= |ram| <= PHYSICAL_LIMIT
      requires iosqTail < iosq.Length == QUEUE_ENTRIES && index < |h.owner| && index < |h.bookedAt|
      requires View() == from.(nextCid := (from.nextCid + 1) % 0x1_0000)
      modifies this`iosqTail, this`sqTailDoorbell, this`slots, this`ram, this`h, iosq
      ensures filled == Fill(from, index, data) && |filled.ram| == |from.ram| == |ram|
      ensures act.ActBook? && act == ActBook(index, act.sqe, data, 0, 0) && Decode(act.sqe).nsid == nsid
      ensures BookedOp(act, Write, cid, from.slots[index].bounce, lba, |data|)
      ensures View() == Book(filled, index, act.sqe, data, 0, 0) && h.posts == from.h.posts && h.strays == from.h.strays
    {
      hide Interpret, Decode, Book, Blit, RunPrp, BookedOp;
      ram := Blit(ram, slots[index].bounce, data);
      filled := Fill(from, index, data);
      act := SendRun(filled, index, NVM_WRITE, cid, lba, blocks, data, 0, 0);
    }

    /** Queue a write: the caller's bytes are copied into the slot before the entry goes out. */
    method SubmitWrite(lba: u64, data: seq<u8>) returns (r: Result<u64>, ghost filled: Sys, ghost act: Action)
      requires Valid()
      modifies this`iosqTail, this`sqTailDoorbell, this`nextCmdId, this`slots, this`ram, this`h, iosq
      ensures var i, s := FindSlot(old(slots), SLOT_FREE), old(View());
              if RunBlocks(blockCount, lba, |data|).Err? then r == Err(InvalidArgument) && View() == s && Valid()
              else if i == QUEUE_DEPTH then r == Err(Busy) && View() == s && Valid()
              else
                && r == Ok(s.nextCid)
                && Enabled(s, ActFill(i, data)) && filled == Do(s, ActFill(i, data))
                && filled == s.(ram := filled.ram) && |filled.ram| == |s.ram|
                && act.ActBook? && act.i == i && act.payload == data && act.dst == 0 && act.len == 0
                && Decode(act.sqe).nsid == nsid
                && BookedOp(act, Write, s.nextCid, s.slots[i].bounce, lba, |data|)
                && s.tail < |s.sq| && |s.h.owner| == |s.h.bookedAt| == QUEUE_DEPTH
                && View() == Book(filled, i, act.sqe, data, 0, 0)
                && (IdFree(s.slots, s.h, s.nextCid) ==> Valid() && Enabled(filled, act) && View() == Do(filled, act))
    {
      hide Inv, Enabled, Do, IdFree, Interpret, Decode, Book, FindSlot, Blit, BookedOp, Stored;
      act := ActReap;
      filled := View();
      ghost var before := View();
      InvShape(before);
      InvBounces(before);
      TailInside(before);
      var run := RunBlocks(blockCount, lba, |data|);
      if run.Err? {
        return Err(InvalidArgument), filled, act;
      }
      var slot := ReserveSlot();
      if slot.Err? {
        return Err(Busy), filled, act;
      }
      var (index, cid) := slot.value;
      RunInside(blockCount, lba, |data|);
      FillIsDo(before, index, data);
      filled, act := FillAndSend(before, index, cid, lba, run.value, data);
      if IdFree(before.slots, before.h, before.nextCid) {
        FillBookable(before, index, data, act, lba);
      }
      return Ok(cid), filled, act;
    }

    // ---------------------------------------------------------- completing

    /** Reap every completion published so far, and answer the one a synchronous caller waits
        for.  The loop ends because each turn answers one of the finitely many live commands. */
    method Reap(want: Option<u16>) returns (r: Option<Cqe>, ghost acts: seq<Action>, ghost found: nat)
      requires Running()
      modifies this`iocqHead, this`iocqPhase, this`cqHeadDoorbell, this`slots, this`flushesOut
      modifies this`devHead, this`devFetched, this`devTail, this`devPhase, this`jobs, this`ram, this`disk, this`h, iocq
      ensures Running() && DeviceRun(old(View()), acts, View()) && Background(acts)
      ensures r.None? ==> h.reaped == |h.posts|
      ensures r.Some? ==>
                && found in old(h.live) && FlushAnswer(h, found, r.value) && want == Some(r.value.commandId)
                && FindSlot(slots, r.value.commandId) == |slots|
      ensures old(Valid()) ==>
                && Valid() && (r.None? ==> Awaited(want, old(h), h)) && (r.Some? ==> found in old(h.strays))
    {
      hide Inv, Runs, Loose, DeviceRun, Background, FlushAnswer, FindSlot;
      acts, found := [], 0;
      ghost var begin := View();
      DeviceNone(View());
      RunsShape(View());
      while true
        invariant Running() && DeviceRun(begin, acts, View()) && Background(acts)
        invariant h.reqs == begin.h.reqs && h.live <= begin.h.live && h.strays <= begin.h.strays && h.reaped <= |h.reqs|
        invariant old(Valid()) ==> Valid() && Awaited(want, begin.h, h)
        decreases |h.reqs| - h.reaped
      {
        ghost var start := View();
        var cqe, mine;
        ghost var turn;
        cqe, mine, turn, found := ReapTurn();
        RiddenAlong(start, turn, View());
        DeviceJoin(begin, acts, start, turn, View());
        BackgroundJoin(acts, turn);
        acts := acts + turn;
        if cqe.None? {
          return None, acts, found;
        }
        if !mine && want == Some(cqe.value.commandId) {
          return Some(cqe.value), acts, found;
        }
      }
    }

    /** One turn: let the controller run, then consume the entry at the head if it is published.
        `mine` says whether a slot was credited. */
    method ReapTurn() returns (r: Option<Cqe>, mine: bool, ghost acts: seq<Action>, ghost found: nat)
      requires Running()
      modifies this`iocqHead, this`iocqPhase, this`cqHeadDoorbell, this`slots, this`flushesOut
      modifies this`devHead, this`devFetched, this`devTail, this`devPhase, this`jobs, this`ram, this`disk, this`h, iocq
      ensures Running() && DeviceRun(old(View()), acts, View()) && Background(acts)
      ensures r.None? ==> h.reaped == |h.posts| && h.strays == old(h.strays)
      ensures r.Some? ==>
                && h.reaped == old(h.reaped) + 1 <= |h.reqs| && h.strays == old(h.strays) - {found}
                && found in old(h.live) && FlushAnswer(h, found, r.value)
                && found < |h.reqs| && r.value.commandId == h.reqs[found].op.cid
                && (mine <==> FindSlot(slots, r.value.commandId) < |slots|)
      ensures old(Valid()) ==> Valid() && (r.Some? ==> (mine <==> found !in old(h.strays)))
    {
      hide Inv, Runs, DeviceRun, Background, FindSlot, CopyInside, CanReap, NvmeSteps.Reap, FlushAnswer;
      ghost var start := View();
      acts := ControllerRuns();
      ghost var before := View();
      found := 0;
      r, mine := ReapNext();
      RunsRoom(before);
      RunsShape(before);
      if Inv(start) {
        DeviceIsPath(start, acts, before);
      }
      if r.Some? {
        found := before.h.posts[before.h.reaped].req;
        RunsReap(before);
        ReapTaken(start, acts, before);
        acts := acts + [ActReap];
      }
    }

    /** Consume the entry at the head, if it is published. */
    method ReapNext() returns (r: Option<Cqe>, mine: bool)
      requires Running()
      modifies this`iocqHead, this`iocqPhase, this`cqHeadDoorbell, this`slots, this`flushesOut, this`ram, this`h
      ensures Running()
      ensures if !CanReap(old(View())) then r == None && View() == old(View()) && flushesOut == old(flushesOut)
              else DeviceStep(old(View()), ActReap) && CreditedAs(old(View()), View(), r, mine)
      ensures old(Valid()) ==> Valid() && (r.Some? ==> (mine <==> old(h).posts[old(h).reaped].req !in old(h.strays)))
    {
      hide Inv, Runs, Cqe.IsSuccess, Cqe.Phase, FindSlot, CopyInside, NvmeSteps.Reap, Shape, Taken;
      ghost var before := View();
      RunsRoom(before);
      var cqe := iocq[iocqHead];
      mine := false;
      if cqe.Phase() != iocqPhase {
        return None, mine;
      }
      RunsReap(before);
      var index := FindSlot(slots, cqe.commandId);
      mine := index < |slots|;
      TakenIs(before);
      Consume(cqe, index);
      if Inv(before) {
        StraysLeft(before);
      }
      if !mine && flushesOut > 0 {
        flushesOut := flushesOut - 1;
      }
      return Some(cqe), mine;
    }

    /** Advance the head, flip the phase at the wrap, ring the doorbell, and credit the slot. */
    method Consume(cqe: Cqe, index: nat)
      requires iocqHead < iocq.Length && CanReap(View()) && cqe == iocq[iocqHead]
      requires index == FindSlot(slots, cqe.commandId)
      requires h.reaped < |h.posts| && CopyInside(slots, |ram|)
      modifies this`iocqHead, this`iocqPhase, this`cqHeadDoorbell, this`slots, this`ram, this`h
      ensures View() == NvmeSteps.Reap(old(View())) && h == Taken(old(h), old(h).posts[old(h).reaped].req)
      ensures |ram| == old(|ram|)
    {
      hide FindSlot, Cqe.IsSuccess, CanReap, CopyInside, Credited, CopyOut, Bump;
      ghost var after := NvmeSteps.Reap(View());
      AdvanceHead();
      h := Taken(h, h.posts[h.reaped].req);
      if index < |slots| {
        Deliver(index, cqe.IsSuccess());
      } else {
        NotCredited(slots, index, cqe.IsSuccess());
      }
      assert iocqHead == after.head && iocqPhase == after.phase && slots == after.slots && ram == after.ram;
      assert View() == after;
    }

    method AdvanceHead()
      modifies this`iocqHead, this`iocqPhase, this`cqHeadDoorbell
      ensures iocqHead == cqHeadDoorbell == Bump(old(iocqHead))
      ensures iocqPhase == if iocqHead == 0 then !old(iocqPhase) else old(iocqPhase)
    {
      iocqHead := (iocqHead + 1) % QUEUE_ENTRIES;
      if iocqHead == 0 {
        iocqPhase := !iocqPhase;
      }
      cqHeadDoorbell := iocqHead;
    }

    /** Record the answer on the slot, and copy a successful read out to its caller. */
    method Deliver(index: nat, success: bool)
      requires index < |slots| && CopyInside(slots, |ram|)
      modifies this`slots, this`ram
      ensures slots == Credited(old(slots), index, success) && ram == CopyOut(old(ram), old(slots)[index], success)
    {
      var slot := slots[index];
      if success && slot.dst != 0 {
        ram := Blit(ram, slot.dst, ram[slot.bounce..slot.bounce + slot.len]);
      }
      slots := slots[index := slot.(state := if success then Done(Ok(())) else Done(Err(DeviceError)))];
    }

    /** Drain what was published, then answer for `ticket`: the answer of the slot that holds
        it, which a Done answer gives back, and InvalidArgument when no slot does.  After a Done
        answer no slot has the ticket. */
    method Poll(ticket: u64) returns (answer: RequestState, ghost acts: seq<Action>, ghost mid: Sys)
      requires Running()
      modifies this`iocqHead, this`iocqPhase, this`cqHeadDoorbell, this`slots, this`flushesOut
      modifies this`devHead, this`devFetched, this`devTail, this`devPhase, this`jobs, this`ram, this`disk, this`h, iocq
      ensures Running() && DeviceRun(old(View()), acts, mid) && Background(acts)
      ensures mid.h.reaped == |mid.h.posts| && |mid.slots| == QUEUE_DEPTH
      ensures var i := FindSlot(mid.slots, ticket);
              if i == QUEUE_DEPTH then answer == Done(Err(InvalidArgument)) && View() == mid
              else answer == mid.slots[i].state && View() == if answer == Pending then mid else Release(mid, i)
      ensures old(Valid()) ==>
                && Valid() && Path(old(View()), acts, mid) && Inv(mid)
                && var i := FindSlot(mid.slots, ticket);
                   (answer != Pending && i < QUEUE_DEPTH ==>
                    Enabled(mid, ActRelease(i)) && View() == Do(mid, ActRelease(i)))
      ensures old(Valid()) && answer != Pending ==> FindSlot(slots, ticket) == QUEUE_DEPTH
    {
      hide Inv, Runs, Path, DeviceRun, Background, FindSlot;
      var reaped;
      ghost var found, start := 0, View();
      reaped, acts, found := Reap(None);
      mid := View();
      RunsShape(mid);
      if Inv(start) {
        DeviceIsPath(start, acts, mid);
      }
      var index := FindSlot(slots, ticket);
      if index == |slots| {
        return Done(Err(InvalidArgument)), acts, mid;
      }
      answer := slots[index].state;
      if answer != Pending {
        RunsRelease(mid, index);
        if Inv(mid) {
          DoneIsBooked(mid, index);
          ReleaseKeeps(mid, index);
          ReleasedUnknown(mid, index);
        }
        slots := slots[index := IoSlot(SLOT_FREE, slots[index].bounce, 0, 0, Pending)];
        assert View() == Release(mid, index);
      }
    }

    // ---------------------------------------------------------- other callers

    /** Another caller polls a ticket of its own. */
    method OtherPoll(other: u64, ticket: u64, ghost mine: nat, rely: Rely) returns (ghost acts: seq<Action>)
      requires Valid() && other != ticket && (mine < QUEUE_DEPTH ==> slots[mine].Booked() && slots[mine].id == ticket)
      modifies this, iocq
      ensures Valid() && Path(old(View()), acts, View()) && Others(acts, mine, rely) && h.reserved == old(h.reserved)
    {
      hide Inv, Runs, Enabled, Do, Path, DeviceRun, Background, Others, FindSlot;
      ghost var start := View();
      InvShape(start);
      var answer;
      ghost var mid;
      InvRuns(start);
      answer, acts, mid := Poll(other);
      SettledAlong(start, acts, mid);
      BackgroundOthers(acts, mine, rely);
      if mine < QUEUE_DEPTH {
        NoRelease(acts, mine);
        SlotKept(start, acts, mid, mine);
      }
      if View() != mid {
        ghost var i := FindSlot(mid.slots, other);
        PathStep(start, acts, mid, ActRelease(i));
        OneMoreOther(acts, ActRelease(i), mine, rely);
        acts := acts + [ActRelease(i)];
      }
    }

    /** Another caller reads into a buffer of its own. */
    method OtherRead(lba: u64, dst: nat, len: nat, ghost mine: nat, rely: Rely)
      returns (used: nat, ghost acts: seq<Action>)
      requires Valid() && rely.bookings > 0 && dst != 0 && dst + len <= |ram|
      requires Untouched(slots, dst, len) && Apart(rely.at, rely.len, dst, len) && IdFree(slots, h, nextCmdId)
      modifies this, iosq
      ensures Valid() && Path(old(View()), acts, View()) && Others(acts, mine, rely)
      ensures used <= 1 && h.reserved == old(h.reserved) + used
    {
      hide Inv, Enabled, Do, Path, Others, FindSlot, IdFree, BounceClear, DstFree, Interpret, Decode, FitsAnywhere;
      ghost var start := View();
      var r;
      ghost var act;
      r, act := SubmitRead(lba, dst, len);
      if r.Err? {
        acts, used := [], 0;
        NothingElse(start, mine, rely);
      } else {
        OnwardOne(start, act, mine, rely);
        acts, used := [act], 1;
      }
    }

    /** Another caller writes where it may. */
    method OtherWrite(lba: u64, data: seq<u8>, ghost mine: nat, rely: Rely) returns (used: nat, ghost acts: seq<Action>)
      requires Valid() && rely.bookings > 0 && IdFree(slots, h, nextCmdId)
      requires forall x :: lba * BLOCK_SIZE <= x < lba * BLOCK_SIZE + |data| ==> rely.writes(x)
      modifies this, iosq
      ensures Valid() && Path(old(View()), acts, View()) && Others(acts, mine, rely)
      ensures used <= 1 && h.reserved == old(h.reserved) + used
    {
      hide Inv, Enabled, Do, Path, Others, FindSlot, IdFree, Interpret, Decode;
      ghost var start := View();
      var r;
      ghost var filled, act;
      r, filled, act := SubmitWrite(lba, data);
      if r.Err? {
        acts, used := [], 0;
        NothingElse(start, mine, rely);
      } else {
        OnwardOne(start, ActFill(act.i, data), mine, rely);
        OnwardOne(filled, act, mine, rely);
        PathJoin(start, [ActFill(act.i, data)], filled, [act], View());
        OthersJoin([ActFill(act.i, data)], [act], mine, rely);
        acts, used := [ActFill(act.i, data)] + [act], 1;
      }
    }

    /** Other callers, any finite number of calls of theirs, between two critical sections of
        this caller's.  `left` is how many reservations they may still make. */
    method OthersRun(ticket: u64, ghost mine: nat, rely: Rely, left: nat) returns (still: nat, ghost acts: seq<Action>)
      requires Valid() && left <= rely.bookings
      requires mine < QUEUE_DEPTH ==> slots[mine].Booked() && slots[mine].id == ticket
      modifies this, iosq, iocq
      ensures Valid() && Path(old(View()), acts, View()) && Others(acts, mine, rely)
      ensures still <= left && h.reserved == old(h.reserved) + (left - still)
    {
      hide Inv, Enabled, Do, Path, Others, IdFree, Untouched;
      still, acts := left, [];
      ghost var start := View();
      NothingElse(start, mine, rely);
      InvShape(start);
      var n: nat := *;
      while n > 0
        invariant Valid() && Path(start, acts, View()) && Others(acts, mine, rely)
        invariant still <= left && h.reserved == start.h.reserved + (left - still)
        decreases n
      {
        ghost var before, more := View(), [];
        OthersKeepSlot(start, acts, before, mine, rely);
        IdUnused(before, nextCmdId);
        IdUnused(before, 0);
        var what: nat, other: u64, lba: u64, dst: nat, len: nat, data: seq<u8> := *, *, *, *, *, *;
        if what == 0 && other != ticket {
          more := OtherPoll(other, ticket, mine, rely);
        } else if what == 1 && still > 0 && dst != 0 && dst + len <= |ram| && Untouched(slots, dst, len)
                  && Apart(rely.at, rely.len, dst, len) && Unused(slots, flushesOut, nextCmdId) {
          var used;
          used, more := OtherRead(lba, dst, len, mine, rely);
          still := still - used;
        } else if what == 2 && still > 0 && Unused(slots, flushesOut, nextCmdId)
                  && (forall x :: lba * BLOCK_SIZE <= x < lba * BLOCK_SIZE + |data| ==> rely.writes(x)) {
          var used;
          used, more := OtherWrite(lba, data, mine, rely);
          still := still - used;
        } else if what == 3 && rely.flushes && Unused(slots, flushesOut, 0) {
          var r, looks;
          ghost var answered;
          r, looks, more, answered := Flush();
          FlushOthers(more, mine, rely);
        } else {
          NothingElse(before, mine, rely);
        }
        PathJoin(start, acts, before, more, View());
        OthersJoin(acts, more, mine, rely);
        acts := acts + more;
        n := n - 1;
      }
    }

    // ---------------------------------------------------------- the block device

    /** Poll a queued request until it answers, at most `COMPLETION_POLL_LIMIT` waits between the
        looks.  Other callers run before each look. */
    method Await(ticket: u64, ghost i: nat, rely: Rely, left: nat)
      returns (r: Result<()>, still: nat, looks: nat, ghost bg: seq<Action>, ghost last: Sys)
      requires Valid() && i < QUEUE_DEPTH && slots[i].Waiting() && slots[i].id == ticket && left <= rely.bookings
      modifies this, iosq, iocq
      ensures Valid() && Path(old(View()), bg, last) && Others(bg, i, rely) && Inv(last)
      ensures |last.slots| == QUEUE_DEPTH && last.h.reaped == |last.h.posts| && looks <= COMPLETION_POLL_LIMIT + 1
      ensures if last.slots[i].state == Pending
              then r == Err(TimedOut) && View() == last && looks == COMPLETION_POLL_LIMIT + 1
              else last.slots[i].state == Done(r) && View() == Release(last, i)
      ensures still <= left && last.h.reserved == old(h.reserved) + (left - still)
    {
      hide Inv, Runs, Enabled, Do, Path, DeviceRun, Others, Background, FindSlot;
      still, looks, bg, last := left, 0, [], View();
      ghost var start := View();
      InvShape(last);
      NothingElse(start, i, rely);
      var polls := 0;
      while true
        invariant Valid() && last == View() && Path(start, bg, last) && Others(bg, i, rely)
        invariant |slots| == QUEUE_DEPTH && slots[i].id == ticket && slots[i].Waiting()
        invariant looks == polls <= COMPLETION_POLL_LIMIT
        invariant still <= left && h.reserved == start.h.reserved + (left - still)
        decreases COMPLETION_POLL_LIMIT - polls
      {
        ghost var env;
        still, env := OthersRun(ticket, i, rely, still);
        ghost var between := View();
        OthersKeepSlot(last, env, between, i, rely);
        PathJoin(start, bg, last, env, between);
        OthersJoin(bg, env, i, rely);
        bg := bg + env;
        var answer;
        ghost var acts, mid;
        InvRuns(between);
        answer, acts, mid := Poll(ticket);
        looks := looks + 1;
        NoRelease(acts, i);
        InvShape(mid);
        SlotKept(between, acts, mid, i);
        SettledAlong(between, acts, mid);
        FindMine(mid, i);
        PathJoin(start, bg, between, acts, mid);
        BackgroundOthers(acts, i, rely);
        OthersJoin(bg, acts, i, rely);
        bg, last := bg + acts, mid;
        if answer != Pending {
          return answer.result, still, looks, bg, last;
        }
        polls := polls + 1;
        if polls > COMPLETION_POLL_LIMIT {
          return Err(TimedOut), still, looks, bg, last;
        }
      }
    }

    /** One run of a read, submitted and awaited while other callers do as they may.  `at..at + n`
        is a part of the caller's buffer that earlier runs filled. */
    method ReadRun(lba: u64, dst: nat, len: nat, rely: Rely, left: nat, ghost at: nat, ghost n: nat)
      returns (r: Result<()>, still: nat, looks: nat, ghost k: nat)
      requires Valid() && left <= rely.bookings && dst != 0 && Owned(View(), rely)
      requires rely.at <= dst && dst + len <= rely.at + rely.len
      requires rely.at <= at && at + n <= rely.at + rely.len && Apart(at, n, dst, len)
      requires FreshFor(View(), left + 1, rely)
      modifies this, iosq, iocq
      ensures Valid() && still <= left && MediumKept(old(View()), View(), rely)
      ensures Answered(old(View()), View(), Asked(Read, lba * BLOCK_SIZE, len, dst, []), k, looks, rely, r)
      ensures |ram| == old(|ram|) && ram[at..at + n] == old(ram)[at..at + n]
      ensures r.Ok? ==>
                && lba * BLOCK_SIZE + len <= |disk|
                && Onward(old(View()), View(), rely) && h.reserved == old(h.reserved) + 1 + (left - still)
                && (Still(old(h), rely, lba * BLOCK_SIZE, lba * BLOCK_SIZE + len) ==>
                      Stored(ram, dst, old(disk)[lba * BLOCK_SIZE..lba * BLOCK_SIZE + len]))
    {
      hide Inv, Path, Enabled, Do, Others, NoWriter, Interpret, Decode, Onward, Untouched, IdFree, FindSlot, Still,
           FreshFor, FitsAnywhere, Book, BounceClear, DstFree, BookedOp, MediumKept, Stored, Answered, Proper;
      ghost var s0, run := View(), Asked(Read, lba * BLOCK_SIZE, len, dst, []);
      InvShape(s0);
      ProperIs(blockCount, lba, run);
      looks, k := 0, 0;
      ghost var env;
      still, env := OthersRun(SLOT_FREE, QUEUE_DEPTH, rely, left);
      ghost var s := View();
      InvShape(s);
      BeforeRun(s0, env, s, rely, left + 1, left - still, dst, len, at, n);
      var ticket;
      ghost var act;
      ticket, act := SubmitRead(lba, dst, len);
      if ticket.Err? {
        RefusedAnswered(s0, s, run, rely, ticket.error);
        return Err(ticket.error), still, looks, k;
      }
      RunInside(blockCount, lba, len);
      JustBooked(s, act);
      ghost var bg, u;
      r, still, looks, bg, u := Await(ticket.value, act.i, rely, still);
      k := |s.h.reqs|;
      AfterRead(s0, s, act, lba, bg, u, rely, at, n);
      BookedAnswered(s0, s, act, lba, bg, u, run, looks, rely, r);
      if r.Ok? {
        assert r.value == ();
      }
    }

    /** The next chunk of a longer read. */
    method ReadChunk(lba: u64, dst: nat, len: nat, done: nat, chunk: nat, rely: Rely, left: nat,
                     ghost start: Sys, ghost budget: nat)
      returns (r: Result<()>, still: nat, looks: nat, ghost k: nat)
      requires Valid() && left <= rely.bookings && dst != 0 && Owned(start, rely) && budget > left
      requires rely.at <= dst && dst + len <= rely.at + rely.len
      requires len % BLOCK_SIZE == 0 && done < len / BLOCK_SIZE
      requires chunk == Min(RUN_BYTES / BLOCK_SIZE, len / BLOCK_SIZE - done)
      requires ReadSoFar(start, View(), dst, lba * BLOCK_SIZE, done * BLOCK_SIZE, budget, rely)
      modifies this, iosq, iocq
      ensures Valid() && still <= left && MediumKept(start, View(), rely) && |ram| == |start.ram|
      ensures Answered(start, View(), PartOf(Asked(Read, lba * BLOCK_SIZE, len, dst, []), done * BLOCK_SIZE), k, looks,
                       rely, r)
      ensures BufferSoFar(start, View(), dst, lba * BLOCK_SIZE, done * BLOCK_SIZE, rely)
      ensures r.Ok? ==>
                ReadSoFar(start, View(), dst, lba * BLOCK_SIZE, (done + chunk) * BLOCK_SIZE,
                          budget - 1 - (left - still), rely)
    {
      hide Inv, NoWriter, Onward, Untouched, FreshFor, IdFree, ReadSoFar, Still, RunBlocks, MediumKept, Answered,
           Proper, BufferSoFar;
      ghost var mid, lo := View(), lba * BLOCK_SIZE;
      ReadEnds(start, mid, dst, lo, done * BLOCK_SIZE, budget, rely);
      FreshFewer(mid, budget, left + 1, rely);
      OwnedLater(start, mid, rely);
      r, still, looks, k :=
        ReadRun(lba + done, dst + done * BLOCK_SIZE, chunk * BLOCK_SIZE, rely, left, dst, done * BLOCK_SIZE);
      InvShape(View());
      ghost var part := PartOf(Asked(Read, lo, len, dst, []), done * BLOCK_SIZE);
      assert part == Asked(Read, (lba + done) * BLOCK_SIZE, chunk * BLOCK_SIZE, dst + done * BLOCK_SIZE, []);
      AnsweredSince(start, mid, View(), part, k, looks, rely, r);
      BufferKept(start, mid, View(), dst, lo, done * BLOCK_SIZE, rely);
      MediumJoin(start, mid, View(), rely);
      if r.Ok? {
        ReadGrows(start, mid, View(), dst, lo, done * BLOCK_SIZE, (done + chunk) * BLOCK_SIZE, budget,
                  1 + (left - still), rely);
      }
    }

    /** Read `len` bytes at block `lba` into the caller's buffer, one run at a time, while other
        callers do as they may.  The first `done` bytes of the buffer are the medium's, all of
        them if the answer is Ok; any other answer is the one the run that starts there was
        given.  Reading changes no byte of the medium. */
    method ReadBlocks(lba: u64, dst: nat, len: nat, rely: Rely)
      returns (r: Result<()>, done: nat, looks: nat, ghost k: nat)
      requires Valid() && dst != 0 && Owned(View(), rely) && rely.at <= dst && dst + len <= rely.at + rely.len
      requires FreshFor(View(), RunsFor(len) + rely.bookings, rely)
      modifies this, iosq, iocq
      ensures Valid() && |disk| == old(|disk|) && |ram| == old(|ram|) && MediumKept(old(View()), View(), rely)
      ensures r == Err(InvalidArgument) <==>
                || len % BLOCK_SIZE != 0
                || (done < len && lba * BLOCK_SIZE + Min(done + RUN_BYTES, len) > |disk|)
      ensures len % BLOCK_SIZE != 0 ==> done == 0 && View() == old(View())
      ensures Parted(len, done, r.Ok?)
      ensures r.Err? && len % BLOCK_SIZE == 0 ==>
                Answered(old(View()), View(), PartOf(Asked(Read, lba * BLOCK_SIZE, len, dst, []), done), k, looks,
                         rely, r)
      ensures BufferSoFar(old(View()), View(), dst, lba * BLOCK_SIZE, done, rely)
      ensures r.Ok? ==> Onward(old(View()), View(), rely)
    {
      hide Inv, Onward, Untouched, FreshFor, IdFree, ReadSoFar, Still, RunsFor, MediumKept, Answered, BufferSoFar,
           Through, Parted;
      ghost var start, lo, budget := View(), lba * BLOCK_SIZE, RunsFor(len);
      done, looks, k := 0, 0, 0;
      InvShape(start);
      ReadStarts(start, dst, lo, budget + rely.bookings, rely);
      NotBegun(len);
      if len % BLOCK_SIZE != 0 {
        return Err(InvalidArgument), done, looks, k;
      }
      var blocks, perRun := len / BLOCK_SIZE, RUN_BYTES / BLOCK_SIZE;
      var at, left: nat := 0, rely.bookings;
      ghost var runs := 0;
      while at < blocks
        invariant Valid() && 0 <= at <= blocks && runs <= budget && left <= rely.bookings
        invariant done == at * BLOCK_SIZE && Through(len, at, runs)
        invariant ReadSoFar(start, View(), dst, lo, done, budget - runs + left, rely)
      {
        var chunk := Min(perRun, blocks - at);
        Throughout(len, at, runs);
        r, left, looks, k := ReadChunk(lba, dst, len, at, chunk, rely, left, start, budget - runs + left);
        if r.Err? {
          MediumSize(start, View(), rely);
          AnsweredRefusal(start, View(), Asked(Read, lo, len, dst, []), done, k, looks, rely, r);
          return;
        }
        at, runs := at + chunk, runs + 1;
        done := at * BLOCK_SIZE;
      }
      Throughout(len, at, runs);
      ReadEnds(start, View(), dst, lo, len, budget - runs + left, rely);
      return Ok(()), done, looks, k;
    }

    /** One run of a write, submitted and awaited while other callers do as they may. */
    method WriteRun(lba: u64, data: seq<u8>, rely: Rely, left: nat)
      returns (r: Result<()>, still: nat, looks: nat, ghost k: nat)
      requires Valid() && left <= rely.bookings && FreshFor(View(), left + 1, rely)
      modifies this, iosq, iocq
      ensures Valid() && |disk| == old(|disk|) && still <= left
      ensures Answered(old(View()), View(), Asked(Write, lba * BLOCK_SIZE, |data|, 0, data), k, looks, rely, r)
      ensures r.Ok? ==>
                && lba * BLOCK_SIZE + |data| <= |disk|
                && Onward(old(View()), View(), rely) && h.reserved == old(h.reserved) + 1 + (left - still)
      ensures forall x :: 0 <= x < |disk| && NoWriter(old(h), x) && !rely.writes(x) ==>
                WrittenByte(old(disk), disk, h, lba * BLOCK_SIZE, data, x, r.Ok?)
    {
      hide Inv, Path, Enabled, Do, Others, NoWriter, Interpret, Decode, Onward, IdFree, FindSlot, FreshFor, Book,
           WrittenByte, BookedOp, MediumKept, Shape, Answered, Proper;
      ghost var s0, run := View(), Asked(Write, lba * BLOCK_SIZE, |data|, 0, data);
      InvShape(s0);
      ProperIs(blockCount, lba, run);
      looks, k := 0, 0;
      ghost var env;
      still, env := OthersRun(SLOT_FREE, QUEUE_DEPTH, rely, left);
      ghost var s := View();
      InvShape(s);
      BeforeWrite(s0, env, s, rely, left + 1, left - still);
      var ticket;
      ghost var filled, act;
      ticket, filled, act := SubmitWrite(lba, data);
      if ticket.Err? {
        KeptWritten(s0, s, rely, lba * BLOCK_SIZE, data);
        RefusedAnswered(s0, s, run, rely, ticket.error);
        return Err(ticket.error), still, looks, k;
      }
      RunInside(blockCount, lba, |data|);
      JustBooked(filled, act);
      ghost var bg, u;
      r, still, looks, bg, u := Await(ticket.value, act.i, rely, still);
      k := |filled.h.reqs|;
      FilledOnward(s, filled, rely);
      OnwardJoin(s0, s, filled, rely);
      AfterWrite(s0, s, filled, act, lba, bg, u, rely);
      BookedAnswered(s0, filled, act, lba, bg, u, run, looks, rely, r);
      if r.Ok? {
        assert r.value == ();
      }
    }

    /** The next chunk of a longer write. */
    method WriteChunk(lba: u64, data: seq<u8>, at: nat, chunk: nat, rely: Rely, left: nat, ghost start: Sys,
                      ghost budget: nat)
      returns (r: Result<()>, still: nat, looks: nat, ghost k: nat)
      requires Valid() && left <= rely.bookings && budget > left && |data| % BLOCK_SIZE == 0
      requires at < |data| / BLOCK_SIZE && chunk == Min(RUN_BYTES / BLOCK_SIZE, |data| / BLOCK_SIZE - at)
      requires WrittenSoFar(start, View(), lba * BLOCK_SIZE, data, at * BLOCK_SIZE, budget, rely)
      modifies this, iosq, iocq
      ensures Valid() && still <= left && |disk| == |start.disk|
      ensures Answered(start, View(), PartOf(Asked(Write, lba * BLOCK_SIZE, |data|, 0, data), at * BLOCK_SIZE), k,
                       looks, rely, r)
      ensures at > 0 ==> (lba + at) * BLOCK_SIZE <= |disk|
      ensures forall x :: 0 <= x < |disk| && NoWriter(start.h, x) && !rely.writes(x) ==>
                BetweenByte(start.disk, disk, h, lba * BLOCK_SIZE, data, at * BLOCK_SIZE, x)
      ensures r.Ok? ==>
                && h.reserved == old(h.reserved) + 1 + (left - still)
                && WrittenSoFar(start, View(), lba * BLOCK_SIZE, data, (at + chunk) * BLOCK_SIZE,
                                budget - 1 - (left - still), rely)
    {
      hide Inv, NoWriter, Onward, FreshFor, IdFree, WrittenSoFar, WrittenByte, BetweenByte, Answered, Proper;
      ghost var mid, lo, n, m := View(), lba * BLOCK_SIZE, at * BLOCK_SIZE, (at + chunk) * BLOCK_SIZE;
      WriteEnds(start, mid, lo, data, n, budget, rely);
      FreshFewer(mid, budget, left + 1, rely);
      r, still, looks, k := WriteRun(lba + at, data[at * BLOCK_SIZE..(at + chunk) * BLOCK_SIZE], rely, left);
      InvShape(View());
      ghost var part := PartOf(Asked(Write, lo, |data|, 0, data), n);
      assert part == Asked(Write, (lba + at) * BLOCK_SIZE, m - n, 0, data[n..m]);
      AnsweredSince(start, mid, View(), part, k, looks, rely, r);
      WriteStops(start, mid, View(), lo, data, n, m, budget, rely, r.Ok?);
      if r.Ok? {
        WriteGrows(start, mid, View(), lo, data, n, m, budget, 1 + (left - still), rely);
      }
    }

    /** Write `data` at block `lba`, one run at a time, while other callers do as they may.  The
        medium has the first `done` bytes, all of them if the answer is Ok; any other answer is
        the one the run that starts there was given.  Whatever it answers, no byte off the range
        is written but those other callers may write. */
    method WriteBlocks(lba: u64, data: seq<u8>, rely: Rely)
      returns (r: Result<()>, done: nat, looks: nat, ghost k: nat)
      requires Valid() && FreshFor(View(), RunsFor(|data|) + rely.bookings, rely)
      modifies this, iosq, iocq
      ensures Valid() && |disk| == old(|disk|)
      ensures r == Err(InvalidArgument) <==>
                || |data| % BLOCK_SIZE != 0
                || (done < |data| && lba * BLOCK_SIZE + Min(done + RUN_BYTES, |data|) > |disk|)
      ensures |data| % BLOCK_SIZE != 0 ==> done == 0 && View() == old(View())
      ensures Parted(|data|, done, r.Ok?)
      ensures r.Err? && |data| % BLOCK_SIZE == 0 ==>
                Answered(old(View()), View(), PartOf(Asked(Write, lba * BLOCK_SIZE, |data|, 0, data), done), k, looks,
                         rely, r)
      ensures done > 0 ==> lba * BLOCK_SIZE + done <= |disk|
      ensures forall x :: 0 <= x < |disk| && NoWriter(old(h), x) && !rely.writes(x) ==>
                BetweenByte(old(disk), disk, h, lba * BLOCK_SIZE, data, done, x)
      ensures r.Ok? ==>
                && Onward(old(View()), View(), rely)
                && h.reserved <= old(h.reserved) + RunsFor(|data|) + rely.bookings
                && (Still(old(h), rely, lba * BLOCK_SIZE, lba * BLOCK_SIZE + |data|) ==>
                      && Still(h, rely, lba * BLOCK_SIZE, lba * BLOCK_SIZE + |data|)
                      && (data != [] ==> Stored(disk, lba * BLOCK_SIZE, data)))
    {
      hide Inv, NoWriter, Onward, FreshFor, IdFree, WrittenSoFar, BetweenByte, Still, Stored, RunsFor, Answered,
           Through, Parted;
      ghost var start, lo, budget := View(), lba * BLOCK_SIZE, RunsFor(|data|);
      done, looks, k := 0, 0, 0;
      InvShape(start);
      WriteStarts(start, lo, data, budget + rely.bookings, rely);
      WriteEnds(start, start, lo, data, 0, budget + rely.bookings, rely);
      NotBegun(|data|);
      if |data| % BLOCK_SIZE != 0 {
        return Err(InvalidArgument), done, looks, k;
      }
      var blocks, perRun := |data| / BLOCK_SIZE, RUN_BYTES / BLOCK_SIZE;
      var at, left: nat := 0, rely.bookings;
      ghost var runs := 0;
      while at < blocks
        invariant Valid() && 0 <= at <= blocks && runs <= budget && left <= rely.bookings
        invariant done == at * BLOCK_SIZE && Through(|data|, at, runs)
        invariant WrittenSoFar(start, View(), lo, data, done, budget - runs + left, rely)
        invariant h.reserved == start.h.reserved + runs + (rely.bookings - left)
      {
        var chunk := Min(perRun, blocks - at);
        Throughout(|data|, at, runs);
        ghost var before := left;
        r, left, looks, k := WriteChunk(lba, data, at, chunk, rely, left, start, budget - runs + left);
        if r.Err? {
          AnsweredRefusal(start, View(), Asked(Write, lo, |data|, 0, data), done, k, looks, rely, r);
          return;
        }
        at, runs := at + chunk, runs + 1;
        done := at * BLOCK_SIZE;
      }
      Throughout(|data|, at, runs);
      WriteEnds(start, View(), lo, data, |data|, budget - runs + left, rely);
      return Ok(()), done, looks, k;
    }

    /** The flush's entry goes out, with identifier 0 and no slot. */
    method SendFlush() returns (entry: Words)
      requires Valid()
      modifies this`iosqTail, this`sqTailDoorbell, this`flushesOut, this`h, iosq
      ensures Running() && Interpret(Decode(entry)) == FLUSH_OP && old(View()).tail < iosq.Length
      ensures Decode(entry).nsid == nsid && Decode(entry).opcode == NVM_FLUSH
      ensures View() == Submit(old(View()), entry, [], true)
      ensures IdFree(old(slots), old(h), 0) ==> Valid()
    {
      hide Inv, Runs, IdFree, Interpret;
      var sqe := new NvmeSqe.Zeroed();
      sqe.SetOpcode(NVM_FLUSH);
      sqe.SetNsid(nsid);
      entry := sqe.raw;
      FlushEntry(Decode(entry));
      ghost var start := View();
      TailInside(start);
      FlushSent(start, entry);
      IoSubmit(entry, [], true);
      flushesOut := flushesOut + 1;
    }

    /** Flush, and spin with the queue locked for a completion under identifier 0 that no slot
        takes.  With the identifier unused that is the flush's own, and Ok says exactly that the
        controller ran it successfully; a timeout leaves the command outstanding with no slot.
        While a slot has the identifier the flush can only time out.  Behind an earlier flush
        that timed out the answer may be the earlier one's. */
    method Flush() returns (r: Result<()>, looks: nat, ghost acts: seq<Action>, ghost found: nat)
      requires Valid()
      modifies this, iosq, iocq
      ensures Running() && h.reserved == old(h.reserved) && looks <= COMPLETION_POLL_LIMIT + 1
      ensures acts != [] && acts[0].ActFlush? && Background(acts[1..]) && Decode(acts[0].sqe).nsid == nsid
      ensures r == Err(TimedOut) ==> looks == COMPLETION_POLL_LIMIT + 1 && h.reaped == |h.posts|
      ensures FindSlot(old(slots), 0) < QUEUE_DEPTH ==> r == Err(TimedOut)
      ensures r != Err(TimedOut) ==>
                && (found == |old(h.reqs)| || found in old(h.strays))
                && found in h.outcomes && found !in h.live
                && r == (if h.outcomes[found].ok then Ok(()) else Err(NotFound))
      ensures IdFree(old(slots), old(h), 0) ==>
                && Valid() && Path(old(View()), acts, View())
                && (if r == Err(TimedOut) then |old(h.reqs)| in h.strays else found == |old(h.reqs)|)
    {
      hide Inv, Runs, Loose, Path, DeviceRun, Enabled, Do, Background, IdFree, Interpret, Cqe.IsSuccess, FindSlot,
           Decode;
      ghost var start, k := View(), |h.reqs|;
      ghost var unused := IdFree(slots, h, 0);
      TailInside(start);
      var entry := SendFlush();
      FlushSent(start, entry);
      looks, found, acts := 0, k, [ActFlush(entry)];
      ghost var bg, sent := [], View();
      DeviceNone(sent);
      var waited := 0;
      while true
        invariant Running() && looks == waited <= COMPLETION_POLL_LIMIT && found == k
        invariant DeviceRun(sent, bg, View()) && Background(bg)
        invariant unused ==> Valid() && k in h.strays
        decreases COMPLETION_POLL_LIMIT - waited
      {
        var cqe;
        ghost var before, turn := View(), [];
        RiddenAlong(sent, bg, before);
        cqe, turn, found := Reap(Some(0));
        looks := looks + 1;
        DeviceJoin(sent, bg, before, turn, View());
        BackgroundJoin(bg, turn);
        bg := bg + turn;
        acts := [ActFlush(entry)] + bg;
        if cqe.Some? {
          FlushAnswered(start, entry, before, bg, View(), found, cqe.value);
          if unused {
            OneFlush(before, found, k);
            FlushPath(start, entry, bg, View());
          }
          r := if cqe.value.IsSuccess() then Ok(()) else Err(NotFound);
          return;
        }
        found, waited := k, waited + 1;
        if waited > COMPLETION_POLL_LIMIT {
          RiddenAlong(sent, bg, View());
          if unused {
            FlushPath(start, entry, bg, View());
          }
          r := Err(TimedOut);
          return;
        }
      }
    }

    /** What is written reads back, through any schedule of the controller and whatever other
        callers may do.  A read after a write that went well is not refused for its arguments. */
    method WriteThenRead(lba: u64, data: seq<u8>, dst: nat, rely: Rely)
      returns (written: Result<()>, read: Option<Result<()>>, done: nat, looks: nat, ghost k: nat, ghost mid: Sys)
      requires Valid() && dst != 0 && Owned(View(), rely) && rely.at <= dst && dst + |data| <= rely.at + rely.len
      requires FreshFor(View(), 2 * (RunsFor(|data|) + rely.bookings), rely)
      modifies this, iosq, iocq
      ensures Valid() && (written.Ok? <==> read.Some?)
      ensures read == Some(Ok(())) && Still(old(h), rely, lba * BLOCK_SIZE, lba * BLOCK_SIZE + |data|) ==>
                Stored(ram, dst, data)
      ensures read.Some? && read.value.Err? ==>
                && read.value.error in {Busy, TimedOut, DeviceError} && done < |data|
                && Answered(mid, View(), PartOf(Asked(Read, lba * BLOCK_SIZE, |data|, dst, []), done), k, looks, rely,
                            read.value)
    {
      hide Inv, NoWriter, Onward, IdFree, Untouched, Still, FreshFor, Answered;
      ghost var start, runs := View(), RunsFor(|data|) + rely.bookings;
      InvShape(start);
      read := None;
      FreshFewer(start, 2 * runs, runs, rely);
      written, done, looks, k := WriteBlocks(lba, data, rely);
      mid := View();
      if written.Ok? {
        InvShape(View());
        OnwardReserved(start, View(), rely);
        FreshLater(start, View(), 2 * runs, h.reserved - start.h.reserved, rely);
        FreshFewer(View(), 2 * runs - (h.reserved - start.h.reserved), runs, rely);
        OwnedLater(start, View(), rely);
        var r;
        r, done, looks, k := ReadBlocks(lba, dst, |data|, rely);
        read := Some(r);
        if r.Err? {
          OnlyErrors(mid, View(), PartOf(Asked(Read, lba * BLOCK_SIZE, |data|, dst, []), done), k, looks, rely, r);
        } else {
          assert r.value == ();
        }
      }
    }
  }

  /** Submission `k` was consumed, and `e` carries its own status. */
  ghost predicate FlushAnswer(h: History, k: nat, e: Cqe) {
    k < |h.reqs| && k in h.outcomes && k !in h.live && e.commandId == h.reqs[k].op.cid
      && (e.IsSuccess() <==> h.outcomes[k].ok)
  }

  /** No flush the caller waits for has been consumed. */
  ghost predicate Awaited(want: Option<u16>, before: History, after: History) {
    forall k :: k in before.strays && k < |before.reqs| && want == Some(before.reqs[k].op.cid) ==> k in after.strays
  }

  /** The booked entry, as the controller will understand it. */
  ghost predicate BookedOp(act: Action, kind: Kind, cid: nat, base: nat, lba: nat, len: nat)
    requires act.ActBook?
  {
    var prp, op := RunPrp(base, len), Interpret(Decode(act.sqe));
    && op.kind == kind && op.cid == cid && op.prp1 == prp.0 && op.prp2 == prp.1
    && op.lo == lba * BLOCK_SIZE && op.size == len
  }

  /** An entry built for a free slot's buffer, for a run on the medium, may be booked. */
  lemma Bookable(s: Sys, act: Action, kind: Kind, lba: nat)
    requires Inv(s) && act.ActBook? && act.i < QUEUE_DEPTH && !s.slots[act.i].Booked() && kind != Other
    requires IdFree(s.slots, s.h, s.nextCid)
    requires var len := if kind == Read then act.len else |act.payload|;
             && BookedOp(act, kind, s.nextCid, s.slots[act.i].bounce, lba, len)
             && len <= RUN_BYTES && lba * BLOCK_SIZE + len <= |s.disk|
    requires kind == Read ==> act.dst != 0 && act.dst + act.len <= |s.ram| && Untouched(s.slots, act.dst, act.len)
    requires kind == Write ==> act.dst == 0 && Stored(s.ram, s.slots[act.i].bounce, act.payload)
    ensures Enabled(s, act) && Shape(s) && s.tail < |s.sq|
    ensures Do(s, act) == Book(s, act.i, act.sqe, act.payload, act.dst, act.len)
    ensures Inv(Do(s, act)) && Decode(act.sqe).cid == s.nextCid
  {
    hide Inv, Interpret, IdFree, Book;
    InvShape(s);
    InterpretCid(act.sqe);
    assert CanBook(s, act.i, act.sqe, act.payload, act.dst, act.len);
    BookIsDo(s, act.i, act.sqe, act.payload, act.dst, act.len);
  }

  lemma FillBookable(s: Sys, i: nat, data: seq<u8>, act: Action, lba: nat)
    requires Inv(s) && i < QUEUE_DEPTH && !s.slots[i].Booked() && |data| <= RUN_BYTES && IdFree(s.slots, s.h, s.nextCid)
    requires act.ActBook? && act == ActBook(i, act.sqe, data, 0, 0) && lba * BLOCK_SIZE + |data| <= |s.disk|
    requires BookedOp(act, Write, s.nextCid, s.slots[i].bounce, lba, |data|)
    ensures s.slots[i].bounce + |data| <= |s.ram|
    ensures var f := Fill(s, i, data);
            && Enabled(f, act) && Shape(f) && f.tail < |f.sq|
            && Do(f, act) == Book(f, i, act.sqe, data, 0, 0) && Inv(Do(f, act)) && Decode(act.sqe).cid == s.nextCid
  {
    hide Inv, IdFree, Book, BookedOp, Enabled, Do;
    FillIsDo(s, i, data);
    Bookable(Fill(s, i, data), act, Write, lba);
  }

  /** A read's entry for a free slot fits, whatever other slots' destinations are. */
  lemma ReadFits(s: Sys, act: Action, lba: nat)
    requires Inv(s) && act.ActBook? && act.i < QUEUE_DEPTH && !s.slots[act.i].Booked() && act.payload == []
    requires BookedOp(act, Read, s.nextCid, s.slots[act.i].bounce, lba, act.len)
    requires act.len <= RUN_BYTES && lba * BLOCK_SIZE + act.len <= |s.disk|
    requires act.dst != 0 && act.dst + act.len <= |s.ram| && BounceClear(s.slots, act.dst, act.len)
    ensures FitsAnywhere(s, act.i, act.sqe, [], act.dst, act.len) && Shape(s) && s.tail < |s.sq|
    ensures Decode(act.sqe).cid == s.nextCid
  {
    hide Inv, Interpret;
    InvShape(s);
    TailInside(s);
    InterpretCid(act.sqe);
  }

  lemma NotCredited(slots: seq<IoSlot>, i: nat, ok: bool)
    requires i >= |slots|
    ensures Credited(slots, i, ok) == slots
  {
  }

  lemma DeviceNone(s: Sys)
    ensures DeviceRun(s, [], s) && Background([])
  {
  }

  lemma TakenIs(s: Sys)
    requires CanReap(s) && s.h.reaped < |s.h.posts| && CopyInside(s.slots, |s.ram|)
    ensures var t := NvmeSteps.Reap(s);
            && t.h == Taken(s.h, s.h.posts[s.h.reaped].req) && t.h.posts == s.h.posts && t.jobs == s.jobs
            && |t.ram| == |s.ram| && t.disk == s.disk
  {
    hide CanReap, CopyInside, FindSlot, Credited, Bump;
  }

  /** Consuming a completion no slot takes leaves one flush fewer. */
  lemma StraysLeft(s: Sys)
    requires Inv(s) && CanReap(s)
    ensures s.head < |s.cq| && s.h.reaped < |s.h.posts| && CopyInside(s.slots, |s.ram|) && |s.slots| == QUEUE_DEPTH
    ensures var k, free := s.h.posts[s.h.reaped].req, FindSlot(s.slots, s.cq[s.head].commandId) == QUEUE_DEPTH;
            && (free <==> k in s.h.strays)
            && |NvmeSteps.Reap(s).h.strays| == |s.h.strays| - (if free then 1 else 0)
    ensures Inv(NvmeSteps.Reap(s))
  {
    hide Inv, CopyInside, FindSlot, Credited, CopyOut, Bump, Cqe.Phase;
    ReapCredits(s);
  }

  /** The entry at the head was consumed, and a slot was credited if `mine`. */
  ghost predicate CreditedAs(s: Sys, t: Sys, r: Option<Cqe>, mine: bool)
    requires DeviceStep(s, ActReap)
  {
    && s.head < |s.cq| && r == Some(s.cq[s.head]) && t == NvmeSteps.Reap(s)
    && t.h == Taken(s.h, s.h.posts[s.h.reaped].req)
    && (mine <==> FindSlot(s.slots, s.cq[s.head].commandId) < |s.slots|)
  }

  /** One completion consumed after a stretch of the controller's. */
  lemma ReapTaken(s: Sys, acts: seq<Action>, t: Sys)
    requires DeviceRun(s, acts, t) && Background(acts) && Runs(t) && DeviceStep(t, ActReap)
    ensures var u, k, e := NvmeSteps.Reap(t), t.h.posts[t.h.reaped].req, t.cq[t.head];
            && DeviceRun(s, acts + [ActReap], u) && Background(acts + [ActReap])
            && u.h.reaped == t.h.reaped + 1 <= |u.h.reqs| && k in s.h.live && k < |u.h.reqs|
            && FlushAnswer(u.h, k, e) && e.commandId == u.h.reqs[k].op.cid
            && |u.slots| == |t.slots| == QUEUE_DEPTH && FindSlot(u.slots, e.commandId) == FindSlot(t.slots, e.commandId)
  {
    hide Runs, DeviceRun, Cqe.IsSuccess, FindSlot, CanReap, CopyInside;
    RunsShape(t);
    RunsRoom(t);
    RunsReap(t);
    DeviceOne(s, acts, t, ActReap);
    RiddenAlong(s, acts, t);
    RiddenStep(t, ActReap);
    SameFound(t.slots, NvmeSteps.Reap(t).slots, t.cq[t.head].commandId);
  }

  lemma MayPost(s: Sys, j: nat, code: nat)
    requires j < |s.jobs| && s.jobs[j].ran && s.devTail < |s.cq| && Bump(s.devTail) != s.cqDb
    requires code < 0x8000 && (code == 0 <==> s.jobs[j].ok)
    ensures CanPost(s, j, code)
  {
  }

  /** The controller's own steps consume nothing. */
  lemma ControllerQuiet(s: Sys, a: Action)
    requires DeviceStep(s, a) && a != ActReap
    ensures Background([a]) && DeviceDo(s, a).h.reaped == s.h.reaped && DeviceDo(s, a).h.strays == s.h.strays
  {
  }

  // ------------------------------------------------------------ other callers

  /** The caller's buffer: inside memory, and no slot's. */
  ghost predicate Owned(s: Sys, rely: Rely) {
    rely.at + rely.len <= |s.ram| && Untouched(s.slots, rely.at, rely.len)
  }

  lemma OwnedLater(s: Sys, t: Sys, rely: Rely)
    requires Owned(s, rely) && Onward(s, t, rely)
    ensures Owned(t, rely)
  {
    hide Untouched, SlotOnward;
    UntouchedOnward(s, t, rely, rely.at, rely.len);
  }

  lemma OnwardReserved(s: Sys, t: Sys, rely: Rely)
    requires Onward(s, t, rely)
    ensures s.h.reserved <= t.h.reserved && |t.disk| == |s.disk|
  {
    hide SlotOnward;
  }

  /** An identifier no slot has, and not a flush's while one is out. */
  predicate Unused(slots: seq<IoSlot>, flushesOut: nat, id: nat) {
    (forall i :: 0 <= i < |slots| ==> slots[i].id != id) && (flushesOut == 0 || id != 0)
  }

  lemma IdUnused(s: Sys, id: nat)
    requires Inv(s)
    ensures Unused(s.slots, |s.h.strays|, id) ==> IdFree(s.slots, s.h, id)
  {
    hide StagesHold, OutcomesHold, IdsHold, LayoutHolds, DataHolds, LogHolds, SqHolds, EntriesHold, ReapedHold;
    assert forall w :: 0 <= w < QUEUE_DEPTH ==> SlotHolds(s.slots[w], s.h.owner[w], s.h);
    if s.h.strays == {} {
      assert |s.h.strays| == 0;
    }
  }

  lemma NothingElse(s: Sys, mine: nat, rely: Rely)
    ensures Path(s, [], s) && Others([], mine, rely)
  {
  }

  lemma OneMoreOther(acts: seq<Action>, a: Action, mine: nat, rely: Rely)
    requires Others(acts, mine, rely) && Fair(a, rely) && a != ActRelease(mine)
    ensures Others(acts + [a], mine, rely)
  {
  }

  /** One fair step. */
  lemma OnwardOne(s: Sys, a: Action, mine: nat, rely: Rely)
    requires Enabled(s, a) && Fair(a, rely) && a != ActRelease(mine)
    ensures Path(s, [a], Do(s, a)) && Others([a], mine, rely)
    ensures Do(s, a).h.reserved == s.h.reserved + (if a.ActBook? then 1 else 0)
  {
    hide Inv, Enabled, Do, Fair;
    assert [a][1..] == [];
    assert Path(Do(s, a), [], Do(s, a));
    OnwardStep(s, a, rely);
  }

  /** Other callers leave this caller's slot booked for its request. */
  lemma OthersKeepSlot(s: Sys, acts: seq<Action>, t: Sys, mine: nat, rely: Rely)
    requires Inv(s) && Path(s, acts, t) && Others(acts, mine, rely) && |s.slots| == QUEUE_DEPTH
    requires mine < QUEUE_DEPTH ==> s.slots[mine].Booked()
    ensures Inv(t) && |t.slots| == QUEUE_DEPTH
    ensures mine < QUEUE_DEPTH ==> t.slots[mine] == s.slots[mine].(state := t.slots[mine].state)
  {
    hide Inv, Path, Others;
    PathKeeps(s, acts, t);
    InvShape(t);
    if mine < QUEUE_DEPTH {
      OthersKeepMine(acts, mine, rely);
      SlotKept(s, acts, t, mine);
    }
  }

  lemma NoRelease(acts: seq<Action>, i: nat)
    requires Background(acts)
    ensures forall n :: 0 <= n < |acts| ==> acts[n] != ActRelease(i)
  {
  }

  lemma FlushOthers(acts: seq<Action>, mine: nat, rely: Rely)
    requires acts != [] && acts[0].ActFlush? && Background(acts[1..]) && rely.flushes
    ensures Others(acts, mine, rely)
  {
    forall n | 0 <= n < |acts|
      ensures Fair(acts[n], rely) && acts[n] != ActRelease(mine)
    {
      if n > 0 {
        assert acts[n] == acts[1..][n - 1];
      }
    }
  }

  /** A flush just sent: the rings stay in step, and with identifier 0 unused it is a step of
      the state machine. */
  lemma FlushSent(s: Sys, sqe: Words)
    requires Inv(s) && Interpret(Decode(sqe)) == FLUSH_OP && s.tail < |s.sq|
    ensures Runs(Submit(s, sqe, [], true)) && |s.h.reqs| in Submit(s, sqe, [], true).h.strays
    ensures IdFree(s.slots, s.h, 0) ==>
              && Enabled(s, ActFlush(sqe)) && Do(s, ActFlush(sqe)) == Submit(s, sqe, [], true)
              && Inv(Submit(s, sqe, [], true)) && |Submit(s, sqe, [], true).h.strays| == |s.h.strays| + 1
  {
    hide Inv, Loose, Runs, Interpret, IdFree;
    FlushLoose(s, sqe);
    LooseRuns(Submit(s, sqe, [], true));
    if IdFree(s.slots, s.h, 0) {
      FlushKeeps(s, sqe);
      NewStray(s);
    }
  }

  lemma NewStray(s: Sys)
    requires Inv(s)
    ensures |s.h.strays + {|s.h.reqs|}| == |s.h.strays| + 1
  {
    hide StagesHold, OutcomesHold, IdsHold, LayoutHolds, DataHolds, LogHolds, SqHolds, EntriesHold, ReapedHold;
    assert |s.h.reqs| !in s.h.strays;
  }

  lemma FlushPath(s: Sys, sqe: Words, bg: seq<Action>, t: Sys)
    requires Enabled(s, ActFlush(sqe)) && Inv(Do(s, ActFlush(sqe))) && DeviceRun(Do(s, ActFlush(sqe)), bg, t)
    ensures Path(s, [ActFlush(sqe)] + bg, t)
  {
    hide Inv, Enabled, Do, DeviceRun;
    assert ([ActFlush(sqe)] + bg)[1..] == bg;
    DeviceIsPath(Do(s, ActFlush(sqe)), bg, t);
  }

  /** A completion that answers a flush: no slot had identifier 0, and it is a flush's. */
  lemma FlushAnswered(s: Sys, sqe: Words, before: Sys, acts: seq<Action>, t: Sys, k: nat, e: Cqe)
    requires Inv(s) && Interpret(Decode(sqe)) == FLUSH_OP && s.tail < |s.sq|
    requires Ridden(Submit(s, sqe, [], true), before) && k in before.h.live
    requires DeviceRun(Submit(s, sqe, [], true), acts, t) && FlushAnswer(t.h, k, e) && e.commandId == 0
    requires FindSlot(t.slots, 0) == |t.slots|
    ensures |s.slots| == QUEUE_DEPTH && FindSlot(s.slots, 0) == QUEUE_DEPTH && (k == |s.h.reqs| || k in s.h.strays)
    ensures t.h.reserved == s.h.reserved
  {
    hide Inv, DeviceRun, Interpret, FindSlot, Cqe.IsSuccess;
    InvShape(s);
    RiddenAlong(Submit(s, sqe, [], true), acts, t);
    SameFound(s.slots, t.slots, 0);
    FlushOnly(s, sqe, before, k);
  }

  /** Other callers between runs leave an unused identifier and the buffer to the next run. */
  lemma BeforeWrite(s0: Sys, env: seq<Action>, s: Sys, rely: Rely, budget: nat, used: nat)
    requires Inv(s0) && Path(s0, env, s) && Others(env, QUEUE_DEPTH, rely)
    requires |s0.slots| <= |s0.h.bookedAt| && FreshFor(s0, budget, rely) && used < budget
    requires s.h.reserved == s0.h.reserved + used
    ensures Inv(s) && Onward(s0, s, rely) && IdFree(s.slots, s.h, s.nextCid) && MediumKept(s0, s, rely)
  {
    hide Inv, Path, Others, NoWriter, FreshFor, IdFree, SlotOnward;
    OnwardAlong(s0, env, s, QUEUE_DEPTH, rely);
    FreshLater(s0, s, budget, used, rely);
    InvShape(s);
    FreshNow(s, budget - used, rely);
    forall x | 0 <= x < |s0.disk| && NoWriter(s0.h, x) && !rely.writes(x)
      ensures s.disk[x] == s0.disk[x] && NoWriter(s.h, x)
    {
      OthersKeep(s0, env, s, QUEUE_DEPTH, rely, x);
    }
  }

  lemma BeforeRun(s0: Sys, env: seq<Action>, s: Sys, rely: Rely, budget: nat, used: nat, dst: nat, len: nat, at: nat,
                  n: nat)
    requires Inv(s0) && Path(s0, env, s) && Others(env, QUEUE_DEPTH, rely)
    requires |s0.slots| <= |s0.h.bookedAt| && FreshFor(s0, budget, rely) && used < budget
    requires s.h.reserved == s0.h.reserved + used
    requires Owned(s0, rely) && rely.at <= dst && dst + len <= rely.at + rely.len
    requires rely.at <= at && at + n <= rely.at + rely.len
    ensures Inv(s) && Onward(s0, s, rely) && IdFree(s.slots, s.h, s.nextCid) && |s.ram| == |s0.ram|
    ensures dst + len <= |s.ram| && BounceClear(s.slots, dst, len) && DstFree(s.slots, dst, len)
    ensures MediumKept(s0, s, rely) && Untouched(s.slots, at, n) && s.ram[at..at + n] == s0.ram[at..at + n]
  {
    hide Inv, Path, Others, NoWriter, FreshFor, IdFree, SlotOnward, Untouched, MediumKept;
    BeforeWrite(s0, env, s, rely, budget, used);
    OwnedLater(s0, s, rely);
    UntouchedPart(s.slots, rely.at, rely.len, dst, len);
    UntouchedPart(s.slots, rely.at, rely.len, at, n);
    UntouchedPart(s0.slots, rely.at, rely.len, at, n);
    UntouchedIs(s.slots, dst, len);
    RamAlong(s0, env, s, QUEUE_DEPTH, rely, at, n);
  }

  lemma UntouchedIs(slots: seq<IoSlot>, at: nat, len: nat)
    requires Untouched(slots, at, len)
    ensures BounceClear(slots, at, len) && DstFree(slots, at, len)
  {
  }

  /** One read of a call: its submission and its wait, after what other callers did before. */
  lemma AfterRead(s0: Sys, s: Sys, act: Action, lba: nat, bg: seq<Action>, u: Sys, rely: Rely, at: nat, n: nat)
    requires Onward(s0, s, rely) && MediumKept(s0, s, rely)
    requires Enabled(s, act) && act.ActBook? && Path(Do(s, act), bg, u) && Others(bg, act.i, rely) && Inv(u)
    requires act.i < |s.slots| && BookedOp(act, Read, s.nextCid, s.slots[act.i].bounce, lba, act.len)
    requires act.dst != 0 && lba * BLOCK_SIZE + act.len <= |s.disk|
    requires Untouched(s.slots, at, n) && Apart(at, n, act.dst, act.len) && at + n <= |s.ram|
    requires rely.at <= at && at + n <= rely.at + rely.len
    ensures |u.slots| == QUEUE_DEPTH && act.i < QUEUE_DEPTH && MediumKept(s0, u, rely)
    ensures MediumKept(s0, Release(u, act.i), rely) && Onward(s0, Release(u, act.i), rely)
    ensures |u.ram| == |s.ram| && u.ram[at..at + n] == s.ram[at..at + n]
    ensures lba * BLOCK_SIZE + act.len <= |s0.disk|
    ensures u.slots[act.i].state == Done(Ok(())) && Still(s0.h, rely, lba * BLOCK_SIZE, lba * BLOCK_SIZE + act.len) ==>
              Stored(u.ram, act.dst, s0.disk[lba * BLOCK_SIZE..lba * BLOCK_SIZE + act.len])
  {
    hide Inv, Path, Others, Enabled, Do, BookedOp, Onward, Untouched, MediumKept, Still, Stored;
    OnwardAfter(s, act, bg, u, rely);
    OnwardReserved(s, Release(u, act.i), rely);
    OneRead(s, act, lba, bg, u, rely, at, n);
    OnwardJoin(s0, s, Release(u, act.i), rely);
    MediumJoin(s0, s, u, rely);
    MediumSize(s0, s, rely);
    MediumReleased(s0, u, act.i, rely);
    if u.slots[act.i].state == Done(Ok(())) && Still(s0.h, rely, lba * BLOCK_SIZE, lba * BLOCK_SIZE + act.len) {
      StoredSince(s0, s, u, rely, act.dst, lba * BLOCK_SIZE, act.len);
    }
  }

  lemma StoredSince(s0: Sys, s: Sys, u: Sys, rely: Rely, dst: nat, lo: nat, len: nat)
    requires MediumKept(s0, s, rely) && Still(s0.h, rely, lo, lo + len) && lo + len <= |s.disk|
    requires Still(s.h, rely, lo, lo + len) ==> Stored(u.ram, dst, s.disk[lo..lo + len])
    ensures lo + len <= |s0.disk| && Stored(u.ram, dst, s0.disk[lo..lo + len])
  {
    hide MediumKept, Still, Stored;
    MediumSize(s0, s, rely);
    StillLater(s0, s, rely, lo, lo + len);
  }

  lemma OneRead(s: Sys, act: Action, lba: nat, bg: seq<Action>, u: Sys, rely: Rely, at: nat, n: nat)
    requires Enabled(s, act) && act.ActBook? && Path(Do(s, act), bg, u) && Others(bg, act.i, rely) && Inv(u)
    requires act.i < |s.slots| && BookedOp(act, Read, s.nextCid, s.slots[act.i].bounce, lba, act.len)
    requires act.dst != 0 && lba * BLOCK_SIZE + act.len <= |s.disk| == |u.disk|
    requires Untouched(s.slots, at, n) && Apart(at, n, act.dst, act.len) && at + n <= |s.ram|
    requires rely.at <= at && at + n <= rely.at + rely.len
    ensures |u.ram| == |s.ram| && u.ram[at..at + n] == s.ram[at..at + n] && MediumKept(s, u, rely)
    ensures |u.slots| == QUEUE_DEPTH && act.i < QUEUE_DEPTH
    ensures var lo := lba * BLOCK_SIZE;
            u.slots[act.i].state == Done(Ok(())) && Still(s.h, rely, lo, lo + act.len) ==>
              Stored(u.ram, act.dst, s.disk[lo..lo + act.len])
  {
    hide Inv, Path, Others, NoWriter, Enabled, Do, Interpret, Untouched, Still, Stored, RunPrp;
    ReadRound(s, act, bg, u, rely, at, n);
  }

  /** The answer to a run that was booked in `s` and awaited until `u`. */
  lemma BookedAnswered(s0: Sys, s: Sys, act: Action, lba: nat, bg: seq<Action>, u: Sys, run: Asked, looks: nat,
                       rely: Rely, r: Result<()>)
    requires Onward(s0, s, rely) && Proper(run, |s0.disk|) && run.lo == lba * BLOCK_SIZE
    requires Enabled(s, act) && act.ActBook? && Path(Do(s, act), bg, u) && Others(bg, act.i, rely)
    requires act.payload == run.payload && act.dst == run.dst
    requires act.i < |s.slots| && BookedOp(act, run.kind, s.nextCid, s.slots[act.i].bounce, lba, run.size)
    requires |u.slots| == QUEUE_DEPTH && act.i < QUEUE_DEPTH && u.h.reaped == |u.h.posts|
    requires if u.slots[act.i].state == Pending then r == Err(TimedOut) && looks == COMPLETION_POLL_LIMIT + 1
             else u.slots[act.i].state == Done(r)
    ensures Answered(s0, if u.slots[act.i].state == Pending then u else Release(u, act.i), run, |s.h.reqs|, looks, rely,
                     r)
  {
    hide Inv, Path, Others, Enabled, Do, SlotOnward, Interpret, Proper, Answered;
    SentAnswered(s0, s, act, bg, u, run, looks, rely, r);
  }

  lemma MediumReleased(s: Sys, u: Sys, i: nat, rely: Rely)
    requires MediumKept(s, u, rely) && i < |u.slots|
    ensures MediumKept(s, Release(u, i), rely)
  {
    hide NoWriter;
  }

  lemma StillLater(s: Sys, t: Sys, rely: Rely, lo: nat, hi: nat)
    requires MediumKept(s, t, rely) && Still(s.h, rely, lo, hi) && lo <= hi <= |t.disk|
    ensures Still(t.h, rely, lo, hi) && t.disk[lo..hi] == s.disk[lo..hi]
  {
    hide NoWriter;
  }

  lemma FilledOnward(s: Sys, t: Sys, rely: Rely)
    requires Shape(s) && t == s.(ram := t.ram) && |t.ram| == |s.ram|
    ensures Onward(s, t, rely)
  {
  }

  /** One write of a call: what other callers did before it, its submission, and its wait. */
  lemma AfterWrite(s0: Sys, s: Sys, filled: Sys, act: Action, lba: nat, bg: seq<Action>, u: Sys, rely: Rely)
    requires Onward(s0, s, rely) && Onward(s, filled, rely) && MediumKept(s0, s, rely) && filled.disk == s.disk
    requires filled.h == s.h
    requires Enabled(filled, act) && act.ActBook? && Path(Do(filled, act), bg, u) && Others(bg, act.i, rely) && Inv(u)
    requires act.i < |s.slots| && BookedOp(act, Write, s.nextCid, s.slots[act.i].bounce, lba, |act.payload|)
    ensures act.i < |u.slots| == QUEUE_DEPTH && Onward(s0, Release(u, act.i), rely) && |u.disk| == |s0.disk|
    ensures forall x :: 0 <= x < |u.disk| && NoWriter(s0.h, x) && !rely.writes(x) ==>
              WrittenByte(s0.disk, u.disk, u.h, lba * BLOCK_SIZE, act.payload, x, u.slots[act.i].state == Done(Ok(())))
  {
    hide Inv, Path, Others, Enabled, Do, Onward, NoWriter, Interpret;
    OnwardAfter(filled, act, bg, u, rely);
    OnwardJoin(s0, s, filled, rely);
    OnwardJoin(s0, filled, Release(u, act.i), rely);
    InvShape(u);
    OnwardReserved(s0, Release(u, act.i), rely);
    forall x | 0 <= x < |u.disk| && NoWriter(s0.h, x) && !rely.writes(x)
      ensures WrittenByte(s0.disk, u.disk, u.h, lba * BLOCK_SIZE, act.payload, x, u.slots[act.i].state == Done(Ok(())))
    {
      WriteRound(filled, act, bg, u, rely, x);
    }
  }

  lemma KeptWritten(s: Sys, t: Sys, rely: Rely, lo: nat, data: seq<u8>)
    requires MediumKept(s, t, rely)
    ensures |t.disk| == |s.disk|
    ensures forall x :: 0 <= x < |t.disk| && NoWriter(s.h, x) && !rely.writes(x) ==>
              WrittenByte(s.disk, t.disk, t.h, lo, data, x, false)
  {
    hide NoWriter;
  }

  // ------------------------------------------------------------ a read in progress

  /** Bytes of the medium no write was on its way to, and other callers may not write, are as
      they were, and still are so. */
  ghost predicate MediumKept(s: Sys, t: Sys, rely: Rely) {
    && |t.disk| == |s.disk|
    && forall x :: 0 <= x < |t.disk| && NoWriter(s.h, x) && !rely.writes(x) ==>
          t.disk[x] == s.disk[x] && NoWriter(t.h, x)
  }

  lemma MediumJoin(s: Sys, t: Sys, u: Sys, rely: Rely)
    requires MediumKept(s, t, rely) && MediumKept(t, u, rely)
    ensures MediumKept(s, u, rely)
  {
    hide NoWriter;
  }

  lemma MediumSize(s: Sys, t: Sys, rely: Rely)
    requires MediumKept(s, t, rely)
    ensures |t.disk| == |s.disk|
  {
    hide NoWriter;
  }

  /** A read in progress: the first `n` bytes are in the caller's buffer, the medium is as it
      was, and `budget` more identifiers are free. */
  ghost predicate ReadSoFar(start: Sys, t: Sys, dst: nat, lo: nat, n: nat, budget: nat, rely: Rely) {
    && Onward(start, t, rely) && |t.ram| == |start.ram| && MediumKept(start, t, rely)
    && |t.slots| == |t.h.bookedAt| && FreshFor(t, budget, rely)
    && BufferSoFar(start, t, dst, lo, n, rely)
  }

  /** The first `n` bytes of the buffer at `dst` are the medium's from `lo` on. */
  ghost predicate BufferSoFar(start: Sys, t: Sys, dst: nat, lo: nat, n: nat, rely: Rely) {
    n > 0 ==>
      && dst + n <= |t.ram| && lo + n <= |start.disk|
      && (Still(start.h, rely, lo, lo + n) ==> t.ram[dst..dst + n] == start.disk[lo..lo + n])
  }

  lemma ReadStarts(s: Sys, dst: nat, lo: nat, budget: nat, rely: Rely)
    requires Inv(s) && |s.slots| <= |s.h.bookedAt| && FreshFor(s, budget, rely)
    ensures ReadSoFar(s, s, dst, lo, 0, budget, rely) && MediumKept(s, s, rely) && BufferSoFar(s, s, dst, lo, 0, rely)
  {
    hide Inv, FreshFor, Onward;
    InvShape(s);
    OnwardSame(s, rely);
  }

  lemma ReadEnds(start: Sys, t: Sys, dst: nat, lo: nat, n: nat, budget: nat, rely: Rely)
    requires ReadSoFar(start, t, dst, lo, n, budget, rely)
    ensures Onward(start, t, rely) && |t.disk| == |start.disk| && |t.ram| == |start.ram|
    ensures |t.slots| == |t.h.bookedAt| && FreshFor(t, budget, rely) && MediumKept(start, t, rely)
    ensures BufferSoFar(start, t, dst, lo, n, rely) && (n > 0 ==> dst + n <= |t.ram| && lo + n <= |t.disk|)
  {
    hide Onward, FreshFor;
  }

  /** A run elsewhere leaves the part of the buffer read before it. */
  lemma BufferKept(start: Sys, mid: Sys, t: Sys, dst: nat, lo: nat, n: nat, rely: Rely)
    requires BufferSoFar(start, mid, dst, lo, n, rely) && |t.ram| == |mid.ram| && dst + n <= |t.ram|
    requires t.ram[dst..dst + n] == mid.ram[dst..dst + n]
    ensures BufferSoFar(start, t, dst, lo, n, rely)
  {
    hide Still;
  }

  lemma ReadGrows(start: Sys, mid: Sys, t: Sys, dst: nat, lo: nat, n: nat, m: nat, budget: nat, used: nat, rely: Rely)
    requires Inv(mid) && Inv(t)
    requires ReadSoFar(start, mid, dst, lo, n, budget, rely) && n < m && used <= budget
    requires Onward(mid, t, rely) && t.h.reserved == mid.h.reserved + used && MediumKept(mid, t, rely)
    requires |t.slots| == |t.h.bookedAt|
    requires dst + m <= |t.ram| && lo + m <= |t.disk| && |t.ram| == |mid.ram|
    requires t.ram[dst..dst + n] == mid.ram[dst..dst + n]
    requires Still(mid.h, rely, lo + n, lo + m) ==> Stored(t.ram, dst + n, mid.disk[lo + n..lo + m])
    ensures ReadSoFar(start, t, dst, lo, m, budget - used, rely)
  {
    hide NoWriter, Onward, FreshFor, Inv;
    OnwardJoin(start, mid, t, rely);
    FreshLater(mid, t, budget, used, rely);
    MediumJoin(start, mid, t, rely);
    if Still(start.h, rely, lo, lo + m) {
      assert Still(start.h, rely, lo, lo + n) && Still(mid.h, rely, lo + n, lo + m);
      Extend(t.ram, dst, start.disk, mid.disk, lo, n, m);
    }
  }

  /** A copied prefix, extended by one more run. */
  lemma Extend(ram: seq<u8>, dst: nat, disk: seq<u8>, disk': seq<u8>, lo: nat, n: nat, m: nat)
    requires n <= m && dst + m <= |ram| && lo + m <= |disk| == |disk'|
    requires n > 0 ==> ram[dst..dst + n] == disk[lo..lo + n]
    requires Stored(ram, dst + n, disk'[lo + n..lo + m])
    requires forall x :: lo + n <= x < lo + m ==> disk'[x] == disk[x]
    ensures ram[dst..dst + m] == disk[lo..lo + m]
  {
    assert disk'[lo + n..lo + m] == disk[lo + n..lo + m];
    assert ram[dst..dst + m] == ram[dst..dst + n] + ram[dst + n..dst + m];
    assert disk[lo..lo + m] == disk[lo..lo + n] + disk[lo + n..lo + m];
  }

  // ------------------------------------------------------------ a write in progress

  /** Byte `x` after writing `data` at `lo`: the new byte inside the run if that went well, the
      old byte outside it; and either way no write to it is left on its way. */
  ghost predicate WrittenByte(before: seq<u8>, after: seq<u8>, h: History, lo: nat, data: seq<u8>, x: int, ok: bool)
    requires 0 <= x < |before| == |after|
  {
    if lo <= x < lo + |data| then ok ==> after[x] == data[x - lo] && NoWriter(h, x)
    else after[x] == before[x] && NoWriter(h, x)
  }

  /** Byte `x` when the first `n` bytes of a longer write were written and the next run was
      answered: only that run's bytes may be anything. */
  ghost predicate BetweenByte(before: seq<u8>, after: seq<u8>, h: History, lo: nat, data: seq<u8>, n: nat, x: int)
    requires 0 <= x < |before| == |after| && n <= |data|
  {
    !(lo + n <= x < lo + Min(n + RUN_BYTES, |data|)) ==>
      after[x] == (if lo <= x < lo + n then data[x - lo] else before[x]) && NoWriter(h, x)
  }

  /** A write in progress: the first `n` bytes are on the medium, every other byte is as it was. */
  ghost predicate WrittenSoFar(start: Sys, t: Sys, lo: nat, data: seq<u8>, n: nat, budget: nat, rely: Rely)
    requires n <= |data|
  {
    && Onward(start, t, rely) && |t.disk| == |start.disk|
    && |t.slots| == |t.h.bookedAt| && FreshFor(t, budget, rely)
    && (n > 0 ==> lo + n <= |t.disk|)
    && (forall x :: 0 <= x < |t.disk| && NoWriter(start.h, x) && !rely.writes(x) ==>
          WrittenByte(start.disk, t.disk, t.h, lo, data[..n], x, true))
  }

  lemma WriteStarts(s: Sys, lo: nat, data: seq<u8>, budget: nat, rely: Rely)
    requires Inv(s) && |s.slots| <= |s.h.bookedAt| && FreshFor(s, budget, rely)
    ensures WrittenSoFar(s, s, lo, data, 0, budget, rely)
  {
    hide Inv, FreshFor, Onward;
    InvShape(s);
    OnwardSame(s, rely);
  }

  lemma WriteEnds(start: Sys, t: Sys, lo: nat, data: seq<u8>, n: nat, budget: nat, rely: Rely)
    requires n <= |data| && WrittenSoFar(start, t, lo, data, n, budget, rely)
    ensures Onward(start, t, rely) && |t.disk| == |start.disk|
    ensures |t.slots| == |t.h.bookedAt| && FreshFor(t, budget, rely)
    ensures n > 0 ==> lo + n <= |t.disk|
    ensures n == |data| && Still(start.h, rely, lo, lo + n) ==>
              Still(t.h, rely, lo, lo + n) && (n > 0 ==> Stored(t.disk, lo, data))
    ensures forall x :: 0 <= x < |t.disk| && NoWriter(start.h, x) && !rely.writes(x) ==>
              BetweenByte(start.disk, t.disk, t.h, lo, data, n, x)
  {
    hide NoWriter, Onward, FreshFor;
    assert data[..|data|] == data;
    if Still(start.h, rely, lo, lo + n) {
      forall x | lo <= x < lo + n
        ensures t.disk[x] == data[x - lo] && NoWriter(t.h, x)
      {
        assert NoWriter(start.h, x);
      }
      if n > 0 {
        assert t.disk[lo..lo + n] == data[..n];
      }
    }
  }

  /** The byte after one more run, from the byte before it. */
  lemma WrittenOneMore(start: Sys, mid: Sys, t: Sys, lo: nat, data: seq<u8>, n: nat, m: nat, x: int, ok: bool)
    requires n < m <= |data| && 0 <= x < |start.disk| == |mid.disk| == |t.disk|
    requires WrittenByte(start.disk, mid.disk, mid.h, lo, data[..n], x, true)
    requires WrittenByte(mid.disk, t.disk, t.h, lo + n, data[n..m], x, ok)
    ensures ok ==> WrittenByte(start.disk, t.disk, t.h, lo, data[..m], x, true)
    ensures m == Min(n + RUN_BYTES, |data|) ==> BetweenByte(start.disk, t.disk, t.h, lo, data, n, x)
  {
  }

  lemma WriteGrows(start: Sys, mid: Sys, t: Sys, lo: nat, data: seq<u8>, n: nat, m: nat, budget: nat, used: nat,
                   rely: Rely)
    requires Inv(mid) && Inv(t)
    requires n < m <= |data| && used <= budget && WrittenSoFar(start, mid, lo, data, n, budget, rely)
    requires Onward(mid, t, rely) && t.h.reserved == mid.h.reserved + used && |t.disk| == |mid.disk|
    requires |t.slots| == |t.h.bookedAt|
    requires lo + m <= |t.disk|
    requires forall x :: 0 <= x < |t.disk| && NoWriter(mid.h, x) && !rely.writes(x) ==>
               WrittenByte(mid.disk, t.disk, t.h, lo + n, data[n..m], x, true)
    ensures WrittenSoFar(start, t, lo, data, m, budget - used, rely)
  {
    hide NoWriter, Onward, FreshFor, Inv;
    OnwardJoin(start, mid, t, rely);
    FreshLater(mid, t, budget, used, rely);
    forall x | 0 <= x < |t.disk| && NoWriter(start.h, x) && !rely.writes(x)
      ensures WrittenByte(start.disk, t.disk, t.h, lo, data[..m], x, true)
    {
      WrittenOneMore(start, mid, t, lo, data, n, m, x, true);
    }
  }

  /** After one more run, however it went. */
  lemma WriteStops(start: Sys, mid: Sys, t: Sys, lo: nat, data: seq<u8>, n: nat, m: nat, budget: nat, rely: Rely,
                   ok: bool)
    requires n < m <= |data| && m == Min(n + RUN_BYTES, |data|)
    requires WrittenSoFar(start, mid, lo, data, n, budget, rely) && |t.disk| == |mid.disk|
    requires forall x :: 0 <= x < |t.disk| && NoWriter(mid.h, x) && !rely.writes(x) ==>
               WrittenByte(mid.disk, t.disk, t.h, lo + n, data[n..m], x, ok)
    ensures |t.disk| == |start.disk|
    ensures forall x :: 0 <= x < |t.disk| && NoWriter(start.h, x) && !rely.writes(x) ==>
              BetweenByte(start.disk, t.disk, t.h, lo, data, n, x)
  {
    hide NoWriter, Onward, FreshFor, BetweenByte;
    forall x | 0 <= x < |t.disk| && NoWriter(start.h, x) && !rely.writes(x)
      ensures BetweenByte(start.disk, t.disk, t.h, lo, data, n, x)
    {
      WrittenOneMore(start, mid, t, lo, data, n, m, x, ok);
    }
  }

  // ------------------------------------------------------------ entries and answers

  lemma FlushEntry(c: Command)
    requires c.opcode == NVM_FLUSH && c.cid == 0
    ensures Interpret(c) == FLUSH_OP
  {
  }

  /** At most one live command carries the flush's identifier. */
  lemma OneFlush(s: Sys, a: nat, b: nat)
    requires Inv(s) && a in s.h.strays && b in s.h.strays
    ensures a == b
  {
    hide StagesHold, OutcomesHold, LayoutHolds, DataHolds, LogHolds, SqHolds, EntriesHold, ReapedHold, SlotsHold,
         IdsHold;
    OneStray(s.nextCid, s.slots, s.h);
  }

  lemma DoneIsBooked(s: Sys, i: nat)
    requires Inv(s) && i < QUEUE_DEPTH && s.slots[i].state != Pending
    ensures s.slots[i].Booked()
  {
    assert SlotHolds(s.slots[i], s.h.owner[i], s.h);
  }

  /** The completion at the head belongs to a live command: the waiting slot its identifier
      names, or a flush when it names none; and consuming it keeps the invariant. */
  lemma ReapCredits(s: Sys)
    requires Inv(s) && CanReap(s)
    ensures s.h.reaped < |s.h.posts| && CopyInside(s.slots, |s.ram|) && |s.slots| == QUEUE_DEPTH
    ensures var e, k := s.cq[s.head], s.h.posts[s.h.reaped].req;
            && k < |s.h.reqs| && k in s.h.outcomes && e.commandId == s.h.reqs[k].op.cid
            && (e.IsSuccess() <==> s.h.outcomes[k].ok)
            && (FindSlot(s.slots, e.commandId) == QUEUE_DEPTH <==> k in s.h.strays)
            && |s.h.strays| == |s.h.strays - {k}| + (if k in s.h.strays then 1 else 0)
    ensures Inv(NvmeSteps.Reap(s))
  {
    hide StagesHold, OutcomesHold, SlotsHold, IdsHold, LayoutHolds, DataHolds, LogHolds, SqHolds, EntriesHold,
         ReapedHold, CopyInside, NvmeSteps.Reap;
    PhaseTag(s);
    ReapKeeps(s);
    PostFacts(s.jobs, s.h, s.h.reaped);
    Credit(s.nextCid, s.slots, s.h, s.h.posts[s.h.reaped].req);
    assert s.h.posts[s.h.reaped].req !in s.h.strays ==> s.h.strays - {s.h.posts[s.h.reaped].req} == s.h.strays;
  }

  lemma RunInside(blockCount: u64, lba: u64, bytes: nat)
    requires blockCount < MAX_U64 && RunBlocks(blockCount, lba, bytes).Ok?
    ensures lba * BLOCK_SIZE + bytes <= blockCount * BLOCK_SIZE
    ensures RunBlocks(blockCount, lba, bytes).value * BLOCK_SIZE == bytes
  {
  }
}
