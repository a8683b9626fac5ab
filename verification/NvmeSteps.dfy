/** The actions of the queue pair and the proof that each keeps the invariant. */
module NvmeSteps {
  import opened Machine
  import opened NvmeProtocol
  import opened NvmeRing
  import opened NvmeModel

  // ------------------------------------------------------------ the controller's actions

  predicate CanFetch(s: Sys) { s.devHead < |s.sq| && s.devHead != s.sqDb }

  /** Fetch the entry at the head, as the tail doorbell says there is one. */
  function Fetch(s: Sys): Sys
    requires CanFetch(s)
  {
    s.(devHead := Bump(s.devHead),
       jobs := s.jobs + [Job(FetchCount(s), Interpret(Decode(s.sq[s.devHead])), false, false)])
  }

  predicate CanRun(s: Sys, j: nat, junk: seq<u8>) {
    && j < |s.jobs| && !s.jobs[j].ran
    && var op := s.jobs[j].op;
       && op.lo + op.size <= |s.disk| && |junk| == op.size
       && (op.kind != Other ==> PrpInside(op.prp1, op.prp2, op.size, |s.ram|))
  }

  /** The bytes a command moves: its range of the medium for a read, its buffer for a write,
      and whatever a failed one leaves behind. */
  function Moved(s: Sys, op: Op, ok: bool, junk: seq<u8>): (data: seq<u8>)
    requires op.lo + op.size <= |s.disk| && |junk| == op.size
    requires op.kind != Other ==> PrpInside(op.prp1, op.prp2, op.size, |s.ram|)
    ensures |data| == op.size
  {
    if !ok || op.kind == Other then junk
    else if op.kind == Read then s.disk[op.lo..op.lo + op.size]
    else Gather(s.ram, op.prp1, op.prp2, op.size)
  }

  function Ran(h: History, k: nat, o: Outcome): History {
    h.(outcomes := h.outcomes[k := o], log := h.log + [k])
  }

  /** Move the data of job `j`.  A failed command may leave anything in its own range, and
      only there: `junk` is what it leaves. */
  function Run(s: Sys, j: nat, ok: bool, junk: seq<u8>): Sys
    requires CanRun(s, j, junk)
  {
    var job, op := s.jobs[j], s.jobs[j].op;
    var data := Moved(s, op, ok, junk);
    s.(jobs := s.jobs[j := job.(ran := true, ok := ok)],
       ram := if op.kind == Read then Scatter(s.ram, op.prp1, op.prp2, data) else s.ram,
       disk := if op.kind == Write then Blit(s.disk, op.lo, data) else s.disk,
       h := Ran(s.h, job.req, Outcome(ok, data)))
  }

  predicate CanPost(s: Sys, j: nat, code: nat) {
    && j < |s.jobs| && s.jobs[j].ran
    && s.devTail < |s.cq| && Bump(s.devTail) != s.cqDb
    && code < 0x8000 && (code == 0 <==> s.jobs[j].ok)
  }

  /** Post the completion of job `j` at the tail, with the controller's phase tag. */
  function Publish(s: Sys, j: nat, code: nat, dw0: u32): Sys
    requires j < |s.jobs| && s.devTail < |s.cq| && code < 0x8000
  {
    var job := s.jobs[j];
    var e := Cqe(dw0, s.devHead % 0x1_0000, 1, job.op.cid, StatusWord(code, s.devPhase));
    s.(cq := s.cq[s.devTail := e],
       devTail := Bump(s.devTail),
       devPhase := if Bump(s.devTail) == 0 then !s.devPhase else s.devPhase,
       jobs := s.jobs[..j] + s.jobs[j + 1..],
       h := s.h.(posts := s.h.posts + [Post(job.req, code)]))
  }

  // ------------------------------------------------------------ the driver's actions

  /** The first slot with identifier `id`; the table's length when there is none. */
  function FindSlot(slots: seq<IoSlot>, id: int): (i: nat)
    ensures i <= |slots|
    ensures i < |slots| ==> slots[i].id == id
    ensures forall j :: 0 <= j < i ==> slots[j].id != id
  {
    if slots == [] then 0
    else if slots[0].id == id then 0
    else 1 + FindSlot(slots[1..], id)
  }

  function Sent(h: History, r: Request, stray: bool): History {
    var k := |h.reqs|;
    h.(reqs := h.reqs + [r], live := h.live + {k},
       strays := if stray then h.strays + {k} else h.strays)
  }

  /** `io_submit`: write the entry at the tail, advance it, ring the doorbell. */
  function Submit(s: Sys, sqe: Words, payload: seq<u8>, stray: bool): Sys
    requires s.tail < |s.sq|
  {
    s.(sq := s.sq[s.tail := sqe], tail := Bump(s.tail), sqDb := Bump(s.tail),
       h := Sent(s.h, Request(Interpret(Decode(sqe)), payload), stray))
  }

  function Reserved(h: History, i: nat, k: nat): History
    requires i < |h.owner| && i < |h.bookedAt|
  {
    h.(owner := h.owner[i := k], bookedAt := h.bookedAt[i := h.reserved], reserved := h.reserved + 1)
  }

  /** A submit with a slot: reserve the identifier, send the entry, book the slot. */
  function Book(s: Sys, i: nat, sqe: Words, payload: seq<u8>, dst: nat, len: nat): Sys
    requires s.tail < |s.sq| && i < |s.slots| && i < |s.h.owner| && i < |s.h.bookedAt|
  {
    var t := Submit(s, sqe, payload, false);
    t.(nextCid := (s.nextCid + 1) % 0x1_0000,
       slots := s.slots[i := IoSlot(Decode(sqe).cid, s.slots[i].bounce, dst, len, Pending)],
       h := Reserved(t.h, i, |s.h.reqs|))
  }

  /** A write fills the slot's bounce buffer before it is sent. */
  function Fill(s: Sys, i: nat, data: seq<u8>): Sys
    requires i < |s.slots| && s.slots[i].bounce + |data| <= |s.ram|
  {
    s.(ram := Blit(s.ram, s.slots[i].bounce, data))
  }

  predicate CanReap(s: Sys) {
    s.head < |s.cq| && s.cq[s.head].Phase() == s.phase
  }

  ghost predicate CopyInside(slots: seq<IoSlot>, size: nat) {
    forall i :: 0 <= i < |slots| && slots[i].dst != 0 ==>
      slots[i].dst + slots[i].len <= size && slots[i].bounce + slots[i].len <= size
  }

  function Taken(h: History, k: nat): History {
    h.(reaped := h.reaped + 1, live := h.live - {k}, strays := h.strays - {k})
  }

  /** One turn of the `reap` loop: consume the entry at the head, and credit it to the slot
      its identifier names, copying a successful read out to its caller. */
  function Reap(s: Sys): Sys
    requires CanReap(s) && s.h.reaped < |s.h.posts| && CopyInside(s.slots, |s.ram|)
  {
    var e := s.cq[s.head];
    var i := FindSlot(s.slots, e.commandId);
    s.(head := Bump(s.head), cqDb := Bump(s.head),
       phase := if Bump(s.head) == 0 then !s.phase else s.phase,
       slots := Credited(s.slots, i, e.IsSuccess()),
       ram := if i < |s.slots| then CopyOut(s.ram, s.slots[i], e.IsSuccess()) else s.ram,
       h := Taken(s.h, s.h.posts[s.h.reaped].req))
  }

  /** The slot table after a completion was credited to slot `i` (or to none). */
  function Credited(slots: seq<IoSlot>, i: nat, ok: bool): seq<IoSlot> {
    if i < |slots| then slots[i := slots[i].(state := Answer(ok))] else slots
  }

  function CopyOut(ram: seq<u8>, slot: IoSlot, ok: bool): (r: seq<u8>)
    requires slot.dst != 0 ==> slot.dst + slot.len <= |ram| && slot.bounce + slot.len <= |ram|
    ensures |r| == |ram|
  {
    if ok && slot.dst != 0 then Blit(ram, slot.dst, ram[slot.bounce..slot.bounce + slot.len]) else ram
  }

  /** `poll` takes a finished slot back. */
  function Release(s: Sys, i: nat): Sys
    requires i < |s.slots|
  {
    s.(slots := s.slots[i := IoSlot(SLOT_FREE, s.slots[i].bounce, 0, 0, Pending)])
  }

  // ------------------------------------------------------------ fetch

  lemma FetchKeeps(s: Sys)
    requires Inv(s) && CanFetch(s)
    ensures Inv(Fetch(s))
  {
    hide StagesHold, OutcomesHold, SlotsHold, IdsHold, LayoutHolds, DataHolds, LogHolds, SqHolds, EntriesHold,
         ReapedHold, Interpret, PhaseOf;
    FetchedEntry(s.tail, s.sqDb, s.devHead, s.sq, FetchCount(s), s.h.reqs);
    NotRunYet(s.h, FetchCount(s));
    FetchStages(s.jobs, s.h);
    assert FetchCount(Fetch(s)) == FetchCount(s) + 1;
  }

  lemma FetchedEntry(tail: nat, sqDb: nat, devHead: nat, sq: seq<Words>, n: nat, reqs: seq<Request>)
    requires |sq| == QUEUE_ENTRIES && SqHolds(tail, sqDb, devHead, sq, n, reqs)
    requires n <= |reqs| && devHead != sqDb
    ensures n < |reqs| && devHead < |sq| && Interpret(Decode(sq[devHead])) == reqs[n].op
    ensures SqHolds(tail, sqDb, Bump(devHead), sq, n + 1, reqs)
  {
    hide Interpret;
    RingStep(n);
  }

  lemma NotRunYet(h: History, n: nat)
    requires OutcomesHold(h, n)
    ensures n !in h.outcomes && OutcomesHold(h, n + 1)
  {
  }

  lemma FetchStages(jobs: seq<Job>, h: History)
    requires StagesHold(jobs, h)
    requires var n := |h.posts| + |jobs|; n < |h.reqs| && n !in h.outcomes
    ensures var n := |h.posts| + |jobs|; StagesHold(jobs + [Job(n, h.reqs[n].op, false, false)], h)
  {
    var n := |h.posts| + |jobs|;
    var t := jobs + [Job(n, h.reqs[n].op, false, false)];
    forall j | 0 <= j < |t|
      ensures JobHolds(t[j], n + 1, h)
    {
      assert j < |jobs| ==> JobHolds(jobs[j], n, h);
    }
  }

  // ------------------------------------------------------------ run

  /** A live command that moves data is held by a waiting slot. */
  lemma HolderOf(slots: seq<IoSlot>, h: History, k: nat) returns (i: nat)
    requires |slots| == |h.owner| == QUEUE_DEPTH
    requires SlotsHold(slots, h) && k in h.live && k < |h.reqs| && h.reqs[k].op.kind != Other
    ensures i < QUEUE_DEPTH && slots[i].Waiting() && h.owner[i] == k
    ensures Describe(slots[i], h.reqs[k])
  {
    i := if Holds(slots[0], h.owner[0], k) then 0 else 1;
    assert SlotHolds(slots[i], h.owner[i], h);
  }

  /** The controller can always run what it fetched: every entry it sees names a run inside
      its slot's own buffer and inside the medium. */
  lemma CanAlwaysRun(s: Sys, j: nat, junk: seq<u8>)
    requires Inv(s) && j < |s.jobs| && !s.jobs[j].ran && |junk| == s.jobs[j].op.size
    ensures CanRun(s, j, junk)
  {
    var k := s.jobs[j].req;
    assert JobHolds(s.jobs[j], FetchCount(s), s.h);
    if s.h.reqs[k].op.kind != Other {
      var i := HolderOf(s.slots, s.h, k);
      RunTransfer(s.ram, s.slots[i].bounce, junk);
    }
  }

  lemma RunKeeps(s: Sys, j: nat, ok: bool, junk: seq<u8>)
    requires Inv(s) && CanRun(s, j, junk)
    ensures Inv(Run(s, j, ok, junk))
  {
    hide StagesHold, OutcomesHold, SlotsHold, IdsHold, LayoutHolds, DataHolds, LogHolds, SqHolds, EntriesHold,
         ReapedHold, Blit, Gather, Scatter, PrpInside, PhaseOf;
    var t, k := Run(s, j, ok, junk), s.jobs[j].req;
    var data := Moved(s, s.jobs[j].op, ok, junk);
    var o := Outcome(ok, data);
    JobFacts(s.jobs, s.h, j);
    OutcomeFacts(s.h, FetchCount(s));
    RunData(s.slots, s.ram, s.h, k, data, ok, t.ram);
    RunStages(s.jobs, s.h, j, o);
    RunOutcomes(s.h, FetchCount(s), k, o);
    RunSlots(s.slots, s.h, k, o);
    SameIds(s.nextCid, s.slots, s.slots, s.h, t.h);
    RunLog(s.disk, s.h, k, o);
    SameReaped(s.h, t.h);
    RunShape(s, j, ok, junk);
  }

  lemma RunShape(s: Sys, j: nat, ok: bool, junk: seq<u8>)
    requires Shape(s) && CqHolds(s) && CanRun(s, j, junk)
    ensures var t := Run(s, j, ok, junk); Shape(t) && CqHolds(t) && |t.ram| == |s.ram|
  {
    hide EntriesHold, Blit, Gather, Scatter, PrpInside, PhaseOf, Moved;
  }

  lemma JobFacts(jobs: seq<Job>, h: History, j: nat)
    requires StagesHold(jobs, h) && j < |jobs|
    ensures JobHolds(jobs[j], |h.posts| + |jobs|, h)
  {
  }

  lemma OutcomeFacts(h: History, fetched: nat)
    requires OutcomesHold(h, fetched)
    ensures forall k :: k in h.outcomes ==> OutcomeSize(h, k) && k < |h.reqs|
  {
    assert forall k :: k in h.outcomes ==> OutcomeHolds(h, k);
  }

  /** Running a command moves its own slot's bytes, and no other slot's. */
  lemma RunData(slots: seq<IoSlot>, ram: seq<u8>, h: History, k: nat, data: seq<u8>, ok: bool, ram': seq<u8>)
    requires |slots| == |h.owner| == QUEUE_DEPTH
    requires SlotsHold(slots, h) && LayoutHolds(slots, |ram|) && DataHolds(slots, ram, h)
    requires k in h.live && k < |h.reqs| && k !in h.outcomes
    requires forall m :: m in h.outcomes ==> OutcomeSize(h, m)
    requires var op := h.reqs[k].op;
             && |data| == op.size
             && (op.kind != Other ==> PrpInside(op.prp1, op.prp2, op.size, |ram|))
             && (op.kind == Write && ok ==> data == Gather(ram, op.prp1, op.prp2, op.size))
             && ram' == if op.kind == Read then Scatter(ram, op.prp1, op.prp2, data) else ram
    ensures |ram'| == |ram| && DataHolds(slots, ram', Ran(h, k, Outcome(ok, data)))
    ensures h.reqs[k].op.kind == Write && ok ==> data == h.reqs[k].payload
  {
    hide SlotsHold, DataHolds;
    if h.reqs[k].op.kind == Other {
      OtherData(slots, ram, h, k, Outcome(ok, data));
    } else {
      var i := HolderOf(slots, h, k);
      RunTransfer(ram, slots[i].bounce, data);
      HeldData(slots, ram, h, i, data, ok);
    }
  }

  lemma OtherData(slots: seq<IoSlot>, ram: seq<u8>, h: History, k: nat, o: Outcome)
    requires |slots| == |h.owner| == QUEUE_DEPTH
    requires SlotsHold(slots, h) && DataHolds(slots, ram, h)
    requires k in h.live && k < |h.reqs| && h.reqs[k].op.kind == Other
    ensures DataHolds(slots, ram, Ran(h, k, o))
  {
    forall i | 0 <= i < QUEUE_DEPTH && slots[i].Booked()
      ensures SlotData(slots[i], h.owner[i], ram, Ran(h, k, o))
    {
      assert SlotHolds(slots[i], h.owner[i], h);
      assert SlotData(slots[i], h.owner[i], ram, h);
    }
  }

  lemma HeldData(slots: seq<IoSlot>, ram: seq<u8>, h: History, i: nat, data: seq<u8>, ok: bool)
    requires |slots| == |h.owner| == QUEUE_DEPTH && i < QUEUE_DEPTH
    requires SlotsHold(slots, h) && LayoutHolds(slots, |ram|) && DataHolds(slots, ram, h)
    requires var k := h.owner[i];
             && slots[i].Waiting() && k in h.live && k < |h.reqs| && k !in h.outcomes
             && |data| == h.reqs[k].op.size <= RUN_BYTES
             && (h.reqs[k].op.kind == Write && ok ==> data == ram[slots[i].bounce..slots[i].bounce + |data|])
    requires forall m :: m in h.outcomes ==> OutcomeSize(h, m)
    ensures var k := h.owner[i];
            && DataHolds(slots, if h.reqs[k].op.kind == Read then Blit(ram, slots[i].bounce, data) else ram,
                         Ran(h, k, Outcome(ok, data)))
            && (h.reqs[k].op.kind == Write && ok ==> data == h.reqs[k].payload)
  {
    var k := h.owner[i];
    var g := Ran(h, k, Outcome(ok, data));
    var ram' := if h.reqs[k].op.kind == Read then Blit(ram, slots[i].bounce, data) else ram;
    HeldOwn(slots, ram, h, i, data, ok);
    hide SlotData, SlotHolds, Blit, Stored, Apart;
    forall o | 0 <= o < QUEUE_DEPTH && slots[o].Booked()
      ensures SlotData(slots[o], h.owner[o], ram', g)
    {
      if o != i {
        OthersApart(slots, |ram|, i, o, |data|);
        OtherSlotKept(slots, o, ram, ram', h, g, slots[i].bounce, data);
      }
    }
  }

  lemma HeldOwn(slots: seq<IoSlot>, ram: seq<u8>, h: History, i: nat, data: seq<u8>, ok: bool)
    requires |slots| == |h.owner| == QUEUE_DEPTH && i < QUEUE_DEPTH
    requires SlotsHold(slots, h) && DataHolds(slots, ram, h)
    requires var k := h.owner[i];
             && slots[i].Waiting() && k < |h.reqs| && k !in h.outcomes && |data| == h.reqs[k].op.size
             && slots[i].bounce + |data| <= |ram|
             && (h.reqs[k].op.kind == Write && ok ==> data == ram[slots[i].bounce..slots[i].bounce + |data|])
    ensures var k := h.owner[i];
            && SlotData(slots[i], k, if h.reqs[k].op.kind == Read then Blit(ram, slots[i].bounce, data) else ram,
                        Ran(h, k, Outcome(ok, data)))
            && (h.reqs[k].op.kind == Write && ok ==> data == h.reqs[k].payload)
  {
    hide Blit;
    assert SlotHolds(slots[i], h.owner[i], h) && SlotData(slots[i], h.owner[i], ram, h);
  }

  lemma OthersApart(slots: seq<IoSlot>, size: nat, i: nat, o: nat, n: nat)
    requires |slots| == QUEUE_DEPTH && i < QUEUE_DEPTH && o < QUEUE_DEPTH && o != i && n <= RUN_BYTES
    requires LayoutHolds(slots, size)
    ensures slots[i].bounce + n <= size && Apart(slots[o].bounce, RUN_BYTES, slots[i].bounce, n)
    ensures slots[o].dst != 0 ==> Apart(slots[o].dst, slots[o].len, slots[i].bounce, n)
  {
    assert slots[o].dst != 0 ==> DstClear(slots, o, slots[o].dst, slots[o].len, size);
  }

  /** A slot's data survives a blit that misses its bounce buffer and its destination. */
  lemma OtherSlotKept(slots: seq<IoSlot>, i: nat, ram: seq<u8>, ram': seq<u8>, h: History, g: History,
                      at: nat, data: seq<u8>)
    requires |slots| == |h.owner| == QUEUE_DEPTH && i < QUEUE_DEPTH
    requires SlotsHold(slots, h) && DataHolds(slots, ram, h)
    requires at + |data| <= |ram| && (ram' == ram || ram' == Blit(ram, at, data))
    requires slots[i].Booked()
    requires var k := h.owner[i];
             && (k in h.outcomes ==> OutcomeSize(h, k))
             && g.reqs == h.reqs && (k in g.outcomes <==> k in h.outcomes)
             && (k in h.outcomes ==> g.outcomes[k] == h.outcomes[k])
    requires Apart(slots[i].bounce, RUN_BYTES, at, |data|)
    requires slots[i].dst != 0 ==> Apart(slots[i].dst, slots[i].len, at, |data|)
    ensures SlotData(slots[i], h.owner[i], ram', g)
  {
    assert SlotHolds(slots[i], h.owner[i], h) && SlotData(slots[i], h.owner[i], ram, h);
    hide SlotsHold, DataHolds, Blit;
  }

  lemma RunStages(jobs: seq<Job>, h: History, j: nat, o: Outcome)
    requires StagesHold(jobs, h) && j < |jobs|
    ensures StagesHold(jobs[j := jobs[j].(ran := true, ok := o.ok)], Ran(h, jobs[j].req, o))
  {
    var fetched := |h.posts| + |jobs|;
    var t := jobs[j := jobs[j].(ran := true, ok := o.ok)];
    forall i | 0 <= i < |t|
      ensures JobHolds(t[i], fetched, Ran(h, jobs[j].req, o))
    {
      assert JobHolds(jobs[i], fetched, h);
    }
  }

  lemma RunOutcomes(h: History, fetched: nat, k: nat, o: Outcome)
    requires OutcomesHold(h, fetched) && k !in h.outcomes && k < fetched && k < |h.reqs|
    requires |o.data| == h.reqs[k].op.size
    requires h.reqs[k].op.kind == Write && o.ok ==> o.data == h.reqs[k].payload
    ensures OutcomesHold(Ran(h, k, o), fetched)
  {
    var g := Ran(h, k, o);
    forall m | m in g.outcomes
      ensures m < fetched && OutcomeHolds(g, m)
    {
      assert m != k ==> OutcomeHolds(h, m);
    }
  }

  lemma RunSlots(slots: seq<IoSlot>, h: History, k: nat, o: Outcome)
    requires |slots| == |h.owner| == QUEUE_DEPTH && SlotsHold(slots, h) && k in h.live
    ensures SlotsHold(slots, Ran(h, k, o))
  {
    forall i | 0 <= i < QUEUE_DEPTH
      ensures SlotHolds(slots[i], h.owner[i], Ran(h, k, o))
    {
      assert SlotHolds(slots[i], h.owner[i], h);
    }
  }

  /** The medium a prefix of the log describes does not depend on what came after. */
  lemma {:induction false} ReplayStable(h: History, g: History, n: nat)
    requires n <= |h.log| && n <= |g.log| && h.disk0 == g.disk0
    requires forall m :: 0 <= m < n ==>
               && h.log[m] == g.log[m]
               && h.log[m] in h.outcomes && h.log[m] in g.outcomes
               && h.outcomes[h.log[m]] == g.outcomes[h.log[m]]
               && h.log[m] < |h.reqs| && h.log[m] < |g.reqs| && h.reqs[h.log[m]] == g.reqs[h.log[m]]
    ensures Replay(h, n) == Replay(g, n)
  {
    if n > 0 {
      ReplayStable(h, g, n - 1);
      assert h.log[n - 1] == g.log[n - 1];
    }
  }

  lemma RunLog(disk: seq<u8>, h: History, k: nat, o: Outcome)
    requires LogHolds(disk, h) && k !in h.outcomes && k < |h.reqs|
    requires forall m :: m in h.outcomes ==> m < |h.reqs|
    requires var op := h.reqs[k].op;
             && op.lo + op.size <= |disk| && |o.data| == op.size
             && (op.kind == Read && o.ok ==> o.data == disk[op.lo..op.lo + op.size])
    ensures var op := h.reqs[k].op;
            LogHolds(if op.kind == Write then Blit(disk, op.lo, o.data) else disk, Ran(h, k, o))
  {
    var g, n := Ran(h, k, o), |h.log|;
    hide Replay, Apply, Blit, ReadSawReplay, OutcomeSize;
    forall m | 0 <= m < |g.log|
      ensures g.log[m] in g.outcomes && ReadSawReplay(g, m)
    {
      RanReplay(h, k, o, m);
      if m == n {
        RanSaw(h, k, o);
      }
    }
    RanReplay(h, k, o, n);
    RanMedium(h, k, o, disk);
  }

  /** One more command leaves what the log said before it. */
  lemma RanReplay(h: History, k: nat, o: Outcome, m: nat)
    requires m <= |h.log| && k !in h.outcomes && k < |h.reqs|
    requires forall a :: a in h.outcomes ==> a < |h.reqs|
    requires forall a :: 0 <= a < |h.log| ==> h.log[a] in h.outcomes
    ensures Replay(Ran(h, k, o), m) == Replay(h, m)
    ensures m < |h.log| ==> ReadSawReplay(Ran(h, k, o), m) == ReadSawReplay(h, m)
  {
    hide Stored, Apply;
    ReplayStable(h, Ran(h, k, o), m);
    hide Replay;
  }

  lemma RanSaw(h: History, k: nat, o: Outcome)
    requires k < |h.reqs|
    requires var n, op := |h.log|, h.reqs[k].op;
             op.kind == Read && o.ok ==> Stored(Replay(Ran(h, k, o), n), op.lo, o.data)
    ensures ReadSawReplay(Ran(h, k, o), |h.log|)
  {
    hide Replay, Stored;
  }

  lemma RanMedium(h: History, k: nat, o: Outcome, disk: seq<u8>)
    requires k < |h.reqs| && Replay(Ran(h, k, o), |h.log|) == disk
    requires h.reqs[k].op.lo + |o.data| <= |disk|
    ensures Replay(Ran(h, k, o), |h.log| + 1)
         == if h.reqs[k].op.kind == Write then Blit(disk, h.reqs[k].op.lo, o.data) else disk
  {
    hide Blit;
    ReplayNext(Ran(h, k, o), |h.log|);
    hide Replay;
  }

  lemma ReplayNext(g: History, n: nat)
    requires n < |g.log|
    ensures Replay(g, n + 1) == Apply(g, g.log[n], Replay(g, n))
  {
  }

  // ------------------------------------------------------------ publish

  lemma PublishKeeps(s: Sys, j: nat, code: nat, dw0: u32)
    requires Inv(s) && CanPost(s, j, code)
    ensures Inv(Publish(s, j, code, dw0))
  {
    hide StagesHold, OutcomesHold, SlotsHold, IdsHold, LayoutHolds, DataHolds, LogHolds, SqHolds, EntriesHold,
         ReapedHold, PhaseOf, StatusWord, Bump;
    var t := Publish(s, j, code, dw0);
    JobFacts(s.jobs, s.h, j);
    PublishShape(s, j, code, dw0);
    PublishStages(s.jobs, s.h, j, code);
    OutcomeFacts(s.h, FetchCount(s));
    SameSlots(s.slots, s.h, t.h);
    SameIds(s.nextCid, s.slots, s.slots, s.h, t.h);
    SameData(s.slots, s.ram, s.h, t.h);
    SameLog(s.disk, s.h, t.h);
    SameReaped(s.h, t.h);
  }

  lemma PublishShape(s: Sys, j: nat, code: nat, dw0: u32)
    requires Shape(s) && CqHolds(s) && CanPost(s, j, code) && JobHolds(s.jobs[j], FetchCount(s), s.h)
    ensures var t := Publish(s, j, code, dw0); FetchCount(t) == FetchCount(s) && Shape(t) && CqHolds(t)
  {
    hide EntriesHold, PhaseOf, StatusWord;
    var t := Publish(s, j, code, dw0);
    PublishRing(s.cq, s.h.posts, s.h.reqs, t.cq[s.devTail], t.h.posts[|s.h.posts|]);
    RingStep(|s.h.posts|);
  }

  lemma PublishRing(cq: seq<Cqe>, posts: seq<Post>, reqs: seq<Request>, e: Cqe, post: Post)
    requires EntriesHold(cq, posts, reqs) && Carries(e, post, reqs) && e.Phase() == PhaseOf(|posts|)
    ensures EntriesHold(cq[|posts| % QUEUE_ENTRIES := e], posts + [post], reqs)
  {
    var n := |posts|;
    var cq', posts' := cq[n % QUEUE_ENTRIES := e], posts + [post];
    TaggedPost(cq, n, e);
    forall p | 0 <= p < |posts'| <= p + QUEUE_ENTRIES
      ensures Carries(EntryAt(cq', p), posts'[p], reqs)
    {
      assert p < n ==> Carries(EntryAt(cq, p), posts[p], reqs);
    }
  }

  lemma PublishJobs(jobs: seq<Job>, h: History, j: nat, code: nat)
    requires StagesHold(jobs, h) && h.reaped <= |h.posts| && j < |jobs|
    ensures StagesHold(jobs[..j] + jobs[j + 1..], h.(posts := h.posts + [Post(jobs[j].req, code)]))
  {
    var g := h.(posts := h.posts + [Post(jobs[j].req, code)]);
    var t, fetched := jobs[..j] + jobs[j + 1..], |h.posts| + |jobs|;
    assert JobHolds(jobs[j], fetched, h);
    forall i | 0 <= i < |t|
      ensures JobHolds(t[i], fetched, g)
    {
      assert JobHolds(jobs[if i < j then i else i + 1], fetched, h);
    }
  }

  lemma PublishStages(jobs: seq<Job>, h: History, j: nat, code: nat)
    requires StagesHold(jobs, h) && OutcomesHold(h, |h.posts| + |jobs|) && h.reaped <= |h.posts|
    requires j < |jobs| && jobs[j].req in h.outcomes && (code == 0 <==> h.outcomes[jobs[j].req].ok)
    ensures var g := h.(posts := h.posts + [Post(jobs[j].req, code)]);
            StagesHold(jobs[..j] + jobs[j + 1..], g) && OutcomesHold(g, |h.posts| + |jobs|)
  {
    hide StagesHold;
    var g := h.(posts := h.posts + [Post(jobs[j].req, code)]);
    PublishJobs(jobs, h, j, code);
    forall k | k in g.outcomes
      ensures OutcomeHolds(g, k)
    {
      assert OutcomeHolds(h, k);
    }
  }

  /** Slots and data look at neither the posts nor how many were reaped. */
  lemma SameSlots(slots: seq<IoSlot>, h: History, g: History)
    requires |slots| == |h.owner| == QUEUE_DEPTH && SlotsHold(slots, h)
    requires g == h.(posts := g.posts, reaped := g.reaped)
    ensures SlotsHold(slots, g)
  {
    forall i | 0 <= i < QUEUE_DEPTH
      ensures SlotHolds(slots[i], g.owner[i], g)
    {
      assert SlotHolds(slots[i], h.owner[i], h);
    }
  }

  lemma SameData(slots: seq<IoSlot>, ram: seq<u8>, h: History, g: History)
    requires |slots| == |h.owner| == QUEUE_DEPTH && DataHolds(slots, ram, h)
    requires g == h.(posts := g.posts, reaped := g.reaped)
    ensures DataHolds(slots, ram, g)
  {
    forall i | 0 <= i < QUEUE_DEPTH && slots[i].Booked()
      ensures SlotData(slots[i], g.owner[i], ram, g)
    {
      assert SlotData(slots[i], h.owner[i], ram, h);
    }
  }

  /** Distinct identifiers stay distinct when commands only stop being live. */
  lemma SameIds(nextCid: nat, slots: seq<IoSlot>, t: seq<IoSlot>, h: History, g: History)
    requires |slots| == |t| == |h.owner| == |h.bookedAt| == QUEUE_DEPTH && IdsHold(nextCid, slots, h)
    requires forall i :: 0 <= i < QUEUE_DEPTH ==> t[i].id == slots[i].id
    requires g.reqs == h.reqs && g.live <= h.live
    requires g.owner == h.owner && g.bookedAt == h.bookedAt && g.reserved == h.reserved
    ensures IdsHold(nextCid, t, g)
  {
  }

  /** What was consumed stays consumed, and nothing else stops being live. */
  lemma SameReaped(h: History, g: History)
    requires ReapedHold(h) && h.reaped <= |h.posts|
    requires h.posts <= g.posts && h.reaped <= g.reaped <= |g.posts| && |h.reqs| <= |g.reqs|
    requires forall k :: 0 <= k < |g.reqs| && k !in g.live ==>
               (k < |h.reqs| && k !in h.live) || (h.reaped < g.reaped && k == g.posts[h.reaped].req)
    ensures ReapedHold(g)
  {
    forall k | 0 <= k < |g.reqs| && k !in g.live
      ensures Consumed(g, k)
    {
      if k < |h.reqs| && k !in h.live {
        assert Consumed(h, k);
        var p :| 0 <= p < h.reaped && p < |h.posts| && h.posts[p].req == k;
        assert g.posts[p].req == k;
      }
    }
  }

  /** The log's meaning survives later submissions, posts and reaps. */
  lemma SameLog(disk: seq<u8>, h: History, g: History)
    requires LogHolds(disk, h)
    requires g.log == h.log && g.outcomes == h.outcomes && g.disk0 == h.disk0 && h.reqs <= g.reqs
    requires forall m :: m in h.outcomes ==> m < |h.reqs|
    ensures LogHolds(disk, g)
  {
    forall m | 0 <= m <= |h.log|
      ensures Replay(g, m) == Replay(h, m)
    {
      ReplayStable(h, g, m);
    }
    forall m | 0 <= m < |g.log|
      ensures g.log[m] in g.outcomes && ReadSawReplay(g, m)
    {
      assert ReadSawReplay(h, m);
    }
  }

  // ------------------------------------------------------------ reap

  /** The phase tag is exact: the entry at the head reads as published if and only if there
      is a completion the driver has not consumed, and it is then the oldest such one. */
  lemma PhaseTag(s: Sys)
    requires Inv(s)
    ensures CanReap(s) <==> s.h.reaped < |s.h.posts|
    ensures CanReap(s) ==> Carries(s.cq[s.head], s.h.posts[s.h.reaped], s.h.reqs)
  {
    hide StagesHold, OutcomesHold, SlotsHold, IdsHold, LayoutHolds, DataHolds, LogHolds, SqHolds, ReapedHold, CqHolds;
    Occupancy(s);
    TagExact(s);
  }

  lemma TagExact(s: Sys)
    requires Shape(s) && CqHolds(s) && |s.h.posts| < s.h.reaped + QUEUE_ENTRIES
    ensures s.head < |s.cq| && (CanReap(s) <==> s.h.reaped < |s.h.posts|)
    ensures CanReap(s) ==> Carries(s.cq[s.head], s.h.posts[s.h.reaped], s.h.reqs)
  {
    hide Tagged;
    TaggedRead(s.cq, |s.h.posts|, s.h.reaped);
    assert s.h.reaped < |s.h.posts| ==> Carries(EntryAt(s.cq, s.h.reaped), s.h.posts[s.h.reaped], s.h.reqs);
  }

  /** A completion is credited to the request that caused it: the slot its identifier names
      is the slot that holds the request, and there is none exactly for a flush. */
  lemma Credit(nextCid: nat, slots: seq<IoSlot>, h: History, k: nat)
    requires |slots| == |h.owner| == |h.bookedAt| == QUEUE_DEPTH
    requires SlotsHold(slots, h) && IdsHold(nextCid, slots, h)
    requires k in h.live && k < |h.reqs|
    ensures var i := FindSlot(slots, h.reqs[k].op.cid);
            && (i == QUEUE_DEPTH <==> k in h.strays)
            && (i < QUEUE_DEPTH ==> slots[i].Waiting() && h.owner[i] == k)
  {
    var i := FindSlot(slots, h.reqs[k].op.cid);
    forall w | 0 <= w < QUEUE_DEPTH
      ensures SlotHolds(slots[w], h.owner[w], h)
    {
    }
    if i < QUEUE_DEPTH {
      assert slots[i].Booked() && h.owner[i] == k;
    }
    if k !in h.strays {
      var w := if Holds(slots[0], h.owner[0], k) then 0 else 1;
      assert slots[w].id == h.reqs[k].op.cid;
    }
  }

  lemma ReapFits(slots: seq<IoSlot>, size: nat)
    requires |slots| == QUEUE_DEPTH && LayoutHolds(slots, size)
    ensures CopyInside(slots, size)
  {
  }

  lemma ReapKeeps(s: Sys)
    requires Inv(s) && CanReap(s)
    ensures s.h.reaped < |s.h.posts| && CopyInside(s.slots, |s.ram|)
    ensures Inv(Reap(s))
  {
    hide StagesHold, OutcomesHold, SlotsHold, IdsHold, LayoutHolds, DataHolds, LogHolds, SqHolds, EntriesHold,
         ReapedHold, CopyInside, CopyOut, PhaseOf, Bump, FindSlot;
    PhaseTag(s);
    ReapFits(s.slots, |s.ram|);
    var t, k := Reap(s), s.h.posts[s.h.reaped].req;
    var i, ok := FindSlot(s.slots, s.cq[s.head].commandId), s.cq[s.head].IsSuccess();
    RingStep(s.h.reaped);
    PostFacts(s.jobs, s.h, s.h.reaped);
    OutcomeFacts(s.h, FetchCount(s));
    Credit(s.nextCid, s.slots, s.h, k);
    ReapStages(s.jobs, s.h);
    ReapSlots(s.slots, s.h, k, i);
    SameIds(s.nextCid, s.slots, t.slots, s.h, t.h);
    if i < QUEUE_DEPTH {
      ReapLayout(s.slots, |s.ram|, i, ok);
      ReapData(s.slots, s.ram, s.h, i);
    } else {
      ReapStray(s.slots, s.ram, s.h, k);
    }
    SameLog(s.disk, s.h, t.h);
    SameReaped(s.h, t.h);
    ReapShape(s);
  }

  lemma ReapShape(s: Sys)
    requires Shape(s) && CqHolds(s) && CanReap(s) && CopyInside(s.slots, |s.ram|)
    requires s.h.reaped < |s.h.posts| && s.h.posts[s.h.reaped].req in s.h.live
    ensures Shape(Reap(s)) && CqHolds(Reap(s))
  {
    hide EntriesHold, CopyInside, CopyOut, PhaseOf, Bump, Cqe.Phase;
    RingStep(s.h.reaped);
  }

  lemma PostFacts(jobs: seq<Job>, h: History, p: nat)
    requires StagesHold(jobs, h) && OutcomesHold(h, |h.posts| + |jobs|) && p < |h.posts|
    ensures var k := h.posts[p].req;
            && k in h.outcomes && k < |h.reqs| && (k in h.live <==> h.reaped <= p)
            && (h.posts[p].code == 0 <==> h.outcomes[k].ok)
  {
    assert OutcomeHolds(h, h.posts[p].req);
  }

  lemma ReapJobs(jobs: seq<Job>, h: History)
    requires StagesHold(jobs, h) && h.reaped < |h.posts|
    ensures StagesHold(jobs, Taken(h, h.posts[h.reaped].req))
    ensures h.posts[h.reaped].req in h.live
  {
    var g, fetched := Taken(h, h.posts[h.reaped].req), |h.posts| + |jobs|;
    forall j | 0 <= j < |jobs|
      ensures JobHolds(jobs[j], fetched, g)
    {
      assert JobHolds(jobs[j], fetched, h);
    }
  }

  lemma ReapStages(jobs: seq<Job>, h: History)
    requires StagesHold(jobs, h) && OutcomesHold(h, |h.posts| + |jobs|) && h.reaped < |h.posts|
    ensures var g := Taken(h, h.posts[h.reaped].req);
            StagesHold(jobs, g) && OutcomesHold(g, |h.posts| + |jobs|)
  {
    hide StagesHold;
    var g := Taken(h, h.posts[h.reaped].req);
    ReapJobs(jobs, h);
    forall m | m in g.outcomes
      ensures OutcomeHolds(g, m)
    {
      assert OutcomeHolds(h, m);
    }
  }

  lemma ReapSlots(slots: seq<IoSlot>, h: History, k: nat, i: nat)
    requires |slots| == |h.owner| == QUEUE_DEPTH && SlotsHold(slots, h)
    requires k in h.live && k < |h.reqs| && k in h.outcomes && i <= QUEUE_DEPTH
    requires if i < QUEUE_DEPTH then slots[i].Waiting() && h.owner[i] == k else k in h.strays
    ensures SlotsHold(Credited(slots, i, h.outcomes[k].ok), Taken(h, k))
  {
    var t, g := Credited(slots, i, h.outcomes[k].ok), Taken(h, k);
    forall w | 0 <= w < QUEUE_DEPTH
      ensures SlotHolds(t[w], g.owner[w], g)
    {
      assert SlotHolds(slots[w], h.owner[w], h);
    }
  }

  lemma ReapLayout(slots: seq<IoSlot>, size: nat, i: nat, ok: bool)
    requires |slots| == QUEUE_DEPTH && i < QUEUE_DEPTH && LayoutHolds(slots, size)
    ensures LayoutHolds(Credited(slots, i, ok), size)
  {
    var t := Credited(slots, i, ok);
    forall w | 0 <= w < QUEUE_DEPTH && t[w].dst != 0
      ensures DstClear(t, w, t[w].dst, t[w].len, size)
    {
      assert DstClear(slots, w, slots[w].dst, slots[w].len, size);
    }
  }

  lemma ReapStray(slots: seq<IoSlot>, ram: seq<u8>, h: History, k: nat)
    requires |slots| == |h.owner| == QUEUE_DEPTH && DataHolds(slots, ram, h)
    ensures DataHolds(slots, ram, Taken(h, k))
  {
    forall w | 0 <= w < QUEUE_DEPTH && slots[w].Booked()
      ensures SlotData(slots[w], h.owner[w], ram, Taken(h, k))
    {
      assert SlotData(slots[w], h.owner[w], ram, h);
    }
  }

  /** Reaping a read puts its bytes where the caller asked, and disturbs no other slot. */
  lemma ReapData(slots: seq<IoSlot>, ram: seq<u8>, h: History, i: nat)
    requires |slots| == |h.owner| == QUEUE_DEPTH && i < QUEUE_DEPTH && slots[i].Waiting()
    requires SlotsHold(slots, h) && LayoutHolds(slots, |ram|) && DataHolds(slots, ram, h)
    requires CopyInside(slots, |ram|)
    requires h.owner[i] in h.outcomes
    requires forall m :: m in h.outcomes ==> OutcomeSize(h, m)
    ensures var k := h.owner[i];
            DataHolds(Credited(slots, i, h.outcomes[k].ok), CopyOut(ram, slots[i], h.outcomes[k].ok), Taken(h, k))
  {
    var k := h.owner[i];
    var ok := h.outcomes[k].ok;
    var t, ram', g := Credited(slots, i, ok), CopyOut(ram, slots[i], ok), Taken(h, k);
    assert SlotHolds(slots[i], k, h) && SlotData(slots[i], k, ram, h);
    forall o | 0 <= o < QUEUE_DEPTH && t[o].Booked()
      ensures SlotData(t[o], g.owner[o], ram', g)
    {
      if o != i {
        ReapOther(slots, ram, h, i, o, ok);
      }
    }
  }

  lemma ReapOther(slots: seq<IoSlot>, ram: seq<u8>, h: History, i: nat, o: nat, ok: bool)
    requires |slots| == |h.owner| == QUEUE_DEPTH && i < QUEUE_DEPTH && o == 1 - i && slots[o].Booked()
    requires SlotsHold(slots, h) && LayoutHolds(slots, |ram|) && DataHolds(slots, ram, h)
    requires CopyInside(slots, |ram|)
    requires forall m :: m in h.outcomes ==> OutcomeSize(h, m)
    ensures SlotData(slots[o], h.owner[o], CopyOut(ram, slots[i], ok), Taken(h, h.owner[i]))
  {
    hide SlotsHold, DataHolds;
    var ram', g := CopyOut(ram, slots[i], ok), Taken(h, h.owner[i]);
    if slots[i].dst == 0 {
      OtherSlotKept(slots, o, ram, ram', h, g, 0, []);
    } else {
      assert DstClear(slots, i, slots[i].dst, slots[i].len, |ram|);
      OtherSlotKept(slots, o, ram, ram', h, g, slots[i].dst, ram[slots[i].bounce..slots[i].bounce + slots[i].len]);
    }
  }

  // ------------------------------------------------------------ release

  lemma ReleaseKeeps(s: Sys, i: nat)
    requires Inv(s) && i < QUEUE_DEPTH && s.slots[i].Booked() && s.slots[i].state != Pending
    ensures Inv(Release(s, i))
  {
    hide StagesHold, OutcomesHold, SlotsHold, IdsHold, LayoutHolds, DataHolds, LogHolds, SqHolds, EntriesHold,
         ReapedHold;
    ReleaseParts(s.nextCid, s.slots, s.ram, s.h, i);
  }

  lemma ReleaseParts(nextCid: nat, slots: seq<IoSlot>, ram: seq<u8>, h: History, i: nat)
    requires |slots| == |h.owner| == |h.bookedAt| == QUEUE_DEPTH && i < QUEUE_DEPTH
    requires SlotsHold(slots, h) && IdsHold(nextCid, slots, h) && LayoutHolds(slots, |ram|) && DataHolds(slots, ram, h)
    requires slots[i].Booked() && slots[i].state != Pending
    ensures var t := slots[i := IoSlot(SLOT_FREE, slots[i].bounce, 0, 0, Pending)];
            && SlotsHold(t, h) && IdsHold(nextCid, t, h) && LayoutHolds(t, |ram|) && DataHolds(t, ram, h)
  {
    var t := slots[i := IoSlot(SLOT_FREE, slots[i].bounce, 0, 0, Pending)];
    forall w | 0 <= w < QUEUE_DEPTH
      ensures SlotHolds(t[w], h.owner[w], h)
    {
      assert SlotHolds(slots[w], h.owner[w], h);
    }
    forall w | 0 <= w < QUEUE_DEPTH && t[w].dst != 0
      ensures DstClear(t, w, t[w].dst, t[w].len, |ram|)
    {
      assert DstClear(slots, w, slots[w].dst, slots[w].len, |ram|);
    }
    forall w | 0 <= w < QUEUE_DEPTH && t[w].Booked()
      ensures SlotData(t[w], h.owner[w], ram, h)
    {
      assert SlotData(slots[w], h.owner[w], ram, h);
    }
  }

  // ------------------------------------------------------------ submit

  /** No live command and no booked slot carries `id`. */
  ghost predicate IdFree(slots: seq<IoSlot>, h: History, id: nat) {
    && (forall i :: 0 <= i < |slots| ==> slots[i].id != id)
    && (forall k :: k in h.live && k < |h.reqs| ==> h.reqs[k].op.cid != id)
  }

  /** Exactly when the identifier a reservation hands out is unused: no booked slot is a
      multiple of 65536 reservations old, and no flush is outstanding if it is 0. */
  lemma FreshIds(s: Sys)
    requires Inv(s)
    ensures IdFree(s.slots, s.h, s.nextCid) <==>
              && (forall i :: 0 <= i < QUEUE_DEPTH && s.slots[i].Booked() ==>
                    (s.h.reserved - s.h.bookedAt[i]) % 0x1_0000 != 0)
              && (s.h.strays == {} || s.nextCid != 0)
  {
    hide StagesHold, OutcomesHold, LayoutHolds, DataHolds, LogHolds, SqHolds, EntriesHold, ReapedHold;
    forall i | 0 <= i < QUEUE_DEPTH && s.slots[i].Booked()
      ensures s.slots[i].id == s.nextCid <==> (s.h.reserved - s.h.bookedAt[i]) % 0x1_0000 == 0
    {
      SameResidue(s.h.reserved, s.h.bookedAt[i]);
    }
    assert forall i :: 0 <= i < QUEUE_DEPTH ==> SlotHolds(s.slots[i], s.h.owner[i], s.h);
    if s.h.strays != {} {
      var k :| k in s.h.strays;
      assert s.h.reqs[k].op.cid == 0;
    }
  }

  lemma SameResidue(a: nat, b: nat)
    requires b <= a
    ensures a % 0x1_0000 == b % 0x1_0000 <==> (a - b) % 0x1_0000 == 0
  {
  }

  lemma SendRing(tail: nat, sqDb: nat, devHead: nat, sq: seq<Words>, fetched: nat, reqs: seq<Request>, sqe: Words,
                 r: Request)
    requires |sq| == QUEUE_ENTRIES && SqHolds(tail, sqDb, devHead, sq, fetched, reqs)
    requires |reqs| - fetched < QUEUE_ENTRIES - 1 && r.op == Interpret(Decode(sqe))
    ensures SqHolds(Bump(tail), Bump(tail), devHead, sq[tail := sqe], fetched, reqs + [r])
  {
    RingStep(|reqs|);
    forall k | fetched <= k < |reqs| + 1
      ensures Interpret(Decode(sq[tail := sqe][k % QUEUE_ENTRIES])) == (reqs + [r])[k].op
    {
      if k < |reqs| {
        SlotsApart(k, |reqs|);
      }
    }
  }

  lemma SendStages(jobs: seq<Job>, h: History, r: Request, stray: bool)
    requires StagesHold(jobs, h) && OutcomesHold(h, |h.posts| + |jobs|) && |h.posts| + |jobs| <= |h.reqs|
    requires r.op.lo + r.op.size <= |h.disk0|
    ensures StagesHold(jobs, Sent(h, r, stray)) && OutcomesHold(Sent(h, r, stray), |h.posts| + |jobs|)
  {
    var g, fetched := Sent(h, r, stray), |h.posts| + |jobs|;
    forall j | 0 <= j < |jobs|
      ensures JobHolds(jobs[j], fetched, g)
    {
      assert JobHolds(jobs[j], fetched, h);
    }
    forall m | m in g.outcomes
      ensures OutcomeHolds(g, m)
    {
      assert OutcomeHolds(h, m);
    }
  }

  lemma SendEntries(cq: seq<Cqe>, posts: seq<Post>, reqs: seq<Request>, r: Request)
    requires EntriesHold(cq, posts, reqs)
    ensures EntriesHold(cq, posts, reqs + [r])
  {
    forall p | 0 <= p < |posts| <= p + QUEUE_ENTRIES
      ensures Carries(EntryAt(cq, p), posts[p], reqs + [r])
    {
      assert Carries(EntryAt(cq, p), posts[p], reqs);
    }
  }

  /** Sending one more command leaves every slot's bookkeeping as it was. */
  lemma SendSlots(slots: seq<IoSlot>, ram: seq<u8>, h: History, g: History, i: nat)
    requires |slots| == |h.owner| == QUEUE_DEPTH && i < QUEUE_DEPTH
    requires SlotsHold(slots, h) && DataHolds(slots, ram, h)
    requires (forall k :: k in h.live ==> k < |h.reqs|) && (forall k :: k in h.outcomes ==> k < |h.reqs|)
    requires h.reqs <= g.reqs && g.outcomes == h.outcomes && |g.owner| == QUEUE_DEPTH && g.owner[i] == h.owner[i]
    requires forall k :: k < |h.reqs| ==> (k in g.live <==> k in h.live) && (k in g.strays <==> k in h.strays)
    ensures SlotHolds(slots[i], g.owner[i], g)
    ensures slots[i].Booked() ==> SlotData(slots[i], g.owner[i], ram, g)
  {
    assert SlotHolds(slots[i], h.owner[i], h);
    if slots[i].Booked() {
      assert SlotData(slots[i], h.owner[i], ram, h);
    }
  }

  /** A flush goes out while its identifier, 0, is unused. */
  lemma FlushKeeps(s: Sys, sqe: Words)
    requires Inv(s) && Interpret(Decode(sqe)) == FLUSH_OP
    requires IdFree(s.slots, s.h, 0)
    ensures s.tail < |s.sq| && Inv(Submit(s, sqe, [], true))
  {
    hide StagesHold, OutcomesHold, SlotsHold, IdsHold, LayoutHolds, DataHolds, LogHolds, SqHolds, EntriesHold,
         ReapedHold, Interpret, IdFree, PhaseOf, Bump;
    TailInside(s);
    var t, r := Submit(s, sqe, [], true), Request(FLUSH_OP, []);
    Occupancy(s);
    SendRing(s.tail, s.sqDb, s.devHead, s.sq, FetchCount(s), s.h.reqs, sqe, r);
    SendStages(s.jobs, s.h, r, true);
    OutcomeFacts(s.h, FetchCount(s));
    LiveFacts(s.jobs, s.h);
    FlushSlots(s.nextCid, s.slots, s.ram, s.h);
    SameLog(s.disk, s.h, t.h);
    SameReaped(s.h, t.h);
    FlushShape(s, sqe);
  }

  lemma FlushShape(s: Sys, sqe: Words)
    requires Shape(s) && CqHolds(s) && s.tail < |s.sq|
    requires forall k :: k in s.h.live ==> k < |s.h.reqs|
    ensures var t := Submit(s, sqe, [], true); Shape(t) && CqHolds(t)
  {
    hide EntriesHold, PhaseOf, Bump, Interpret;
    assert |s.h.reqs| !in s.h.live;
    SendEntries(s.cq, s.h.posts, s.h.reqs, Request(Interpret(Decode(sqe)), []));
  }

  lemma TailInside(s: Sys)
    requires Inv(s)
    ensures s.tail < |s.sq|
  {
    hide StagesHold, OutcomesHold, SlotsHold, IdsHold, LayoutHolds, DataHolds, LogHolds, EntriesHold, ReapedHold,
         Interpret, PhaseOf;
  }

  lemma LiveFacts(jobs: seq<Job>, h: History)
    requires StagesHold(jobs, h)
    ensures forall k :: k in h.live ==> k < |h.reqs|
  {
  }

  lemma FlushSlots(nextCid: nat, slots: seq<IoSlot>, ram: seq<u8>, h: History)
    requires |slots| == |h.owner| == |h.bookedAt| == QUEUE_DEPTH
    requires SlotsHold(slots, h) && IdsHold(nextCid, slots, h) && DataHolds(slots, ram, h)
    requires (forall k :: k in h.live ==> k < |h.reqs|) && (forall k :: k in h.outcomes ==> k < |h.reqs|)
    requires IdFree(slots, h, 0)
    ensures var g := Sent(h, Request(FLUSH_OP, []), true);
            SlotsHold(slots, g) && IdsHold(nextCid, slots, g) && DataHolds(slots, ram, g)
  {
    var g := Sent(h, Request(FLUSH_OP, []), true);
    forall i | 0 <= i < QUEUE_DEPTH
      ensures SlotHolds(slots[i], g.owner[i], g) && (slots[i].Booked() ==> SlotData(slots[i], g.owner[i], ram, g))
    {
      SendSlots(slots, ram, h, g, i);
    }
  }

  ghost predicate CanBook(s: Sys, i: nat, sqe: Words, payload: seq<u8>, dst: nat, len: nat) {
    Fits(s, i, sqe, payload, dst, len) && IdFree(s.slots, s.h, s.nextCid)
  }

  /** What a submit must bring: a free slot, the reserved identifier, an entry that describes
      the slot's own buffer, a run on the medium, and a destination of the caller's own. */
  ghost predicate Fits(s: Sys, i: nat, sqe: Words, payload: seq<u8>, dst: nat, len: nat) {
    var op := Interpret(Decode(sqe));
    && |s.slots| == QUEUE_DEPTH && i < QUEUE_DEPTH && !s.slots[i].Booked()
    && op.cid == s.nextCid
    && Describe(IoSlot(op.cid, s.slots[i].bounce, dst, len, Pending), Request(op, payload))
    && op.lo + op.size <= |s.disk|
    && (dst != 0 ==> DstClear(s.slots, i, dst, len, |s.ram|))
    && (op.kind == Write ==> Stored(s.ram, s.slots[i].bounce, payload))
  }

  lemma BookKeeps(s: Sys, i: nat, sqe: Words, payload: seq<u8>, dst: nat, len: nat)
    requires Inv(s) && CanBook(s, i, sqe, payload, dst, len)
    ensures s.tail < |s.sq| && Inv(Book(s, i, sqe, payload, dst, len))
  {
    hide StagesHold, OutcomesHold, SlotsHold, IdsHold, LayoutHolds, DataHolds, LogHolds, SqHolds, EntriesHold,
         ReapedHold, Interpret, IdFree, Describe, DstClear, PhaseOf, Bump, Stored, Apart;
    TailInside(s);
    var t, r := Book(s, i, sqe, payload, dst, len), Request(Interpret(Decode(sqe)), payload);
    Occupancy(s);
    SendRing(s.tail, s.sqDb, s.devHead, s.sq, FetchCount(s), s.h.reqs, sqe, r);
    SendStages(s.jobs, s.h, r, false);
    OutcomeFacts(s.h, FetchCount(s));
    LiveFacts(s.jobs, s.h);
    BookStages(s.jobs, Sent(s.h, r, false), i, |s.h.reqs|);
    InterpretCid(sqe);
    BookSlots(s.nextCid, s.slots, s.ram, s.h, i, r, dst, len);
    BookIds(s.nextCid, s.slots, s.h, i, r, dst, len);
    BookLayout(s.slots, |s.ram|, i, t.slots[i]);
    SameLog(s.disk, s.h, t.h);
    SameReaped(s.h, t.h);
    BookShape(s, i, sqe, payload, dst, len);
  }

  lemma BookShape(s: Sys, i: nat, sqe: Words, payload: seq<u8>, dst: nat, len: nat)
    requires Shape(s) && CqHolds(s) && s.tail < |s.sq| && i < QUEUE_DEPTH
    requires forall k :: k in s.h.live ==> k < |s.h.reqs|
    ensures var t := Book(s, i, sqe, payload, dst, len); Shape(t) && CqHolds(t)
  {
    hide EntriesHold, PhaseOf, Bump, Interpret;
    assert |s.h.reqs| !in s.h.live;
    SendEntries(s.cq, s.h.posts, s.h.reqs, Request(Interpret(Decode(sqe)), payload));
  }

  lemma InterpretCid(sqe: Words)
    ensures Interpret(Decode(sqe)).cid == Decode(sqe).cid
  {
  }

  lemma BookStages(jobs: seq<Job>, h: History, i: nat, k: nat)
    requires |h.owner| == |h.bookedAt| == QUEUE_DEPTH && i < QUEUE_DEPTH
    requires StagesHold(jobs, h) && OutcomesHold(h, |h.posts| + |jobs|)
    ensures StagesHold(jobs, Reserved(h, i, k)) && OutcomesHold(Reserved(h, i, k), |h.posts| + |jobs|)
  {
    var g := Reserved(h, i, k);
    forall j | 0 <= j < |jobs|
      ensures JobHolds(jobs[j], |h.posts| + |jobs|, g)
    {
      assert JobHolds(jobs[j], |h.posts| + |jobs|, h);
    }
    forall m | m in g.outcomes
      ensures OutcomeHolds(g, m)
    {
      assert OutcomeHolds(h, m);
    }
  }

  function Booking(slots: seq<IoSlot>, i: nat, r: Request, dst: nat, len: nat): seq<IoSlot>
    requires i < |slots|
  {
    slots[i := IoSlot(r.op.cid, slots[i].bounce, dst, len, Pending)]
  }

  lemma BookSlots(nextCid: nat, slots: seq<IoSlot>, ram: seq<u8>, h: History, i: nat, r: Request, dst: nat, len: nat)
    requires |slots| == |h.owner| == |h.bookedAt| == QUEUE_DEPTH && i < QUEUE_DEPTH
    requires SlotsHold(slots, h) && DataHolds(slots, ram, h)
    requires (forall k :: k in h.live ==> k < |h.reqs|) && (forall k :: k in h.outcomes ==> k < |h.reqs|)
    requires !slots[i].Booked()
    requires Describe(Booking(slots, i, r, dst, len)[i], r)
    requires r.op.kind == Write ==> Stored(ram, slots[i].bounce, r.payload)
    ensures var g := Reserved(Sent(h, r, false), i, |h.reqs|);
            SlotsHold(Booking(slots, i, r, dst, len), g) && DataHolds(Booking(slots, i, r, dst, len), ram, g)
  {
    var t, g := Booking(slots, i, r, dst, len), Reserved(Sent(h, r, false), i, |h.reqs|);
    var o := 1 - i;
    SendSlots(slots, ram, h, g, o);
    assert |h.reqs| !in h.strays;
    assert SlotHolds(t[i], g.owner[i], g) && SlotData(t[i], g.owner[i], ram, g);
    assert forall w :: 0 <= w < QUEUE_DEPTH ==>
             (t[w], g.owner[w]) == (t[i], g.owner[i]) || (t[w], g.owner[w]) == (t[o], g.owner[o]);
    forall k | k in g.live
      ensures k in g.strays || Holds(t[0], g.owner[0], k) || Holds(t[1], g.owner[1], k)
    {
      if k == |h.reqs| {
        assert Holds(t[i], g.owner[i], k);
      } else {
        assert !Holds(slots[i], h.owner[i], k);
      }
    }
    if t[o].Booked() {
      assert SlotHolds(slots[o], h.owner[o], h) && h.owner[o] < |h.reqs|;
    }
  }

  lemma BookIds(nextCid: nat, slots: seq<IoSlot>, h: History, i: nat, r: Request, dst: nat, len: nat)
    requires |slots| == |h.owner| == |h.bookedAt| == QUEUE_DEPTH && i < QUEUE_DEPTH
    requires SlotsHold(slots, h) && IdsHold(nextCid, slots, h)
    requires forall k :: k in h.live ==> k < |h.reqs|
    requires !slots[i].Booked() && r.op.cid == nextCid && IdFree(slots, h, nextCid)
    ensures IdsHold((nextCid + 1) % 0x1_0000, Booking(slots, i, r, dst, len), Reserved(Sent(h, r, false), i, |h.reqs|))
  {
    var t, g := Booking(slots, i, r, dst, len), Reserved(Sent(h, r, false), i, |h.reqs|);
    forall w, k | 0 <= w < QUEUE_DEPTH && t[w].Booked() && k in g.live && k < |g.reqs|
      ensures g.reqs[k].op.cid == t[w].id ==> g.owner[w] == k
    {
      if w != i && k != |h.reqs| {
        assert h.reqs[k].op.cid == slots[w].id ==> h.owner[w] == k;
      }
    }
  }

  lemma BookLayout(slots: seq<IoSlot>, size: nat, i: nat, slot: IoSlot)
    requires |slots| == QUEUE_DEPTH && i < QUEUE_DEPTH && LayoutHolds(slots, size)
    requires slot.bounce == slots[i].bounce
    requires slot.dst != 0 ==> DstClear(slots, i, slot.dst, slot.len, size)
    ensures LayoutHolds(slots[i := slot], size)
  {
    var t := slots[i := slot];
    forall w | 0 <= w < QUEUE_DEPTH && t[w].dst != 0
      ensures DstClear(t, w, t[w].dst, t[w].len, size)
    {
      assert w != i ==> DstClear(slots, w, slots[w].dst, slots[w].len, size);
    }
  }

  /** Filling a free slot's buffer disturbs no request. */
  lemma FillKeeps(s: Sys, i: nat, data: seq<u8>)
    requires Inv(s) && i < QUEUE_DEPTH && !s.slots[i].Booked() && |data| <= RUN_BYTES
    ensures s.slots[i].bounce + |data| <= |s.ram| && Inv(Fill(s, i, data))
  {
    hide StagesHold, OutcomesHold, SlotsHold, IdsHold, DataHolds, LogHolds, SqHolds, EntriesHold, ReapedHold;
    OutcomeFacts(s.h, FetchCount(s));
    FillData(s.slots, s.ram, s.h, i, data);
  }

  lemma FillData(slots: seq<IoSlot>, ram: seq<u8>, h: History, i: nat, data: seq<u8>)
    requires |slots| == |h.owner| == QUEUE_DEPTH && i < QUEUE_DEPTH && !slots[i].Booked()
    requires SlotsHold(slots, h) && LayoutHolds(slots, |ram|) && DataHolds(slots, ram, h)
    requires |data| <= RUN_BYTES
    requires forall m :: m in h.outcomes ==> OutcomeSize(h, m)
    ensures DataHolds(slots, Blit(ram, slots[i].bounce, data), h)
  {
    forall o | 0 <= o < QUEUE_DEPTH && slots[o].Booked()
      ensures SlotData(slots[o], h.owner[o], Blit(ram, slots[i].bounce, data), h)
    {
      OtherSlotKept(slots, o, ram, Blit(ram, slots[i].bounce, data), h, h, slots[i].bounce, data);
    }
  }
}
