/** The I/O queue pair of src/drivers/nvme.rs as a state machine: the driver's fields, the
    memory it shares with the controller, the controller, and the history a proof needs.
    Every driver action below is one critical section of `io_state`; the controller's three
    actions may fall between any two of them, in any order. */
module NvmeModel {
  import opened Machine
  import opened NvmeProtocol
  import opened NvmeRing

  const QUEUE_DEPTH := 2
  const SLOT_FREE: u64 := 0xFFFF_FFFF_FFFF_FFFF

  datatype RequestState = Pending | Done(result: Result<()>)

  datatype IoSlot = IoSlot(id: u64, bounce: nat, dst: nat, len: nat, state: RequestState)
  {
    predicate Booked() { id != SLOT_FREE }
    predicate Waiting() { Booked() && state == Pending }
  }

  // ------------------------------------------------------------ the controller

  datatype Kind = Read | Write | Other

  /** An I/O command as the controller understands it: its name, its PRP pair, and the bytes
      of the medium it covers. */
  datatype Op = Op(kind: Kind, cid: u16, prp1: nat, prp2: nat, lo: nat, size: nat)
  {
    predicate Covers(x: int) { lo <= x < lo + size }
  }

  /** What `flush` sends: every field but the opcode and the namespace is zero. */
  const FLUSH_OP := Op(Other, 0, 0, 0, 0, 0)

  function Interpret(c: Command): Op {
    if c.opcode == NVM_READ then Op(Read, c.cid, c.prp1, c.prp2, c.Slba() * BLOCK_SIZE, c.Blocks() * BLOCK_SIZE)
    else if c.opcode == NVM_WRITE then Op(Write, c.cid, c.prp1, c.prp2, c.Slba() * BLOCK_SIZE, c.Blocks() * BLOCK_SIZE)
    else Op(Other, c.cid, 0, 0, 0, 0)
  }

  /** A command the controller has fetched: its number in fetch order, whether its data has
      moved, and whether that went well. */
  datatype Job = Job(req: nat, op: Op, ran: bool, ok: bool)

  // ------------------------------------------------------------ history

  /** A submission: the command, and for a write the caller's bytes. */
  datatype Request = Request(op: Op, payload: seq<u8>)

  datatype Post = Post(req: nat, code: nat)

  /** What running a command did: its status, and the bytes that moved. */
  datatype Outcome = Outcome(ok: bool, data: seq<u8>)

  /** `reqs` in submission order, `posts` in publication order, `reaped` of them consumed,
      `log` in the order the commands ran; `live` are the submissions not yet reaped, and
      `strays` those of them no slot holds (a flush).  `owner` and `bookedAt` say which
      submission, and which reservation, a booked slot belongs to. */
  datatype History = History(
    reqs: seq<Request>, posts: seq<Post>, reaped: nat,
    live: set<nat>, strays: set<nat>,
    outcomes: map<nat, Outcome>, log: seq<nat>, disk0: seq<u8>,
    owner: seq<nat>, bookedAt: seq<nat>, reserved: nat)

  datatype Sys = Sys(
    tail: nat, head: nat, phase: bool, nextCid: nat, slots: seq<IoSlot>,   // NvmeIoState
    sq: seq<Words>, cq: seq<Cqe>, ram: seq<u8>, sqDb: nat, cqDb: nat,      // shared
    devHead: nat, devTail: nat, devPhase: bool, jobs: seq<Job>, disk: seq<u8>,
    h: History)

  function FetchCount(s: Sys): nat { |s.h.posts| + |s.jobs| }

  // ------------------------------------------------------------ the invariant
  //
  // Each part names only the state it is about, so an action that leaves that state alone
  // keeps the part for free.

  ghost predicate Shape(s: Sys) {
    && |s.sq| == QUEUE_ENTRIES && |s.cq| == QUEUE_ENTRIES
    && |s.slots| == QUEUE_DEPTH && |s.h.owner| == QUEUE_DEPTH && |s.h.bookedAt| == QUEUE_DEPTH
    && s.h.reaped <= |s.h.posts|
    && FetchCount(s) <= |s.h.reqs|
    && |s.h.live| == |s.h.reqs| - s.h.reaped
    && |s.disk| == |s.h.disk0|
  }

  /** Submission ring: registers are the counters modulo the ring, and every entry not yet
      fetched is still the one submitted. */
  ghost predicate SqHolds(tail: nat, sqDb: nat, devHead: nat, sq: seq<Words>, fetched: nat, reqs: seq<Request>)
    requires |sq| == QUEUE_ENTRIES
  {
    && tail == sqDb == |reqs| % QUEUE_ENTRIES
    && devHead == fetched % QUEUE_ENTRIES
    && forall k :: fetched <= k < |reqs| ==> Interpret(Decode(sq[k % QUEUE_ENTRIES])) == reqs[k].op
  }

  /** Completion ring: head and phase are functions of the number consumed, and an entry is
      either the latest completion posted there or was never written. */
  ghost predicate CqHolds(s: Sys)
    requires Shape(s)
  {
    && s.head == s.cqDb == s.h.reaped % QUEUE_ENTRIES
    && s.phase == PhaseOf(s.h.reaped)
    && s.devTail == |s.h.posts| % QUEUE_ENTRIES
    && s.devPhase == PhaseOf(|s.h.posts|)
    && EntriesHold(s.cq, s.h.posts, s.h.reqs)
  }

  ghost predicate EntriesHold(cq: seq<Cqe>, posts: seq<Post>, reqs: seq<Request>) {
    && Tagged(cq, |posts|)
    && (forall p :: 0 <= p < |posts| <= p + QUEUE_ENTRIES ==> Carries(EntryAt(cq, p), posts[p], reqs))
  }

  /** The entry is the completion of `post`'s own submission. */
  ghost predicate Carries(e: Cqe, post: Post, reqs: seq<Request>) {
    && post.req < |reqs|
    && e.commandId == reqs[post.req].op.cid
    && e.StatusCode() == post.code
  }

  /** Every submission is in exactly one place: unfetched, with the controller, posted, or
      reaped; and it is live until reaped. */
  ghost predicate StagesHold(jobs: seq<Job>, h: History) {
    var fetched := |h.posts| + |jobs|;
    && (forall k :: k in h.live ==> k < |h.reqs|)
    && (forall k :: fetched <= k < |h.reqs| ==> k in h.live)
    && (forall j :: 0 <= j < |jobs| ==> JobHolds(jobs[j], fetched, h))
    && (forall i, j :: 0 <= i < j < |jobs| ==> jobs[i].req != jobs[j].req)
    && (forall p :: 0 <= p < |h.posts| ==>
          h.posts[p].req < fetched && (h.posts[p].req in h.live <==> h.reaped <= p))
    && (forall p, q :: 0 <= p < q < |h.posts| ==> h.posts[p].req != h.posts[q].req)
    && (forall p, j :: 0 <= p < |h.posts| && 0 <= j < |jobs| ==> h.posts[p].req != jobs[j].req)
  }

  ghost predicate JobHolds(job: Job, fetched: nat, h: History) {
    && job.req in h.live && job.req < fetched && job.req < |h.reqs|
    && job.op == h.reqs[job.req].op
    && (job.ran <==> job.req in h.outcomes)
    && (job.ran ==> job.ok == h.outcomes[job.req].ok)
  }

  /** Outcomes exist only for fetched commands, a posted status is its own command's, and
      every live command stays on the medium. */
  ghost predicate OutcomesHold(h: History, fetched: nat) {
    && (forall k :: k in h.outcomes ==> k < fetched && OutcomeHolds(h, k))
    && (forall p :: 0 <= p < |h.posts| ==>
          h.posts[p].req in h.outcomes && (h.posts[p].code == 0 <==> h.outcomes[h.posts[p].req].ok))
    && (forall k :: k in h.live && k < |h.reqs| ==> h.reqs[k].op.lo + h.reqs[k].op.size <= |h.disk0|)
  }

  ghost predicate OutcomeHolds(h: History, k: nat)
    requires k in h.outcomes
  {
    && OutcomeSize(h, k)
    && (h.reqs[k].op.kind == Write && h.outcomes[k].ok ==> h.outcomes[k].data == h.reqs[k].payload)
  }

  ghost predicate OutcomeSize(h: History, k: nat)
    requires k in h.outcomes
  {
    k < |h.reqs| && |h.outcomes[k].data| == h.reqs[k].op.size
  }

  /** A submission stops being live only when its own completion is consumed. */
  ghost predicate ReapedHold(h: History) {
    forall k :: 0 <= k < |h.reqs| && k !in h.live ==> Consumed(h, k)
  }

  ghost predicate Consumed(h: History, k: nat) {
    exists p :: 0 <= p < h.reaped && p < |h.posts| && h.posts[p].req == k
  }

  /** The answer a completed request gets. */
  function Answer(ok: bool): RequestState {
    Done(if ok then Ok(()) else Err(DeviceError))
  }

  /** A booked slot holds submission `k`, whose entry describes this slot's own buffer. */
  ghost predicate SlotHolds(slot: IoSlot, k: nat, h: History) {
    if !slot.Booked() then slot.state == Pending else
      && k < |h.reqs|
      && Describe(slot, h.reqs[k])
      && k !in h.strays
      && (slot.state == Pending ==> k in h.live)
      && (slot.state != Pending ==>
            k !in h.live && k in h.outcomes && slot.state == Answer(h.outcomes[k].ok))
  }

  ghost predicate Describe(slot: IoSlot, r: Request) {
    && slot.id == r.op.cid
    && r.op.kind != Other && r.op.size <= RUN_BYTES
    && (r.op.prp1, r.op.prp2) == RunPrp(slot.bounce, r.op.size)
    && (r.op.kind == Read ==> slot.dst != 0 && slot.len == r.op.size)
    && (r.op.kind == Write ==> slot.dst == 0 && |r.payload| == r.op.size)
  }

  ghost predicate SlotsHold(slots: seq<IoSlot>, h: History)
    requires |slots| == |h.owner| == QUEUE_DEPTH
  {
    && (forall i :: 0 <= i < QUEUE_DEPTH ==> SlotHolds(slots[i], h.owner[i], h))
    && (slots[0].Booked() && slots[1].Booked() ==> h.owner[0] != h.owner[1])
    && (forall k :: k in h.live ==> k in h.strays || Holds(slots[0], h.owner[0], k) || Holds(slots[1], h.owner[1], k))
    && (forall k :: k in h.strays ==> k in h.live && k < |h.reqs| && h.reqs[k].op == FLUSH_OP)
  }

  ghost predicate Holds(slot: IoSlot, owner: nat, k: nat) { slot.Waiting() && owner == k }

  /** In-flight identifiers are pairwise distinct, and a booked slot's identifier is carried
      by no live command but its own. */
  ghost predicate IdsHold(nextCid: nat, slots: seq<IoSlot>, h: History)
    requires |slots| == |h.owner| == |h.bookedAt| == QUEUE_DEPTH
  {
    && nextCid == h.reserved % 0x1_0000
    && (forall i :: 0 <= i < QUEUE_DEPTH && slots[i].Booked() ==>
          h.bookedAt[i] < h.reserved && slots[i].id == h.bookedAt[i] % 0x1_0000)
    && (slots[0].Booked() && slots[1].Booked() ==> slots[0].id != slots[1].id)
    && (forall k, l :: k in h.live && l in h.live && k != l && k < |h.reqs| && l < |h.reqs| ==>
          h.reqs[k].op.cid != h.reqs[l].op.cid)
    && (forall i, k :: 0 <= i < QUEUE_DEPTH && slots[i].Booked() && k in h.live && k < |h.reqs| ==>
          (h.reqs[k].op.cid == slots[i].id ==> h.owner[i] == k))
  }

  predicate Apart(a: int, n: int, b: int, m: int) { a + n <= b || b + m <= a }

  /** Buffers: page-aligned bounce frames, disjoint from each other and from destinations. */
  ghost predicate LayoutHolds(slots: seq<IoSlot>, size: nat)
    requires |slots| == QUEUE_DEPTH
  {
    && (forall i :: 0 <= i < QUEUE_DEPTH ==>
          slots[i].bounce % NVME_PAGE_SIZE == 0 && slots[i].bounce + RUN_BYTES <= size)
    && Apart(slots[0].bounce, RUN_BYTES, slots[1].bounce, RUN_BYTES)
    && (forall i :: 0 <= i < QUEUE_DEPTH && slots[i].dst != 0 ==>
          DstClear(slots, i, slots[i].dst, slots[i].len, size))
  }

  /** A destination for slot `i`: inside memory, off both bounce buffers and off the other
      slot's destination. */
  ghost predicate DstClear(slots: seq<IoSlot>, i: nat, dst: nat, len: nat, size: nat)
    requires |slots| == QUEUE_DEPTH && i < QUEUE_DEPTH
  {
    && len <= RUN_BYTES && dst + len <= size
    && Apart(dst, len, slots[0].bounce, RUN_BYTES)
    && Apart(dst, len, slots[1].bounce, RUN_BYTES)
    && (slots[1 - i].dst != 0 ==> Apart(dst, len, slots[1 - i].dst, slots[1 - i].len))
  }

  /** Data in transit: a write's bytes wait in its bounce buffer until it runs, a read's are
      there once it ran, and in the caller's buffer once it was reaped. */
  ghost predicate DataHolds(slots: seq<IoSlot>, ram: seq<u8>, h: History)
    requires |slots| == |h.owner| == QUEUE_DEPTH
  {
    forall i :: 0 <= i < QUEUE_DEPTH && slots[i].Booked() ==> SlotData(slots[i], h.owner[i], ram, h)
  }

  predicate Stored(ram: seq<u8>, at: nat, data: seq<u8>) {
    at + |data| <= |ram| && ram[at..at + |data|] == data
  }

  ghost predicate SlotData(slot: IoSlot, k: nat, ram: seq<u8>, h: History) {
    k < |h.reqs| &&
    if slot.Waiting() then
      && (h.reqs[k].op.kind == Write && k !in h.outcomes ==> Stored(ram, slot.bounce, h.reqs[k].payload))
      && (h.reqs[k].op.kind == Read && k in h.outcomes && h.outcomes[k].ok ==>
          Stored(ram, slot.bounce, h.outcomes[k].data))
    else
      h.reqs[k].op.kind == Read && k in h.outcomes && h.outcomes[k].ok ==> Stored(ram, slot.dst, h.outcomes[k].data)
  }

  /** The medium after the first `n` commands of the run order, applied one at a time. */
  function Replay(h: History, n: nat): (disk: seq<u8>)
    requires n <= |h.log|
    ensures |disk| == |h.disk0|
  {
    if n == 0 then h.disk0 else Apply(h, h.log[n - 1], Replay(h, n - 1))
  }

  function Apply(h: History, k: nat, disk: seq<u8>): (r: seq<u8>)
    ensures |r| == |disk|
  {
    if k < |h.reqs| && h.reqs[k].op.kind == Write && k in h.outcomes && h.reqs[k].op.lo + |h.outcomes[k].data| <= |disk|
    then Blit(disk, h.reqs[k].op.lo, h.outcomes[k].data) else disk
  }

  /** Atomicity: the medium is what the run order makes of it, and a read that succeeded saw
      the medium as it was at its own place in that order. */
  ghost predicate LogHolds(disk: seq<u8>, h: History) {
    && disk == Replay(h, |h.log|)
    && (forall n :: 0 <= n < |h.log| ==> h.log[n] in h.outcomes && ReadSawReplay(h, n))
    && (forall m, n :: 0 <= m < n < |h.log| ==> h.log[m] != h.log[n])
    && (forall k :: k in h.outcomes ==> k in h.log)
  }

  ghost predicate ReadSawReplay(h: History, n: nat)
    requires n < |h.log|
  {
    var k := h.log[n];
    k < |h.reqs| && h.reqs[k].op.kind == Read && k in h.outcomes && h.outcomes[k].ok ==>
      Stored(Replay(h, n), h.reqs[k].op.lo, h.outcomes[k].data)
  }

  ghost predicate Inv(s: Sys) {
    && Shape(s)
    && SqHolds(s.tail, s.sqDb, s.devHead, s.sq, FetchCount(s), s.h.reqs)
    && CqHolds(s)
    && StagesHold(s.jobs, s.h) && OutcomesHold(s.h, FetchCount(s)) && ReapedHold(s.h)
    && SlotsHold(s.slots, s.h) && IdsHold(s.nextCid, s.slots, s.h)
    && LayoutHolds(s.slots, |s.ram|) && DataHolds(s.slots, s.ram, s.h)
    && LogHolds(s.disk, s.h)
  }

  // ------------------------------------------------------------ occupancy

  function Waiters(slots: seq<IoSlot>): (n: nat)
    requires |slots| == QUEUE_DEPTH
  {
    (if slots[0].Waiting() then 1 else 0) + (if slots[1].Waiting() then 1 else 0)
  }

  /** Every command still out is held by a waiting slot, or is a flush. */
  lemma Outstanding(s: Sys)
    requires Shape(s) && SlotsHold(s.slots, s.h)
    ensures |s.h.reqs| - s.h.reaped <= Waiters(s.slots) + |s.h.strays|
  {
    var held := (if s.slots[0].Waiting() then {s.h.owner[0]} else {})
              + (if s.slots[1].Waiting() then {s.h.owner[1]} else {});
    assert |held| <= Waiters(s.slots);
    Cover(s.h.live, s.h.strays, held);
  }

  /** Distinct identifiers leave room for one flush. */
  lemma OneStray(nextCid: nat, slots: seq<IoSlot>, h: History)
    requires |slots| == |h.owner| == |h.bookedAt| == QUEUE_DEPTH
    requires SlotsHold(slots, h) && IdsHold(nextCid, slots, h)
    ensures |h.strays| <= 1 && forall a, b :: a in h.strays && b in h.strays ==> a == b
  {
    forall a, b | a in h.strays && b in h.strays
      ensures a == b
    {
      assert h.reqs[a].op == FLUSH_OP && h.reqs[b].op == FLUSH_OP;
    }
    if h.strays != {} {
      var a :| a in h.strays;
      assert h.strays == {a};
    }
  }

  /** Outstanding commands are at most the waiting slots and one flush, so neither ring can
      fill: the next submission entry is never one the controller has yet to fetch, and the
      controller always has an entry to post into. */
  lemma Occupancy(s: Sys)
    requires Shape(s) && SlotsHold(s.slots, s.h) && IdsHold(s.nextCid, s.slots, s.h)
    ensures |s.h.reqs| - s.h.reaped <= Waiters(s.slots) + 1 <= QUEUE_DEPTH + 1
    ensures |s.h.reqs| - FetchCount(s) < QUEUE_ENTRIES - 1
    ensures |s.h.posts| - s.h.reaped < QUEUE_ENTRIES - 1
  {
    hide SlotsHold, IdsHold;
    Outstanding(s);
    OneStray(s.nextCid, s.slots, s.h);
  }

  lemma Cover(a: set<nat>, b: set<nat>, c: set<nat>)
    requires a <= b + c
    ensures |a| <= |b| + |c|
  {
    assert b + c == b + (c - b);
    Subset(a, b + c);
    Subset(c - b, c);
  }

  lemma Subset(a: set<nat>, b: set<nat>)
    requires a <= b
    ensures |a| <= |b|
  {
    assert b == a + (b - a);
  }
}
