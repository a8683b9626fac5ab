/** The accidents the driver allows, on a controller `init` has just returned: a flush behind a
    read that waits under identifier 0, a read behind a flush that timed out, a read into the
    buffer of an earlier read that timed out, and an admin command behind one that timed out. */
module NvmeAccidents {
  import opened Machine
  import opened NvmeProtocol
  import opened NvmeModel
  import opened NvmeSteps
  import opened NvmeRuns
  import opened NvmeRequests
  import opened NvmeDevice
  import opened NvmeCredit
  import opened NvmeBuffers
  import opened NvmeRunning
  import opened NvmeDriver
  import opened NvmeAdminModel
  import opened NvmeAdmin

  /** The first read of all gets ticket 0, and while it waits no flush can be answered: the
      caller is told TimedOut after any schedule of the controller. */
  method FlushBehindRead(c: NvmeController, dst: nat) returns (ticket: Result<u64>, flushed: Result<()>)
    requires c.Valid() && Initial(c.View()) && c.blockCount > 0
    requires dst != 0 && dst + BLOCK_SIZE <= |c.ram| && BounceClear(c.slots, dst, BLOCK_SIZE)
    modifies c, c.iosq, c.iocq
    ensures ticket == Ok(0) && flushed == Err(TimedOut)
  {
    hide Inv, Runs, Enabled, Do, Interpret, Decode, BounceClear, FitsAnywhere, RunPrp, Path, DeviceRun, Background,
         IdFree, Book, Initial, DstFree;
    FirstFree(c.View(), dst, BLOCK_SIZE);
    ghost var act, acts, found;
    ghost var start := c.View();
    ticket, act := c.SubmitRead(0, dst, BLOCK_SIZE);
    FirstBooked(start, act, dst);
    var looks;
    flushed, looks, acts, found := c.Flush();
  }

  lemma FirstFree(s: Sys, dst: nat, len: nat)
    requires Initial(s)
    ensures FindSlot(s.slots, SLOT_FREE) == 0 && s.nextCid == 0 && IdFree(s.slots, s.h, 0) && DstFree(s.slots, dst, len)
  {
  }

  /** A flush times out, and the first read of all gets its identifier.  A schedule of the
      controller answers the flush and not the read: the read's slot says Done(Ok) although the
      read has not run. */
  method ReadBehindFlush(c: NvmeController, dst: nat)
    returns (ticket: Result<u64>, ghost acts: seq<Action>, ghost t: Sys)
    requires c.Valid() && Initial(c.View()) && c.blockCount > 0
    requires dst != 0 && dst + BLOCK_SIZE <= |c.ram| && BounceClear(c.slots, dst, BLOCK_SIZE)
    modifies c, c.iosq
    ensures ticket == Ok(0) && DeviceRun(c.View(), acts, t)
    ensures |t.slots| == |t.h.owner| == QUEUE_DEPTH && FindSlot(t.slots, 0) == 0
    ensures t.slots[0].state == Done(Ok(())) && t.h.owner[0] !in t.h.outcomes
  {
    hide Inv, Runs, Loose, Enabled, Do, Interpret, Decode, BounceClear, FitsAnywhere, RunPrp, DeviceRun;
    ghost var start := c.View();
    FirstFree(start, dst, BLOCK_SIZE);
    var entry := c.SendFlush();
    ghost var act;
    ghost var mid := c.View();
    assert !IdFree(mid.slots, mid.h, mid.nextCid);
    ticket, act := c.SubmitRead(0, dst, BLOCK_SIZE);
    acts, t := FlushFirst(mid, act, dst);
  }

  /** With a flush out and nothing answered, a read booked under its identifier is answered by
      the flush's completion. */
  lemma FlushFirst(s: Sys, act: Action, dst: nat) returns (acts: seq<Action>, t: Sys)
    requires Inv(s) && act.ActBook? && FitsAnywhere(s, 0, act.sqe, [], dst, BLOCK_SIZE)
    requires s.tail < |s.sq| && |s.h.owner| == |s.h.bookedAt| == QUEUE_DEPTH && s.nextCid == 0
    requires |s.h.reqs| == 1 && s.h.reqs[0].op == FLUSH_OP && s.h.strays == {0}
    requires s.h.posts == [] && s.h.reaped == 0 && s.h.outcomes == map[]
    ensures DeviceRun(Book(s, 0, act.sqe, [], dst, BLOCK_SIZE), acts, t)
    ensures |t.slots| == |t.h.owner| == QUEUE_DEPTH && FindSlot(t.slots, 0) == 0
    ensures t.slots[0].state == Done(Ok(())) && t.h.owner[0] !in t.h.outcomes
  {
    hide Inv, Loose, Interpret, DeviceRun;
    BookLoose(s, 0, act.sqe, [], dst, BLOCK_SIZE);
    InterpretCid(act.sqe);
    var b := Book(s, 0, act.sqe, [], dst, BLOCK_SIZE);
    var a1, s1 := PostFlush(b, 0);
    FirstFlushCompletion(s1, 0, 0);
    acts, t := a1 + [ActReap], Reap(s1);
    DeviceOne(b, a1, s1, ActReap);
  }

  /** A read of block 0 is abandoned, and block 1 is read into the same buffer.  A schedule of
      the controller answers the second read Done(Ok) and then copies the first one's bytes over
      it: the ticket answers Ok and the buffer does not hold block 1. */
  method StaleRead(c: NvmeController, dst: nat) returns (ticket: Result<u64>, ghost acts: seq<Action>, ghost t: Sys)
    requires c.Valid() && Initial(c.View()) && c.blockCount > 1
    requires c.disk[..BLOCK_SIZE] != c.disk[BLOCK_SIZE..2 * BLOCK_SIZE]
    requires dst != 0 && dst + BLOCK_SIZE <= |c.ram| && BounceClear(c.slots, dst, BLOCK_SIZE)
    modifies c, c.iosq
    ensures ticket == Ok(1) && c.disk == old(c.disk) && DeviceRun(c.View(), acts, t)
    ensures |t.slots| == QUEUE_DEPTH && FindSlot(t.slots, 1) == 1 && t.slots[1].state == Done(Ok(()))
    ensures t.slots[1].dst == dst
    ensures dst + BLOCK_SIZE <= |t.ram| && 2 * BLOCK_SIZE <= |c.disk|
    ensures t.ram[dst..dst + BLOCK_SIZE] != c.disk[BLOCK_SIZE..2 * BLOCK_SIZE]
  {
    hide Inv, Enabled, Do, Interpret, Decode, BounceClear, FitsAnywhere, RunPrp, Book, Stale, DeviceRun, Follows,
         FreshlyBooked, FindSlot;
    ghost var start := c.View();
    FirstFree(start, dst, BLOCK_SIZE);
    var first;
    ghost var one, two;
    first, one := c.SubmitRead(0, dst, BLOCK_SIZE);
    ghost var mid := c.View();
    FirstBooked(start, one, dst);
    ticket, two := c.SubmitRead(1, dst, BLOCK_SIZE);
    BothBooked(start, one, two, dst);
    BookedFollows(mid, 1, two.sqe, dst, BLOCK_SIZE);
    acts, t := StaleOverwrites(c.View(), 1);
    WrongBytes(c.View(), acts, t, 1);
    RiddenAlong(c.View(), acts, t);
    TicketOne(c.View(), t);
  }

  /** After the first read's submission slot 0 waits for request 0 under identifier 0. */
  lemma FirstBooked(s: Sys, one: Action, dst: nat)
    requires Initial(s) && s.tail < |s.sq|
    requires one.ActBook? && one.i == 0 && one.payload == [] && one.dst == dst && one.len == BLOCK_SIZE && dst != 0
    requires BookedOp(one, Read, 0, s.slots[0].bounce, 0, BLOCK_SIZE)
    requires BounceClear(s.slots, dst, BLOCK_SIZE)
    ensures var m := Book(s, 0, one.sqe, [], dst, BLOCK_SIZE);
            && |m.slots| == QUEUE_DEPTH && m.nextCid == 1 && m.slots[0].dst == dst && m.slots[1] == s.slots[1]
            && m.disk == s.disk && |m.ram| == |s.ram|
            && FindSlot(m.slots, SLOT_FREE) == 1 && FindSlot(m.slots, 0) == 0 && IdFree(m.slots, m.h, 1)
            && BounceClear(m.slots, dst, BLOCK_SIZE)
  {
    hide Interpret, RunPrp;
    InterpretCid(one.sqe);
  }

  lemma BothBooked(s: Sys, one: Action, two: Action, dst: nat)
    requires Initial(s) && s.tail < |s.sq| && dst != 0 && 2 * BLOCK_SIZE <= |s.disk|
    requires one.ActBook? && one.i == 0 && one.payload == [] && one.dst == dst && one.len == BLOCK_SIZE
    requires BookedOp(one, Read, 0, s.slots[0].bounce, 0, BLOCK_SIZE)
    requires two.ActBook? && two.i == 1 && two.payload == [] && two.dst == dst && two.len == BLOCK_SIZE
    requires BookedOp(two, Read, 1, s.slots[1].bounce, 1, BLOCK_SIZE)
    requires s.disk[..BLOCK_SIZE] != s.disk[BLOCK_SIZE..2 * BLOCK_SIZE]
    ensures var m := Book(s, 0, one.sqe, [], dst, BLOCK_SIZE);
            && m.tail < |m.sq| && |m.slots| == |m.h.owner| == |m.h.bookedAt| == QUEUE_DEPTH
            && var b := Book(m, 1, two.sqe, [], dst, BLOCK_SIZE);
               && |b.slots| == |b.h.owner| == QUEUE_DEPTH && Stale(b, 1)
               && b.slots[0].id == 0 && b.slots[1].id == 1 && b.slots[1].dst == dst && b.slots[1].len == BLOCK_SIZE
               && b.h.owner[1] < |b.h.reqs| && b.h.reqs[b.h.owner[1]].op.lo == BLOCK_SIZE
  {
    hide Interpret, RunPrp;
    InterpretCid(one.sqe);
    InterpretCid(two.sqe);
    var b := Book(Book(s, 0, one.sqe, [], dst, BLOCK_SIZE), 1, two.sqe, [], dst, BLOCK_SIZE);
    var x :| 0 <= x < BLOCK_SIZE && s.disk[..BLOCK_SIZE][x] != s.disk[BLOCK_SIZE..2 * BLOCK_SIZE][x];
    assert Shared(b.slots, dst + x) && Brings(b, 0, dst + x) != Brings(b, 1, dst + x);
  }

  /** A read answered Ok whose bytes were overwritten does not show the medium's. */
  lemma WrongBytes(b: Sys, acts: seq<Action>, t: Sys, i: nat)
    requires Follows(b, b) && FreshlyBooked(b, i) && DeviceRun(b, acts, t) && |t.slots| == |t.h.owner| == QUEUE_DEPTH
    requires t.h.owner == b.h.owner && t.slots[i] == b.slots[i].(state := Done(Ok(()))) && !Delivered(t, i)
    ensures var k, n := b.h.owner[i], t.slots[i].len;
            && k < |b.h.reqs| && |t.ram| == |b.ram| && t.slots[i].dst + n <= |t.ram|
            && b.h.reqs[k].op.lo + n <= |b.disk|
            && t.ram[t.slots[i].dst..t.slots[i].dst + n] != b.disk[b.h.reqs[k].op.lo..b.h.reqs[k].op.lo + n]
  {
    hide IdsHold, NoWrites, BothBounced, SqHolds, CqHolds, StagesHold, ReapedHold, DeviceRun;
    FollowsAlong(b, b, acts, t);
    var k := t.h.owner[i];
    assert SlotHolds(t.slots[i], k, t.h);
    assert DstOwn(t.slots, t.slots[i].dst, t.slots[i].len, |t.ram|);
    assert OutcomeHolds(t.h, k) && FromMedium(t.h, k, b.disk);
  }

  lemma TicketOne(b: Sys, t: Sys)
    requires |b.slots| == |t.slots| == QUEUE_DEPTH && b.slots[0].id == 0 && b.slots[1].id == 1
    requires t.slots[1].id == 1 && t.slots[0].id == b.slots[0].id
    ensures FindSlot(t.slots, 1) == 1
  {
  }

  /** On a new admin queue a command times out, and the next caller can be given its completion. */
  method LateAdminAnswer(first: Words, second: Words)
    returns (q: AdminQueue, ghost acts: seq<AdminAct>, ghost t: AdminSys)
    ensures q.View().tail < |q.View().asq| && |q.books.cmds| == 1
    ensures Gives(NvmeAdminModel.Sent(q.View(), second), acts, t, 0)
  {
    hide InOrder, AdminRun, Published, Answerable;
    q := new AdminQueue();
    ghost var start := q.View();
    SentWhole(start, first);
    q.Send(first);
    assert q.books == AdminBooks([first], 0, [], []) && q.taken == 0;
    Unanswered(q.books, q.taken, 0);
    acts, t := GivesAnswerable(q.View(), second, 0);
  }
}
