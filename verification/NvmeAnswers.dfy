/** Why a call was answered as it was: each answer `read_blocks` and `write_blocks` of
    src/drivers/nvme.rs can give, against what was asked, what the slots held and what the
    controller did. */
module NvmeAnswers {
  import opened Machine
  import opened NvmeProtocol
  import opened NvmeModel
  import opened NvmeSteps
  import opened NvmeRuns
  import opened NvmeRequests

  /** One run as a caller asks for it: bytes of the medium, and the buffer it is read into or
      the bytes that are written. */
  datatype Asked = Asked(kind: Kind, lo: nat, size: nat, dst: nat, payload: seq<u8>)

  /** The part of a longer request that starts `done` bytes in. */
  function PartOf(all: Asked, done: nat): (r: Asked)
    requires done <= all.size && (all.kind == Write ==> |all.payload| == all.size)
    ensures r.lo == all.lo + done && r.size == Min(RUN_BYTES, all.size - done)
  {
    var n := Min(RUN_BYTES, all.size - done);
    if all.kind == Write then Asked(Write, all.lo + done, n, 0, all.payload[done..done + n])
    else Asked(all.kind, all.lo + done, n, all.dst + done, [])
  }

  /** An upper bound on the runs a transfer of `size` bytes is split into. */
  function RunsFor(size: nat): nat { size / RUN_BYTES + 1 }

  /** How far a request of `size` bytes has come after whole runs: all the way exactly when it
      `ended`. */
  predicate Parted(size: nat, done: nat, ended: bool) {
    && done <= size && done % BLOCK_SIZE == 0 && (done < size ==> done % RUN_BYTES == 0)
    && (ended <==> size % BLOCK_SIZE == 0 && done == size)
  }

  /** The blocks of a request after `runs` full runs of it. */
  predicate Through(size: nat, at: nat, runs: nat) {
    size % BLOCK_SIZE == 0 && at <= size / BLOCK_SIZE && (at < size / BLOCK_SIZE ==> at == runs * 16)
  }

  lemma NotBegun(size: nat)
    ensures if size % BLOCK_SIZE == 0 then Through(size, 0, 0) else Parted(size, 0, false)
  {
  }

  lemma Throughout(size: nat, at: nat, runs: nat)
    requires Through(size, at, runs)
    ensures Parted(size, at * BLOCK_SIZE, at == size / BLOCK_SIZE)
    ensures at < size / BLOCK_SIZE ==>
              && at * BLOCK_SIZE < size && runs < RunsFor(size)
              && Through(size, at + Min(RUN_BYTES / BLOCK_SIZE, size / BLOCK_SIZE - at), runs + 1)
  {
  }

  /** Whole blocks, some but at most one run of them, on a medium of `size` bytes. */
  predicate Proper(run: Asked, size: nat) {
    0 < run.size <= RUN_BYTES && run.size % BLOCK_SIZE == 0 && run.lo + run.size <= size
  }

  /** Submission `k` asks for the run. */
  ghost predicate AsksFor(h: History, k: nat, run: Asked) {
    k < |h.reqs| && h.reqs[k].payload == run.payload
      && h.reqs[k].op.kind == run.kind && h.reqs[k].op.lo == run.lo && h.reqs[k].op.size == run.size
  }

  /** A slot still waits for submission `k`. */
  ghost predicate LeftWaiting(t: Sys, k: nat, run: Asked) {
    && |t.slots| == |t.h.owner| && k in t.h.live
    && exists i :: 0 <= i < |t.slots| && t.slots[i].Waiting() && t.h.owner[i] == k && t.slots[i].dst == run.dst
  }

  ghost predicate AllBooked(s: Sys) {
    |s.slots| == QUEUE_DEPTH && forall i :: 0 <= i < QUEUE_DEPTH ==> s.slots[i].Booked()
  }

  /** The answer to a run asked for in `s`, given in `t` after `looks` looks at its slot.  A run
      off the medium is refused, and no other is.  Busy means that every slot is taken, by other
      callers' requests.  Otherwise the run was sent as submission `k`: a timeout comes after
      the last look allowed, which found everything published and consumed but the slot still
      waiting; the other answers say how the controller's own run of it went. */
  ghost predicate Answered(s: Sys, t: Sys, run: Asked, k: nat, looks: nat, rely: Rely, r: Result<()>) {
    match r
    case Err(InvalidArgument) => !Proper(run, |s.disk|)
    case Err(Busy) => Proper(run, |s.disk|) && AllBooked(t) && (rely.bookings == 0 ==> AllBooked(s))
    case Err(TimedOut) =>
      && Proper(run, |s.disk|) && |s.h.reqs| <= k && AsksFor(t.h, k, run)
      && looks == COMPLETION_POLL_LIMIT + 1 && t.h.reaped == |t.h.posts| && LeftWaiting(t, k, run)
    case Err(DeviceError) => Proper(run, |s.disk|) && |s.h.reqs| <= k && AsksFor(t.h, k, run) && RanAs(t.h, k, false)
    case Ok(_) => Proper(run, |s.disk|) && |s.h.reqs| <= k && AsksFor(t.h, k, run) && RanAs(t.h, k, true)
    case _ => false
  }

  /** Submission `k` ran with this status, and its completion was consumed. */
  ghost predicate RanAs(h: History, k: nat, ok: bool) {
    Consumed(h, k) && k in h.outcomes && h.outcomes[k].ok == ok
  }

  /** A run the submission itself refused. */
  lemma RefusedAnswered(s: Sys, t: Sys, run: Asked, rely: Rely, e: Error)
    requires Onward(s, t, rely) && |t.slots| == QUEUE_DEPTH
    requires if !Proper(run, |s.disk|) then e == InvalidArgument
             else e == Busy && FindSlot(t.slots, SLOT_FREE) == QUEUE_DEPTH
    ensures Answered(s, t, run, 0, 0, rely, Err(e))
  {
    hide Proper;
    if e == Busy {
      forall i | 0 <= i < QUEUE_DEPTH
        ensures t.slots[i].Booked() && (rely.bookings == 0 ==> s.slots[i].Booked())
      {
        assert SlotOnward(s, t, rely, i);
      }
    }
  }

  /** A run that was booked in `s` and awaited until `u`. */
  lemma SentAnswered(s0: Sys, s: Sys, act: Action, bg: seq<Action>, u: Sys, run: Asked, looks: nat, rely: Rely,
                     r: Result<()>)
    requires |s0.h.reqs| <= |s.h.reqs| && |s.disk| == |s0.disk| && Proper(run, |s.disk|)
    requires Enabled(s, act) && act.ActBook? && Path(Do(s, act), bg, u) && Others(bg, act.i, rely)
    requires act.payload == run.payload && act.dst == run.dst
    requires var op := Interpret(Decode(act.sqe)); op.kind == run.kind && op.lo == run.lo && op.size == run.size
    requires |u.slots| == QUEUE_DEPTH && act.i < QUEUE_DEPTH && u.h.reaped == |u.h.posts|
    requires if u.slots[act.i].state == Pending then r == Err(TimedOut) && looks == COMPLETION_POLL_LIMIT + 1
             else u.slots[act.i].state == Done(r)
    ensures Answered(s0, if u.slots[act.i].state == Pending then u else Release(u, act.i), run, |s.h.reqs|, looks, rely,
                     r)
  {
    hide Inv, Enabled, Do, Path, Others, Interpret, NoWriter, Quiet, Consumed;
    var t, i, k := Do(s, act), act.i, |s.h.reqs|;
    JustBooked(s, act);
    EnabledInv(s, act);
    InvShape(s);
    InvShape(t);
    OthersKeepMine(bg, i, rely);
    SlotKept(t, bg, u, i);
    PathGrows(t, bg, u);
    InvShape(u);
    assert u.h.reqs[k] == t.h.reqs[k];
    if u.slots[i].state == Pending {
      WaitingIsLive(u, i);
      assert u.slots[i].Waiting() && u.h.owner[i] == k;
    } else {
      DoneMeansCompleted(u, i);
    }
  }

  lemma WaitingIsLive(s: Sys, i: nat)
    requires Inv(s) && i < QUEUE_DEPTH && s.slots[i].Waiting()
    ensures s.h.owner[i] in s.h.live
  {
    hide StagesHold, OutcomesHold, IdsHold, LayoutHolds, DataHolds, LogHolds, SqHolds, EntriesHold, ReapedHold;
    assert SlotHolds(s.slots[i], s.h.owner[i], s.h);
  }

  /** A part that was not answered Ok was refused exactly for reaching past the medium. */
  lemma AnsweredRefusal(s: Sys, t: Sys, all: Asked, done: nat, k: nat, looks: nat, rely: Rely, r: Result<()>)
    requires Parted(all.size, done, false) && all.size % BLOCK_SIZE == 0
    requires all.kind == Write ==> |all.payload| == all.size
    requires Answered(s, t, PartOf(all, done), k, looks, rely, r)
    ensures r == Err(InvalidArgument) <==> all.lo + Min(done + RUN_BYTES, all.size) > |s.disk|
  {
    hide Consumed, AsksFor, LeftWaiting, AllBooked;
  }

  /** No other errors are given. */
  lemma OnlyErrors(s: Sys, t: Sys, run: Asked, k: nat, looks: nat, rely: Rely, r: Result<()>)
    requires Answered(s, t, run, k, looks, rely, r) && r.Err?
    ensures r.error in {InvalidArgument, Busy, TimedOut, DeviceError}
  {
    hide Consumed, AsksFor, LeftWaiting, AllBooked, Proper;
  }

  /** The answer to a later part of a call is one of the call's. */
  lemma AnsweredSince(start: Sys, s: Sys, t: Sys, run: Asked, k: nat, looks: nat, rely: Rely, r: Result<()>)
    requires Onward(start, s, rely) && Answered(s, t, run, k, looks, rely, r)
    ensures Answered(start, t, run, k, looks, rely, r)
  {
    hide Consumed, AsksFor, LeftWaiting;
    if r == Err(Busy) && rely.bookings == 0 {
      forall i | 0 <= i < QUEUE_DEPTH
        ensures start.slots[i].Booked()
      {
        assert SlotOnward(start, s, rely, i);
      }
    }
  }
}
