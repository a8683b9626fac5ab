/** What is left when callers break the rules.  Whatever identifiers and destinations were
    picked, the rings, the controller and the reap loop stay in step; completions may go to the
    wrong slot, and that is all that can go wrong here. */
module NvmeRunning {
  import opened Machine
  import opened NvmeProtocol
  import opened NvmeRing
  import opened NvmeModel
  import opened NvmeSteps
  import opened NvmeRuns
  import opened NvmeDevice

  /** The controller can run the command. */
  ghost predicate OpFits(op: Op, size: nat, medium: nat) {
    op.lo + op.size <= medium && (op.kind != Other ==> PrpInside(op.prp1, op.prp2, op.size, size))
  }

  ghost predicate OpsFit(h: History, size: nat, medium: nat) {
    forall k :: k in h.live && k < |h.reqs| ==> OpFits(h.reqs[k].op, size, medium)
  }

  /** Only fetched commands ran, and a posted status is its own command's. */
  ghost predicate StatusHolds(h: History, fetched: nat) {
    && (forall k :: k in h.outcomes ==> k < fetched)
    && (forall p :: 0 <= p < |h.posts| ==>
          h.posts[p].req in h.outcomes && (h.posts[p].code == 0 <==> h.outcomes[h.posts[p].req].ok))
  }

  ghost predicate Runs(s: Sys) {
    && Shape(s) && |s.h.reqs| - s.h.reaped < QUEUE_ENTRIES - 1
    && SqHolds(s.tail, s.sqDb, s.devHead, s.sq, FetchCount(s), s.h.reqs)
    && CqHolds(s) && StagesHold(s.jobs, s.h) && StatusHolds(s.h, FetchCount(s))
    && Roomy(s.slots, |s.ram|) && OpsFit(s.h, |s.ram|, |s.disk|)
  }

  lemma RunsShape(s: Sys)
    requires Runs(s)
    ensures Shape(s)
  {
    hide StagesHold, StatusHolds, OpsFit, Roomy, SqHolds, CqHolds;
  }

  lemma LooseRuns(s: Sys)
    requires Loose(s)
    ensures Runs(s)
  {
    hide StagesHold, SlotsHold, SqHolds, CqHolds, ReapedHold, Roomy, OpFits, OutcomesHold, StatusHolds;
    LooseRoom(s);
    assert StatusHolds(s.h, FetchCount(s)) by { LooseStatus(s.h, FetchCount(s)); }
    forall k | k in s.h.live && k < |s.h.reqs|
      ensures OpFits(s.h.reqs[k].op, |s.ram|, |s.disk|)
    {
      LooseOp(s.slots, s.ram, s.h, FetchCount(s), k);
    }
  }

  lemma LooseStatus(h: History, fetched: nat)
    requires OutcomesHold(h, fetched)
    ensures StatusHolds(h, fetched)
  {
  }

  lemma LooseOp(slots: seq<IoSlot>, ram: seq<u8>, h: History, fetched: nat, k: nat)
    requires |slots| == |h.owner| == QUEUE_DEPTH && SlotsHold(slots, h) && OutcomesHold(h, fetched)
    requires Roomy(slots, |ram|)
    requires k in h.live && k < |h.reqs|
    ensures OpFits(h.reqs[k].op, |ram|, |h.disk0|)
  {
    hide PrpInside, Gather, Scatter, Blit, RunPrp;
    if h.reqs[k].op.kind != Other {
      var i := HolderOf(slots, h, k);
      RunTransfer(ram, slots[i].bounce, seq(h.reqs[k].op.size, _ => 0));
    }
  }

  lemma InvRuns(s: Sys)
    requires Inv(s)
    ensures Runs(s)
  {
    hide Inv, Loose, Runs;
    InvLoose(s);
    LooseRuns(s);
  }

  // ------------------------------------------------------------ every step

  /** The head entry reads as published exactly when there is one to consume, and every command
      the controller holds it can run. */
  lemma RunsRoom(s: Sys)
    requires Runs(s)
    ensures s.head < |s.cq| && (CanReap(s) <==> s.h.reaped < |s.h.posts|)
    ensures CanReap(s) ==> Carries(s.cq[s.head], s.h.posts[s.h.reaped], s.h.reqs)
    ensures CopyInside(s.slots, |s.ram|)
  {
    hide StagesHold, SqHolds, CqHolds, StatusHolds, OpsFit;
    TagExact(s);
  }

  lemma RunsJob(s: Sys, j: nat, junk: seq<u8>)
    requires Runs(s) && j < |s.jobs| && !s.jobs[j].ran && |junk| == s.jobs[j].op.size
    ensures CanRun(s, j, junk)
  {
    hide StagesHold, SqHolds, CqHolds, StatusHolds, Roomy, PrpInside;
    JobFacts(s.jobs, s.h, j);
  }

  lemma RunsFetch(s: Sys)
    requires Runs(s) && CanFetch(s)
    ensures Runs(Fetch(s))
  {
    hide StagesHold, CqHolds, SqHolds, Interpret, PhaseOf, Roomy, OpsFit;
    FetchedEntry(s.tail, s.sqDb, s.devHead, s.sq, FetchCount(s), s.h.reqs);
    FetchStages(s.jobs, s.h);
    assert FetchCount(Fetch(s)) == FetchCount(s) + 1;
    assert CqHolds(Fetch(s)) by { FetchCq(s); }
  }

  lemma FetchCq(s: Sys)
    requires Shape(s) && CqHolds(s) && CanFetch(s) && Shape(Fetch(s))
    ensures CqHolds(Fetch(s))
  {
    hide EntriesHold, Interpret, PhaseOf;
  }

  lemma RunsRun(s: Sys, j: nat, ok: bool, junk: seq<u8>)
    requires Runs(s) && CanRun(s, j, junk)
    ensures Runs(Run(s, j, ok, junk))
  {
    hide StagesHold, SqHolds, CqHolds, Roomy, OpsFit, Moved, Scatter, Blit, PrpInside, StatusHolds;
    var t, k := Run(s, j, ok, junk), s.jobs[j].req;
    var o := Outcome(ok, Moved(s, s.jobs[j].op, ok, junk));
    JobFacts(s.jobs, s.h, j);
    RunShape(s, j, ok, junk);
    RunStages(s.jobs, s.h, j, o);
    assert StatusHolds(t.h, FetchCount(t)) by { RunStatus(s.jobs, s.h, j, o); }
    assert OpsFit(t.h, |t.ram|, |t.disk|) by { SameOps(s.h, t.h, |s.ram|, |s.disk|); }
  }

  lemma RunStatus(jobs: seq<Job>, h: History, j: nat, o: Outcome)
    requires StagesHold(jobs, h) && j < |jobs| && !jobs[j].ran && StatusHolds(h, |h.posts| + |jobs|)
    ensures StatusHolds(Ran(h, jobs[j].req, o), |h.posts| + |jobs|)
  {
    JobFacts(jobs, h, j);
  }

  lemma SameOps(h: History, g: History, size: nat, medium: nat)
    requires OpsFit(h, size, medium) && g.reqs == h.reqs && g.live <= h.live
    ensures OpsFit(g, size, medium)
  {
    hide OpFits;
  }

  lemma RunsPublish(s: Sys, j: nat, code: nat, dw0: u32)
    requires Runs(s) && CanPost(s, j, code)
    ensures Runs(Publish(s, j, code, dw0))
  {
    hide StagesHold, SqHolds, CqHolds, Roomy, OpsFit, StatusHolds, StatusWord, Bump;
    var t := Publish(s, j, code, dw0);
    JobFacts(s.jobs, s.h, j);
    PublishShape(s, j, code, dw0);
    PublishJobs(s.jobs, s.h, j, code);
    assert StatusHolds(t.h, FetchCount(t)) by { PublishStatus(s.jobs, s.h, j, code); }
    assert OpsFit(t.h, |t.ram|, |t.disk|) by { SameOps(s.h, t.h, |s.ram|, |s.disk|); }
  }

  lemma PublishStatus(jobs: seq<Job>, h: History, j: nat, code: nat)
    requires StatusHolds(h, |h.posts| + |jobs|) && j < |jobs| && JobHolds(jobs[j], |h.posts| + |jobs|, h)
    requires jobs[j].ran && (code == 0 <==> jobs[j].ok)
    ensures StatusHolds(h.(posts := h.posts + [Post(jobs[j].req, code)]), |h.posts| + |jobs|)
  {
  }

  lemma RunsReap(s: Sys)
    requires Runs(s) && CanReap(s)
    ensures DeviceStep(s, ActReap) && s.h.reaped < |s.h.posts| && CopyInside(s.slots, |s.ram|) && Runs(Reap(s))
    ensures var e, k := s.cq[s.head], s.h.posts[s.h.reaped].req;
            && k < |s.h.reqs| && k in s.h.live && k in s.h.outcomes && e.commandId == s.h.reqs[k].op.cid
            && (e.IsSuccess() <==> s.h.outcomes[k].ok)
    ensures |s.h.posts| <= |s.h.reqs|
  {
    hide StagesHold, SqHolds, CqHolds, Roomy, OpsFit, FindSlot, CopyInside, CopyOut, Bump;
    RunsRoom(s);
    var t, k := Reap(s), s.h.posts[s.h.reaped].req;
    ReapJobs(s.jobs, s.h);
    ReapShape(s);
    ReapRoomy(s.slots, |s.ram|, FindSlot(s.slots, s.cq[s.head].commandId), s.cq[s.head].IsSuccess());
    assert OpsFit(t.h, |t.ram|, |t.disk|) by { SameOps(s.h, t.h, |s.ram|, |s.disk|); }
  }

  lemma RunsRelease(s: Sys, i: nat)
    requires Runs(s) && i < |s.slots|
    ensures Runs(Release(s, i))
  {
    hide StagesHold, SqHolds, StatusHolds, OpsFit, EntriesHold, PhaseOf;
    forall w | 0 <= w < QUEUE_DEPTH && w != i && s.slots[w].dst != 0
      ensures DstOwn(Release(s, i).slots, s.slots[w].dst, s.slots[w].len, |s.ram|)
    {
      assert DstOwn(s.slots, s.slots[w].dst, s.slots[w].len, |s.ram|);
    }
  }

  // ------------------------------------------------------------ over a stretch

  /** What the controller and the reap loop leave alone. */
  ghost predicate Ridden(s: Sys, t: Sys) {
    && |t.slots| == |s.slots|
    && (forall w :: 0 <= w < |s.slots| ==> t.slots[w] == s.slots[w].(state := t.slots[w].state))
    && t.nextCid == s.nextCid && t.h.reqs == s.h.reqs && t.h.owner == s.h.owner && t.h.reserved == s.h.reserved
    && t.h.live <= s.h.live && t.h.strays <= s.h.strays && s.h.reaped <= t.h.reaped
  }

  lemma RiddenStep(s: Sys, a: Action)
    requires DeviceStep(s, a)
    ensures Ridden(s, DeviceDo(s, a))
  {
    hide CanFetch, CanPost, CanReap, CopyInside, FindSlot, CopyOut, Bump, StatusWord, Moved, PrpInside, Scatter, Blit,
         Interpret;
  }

  lemma {:induction false} RiddenAlong(s: Sys, acts: seq<Action>, t: Sys)
    requires DeviceRun(s, acts, t)
    ensures Ridden(s, t)
    decreases |acts|
  {
    hide DeviceStep, DeviceDo;
    if acts != [] {
      RiddenStep(s, acts[0]);
      RiddenAlong(DeviceDo(s, acts[0]), acts[1..], t);
    }
  }

  /** A slot is found by its identifier alone. */
  lemma SameFound(slots: seq<IoSlot>, t: seq<IoSlot>, id: u64)
    requires |slots| == |t| && forall w :: 0 <= w < |slots| ==> t[w].id == slots[w].id
    ensures FindSlot(t, id) == FindSlot(slots, id)
  {
  }

  // ------------------------------------------------------------ a flush behind a request

  /** A command under identifier 0 that no slot has is a flush: this one, or an earlier one. */
  lemma FlushOnly(s: Sys, sqe: Words, t: Sys, k: nat)
    requires Inv(s) && Interpret(Decode(sqe)) == FLUSH_OP && s.tail < |s.sq|
    requires |s.slots| == QUEUE_DEPTH && FindSlot(s.slots, 0) == QUEUE_DEPTH
    requires Ridden(Submit(s, sqe, [], true), t)
    requires k in t.h.live && k < |t.h.reqs| && t.h.reqs[k].op.cid == 0
    ensures k == |s.h.reqs| || k in s.h.strays
  {
    hide OutcomesHold, IdsHold, LayoutHolds, DataHolds, LogHolds, SqHolds, EntriesHold, ReapedHold, StagesHold,
         Interpret, FindSlot;
    if k != |s.h.reqs| {
      Uncredited(s.slots, s.h, k);
    }
  }
}
