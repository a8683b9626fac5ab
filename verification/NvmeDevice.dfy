/** The queue pair without its callers' discipline: what the controller and the reaping driver
    do from a state in which only the bookkeeping holds.  Identifiers may collide here, and
    destinations may overlap. */
module NvmeDevice {
  import opened Machine
  import opened NvmeProtocol
  import opened NvmeRing
  import opened NvmeModel
  import opened NvmeSteps
  import opened NvmeRuns

  // ------------------------------------------------------------ continuations

  /** The conditions here are the code's own and the controller's own. */
  ghost predicate DeviceStep(s: Sys, a: Action) {
    match a
    case ActFetch => CanFetch(s)
    case ActRun(j, ok, junk) => CanRun(s, j, junk)
    case ActPublish(j, code, dw0) => CanPost(s, j, code)
    case ActReap => CanReap(s) && s.h.reaped < |s.h.posts| && CopyInside(s.slots, |s.ram|)
    case _ => false
  }

  ghost function DeviceDo(s: Sys, a: Action): Sys
    requires DeviceStep(s, a)
  {
    match a
    case ActFetch => Fetch(s)
    case ActRun(j, ok, junk) => Run(s, j, ok, junk)
    case ActPublish(j, code, dw0) => Publish(s, j, code, dw0)
    case ActReap => Reap(s)
  }

  /** The controller and the reaping driver can lead from `s` to `t`. */
  ghost predicate DeviceRun(s: Sys, acts: seq<Action>, t: Sys)
    decreases |acts|
  {
    if acts == [] then s == t else DeviceStep(s, acts[0]) && DeviceRun(DeviceDo(s, acts[0]), acts[1..], t)
  }

  lemma {:induction false} DeviceJoin(s: Sys, a: seq<Action>, t: Sys, b: seq<Action>, u: Sys)
    requires DeviceRun(s, a, t) && DeviceRun(t, b, u)
    ensures DeviceRun(s, a + b, u)
    decreases |a|
  {
    hide DeviceStep, DeviceDo;
    if a == [] {
      assert a + b == b;
    } else {
      DeviceJoin(DeviceDo(s, a[0]), a[1..], t, b, u);
      assert (a + b)[1..] == a[1..] + b;
    }
  }

  lemma DeviceOne(s: Sys, acts: seq<Action>, t: Sys, a: Action)
    requires DeviceRun(s, acts, t) && DeviceStep(t, a)
    ensures DeviceRun(s, acts + [a], DeviceDo(t, a))
  {
    hide DeviceStep, DeviceDo;
    assert [a][1..] == [];
    assert DeviceRun(DeviceDo(t, a), [], DeviceDo(t, a));
    assert DeviceRun(t, [a], DeviceDo(t, a));
    DeviceJoin(s, acts, t, [a], DeviceDo(t, a));
  }

  /** From a state of the invariant these are steps every caller allows. */
  lemma DeviceEnabled(s: Sys, a: Action)
    requires Inv(s) && DeviceStep(s, a)
    ensures Enabled(s, a) && DeviceDo(s, a) == Do(s, a)
  {
    hide Inv, CanFetch, CanPost, CanReap, CopyInside, Reap, Run, Fetch, Publish;
  }

  lemma {:induction false} DeviceIsPath(s: Sys, acts: seq<Action>, t: Sys)
    requires Inv(s) && DeviceRun(s, acts, t)
    ensures Path(s, acts, t) && Inv(t)
    decreases |acts|
  {
    hide Inv, Enabled, Do, DeviceStep, DeviceDo;
    if acts != [] {
      DeviceEnabled(s, acts[0]);
      DeviceIsPath(DeviceDo(s, acts[0]), acts[1..], t);
    }
  }

  // ------------------------------------------------------------ the bookkeeping

  /** Buffers inside memory and off the bounce buffers; destinations may overlap each other. */
  ghost predicate Roomy(slots: seq<IoSlot>, size: nat) {
    && |slots| == QUEUE_DEPTH
    && (forall i :: 0 <= i < QUEUE_DEPTH ==>
          slots[i].bounce % NVME_PAGE_SIZE == 0 && slots[i].bounce + RUN_BYTES <= size)
    && Apart(slots[0].bounce, RUN_BYTES, slots[1].bounce, RUN_BYTES)
    && (forall i :: 0 <= i < QUEUE_DEPTH && slots[i].dst != 0 ==> DstOwn(slots, slots[i].dst, slots[i].len, size))
  }

  /** A destination of some caller's own: inside memory and off the driver's buffers. */
  ghost predicate DstOwn(slots: seq<IoSlot>, dst: nat, len: nat, size: nat)
    requires |slots| == QUEUE_DEPTH
  {
    && len <= RUN_BYTES && dst + len <= size
    && Apart(dst, len, slots[0].bounce, RUN_BYTES) && Apart(dst, len, slots[1].bounce, RUN_BYTES)
  }

  /** What holds whatever identifiers and destinations the callers picked. */
  ghost predicate Loose(s: Sys) {
    && Shape(s) && |s.h.strays| <= 2
    && SqHolds(s.tail, s.sqDb, s.devHead, s.sq, FetchCount(s), s.h.reqs)
    && CqHolds(s)
    && StagesHold(s.jobs, s.h) && OutcomesHold(s.h, FetchCount(s)) && ReapedHold(s.h)
    && SlotsHold(s.slots, s.h)
    && Roomy(s.slots, |s.ram|)
  }

  lemma InvLoose(s: Sys)
    requires Inv(s)
    ensures Loose(s) && |s.h.strays| <= 1
  {
    hide StagesHold, OutcomesHold, SlotsHold, IdsHold, DataHolds, LogHolds, SqHolds, EntriesHold, ReapedHold;
    OneStray(s.nextCid, s.slots, s.h);
    assert forall i :: 0 <= i < QUEUE_DEPTH && s.slots[i].dst != 0 ==>
        DstClear(s.slots, i, s.slots[i].dst, s.slots[i].len, |s.ram|);
  }

  /** The rings have room for everything that can be out. */
  lemma LooseRoom(s: Sys)
    requires Loose(s)
    ensures |s.h.reqs| - s.h.reaped <= 4
    ensures s.head < |s.cq| && (CanReap(s) <==> s.h.reaped < |s.h.posts|)
    ensures CanReap(s) ==> Carries(s.cq[s.head], s.h.posts[s.h.reaped], s.h.reqs)
    ensures CopyInside(s.slots, |s.ram|)
  {
    hide StagesHold, OutcomesHold, SlotsHold, SqHolds, CqHolds, ReapedHold;
    Outstanding(s);
    TagExact(s);
  }

  lemma FetchLoose(s: Sys)
    requires Loose(s) && CanFetch(s)
    ensures Loose(Fetch(s)) && FetchCount(s) < |s.h.reqs|
    ensures Fetch(s).jobs == s.jobs + [Job(FetchCount(s), s.h.reqs[FetchCount(s)].op, false, false)]
  {
    hide StagesHold, OutcomesHold, SlotsHold, SqHolds, EntriesHold, ReapedHold, Interpret, PhaseOf, Roomy;
    FetchedEntry(s.tail, s.sqDb, s.devHead, s.sq, FetchCount(s), s.h.reqs);
    NotRunYet(s.h, FetchCount(s));
    FetchStages(s.jobs, s.h);
    assert FetchCount(Fetch(s)) == FetchCount(s) + 1;
  }

  /** A command that writes nothing to the medium can be run, and keeps the bookkeeping. */
  lemma RunLoose(s: Sys, j: nat, ok: bool, junk: seq<u8>)
    requires Loose(s) && CanRun(s, j, junk) && s.jobs[j].op.kind != Write
    ensures Loose(Run(s, j, ok, junk))
  {
    hide StagesHold, OutcomesHold, SlotsHold, SqHolds, EntriesHold, ReapedHold, Blit, Gather, Scatter, PrpInside,
         PhaseOf, Roomy;
    var t, k := Run(s, j, ok, junk), s.jobs[j].req;
    var o := Outcome(ok, Moved(s, s.jobs[j].op, ok, junk));
    JobFacts(s.jobs, s.h, j);
    RunShape(s, j, ok, junk);
    RunStages(s.jobs, s.h, j, o);
    RunOutcomes(s.h, FetchCount(s), k, o);
    RunSlots(s.slots, s.h, k, o);
    SameReaped(s.h, t.h);
  }

  lemma PublishLoose(s: Sys, j: nat, code: nat, dw0: u32)
    requires Loose(s) && CanPost(s, j, code)
    ensures Loose(Publish(s, j, code, dw0))
  {
    hide StagesHold, OutcomesHold, SlotsHold, SqHolds, EntriesHold, ReapedHold, PhaseOf, StatusWord, Bump, Roomy;
    var t := Publish(s, j, code, dw0);
    JobFacts(s.jobs, s.h, j);
    PublishShape(s, j, code, dw0);
    PublishStages(s.jobs, s.h, j, code);
    SameSlots(s.slots, s.h, t.h);
    SameReaped(s.h, t.h);
  }

  // ------------------------------------------------------------ credit

  /** The completion at the head goes to the request that caused it: the slot it is recorded on
      holds that request, and one no slot takes is that of the flush whose caller waits, which
      is the newest. */
  ghost predicate CreditsOwn(s: Sys) {
    && s.head < |s.cq| && s.h.reaped < |s.h.posts| && |s.slots| == |s.h.owner|
    && var k, i := s.h.posts[s.h.reaped].req, FindSlot(s.slots, s.cq[s.head].commandId);
       if i < |s.slots| then s.slots[i].Waiting() && s.h.owner[i] == k
       else forall g :: g in s.h.strays ==> g <= k
  }

  /** A completion no slot takes is a flush's. */
  lemma Uncredited(slots: seq<IoSlot>, h: History, k: nat)
    requires |slots| == |h.owner| == QUEUE_DEPTH && SlotsHold(slots, h) && k in h.live && k < |h.reqs|
    requires FindSlot(slots, h.reqs[k].op.cid) == QUEUE_DEPTH
    ensures k in h.strays
  {
    assert SlotHolds(slots[0], h.owner[0], h) && SlotHolds(slots[1], h.owner[1], h);
    assert forall w :: 0 <= w < QUEUE_DEPTH && slots[w].Waiting() ==> h.owner[w] != k;
  }

  lemma ReapLoose(s: Sys)
    requires Loose(s) && DeviceStep(s, ActReap) && CreditsOwn(s)
    ensures Loose(Reap(s))
    ensures var k := s.h.posts[s.h.reaped].req; k in s.h.live && k in s.h.outcomes && k < |s.h.reqs|
    ensures s.cq[s.head].IsSuccess() <==> s.h.outcomes[s.h.posts[s.h.reaped].req].ok
  {
    hide StagesHold, OutcomesHold, SlotsHold, SqHolds, EntriesHold, ReapedHold, CopyInside, CopyOut, PhaseOf, Bump,
         FindSlot, Roomy;
    LooseRoom(s);
    var t, k := Reap(s), s.h.posts[s.h.reaped].req;
    var i := FindSlot(s.slots, s.cq[s.head].commandId);
    PostFacts(s.jobs, s.h, s.h.reaped);
    if i == QUEUE_DEPTH {
      Uncredited(s.slots, s.h, k);
    }
    ReapStages(s.jobs, s.h);
    ReapSlots(s.slots, s.h, k, i);
    ReapShape(s);
    SameReaped(s.h, t.h);
    ReapRoomy(s.slots, |s.ram|, i, s.cq[s.head].IsSuccess());
    Subset(t.h.strays, s.h.strays);
  }

  lemma ReapRoomy(slots: seq<IoSlot>, size: nat, i: nat, ok: bool)
    requires Roomy(slots, size)
    ensures Roomy(Credited(slots, i, ok), size)
  {
    var t := Credited(slots, i, ok);
    forall w | 0 <= w < QUEUE_DEPTH && t[w].dst != 0
      ensures DstOwn(t, t[w].dst, t[w].len, size)
    {
      assert DstOwn(slots, slots[w].dst, slots[w].len, size);
    }
  }

  // ------------------------------------------------------------ where a command is

  ghost function JobReqs(jobs: seq<Job>): set<nat> {
    set j | 0 <= j < |jobs| :: jobs[j].req
  }

  /** The commands posted from the `p`-th completion on. */
  ghost function PostsFrom(h: History, p: nat): set<nat> {
    set q | p <= q < |h.posts| :: h.posts[q].req
  }

  lemma {:induction false} JobCount(jobs: seq<Job>)
    requires forall i, j :: 0 <= i < j < |jobs| ==> jobs[i].req != jobs[j].req
    ensures |JobReqs(jobs)| == |jobs|
  {
    if jobs != [] {
      var n := |jobs| - 1;
      JobCount(jobs[..n]);
      assert JobReqs(jobs) == JobReqs(jobs[..n]) + {jobs[n].req};
    }
  }

  lemma {:induction false} PostCount(h: History, p: nat)
    requires p <= |h.posts|
    requires forall a, b :: 0 <= a < b < |h.posts| ==> h.posts[a].req != h.posts[b].req
    ensures |PostsFrom(h, p)| == |h.posts| - p
    decreases |h.posts| - p
  {
    if p < |h.posts| {
      PostCount(h, p + 1);
      assert PostsFrom(h, p) == PostsFrom(h, p + 1) + {h.posts[p].req};
    } else {
      assert PostsFrom(h, p) == {};
    }
  }

  /** With every submission fetched, a live command is with the controller or posted and not
      yet consumed. */
  lemma Located(s: Sys, k: nat)
    requires Shape(s) && StagesHold(s.jobs, s.h) && FetchCount(s) == |s.h.reqs| && k in s.h.live
    ensures k in JobReqs(s.jobs) || k in PostsFrom(s.h, s.h.reaped)
  {
    hide StagesHold, JobReqs, PostsFrom;
    Held(s.jobs, s.h);
    var jobs, posted := JobReqs(s.jobs), PostsFrom(s.h, s.h.reaped);
    assert |jobs + posted| == |s.h.live|;
    SameSize(jobs + posted, s.h.live);
  }

  /** Commands with the controller and commands posted are live, distinct, and counted. */
  lemma Held(jobs: seq<Job>, h: History)
    requires StagesHold(jobs, h) && h.reaped <= |h.posts|
    ensures |JobReqs(jobs)| == |jobs| && |PostsFrom(h, h.reaped)| == |h.posts| - h.reaped
    ensures JobReqs(jobs) !! PostsFrom(h, h.reaped)
    ensures JobReqs(jobs) + PostsFrom(h, h.reaped) <= h.live
  {
    hide JobHolds;
    JobCount(jobs);
    PostCount(h, h.reaped);
    forall j | 0 <= j < |jobs|
      ensures jobs[j].req in h.live
    {
      JobFacts(jobs, h, j);
      assert jobs[j].req in h.live by { JobLive(jobs[j], |h.posts| + |jobs|, h); }
    }
  }

  lemma JobLive(job: Job, fetched: nat, h: History)
    requires JobHolds(job, fetched, h)
    ensures job.req in h.live
  {
  }

  lemma SameSize(a: set<nat>, b: set<nat>)
    requires a <= b && |a| == |b|
    ensures a == b
  {
    assert b == a + (b - a);
  }

  // ------------------------------------------------------------ bringing a command home

  /** What the controller's own steps leave alone. */
  ghost predicate SameBooks(s: Sys, t: Sys) {
    && t.slots == s.slots && |t.ram| == |s.ram| && t.disk == s.disk
    && t.h.reqs == s.h.reqs && t.h.owner == s.h.owner && t.h.bookedAt == s.h.bookedAt && t.h.reserved == s.h.reserved
    && t.h.live == s.h.live && t.h.strays == s.h.strays && t.h.reaped == s.h.reaped && s.h.posts <= t.h.posts
    && t.nextCid == s.nextCid
  }

  /** The controller fetches everything submitted. */
  lemma {:induction false} FetchAll(s: Sys) returns (acts: seq<Action>, t: Sys)
    requires Loose(s)
    ensures DeviceRun(s, acts, t) && Loose(t) && FetchCount(t) == |t.h.reqs|
    ensures SameBooks(s, t) && t.ram == s.ram && t.h == s.h
    decreases |s.h.reqs| - FetchCount(s)
  {
    hide StagesHold, OutcomesHold, SlotsHold, EntriesHold, ReapedHold, Interpret, PhaseOf, Roomy, Fetch;
    if CanFetch(s) {
      FetchLoose(s);
      FetchFields(s);
      acts, t := FetchAll(Fetch(s));
      DeviceFirst(s, ActFetch, acts, t);
      acts := [ActFetch] + acts;
    } else {
      acts, t := [], s;
      LooseRoom(s);
      AllFetched(s.tail, s.sqDb, s.devHead, s.sq, FetchCount(s), s.h.reqs);
    }
  }

  lemma FetchFields(s: Sys)
    requires CanFetch(s)
    ensures SameBooks(s, Fetch(s)) && Fetch(s).ram == s.ram && Fetch(s).h == s.h
    ensures FetchCount(Fetch(s)) == FetchCount(s) + 1
  {
  }

  lemma AllFetched(tail: nat, sqDb: nat, devHead: nat, sq: seq<Words>, n: nat, reqs: seq<Request>)
    requires |sq| == QUEUE_ENTRIES && SqHolds(tail, sqDb, devHead, sq, n, reqs) && n <= |reqs| < n + QUEUE_ENTRIES
    requires !(devHead < |sq| && devHead != sqDb)
    ensures n == |reqs|
  {
    if n < |reqs| {
      SlotsApart(n, |reqs|);
    }
  }

  lemma DeviceFirst(s: Sys, a: Action, acts: seq<Action>, t: Sys)
    requires DeviceStep(s, a) && DeviceRun(DeviceDo(s, a), acts, t)
    ensures DeviceRun(s, [a] + acts, t)
  {
    hide DeviceStep, DeviceDo;
    assert ([a] + acts)[1..] == acts;
  }

  /** `t` is `s` after command `k`, which writes nothing, ran well. */
  ghost predicate RanWell(s: Sys, t: Sys, k: nat) {
    && k < |s.h.reqs| && k in t.h.outcomes
    && t.h.posts == s.h.posts && JobReqs(t.jobs) == JobReqs(s.jobs) && FetchCount(t) == FetchCount(s)
    && var op, o := s.h.reqs[k].op, t.h.outcomes[k];
       && op.lo + op.size <= |s.disk|
       && t.h.outcomes == s.h.outcomes[k := o] && o.ok && |o.data| == op.size
       && (op.kind == Read ==>
             && o.data == s.disk[op.lo..op.lo + op.size]
             && PrpInside(op.prp1, op.prp2, op.size, |s.ram|)
             && t.ram == Scatter(s.ram, op.prp1, op.prp2, o.data))
       && (op.kind == Other ==> t.ram == s.ram)
  }

  lemma RunFields(s: Sys, j: nat, junk: seq<u8>)
    requires CanRun(s, j, junk) && s.jobs[j].req < |s.h.reqs| && s.jobs[j].op == s.h.reqs[s.jobs[j].req].op
    requires s.jobs[j].op.kind != Write
    ensures var t := Run(s, j, true, junk); SameBooks(s, t) && RanWell(s, t, s.jobs[j].req)
  {
    hide Gather, Scatter, Blit, PrpInside;
    var t := Run(s, j, true, junk);
    assert forall q :: 0 <= q < |s.jobs| ==> t.jobs[q].req == s.jobs[q].req;
    assert JobReqs(t.jobs) == JobReqs(s.jobs);
  }

  /** A fetched command that writes nothing is run. */
  lemma RunIt(s: Sys, k: nat) returns (acts: seq<Action>, t: Sys)
    requires Loose(s) && k in JobReqs(s.jobs) && k < |s.h.reqs| && s.h.reqs[k].op.kind != Write && k !in s.h.outcomes
    ensures DeviceRun(s, acts, t) && Loose(t) && SameBooks(s, t) && RanWell(s, t, k)
  {
    hide StagesHold, Shape, OutcomesHold, SlotsHold, SqHolds, EntriesHold, ReapedHold, PhaseOf, CqHolds, Roomy, Run,
         CanRun, SameBooks, RanWell;
    var j :| 0 <= j < |s.jobs| && s.jobs[j].req == k;
    JobFacts(s.jobs, s.h, j);
    var junk := Zeros(s.jobs[j].op.size);
    Runnable(s, j, junk);
    RunLoose(s, j, true, junk);
    RunFields(s, j, junk);
    acts, t := [ActRun(j, true, junk)], Run(s, j, true, junk);
    DeviceFirst(s, ActRun(j, true, junk), [], t);
  }

  lemma Runnable(s: Sys, j: nat, junk: seq<u8>)
    requires Loose(s) && j < |s.jobs| && !s.jobs[j].ran && |junk| == s.jobs[j].op.size
    ensures CanRun(s, j, junk)
  {
    hide OutcomesHold, SqHolds, EntriesHold, ReapedHold, CqHolds;
    var k := s.jobs[j].req;
    assert JobHolds(s.jobs[j], FetchCount(s), s.h);
    LiveInside(s.h, FetchCount(s), k);
    if s.h.reqs[k].op.kind != Other {
      var i := HolderOf(s.slots, s.h, k);
      RunTransfer(s.ram, s.slots[i].bounce, junk);
    }
  }

  lemma LiveInside(h: History, fetched: nat, k: nat)
    requires OutcomesHold(h, fetched) && k in h.live && k < |h.reqs|
    ensures h.reqs[k].op.lo + h.reqs[k].op.size <= |h.disk0|
  {
  }

  /** A command that ran is answered. */
  lemma PublishIt(s: Sys, k: nat) returns (acts: seq<Action>, t: Sys)
    requires Loose(s) && k in JobReqs(s.jobs) && k in s.h.outcomes
    ensures DeviceRun(s, acts, t) && Loose(t) && SameBooks(s, t)
    ensures t.ram == s.ram && t.h.outcomes == s.h.outcomes && FetchCount(t) == FetchCount(s)
    ensures JobReqs(t.jobs) == JobReqs(s.jobs) - {k}
    ensures t.h.posts == s.h.posts + [Post(k, if s.h.outcomes[k].ok then 0 else 1)]
  {
    hide OutcomesHold, SlotsHold, SqHolds, EntriesHold, ReapedHold, PhaseOf, Roomy, StatusWord;
    var j :| 0 <= j < |s.jobs| && s.jobs[j].req == k;
    assert JobHolds(s.jobs[j], FetchCount(s), s.h);
    var code := if s.h.outcomes[k].ok then 0 else 1;
    LooseRoom(s);
    PostRoom(s);
    PublishLoose(s, j, code, 0);
    acts, t := [ActPublish(j, code, 0)], Publish(s, j, code, 0);
    DeviceFirst(s, ActPublish(j, code, 0), [], t);
    OneJobLess(s.jobs, j);
  }

  lemma PostRoom(s: Sys)
    requires Shape(s) && CqHolds(s) && |s.h.reqs| - s.h.reaped <= 4
    ensures s.devTail < |s.cq| && Bump(s.devTail) != s.cqDb
  {
    hide EntriesHold, PhaseOf;
    RingStep(|s.h.posts|);
    SlotsApart(s.h.reaped, |s.h.posts| + 1);
  }

  lemma OneJobLess(jobs: seq<Job>, j: nat)
    requires j < |jobs| && forall a, b :: 0 <= a < b < |jobs| ==> jobs[a].req != jobs[b].req
    ensures JobReqs(jobs[..j] + jobs[j + 1..]) == JobReqs(jobs) - {jobs[j].req}
  {
    var t := jobs[..j] + jobs[j + 1..];
    forall r | r in JobReqs(jobs) - {jobs[j].req}
      ensures r in JobReqs(t)
    {
      var q :| 0 <= q < |jobs| && jobs[q].req == r;
      assert t[if q < j then q else q - 1] == jobs[q];
    }
  }
}
