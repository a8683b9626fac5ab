/** Whose completion it is.  A completion names its request by a sixteen-bit identifier, which
    a flush always sends as 0 and a reservation takes from a wrapping counter.  This module
    says exactly when that is enough. */
module NvmeCredit {
  import opened Machine
  import opened NvmeProtocol
  import opened NvmeRing
  import opened NvmeModel
  import opened NvmeSteps
  import opened NvmeRuns
  import opened NvmeRequests
  import opened NvmeDevice

  /** Every booked slot is the one its ticket finds. */
  ghost predicate TicketsOwn(s: Sys) {
    forall w :: 0 <= w < |s.slots| && s.slots[w].Booked() ==> FindSlot(s.slots, s.slots[w].id) == w
  }

  /** Here completions are credited to the requests that caused them, and tickets answer for the
      requests they were given for. */
  ghost predicate Faithful(s: Sys) {
    (DeviceStep(s, ActReap) ==> CreditsOwn(s)) && TicketsOwn(s)
  }

  lemma InvFaithful(s: Sys)
    requires Inv(s)
    ensures Faithful(s)
  {
    hide StagesHold, OutcomesHold, SlotsHold, IdsHold, LayoutHolds, DataHolds, LogHolds, SqHolds, EntriesHold,
         ReapedHold, FindSlot;
    if DeviceStep(s, ActReap) {
      PhaseTag(s);
      PostFacts(s.jobs, s.h, s.h.reaped);
      Credit(s.nextCid, s.slots, s.h, s.h.posts[s.h.reaped].req);
      OneStray(s.nextCid, s.slots, s.h);
    }
    forall w | 0 <= w < |s.slots| && s.slots[w].Booked()
      ensures FindSlot(s.slots, s.slots[w].id) == w
    {
      FindMine(s, w);
    }
  }

  /** With unused identifiers at every submission, every state of every run is faithful. */
  lemma PathFaithful(s: Sys, acts: seq<Action>, t: Sys)
    requires Inv(s) && Path(s, acts, t)
    ensures Faithful(t)
  {
    hide Inv, Path, Faithful;
    PathKeeps(s, acts, t);
    InvFaithful(t);
  }

  lemma DeviceFaithful(s: Sys, acts: seq<Action>, t: Sys)
    requires Inv(s) && DeviceRun(s, acts, t)
    ensures Faithful(t)
  {
    hide Inv, DeviceRun, Faithful;
    DeviceIsPath(s, acts, t);
    InvFaithful(t);
  }

  // ------------------------------------------------------------ reaping up to a completion

  /** What consuming completions leaves alone. */
  ghost predicate SameNames(s: Sys, t: Sys) {
    && |t.slots| == |s.slots| && t.h.owner == s.h.owner && t.h.reqs == s.h.reqs
    && t.h.posts == s.h.posts && t.h.outcomes == s.h.outcomes
    && (forall w :: 0 <= w < |s.slots| ==> t.slots[w] == s.slots[w].(state := t.slots[w].state))
    && (forall m :: m in s.h.strays && m !in PostsFrom(s.h, s.h.reaped) ==> m in t.h.strays)
  }

  lemma ReapNames(s: Sys)
    requires DeviceStep(s, ActReap)
    ensures SameNames(s, Reap(s)) && Reap(s).h.reaped == s.h.reaped + 1 && Reap(s).h.posts == s.h.posts
    ensures PostsFrom(Reap(s).h, s.h.reaped + 1) <= PostsFrom(s.h, s.h.reaped)
    ensures forall k :: k in PostsFrom(s.h, s.h.reaped) && k != s.h.posts[s.h.reaped].req ==>
              k in PostsFrom(Reap(s).h, s.h.reaped + 1)
  {
    hide CanReap, CopyInside, FindSlot, CopyOut;
    var t := Reap(s);
    assert t.h.posts == s.h.posts;
    assert s.h.posts[s.h.reaped].req in PostsFrom(s.h, s.h.reaped);
  }

  lemma SameNamesJoin(s: Sys, t: Sys, u: Sys)
    requires SameNames(s, t) && SameNames(t, u) && PostsFrom(t.h, t.h.reaped) <= PostsFrom(s.h, s.h.reaped)
    ensures SameNames(s, u)
  {
    hide PostsFrom;
  }

  /** Reap up to the completion of `k`, or to the first one that goes to another request. */
  lemma {:induction false} DrainTo(s: Sys, k: nat) returns (acts: seq<Action>, t: Sys)
    requires Loose(s) && k in PostsFrom(s.h, s.h.reaped)
    ensures DeviceRun(s, acts, t) && Loose(t) && DeviceStep(t, ActReap) && SameNames(s, t)
    ensures CreditsOwn(t) ==> t.h.posts[t.h.reaped].req == k
    decreases |s.h.posts| - s.h.reaped
  {
    hide Loose, CreditsOwn, SameNames, Reap, CanReap, CopyInside;
    LooseRoom(s);
    assert s.h.reaped < |s.h.posts|;
    if !CreditsOwn(s) || s.h.posts[s.h.reaped].req == k {
      acts, t := [], s;
      assert SameNames(s, s) by { NamesSame(s); }
    } else {
      ReapLoose(s);
      ReapNames(s);
      acts, t := DrainTo(Reap(s), k);
      SameNamesJoin(s, Reap(s), t);
      DeviceFirst(s, ActReap, acts, t);
      acts := [ActReap] + acts;
    }
  }

  lemma NamesSame(s: Sys)
    ensures SameNames(s, s)
  {
  }

  lemma StrayFacts(s: Sys, k: nat)
    requires Loose(s) && k in s.h.strays
    ensures k in s.h.live && k < |s.h.reqs| && s.h.reqs[k].op == FLUSH_OP
  {
    hide StagesHold, OutcomesHold, SqHolds, CqHolds, ReapedHold, Roomy;
  }

  lemma LooseParts(s: Sys)
    requires Loose(s)
    ensures Shape(s) && StagesHold(s.jobs, s.h)
  {
    hide StagesHold, OutcomesHold, SqHolds, CqHolds, ReapedHold, Roomy, SlotsHold;
  }

  /** A posted command ran. */
  lemma PostedRan(s: Sys, k: nat)
    requires Loose(s) && k in PostsFrom(s.h, s.h.reaped)
    ensures k in s.h.outcomes
  {
    hide StagesHold, SqHolds, CqHolds, ReapedHold, Roomy, SlotsHold, OutcomeHolds;
  }

  /** The controller answers a flush that is out. */
  lemma PostFlush(s: Sys, k: nat) returns (acts: seq<Action>, t: Sys)
    requires Loose(s) && k in s.h.strays
    ensures DeviceRun(s, acts, t) && Loose(t) && SameBooks(s, t)
    ensures k in PostsFrom(t.h, t.h.reaped) && k in t.h.outcomes
    ensures t.h.posts == s.h.posts || t.h.posts == s.h.posts + [Post(k, if t.h.outcomes[k].ok then 0 else 1)]
    ensures forall m :: m in t.h.outcomes && m != k ==> m in s.h.outcomes
    ensures k !in s.h.outcomes ==> t.h.outcomes[k].ok
  {
    hide Loose, RanWell, JobReqs;
    var a1, s1 := FetchAll(s);
    StrayFacts(s1, k);
    LooseParts(s1);
    Located(s1, k);
    if k in PostsFrom(s1.h, s1.h.reaped) {
      PostedRan(s1, k);
      acts, t := a1, s1;
    } else {
      var a2, s2 := RunFlush(s1, k);
      var a3, s3 := PublishIt(s2, k);
      acts, t := a1 + a2 + a3, s3;
      DeviceJoin(s, a1, s1, a2, s2);
      DeviceJoin(s, a1 + a2, s2, a3, s3);
      assert s3.h.posts[|s3.h.posts| - 1].req == k;
      LooseParts(s3);
    }
  }

  /** A fetched flush has run, whether or not it had before. */
  lemma RunFlush(s: Sys, k: nat) returns (acts: seq<Action>, t: Sys)
    requires Loose(s) && k in JobReqs(s.jobs) && k < |s.h.reqs| && s.h.reqs[k].op == FLUSH_OP
    ensures DeviceRun(s, acts, t) && Loose(t) && SameBooks(s, t) && t.h.posts == s.h.posts
    ensures k in t.h.outcomes && k in JobReqs(t.jobs)
    ensures forall m :: m in t.h.outcomes && m != k ==> m in s.h.outcomes
    ensures k !in s.h.outcomes ==> t.h.outcomes[k].ok
  {
    hide Loose, JobReqs;
    if k in s.h.outcomes {
      acts, t := [], s;
    } else {
      acts, t := RunIt(s, k);
    }
  }

  /** From any bookkeeping state the controller can answer a flush that is out, and the driver
      can come to its completion, or to one that goes wrong before it. */
  lemma AnswerFlush(s: Sys, k: nat) returns (acts: seq<Action>, t: Sys)
    requires Loose(s) && k in s.h.strays
    ensures DeviceRun(s, acts, t) && Loose(t) && DeviceStep(t, ActReap)
    ensures CreditsOwn(t) ==> t.h.posts[t.h.reaped].req == k
    ensures |t.slots| == |s.slots| && t.h.owner == s.h.owner && t.h.reqs == s.h.reqs
    ensures forall w :: 0 <= w < |s.slots| ==> t.slots[w] == s.slots[w].(state := t.slots[w].state)
    ensures forall m :: m in s.h.strays && m != k && m !in PostsFrom(s.h, 0) ==> m in t.h.strays
  {
    hide Loose, CreditsOwn, DeviceStep;
    var a1, s1 := PostFlush(s, k);
    var a2, s2 := DrainTo(s1, k);
    acts, t := a1 + a2, s2;
    DeviceJoin(s, a1, s1, a2, s2);
    assert PostsFrom(s1.h, s1.h.reaped) <= PostsFrom(s.h, 0) + {k};
  }

  // ------------------------------------------------------------ flushes

  lemma FlushLoose(s: Sys, sqe: Words)
    requires Inv(s) && Interpret(Decode(sqe)) == FLUSH_OP
    ensures s.tail < |s.sq| && Loose(Submit(s, sqe, [], true))
    ensures |s.h.reqs| !in PostsFrom(s.h, 0)
  {
    hide StagesHold, OutcomesHold, SlotsHold, IdsHold, LayoutHolds, DataHolds, LogHolds, SqHolds, EntriesHold,
         ReapedHold, Interpret, PhaseOf, Bump, Roomy;
    TailInside(s);
    InvLoose(s);
    var t, r := Submit(s, sqe, [], true), Request(FLUSH_OP, []);
    Occupancy(s);
    SendRing(s.tail, s.sqDb, s.devHead, s.sq, FetchCount(s), s.h.reqs, sqe, r);
    SendStages(s.jobs, s.h, r, true);
    OutcomeFacts(s.h, FetchCount(s));
    LiveFacts(s.jobs, s.h);
    FlushSlotsOnly(s.slots, s.ram, s.h);
    SameReaped(s.h, t.h);
    FlushShape(s, sqe);
    assert t.h.strays == s.h.strays + {|s.h.reqs|};
    forall p | 0 <= p < |s.h.posts|
      ensures s.h.posts[p].req != |s.h.reqs|
    {
      PostFacts(s.jobs, s.h, p);
    }
  }

  lemma FlushSlotsOnly(slots: seq<IoSlot>, ram: seq<u8>, h: History)
    requires |slots| == |h.owner| == QUEUE_DEPTH && SlotsHold(slots, h) && DataHolds(slots, ram, h)
    requires (forall k :: k in h.live ==> k < |h.reqs|) && (forall k :: k in h.outcomes ==> k < |h.reqs|)
    ensures SlotsHold(slots, Sent(h, Request(FLUSH_OP, []), true))
  {
    var g := Sent(h, Request(FLUSH_OP, []), true);
    forall i | 0 <= i < QUEUE_DEPTH
      ensures SlotHolds(slots[i], g.owner[i], g)
    {
      SendSlots(slots, ram, h, g, i);
    }
  }

  /** A completion whose identifier another request's slot has is not credited to its own. */
  lemma CreditedElsewhere(t: Sys, k: nat)
    requires Loose(t) && DeviceStep(t, ActReap) && t.h.posts[t.h.reaped].req == k && k < |t.h.reqs|
    requires exists w :: 0 <= w < |t.slots| && t.slots[w].id == t.h.reqs[k].op.cid
    requires |t.slots| == |t.h.owner|
    requires forall w :: 0 <= w < |t.slots| && t.slots[w].id == t.h.reqs[k].op.cid ==> t.h.owner[w] != k
    ensures !CreditsOwn(t)
  {
    hide Loose;
    LooseRoom(t);
  }

  /** An unslotted completion is taken for the newest flush's. */
  lemma TakenForNewest(t: Sys, k: nat, f: nat)
    requires Loose(t) && DeviceStep(t, ActReap) && t.h.posts[t.h.reaped].req == k < f && k < |t.h.reqs|
    requires f in t.h.strays
    requires forall w :: 0 <= w < |t.slots| ==> t.slots[w].id != t.h.reqs[k].op.cid
    ensures !CreditsOwn(t)
  {
    hide Loose;
    LooseRoom(t);
  }

  lemma OwnersOlder(s: Sys)
    requires Inv(s)
    ensures |s.slots| == |s.h.owner| == QUEUE_DEPTH
    ensures forall w :: 0 <= w < |s.slots| && s.slots[w].Booked() ==> s.h.owner[w] < |s.h.reqs|
  {
    hide StagesHold, OutcomesHold, IdsHold, LayoutHolds, DataHolds, LogHolds, SqHolds, EntriesHold, ReapedHold;
    assert forall w :: 0 <= w < QUEUE_DEPTH ==> SlotHolds(s.slots[w], s.h.owner[w], s.h);
  }

  /** An identifier in use that no slot has is an earlier flush's. */
  lemma InUseByFlush(s: Sys, id: nat) returns (g: nat)
    requires Inv(s) && !IdFree(s.slots, s.h, id) && forall w :: 0 <= w < |s.slots| ==> s.slots[w].id != id
    ensures g in s.h.strays && g < |s.h.reqs| && s.h.reqs[g].op == FLUSH_OP && id == 0
  {
    hide OutcomesHold, IdsHold, LayoutHolds, DataHolds, LogHolds, SqHolds, EntriesHold, ReapedHold, StagesHold;
    g :| g in s.h.live && g < |s.h.reqs| && s.h.reqs[g].op.cid == id;
    Uncredited(s.slots, s.h, g);
  }

  /** With identifier 0 in use, a flush leads to a completion credited to another request: to
      the slot that has the identifier, or of an earlier flush to the caller of this one. */
  lemma FlushMiscredits(s: Sys, sqe: Words) returns (acts: seq<Action>, t: Sys)
    requires Inv(s) && Interpret(Decode(sqe)) == FLUSH_OP && !IdFree(s.slots, s.h, 0)
    ensures s.tail < |s.sq| && DeviceRun(Submit(s, sqe, [], true), acts, t) && !Faithful(t)
  {
    hide Inv, Loose, Interpret, DeviceRun, IdFree, CreditsOwn, DeviceStep;
    FlushLoose(s, sqe);
    OwnersOlder(s);
    var f, start := |s.h.reqs|, Submit(s, sqe, [], true);
    if w :| 0 <= w < |s.slots| && s.slots[w].id == 0 {
      acts, t := AnswerFlush(start, f);
      assert t.slots[w].id == 0;
      if CreditsOwn(t) {
        CreditedElsewhere(t, f);
      }
    } else {
      var g := InUseByFlush(s, 0);
      acts, t := AnswerFlush(start, g);
      assert f in start.h.strays && f in t.h.strays;
      if CreditsOwn(t) {
        TakenForNewest(t, g, f);
      }
    }
  }

  /** A flush leaves every completion with its own request, in every continuation, if and only
      if nothing out has its identifier. */
  lemma FlushExact(s: Sys, sqe: Words)
    requires Inv(s) && Interpret(Decode(sqe)) == FLUSH_OP
    ensures s.tail < |s.sq|
    ensures IdFree(s.slots, s.h, 0)
       <==> forall acts: seq<Action>, t: Sys :: DeviceRun(Submit(s, sqe, [], true), acts, t) ==> Faithful(t)
  {
    hide Inv, Interpret, DeviceRun, IdFree, Faithful, Submit;
    TailInside(s);
    if IdFree(s.slots, s.h, 0) {
      FlushKeeps(s, sqe);
      forall acts: seq<Action>, t: Sys | DeviceRun(Submit(s, sqe, [], true), acts, t)
        ensures Faithful(t)
      {
        DeviceFaithful(Submit(s, sqe, [], true), acts, t);
      }
    } else {
      var acts, t := FlushMiscredits(s, sqe);
    }
  }

  /** The wrong credit itself: a read waiting under identifier 0, which has not run, is answered
      Done(Ok) by the flush's completion.  Here every completion so far was consumed. */
  lemma FlushAnswersRead(s: Sys, i: nat, sqe: Words) returns (acts: seq<Action>, t: Sys)
    requires Inv(s) && Interpret(Decode(sqe)) == FLUSH_OP && s.h.reaped == |s.h.posts|
    requires i < QUEUE_DEPTH && s.slots[i].Waiting() && s.slots[i].id == 0 && s.h.owner[i] !in s.h.outcomes
    ensures s.tail < |s.sq| && DeviceRun(Submit(s, sqe, [], true), acts, t)
    ensures |t.slots| == |t.h.owner| == QUEUE_DEPTH && t.h.owner[i] == s.h.owner[i]
    ensures t.slots[i].id == 0 && t.slots[i].state == Done(Ok(())) && t.h.owner[i] !in t.h.outcomes
  {
    hide Loose, Interpret, DeviceRun, IdFree, StagesHold, OutcomesHold, LayoutHolds, DataHolds, LogHolds, SqHolds,
         EntriesHold, ReapedHold, SlotsHold;
    FlushLoose(s, sqe);
    OwnersOlder(s);
    FindMine(s, i);
    var f, start := |s.h.reqs|, Submit(s, sqe, [], true);
    FlushNotRun(s);
    var a1, s1 := PostFlush(start, f);
    FirstFlushCompletion(s1, i, f);
    acts, t := a1 + [ActReap], Reap(s1);
    DeviceOne(start, a1, s1, ActReap);
  }

  lemma FlushNotRun(s: Sys)
    requires Inv(s)
    ensures |s.h.reqs| !in s.h.outcomes
  {
    hide StagesHold, SlotsHold, IdsHold, LayoutHolds, DataHolds, LogHolds, SqHolds, EntriesHold, ReapedHold,
         OutcomeHolds;
  }

  lemma FirstFlushCompletion(s: Sys, i: nat, f: nat)
    requires Loose(s) && f < |s.h.reqs| && s.h.reqs[f].op == FLUSH_OP && f in s.h.outcomes && s.h.outcomes[f].ok
    requires |s.h.posts| == s.h.reaped + 1 && s.h.posts[s.h.reaped] == Post(f, 0)
    requires i < QUEUE_DEPTH && FindSlot(s.slots, 0) == i && |s.slots| == QUEUE_DEPTH
    ensures DeviceStep(s, ActReap) && Reap(s).slots == s.slots[i := s.slots[i].(state := Done(Ok(())))]
    ensures Reap(s).h.owner == s.h.owner && Reap(s).h.outcomes == s.h.outcomes
  {
    hide Loose, FindSlot, CopyOut, CopyInside, Cqe.Phase;
    LooseRoom(s);
  }

  // ------------------------------------------------------------ submissions

  /** What a submit must bring, except that its destination may be another slot's too. */
  ghost predicate FitsAnywhere(s: Sys, i: nat, sqe: Words, payload: seq<u8>, dst: nat, len: nat) {
    var op := Interpret(Decode(sqe));
    && |s.slots| == QUEUE_DEPTH && i < QUEUE_DEPTH && !s.slots[i].Booked()
    && op.cid == s.nextCid
    && Describe(IoSlot(op.cid, s.slots[i].bounce, dst, len, Pending), Request(op, payload))
    && op.lo + op.size <= |s.disk|
    && (dst != 0 ==> DstOwn(s.slots, dst, len, |s.ram|))
    && (op.kind == Write ==> Stored(s.ram, s.slots[i].bounce, payload))
  }

  lemma FitsSomewhere(s: Sys, i: nat, sqe: Words, payload: seq<u8>, dst: nat, len: nat)
    requires Fits(s, i, sqe, payload, dst, len)
    ensures FitsAnywhere(s, i, sqe, payload, dst, len)
  {
  }

  lemma BookLoose(s: Sys, i: nat, sqe: Words, payload: seq<u8>, dst: nat, len: nat)
    requires Inv(s) && FitsAnywhere(s, i, sqe, payload, dst, len)
    ensures s.tail < |s.sq| && |s.h.owner| == |s.h.bookedAt| == QUEUE_DEPTH && Loose(Book(s, i, sqe, payload, dst, len))
  {
    hide StagesHold, OutcomesHold, SlotsHold, IdsHold, LayoutHolds, DataHolds, LogHolds, SqHolds, EntriesHold,
         ReapedHold, Interpret, Describe, DstOwn, PhaseOf, Bump, Stored, Roomy;
    TailInside(s);
    InvLoose(s);
    var t, r := Book(s, i, sqe, payload, dst, len), Request(Interpret(Decode(sqe)), payload);
    Occupancy(s);
    SendRing(s.tail, s.sqDb, s.devHead, s.sq, FetchCount(s), s.h.reqs, sqe, r);
    SendStages(s.jobs, s.h, r, false);
    OutcomeFacts(s.h, FetchCount(s));
    LiveFacts(s.jobs, s.h);
    BookStages(s.jobs, Sent(s.h, r, false), i, |s.h.reqs|);
    InterpretCid(sqe);
    BookSlots(s.nextCid, s.slots, s.ram, s.h, i, r, dst, len);
    BookRoomy(s.slots, |s.ram|, i, t.slots[i]);
    SameReaped(s.h, t.h);
    BookShape(s, i, sqe, payload, dst, len);
  }

  lemma BookRoomy(slots: seq<IoSlot>, size: nat, i: nat, slot: IoSlot)
    requires Roomy(slots, size) && i < QUEUE_DEPTH && slot.bounce == slots[i].bounce
    requires slot.dst != 0 ==> DstOwn(slots, slot.dst, slot.len, size)
    ensures Roomy(slots[i := slot], size)
  {
    var t := slots[i := slot];
    forall w | 0 <= w < QUEUE_DEPTH && t[w].dst != 0
      ensures DstOwn(t, t[w].dst, t[w].len, size)
    {
      assert w != i ==> DstOwn(slots, slots[w].dst, slots[w].len, size);
    }
  }

  /** With its identifier in use, a submission leads to a ticket that answers for another
      request, or to a flush's completion credited to it. */
  lemma BookMiscredits(s: Sys, i: nat, sqe: Words, payload: seq<u8>, dst: nat, len: nat)
    returns (acts: seq<Action>, t: Sys)
    requires Inv(s) && Fits(s, i, sqe, payload, dst, len) && !IdFree(s.slots, s.h, s.nextCid)
    ensures s.tail < |s.sq| && |s.h.owner| == |s.h.bookedAt| == QUEUE_DEPTH
    ensures DeviceRun(Book(s, i, sqe, payload, dst, len), acts, t) && !Faithful(t)
  {
    hide Inv, Loose, Interpret, DeviceRun, IdFree, CreditsOwn, DeviceStep, Describe, DstClear, Stored;
    FitsSomewhere(s, i, sqe, payload, dst, len);
    BookLoose(s, i, sqe, payload, dst, len);
    OwnersOlder(s);
    InterpretCid(sqe);
    var start := Book(s, i, sqe, payload, dst, len);
    if w :| 0 <= w < |s.slots| && s.slots[w].id == s.nextCid {
      acts, t := [], start;
      assert DeviceRun(start, [], start) by { NoStep(start); }
      NextCidSmall(s);
      assert w != i && start.slots[w].id == start.slots[i].id && start.slots[w].Booked() && start.slots[i].Booked();
    } else {
      var g := InUseByFlush(s, s.nextCid);
      acts, t := AnswerFlush(start, g);
      assert t.slots[i].id == 0 && t.h.owner[i] == |s.h.reqs|;
      if CreditsOwn(t) {
        CreditedElsewhere(t, g);
      }
    }
  }

  lemma NoStep(s: Sys)
    ensures DeviceRun(s, [], s)
  {
  }

  lemma NextCidSmall(s: Sys)
    requires Inv(s)
    ensures s.nextCid < 0x1_0000
  {
    hide StagesHold, OutcomesHold, SlotsHold, LayoutHolds, DataHolds, LogHolds, SqHolds, EntriesHold, ReapedHold;
  }

  /** A submission leaves completions and tickets with their own requests, in every
      continuation, if and only if the identifier it reserved is unused. */
  lemma BookExact(s: Sys, i: nat, sqe: Words, payload: seq<u8>, dst: nat, len: nat)
    requires Inv(s) && Fits(s, i, sqe, payload, dst, len)
    ensures s.tail < |s.sq| && |s.h.owner| == |s.h.bookedAt| == QUEUE_DEPTH
    ensures IdFree(s.slots, s.h, s.nextCid)
       <==> forall acts: seq<Action>, t: Sys :: DeviceRun(Book(s, i, sqe, payload, dst, len), acts, t) ==> Faithful(t)
  {
    hide Inv, Interpret, DeviceRun, IdFree, Faithful, Book, Loose, Describe, DstClear, Stored;
    FitsSomewhere(s, i, sqe, payload, dst, len);
    BookLoose(s, i, sqe, payload, dst, len);
    if IdFree(s.slots, s.h, s.nextCid) {
      BookKeeps(s, i, sqe, payload, dst, len);
      forall acts: seq<Action>, t: Sys | DeviceRun(Book(s, i, sqe, payload, dst, len), acts, t)
        ensures Faithful(t)
      {
        DeviceFaithful(Book(s, i, sqe, payload, dst, len), acts, t);
      }
    } else {
      var acts, t := BookMiscredits(s, i, sqe, payload, dst, len);
    }
  }
}
