/** Tickets over whole runs: a request is answered Done at most once, and its ticket then names
    nothing until the same identifier is handed out again. */
module NvmeTickets {
  import opened Machine
  import opened NvmeProtocol
  import opened NvmeModel
  import opened NvmeSteps
  import opened NvmeRuns

  /** Some slot holds request `k`. */
  ghost predicate Kept(s: Sys, k: nat) {
    |s.slots| == |s.h.owner| && exists i :: 0 <= i < |s.slots| && KeptIn(s, i, k)
  }

  ghost predicate KeptIn(s: Sys, i: nat, k: nat)
    requires i < |s.slots| == |s.h.owner|
  {
    s.slots[i].Booked() && s.h.owner[i] == k
  }

  /** How often along a path request `k` is answered Done, which is when its slot is given back. */
  ghost function Answers(s: Sys, acts: seq<Action>, t: Sys, k: nat): nat
    requires Path(s, acts, t)
    decreases |acts|
  {
    if acts == [] then 0
    else (if AnswersNow(s, acts[0], k) then 1 else 0) + Answers(Do(s, acts[0]), acts[1..], t, k)
  }

  ghost predicate AnswersNow(s: Sys, a: Action, k: nat) {
    a.ActRelease? && a.i < |s.h.owner| && s.h.owner[a.i] == k
  }

  /** A request comes into a slot only by being submitted. */
  lemma KeptStep(s: Sys, a: Action, k: nat)
    requires Enabled(s, a) && Kept(Do(s, a), k)
    ensures Kept(s, k) || k == |s.h.reqs|
  {
    var t := Do(s, a);
    var i :| 0 <= i < |t.slots| && KeptIn(t, i, k);
    if k != |s.h.reqs| {
      KeptStepIn(s, a, i, k);
      assert KeptIn(s, i, k);
    }
  }

  lemma KeptStepIn(s: Sys, a: Action, i: nat, k: nat)
    requires Enabled(s, a) && k != |s.h.reqs|
    requires i < |Do(s, a).slots| == |Do(s, a).h.owner| && KeptIn(Do(s, a), i, k)
    ensures i < |s.slots| == |s.h.owner| && KeptIn(s, i, k)
  {
    if a.ActReap? {
      hide *;
      ReapIsDo(s);
      ReapKeepsIds(s);
    } else {
      hide OutcomesHold, StagesHold, SlotsHold, IdsHold, LayoutHolds, DataHolds, LogHolds, SqHolds, EntriesHold,
           ReapedHold, Describe, CanPost, Interpret, IdFree, Scatter, Gather, CopyInside, DstClear, Blit;
    }
  }

  lemma ReapKeepsIds(s: Sys)
    requires CanReap(s) && s.h.reaped < |s.h.posts| && CopyInside(s.slots, |s.ram|)
    ensures var t := Reap(s);
            && |t.slots| == |s.slots| && t.h.owner == s.h.owner
            && forall w :: 0 <= w < |s.slots| ==> t.slots[w].id == s.slots[w].id
  {
  }

  /** Giving a slot back ends its request's stay: no other slot holds the same request. */
  lemma ReleaseEnds(s: Sys, i: nat)
    requires Enabled(s, ActRelease(i))
    ensures i < |s.h.owner| && !Kept(Do(s, ActRelease(i)), s.h.owner[i]) && s.h.owner[i] < |s.h.reqs|
    ensures Do(s, ActRelease(i)).h == s.h
  {
    hide OutcomesHold, StagesHold, IdsHold, LayoutHolds, DataHolds, LogHolds, SqHolds, EntriesHold, ReapedHold;
    assert SlotHolds(s.slots[i], s.h.owner[i], s.h);
  }

  /** Over every run a request is answered Done at most once, and not at all unless a slot
      holds it or it is yet to be submitted. */
  lemma {:induction false} AnsweredOnce(s: Sys, acts: seq<Action>, t: Sys, k: nat)
    requires Inv(s) && Path(s, acts, t)
    ensures Answers(s, acts, t, k) <= 1
    ensures Answers(s, acts, t, k) == 1 ==> Kept(s, k) || k >= |s.h.reqs|
    decreases |acts|
  {
    hide Inv, Enabled, Do, Kept;
    if acts != [] {
      var u := Do(s, acts[0]);
      HistoryGrows(s, acts[0]);
      AnsweredOnce(u, acts[1..], t, k);
      if AnswersNow(s, acts[0], k) {
        ReleaseEnds(s, acts[0].i);
        ReleasedWasKept(s, acts[0].i);
      } else if Kept(u, k) {
        KeptStep(s, acts[0], k);
      }
    }
  }

  lemma ReleasedWasKept(s: Sys, i: nat)
    requires Enabled(s, ActRelease(i))
    ensures i < |s.h.owner| && Kept(s, s.h.owner[i])
  {
    hide OutcomesHold, StagesHold, SlotsHold, IdsHold, LayoutHolds, DataHolds, LogHolds, SqHolds, EntriesHold,
         ReapedHold;
    assert KeptIn(s, i, s.h.owner[i]);
  }

  // ------------------------------------------------------------ what a ticket names

  /** No slot has the ticket: `poll` answers InvalidArgument. */
  ghost predicate Unknown(s: Sys, ticket: nat) {
    forall i :: 0 <= i < |s.slots| ==> s.slots[i].id != ticket
  }

  lemma UnknownIs(s: Sys, ticket: nat)
    ensures Unknown(s, ticket) <==> FindSlot(s.slots, ticket) == |s.slots|
  {
  }

  /** A released slot's ticket names nothing. */
  lemma ReleasedUnknown(s: Sys, i: nat)
    requires Inv(s) && i < QUEUE_DEPTH && s.slots[i].Booked()
    ensures Unknown(Release(s, i), s.slots[i].id)
    ensures FindSlot(Release(s, i).slots, s.slots[i].id) == QUEUE_DEPTH
  {
    hide OutcomesHold, StagesHold, SlotsHold, LayoutHolds, DataHolds, LogHolds, SqHolds, EntriesHold, ReapedHold;
    assert s.slots[1 - i].Booked() ==> s.slots[1 - i].id != s.slots[i].id;
    UnknownIs(Release(s, i), s.slots[i].id);
  }

  /** The action hands out `ticket`. */
  ghost predicate HandsOut(s: Sys, a: Action, ticket: nat) {
    a.ActBook? && s.nextCid == ticket
  }

  ghost predicate NeverHandedOut(s: Sys, acts: seq<Action>, t: Sys, ticket: nat)
    requires Path(s, acts, t)
    decreases |acts|
  {
    acts != [] ==> !HandsOut(s, acts[0], ticket) && NeverHandedOut(Do(s, acts[0]), acts[1..], t, ticket)
  }

  lemma UnknownStep(s: Sys, a: Action, ticket: nat)
    requires Enabled(s, a) && Unknown(s, ticket) && ticket != SLOT_FREE && !HandsOut(s, a, ticket)
    ensures Unknown(Do(s, a), ticket)
  {
    if a.ActReap? {
      hide *;
      ReapIsDo(s);
      ReapKeepsIds(s);
    } else {
      hide OutcomesHold, StagesHold, SlotsHold, IdsHold, LayoutHolds, DataHolds, LogHolds, SqHolds, EntriesHold,
           ReapedHold, Describe, CanPost, Interpret, IdFree, Scatter, Gather, CopyInside, DstClear, Blit;
      if a.ActBook? {
        InterpretCid(a.sqe);
      }
    }
  }

  /** A ticket that names nothing goes on naming nothing until a booking hands it out again. */
  lemma {:induction false} StaysUnknown(s: Sys, acts: seq<Action>, t: Sys, ticket: nat)
    requires Inv(s) && Path(s, acts, t) && NeverHandedOut(s, acts, t, ticket)
    requires Unknown(s, ticket) && ticket != SLOT_FREE
    ensures Unknown(t, ticket) && FindSlot(t.slots, ticket) == |t.slots|
    decreases |acts|
  {
    hide Inv, Enabled, Do, Unknown, HandsOut, FindSlot;
    UnknownIs(t, ticket);
    if acts != [] {
      UnknownStep(s, acts[0], ticket);
      StaysUnknown(Do(s, acts[0]), acts[1..], t, ticket);
    }
  }
}
