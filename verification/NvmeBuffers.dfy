/** Whose bytes they are.  A completion copies its slot's bytes to the destination the slot was
    booked with, even when the caller gave up on that request and used the buffer again.  This
    module says exactly when a read's buffer holds the read's bytes. */
module NvmeBuffers {
  import opened Machine
  import opened NvmeProtocol
  import opened NvmeRing
  import opened NvmeModel
  import opened NvmeSteps
  import opened NvmeRuns
  import opened NvmeDevice
  import opened NvmeCredit

  /** A read answered Done(Ok) in slot `i` has its bytes in its caller's buffer. */
  ghost predicate Delivered(t: Sys, i: nat) {
    i < |t.slots| == |t.h.owner| && t.slots[i].Booked() && t.slots[i].dst != 0 && t.slots[i].state == Done(Ok(())) ==>
      t.h.owner[i] in t.h.outcomes && Stored(t.ram, t.slots[i].dst, t.h.outcomes[t.h.owner[i]].data)
  }

  /** Address `p` is in the destinations of both slots. */
  predicate Shared(slots: seq<IoSlot>, p: int)
    requires |slots| == QUEUE_DEPTH
  {
    && slots[0].dst <= p < slots[0].dst + slots[0].len
    && slots[1].dst <= p < slots[1].dst + slots[1].len
  }

  /** The byte slot `w`'s read brings to address `p`, if the medium stays as it is. */
  ghost function Brings(s: Sys, w: nat, p: int): int
    requires w < |s.slots| == |s.h.owner|
  {
    var k, at := s.h.owner[w], p - s.slots[w].dst;
    if k in s.h.outcomes then (if 0 <= at < |s.h.outcomes[k].data| then s.h.outcomes[k].data[at] else 0)
    else if k < |s.h.reqs| && 0 <= s.h.reqs[k].op.lo + at < |s.disk| then s.disk[s.h.reqs[k].op.lo + at] else 0
  }

  /** The other slot waits for a read the controller has not answered, nor failed, and its bytes
      differ from slot `i`'s somewhere in the part the two destinations share. */
  ghost predicate Stale(s: Sys, i: nat)
    requires i < QUEUE_DEPTH == |s.slots| == |s.h.owner|
  {
    var o := 1 - i;
    && s.slots[o].Waiting() && s.slots[o].dst != 0 && s.h.owner[o] !in PostsFrom(s.h, 0)
    && (s.h.owner[o] in s.h.outcomes ==> s.h.outcomes[s.h.owner[o]].ok)
    && exists p :: Shared(s.slots, p) && Brings(s, o, p) != Brings(s, i, p)
  }

  // ------------------------------------------------------------ two reads in flight

  /** A read that ran well waits in its slot's own buffer. */
  ghost predicate Bounced(slot: IoSlot, k: nat, ram: seq<u8>, h: History) {
    slot.Waiting() && k < |h.reqs| && h.reqs[k].op.kind == Read && k in h.outcomes && h.outcomes[k].ok ==>
      Stored(ram, slot.bounce, h.outcomes[k].data)
  }

  ghost predicate BothBounced(s: Sys)
    requires |s.slots| == |s.h.owner| == QUEUE_DEPTH
  {
    Bounced(s.slots[0], s.h.owner[0], s.ram, s.h) && Bounced(s.slots[1], s.h.owner[1], s.ram, s.h)
  }

  ghost predicate NoWrites(h: History) {
    forall k :: k in h.live && k < |h.reqs| ==> h.reqs[k].op.kind != Write
  }

  /** `t` follows `b` by steps of the controller and the reaping driver, with no write out. */
  ghost predicate Follows(b: Sys, t: Sys) {
    && Loose(t) && IdsHold(t.nextCid, t.slots, t.h) && NoWrites(t.h) && BothBounced(t)
    && |t.ram| == |b.ram| && t.disk == b.disk && |b.slots| == QUEUE_DEPTH
    && t.h.reqs == b.h.reqs && t.h.owner == b.h.owner && b.h.posts <= t.h.posts
    && (forall w :: 0 <= w < QUEUE_DEPTH ==> t.slots[w] == b.slots[w].(state := t.slots[w].state))
    && (forall w :: 0 <= w < QUEUE_DEPTH && t.slots[w].state == Pending ==> b.slots[w].state == Pending)
    && (forall k :: k in b.h.outcomes ==> k in t.h.outcomes && t.h.outcomes[k] == b.h.outcomes[k])
    && (forall k :: k in t.h.outcomes && k !in b.h.outcomes ==> FromMedium(t.h, k, b.disk))
  }

  /** A read that ran well returned the medium's bytes. */
  ghost predicate FromMedium(h: History, k: nat, disk: seq<u8>)
    requires k in h.outcomes
  {
    k < |h.reqs| && h.reqs[k].op.kind == Read && h.outcomes[k].ok ==> Stored(disk, h.reqs[k].op.lo, h.outcomes[k].data)
  }

  lemma FollowsFetch(b: Sys, s: Sys)
    requires Follows(b, s) && CanFetch(s)
    ensures Follows(b, Fetch(s)) && Fetch(s).ram == s.ram && Fetch(s).slots == s.slots && Fetch(s).h == s.h
  {
    hide Loose, IdsHold, NoWrites, Stored;
    FetchLoose(s);
  }

  lemma FollowsPublish(b: Sys, s: Sys, j: nat, code: nat, dw0: u32)
    requires Follows(b, s) && CanPost(s, j, code)
    ensures var t := Publish(s, j, code, dw0);
            Follows(b, t) && t.ram == s.ram && t.slots == s.slots && t.h == s.h.(posts := t.h.posts)
  {
    hide Loose, IdsHold, NoWrites, Stored, StatusWord, Bump;
    PublishLoose(s, j, code, dw0);
    LooseShape(s);
    SameIds(s.nextCid, s.slots, s.slots, s.h, Publish(s, j, code, dw0).h);
    assert NoWrites(Publish(s, j, code, dw0).h) by { NoWritesSame(s.h, Publish(s, j, code, dw0).h); }
  }

  lemma LooseShape(s: Sys)
    requires Loose(s)
    ensures Shape(s) && Roomy(s.slots, |s.ram|) && SlotsHold(s.slots, s.h) && StagesHold(s.jobs, s.h)
  {
    hide StagesHold, OutcomesHold, SlotsHold, SqHolds, CqHolds, ReapedHold, Roomy;
  }

  lemma NoWritesSame(h: History, g: History)
    requires NoWrites(h) && g.reqs == h.reqs && g.live <= h.live
    ensures NoWrites(g)
  {
  }

  /** Running a job moves at most the bytes of the slot that waits for it. */
  lemma RunMoves(s: Sys, j: nat, ok: bool, junk: seq<u8>) returns (w: nat)
    requires Loose(s) && CanRun(s, j, junk) && s.jobs[j].op.kind != Write
    ensures var op, data := s.jobs[j].op, Moved(s, s.jobs[j].op, ok, junk);
            && w < QUEUE_DEPTH == |s.slots| && s.jobs[j].req < |s.h.reqs| && op == s.h.reqs[s.jobs[j].req].op
            && s.jobs[j].req !in s.h.outcomes && s.jobs[j].req in s.h.live
            && (op.kind == Read ==>
                  && s.slots[w].Waiting() && s.h.owner[w] == s.jobs[j].req && |data| <= RUN_BYTES
                  && s.slots[w].bounce + |data| <= |s.ram|
                  && Run(s, j, ok, junk).ram == Blit(s.ram, s.slots[w].bounce, data))
            && (op.kind != Read ==> Run(s, j, ok, junk).ram == s.ram)
  {
    hide OutcomesHold, SqHolds, CqHolds, ReapedHold, Gather, Scatter, Blit, PrpInside, SlotsHold, StagesHold;
    JobFacts(s.jobs, s.h, j);
    w := 0;
    if s.jobs[j].op.kind == Read {
      w := HolderOf(s.slots, s.h, s.jobs[j].req);
      RunTransfer(s.ram, s.slots[w].bounce, Moved(s, s.jobs[j].op, ok, junk));
    }
  }

  lemma StoredElsewhere(ram: seq<u8>, at: nat, data: seq<u8>, b: nat, d: seq<u8>)
    requires at + |data| <= |ram| && Stored(ram, b, d) && Apart(b, |d|, at, |data|)
    ensures Stored(Blit(ram, at, data), b, d)
  {
    BlitElsewhere(ram, at, data, b, b + |d|);
  }

  /** A slot's read is no longer than its destination or a run. */
  lemma SlotRange(s: Sys, w: nat)
    requires Loose(s) && w < QUEUE_DEPTH && s.slots[w].Booked()
    ensures |s.slots| == |s.h.owner| == QUEUE_DEPTH && s.h.owner[w] < |s.h.reqs|
    ensures s.slots[w].bounce + RUN_BYTES <= |s.ram|
    ensures var k := s.h.owner[w];
            && (s.h.reqs[k].op.kind == Read ==>
                  s.slots[w].dst != 0 && s.slots[w].len == s.h.reqs[k].op.size <= RUN_BYTES
                  && DstOwn(s.slots, s.slots[w].dst, s.slots[w].len, |s.ram|))
            && (k in s.h.outcomes ==> |s.h.outcomes[k].data| == s.h.reqs[k].op.size <= RUN_BYTES)
            && (s.slots[w].state != Pending ==>
                k in s.h.outcomes && s.slots[w].state == Answer(s.h.outcomes[k].ok) && k !in s.h.live)
            && (s.slots[w].state == Pending ==> k in s.h.live)
            && (s.slots[w].dst != 0 ==> s.h.reqs[k].op.kind == Read)
    ensures Apart(s.slots[0].bounce, RUN_BYTES, s.slots[1].bounce, RUN_BYTES)
    ensures s.slots[1 - w].Booked() ==> s.h.owner[1 - w] != s.h.owner[w]
  {
    hide SqHolds, CqHolds, ReapedHold, StagesHold, OutcomesHold;
    assert SlotHolds(s.slots[w], s.h.owner[w], s.h);
    OutcomeFacts(s.h, FetchCount(s));
  }

  /** Bytes copied into another slot's buffer leave a waiting read's own. */
  lemma BouncedKept(s: Sys, t: Sys, v: nat, at: nat, data: seq<u8>)
    requires Loose(s) && |s.slots| == |s.h.owner| == QUEUE_DEPTH && v < QUEUE_DEPTH
    requires at + |data| <= |s.ram| && t.ram == Blit(s.ram, at, data)
    requires Bounced(s.slots[v], s.h.owner[v], s.ram, s.h)
    requires s.slots[v].Booked() ==> Apart(s.slots[v].bounce, RUN_BYTES, at, |data|)
    requires t.h.reqs == s.h.reqs
    requires s.slots[v].Waiting() && s.h.owner[v] in t.h.outcomes ==>
               s.h.owner[v] in s.h.outcomes && t.h.outcomes[s.h.owner[v]] == s.h.outcomes[s.h.owner[v]]
    ensures Bounced(s.slots[v], s.h.owner[v], t.ram, t.h)
  {
    hide Loose, Blit;
    if s.slots[v].Waiting() {
      var k := s.h.owner[v];
      SlotRange(s, v);
      if s.h.reqs[k].op.kind == Read && k in t.h.outcomes && t.h.outcomes[k].ok {
        StoredElsewhere(s.ram, at, data, s.slots[v].bounce, s.h.outcomes[k].data);
      }
    }
  }

  lemma FollowsRun(b: Sys, s: Sys, j: nat, ok: bool, junk: seq<u8>)
    requires Follows(b, s) && CanRun(s, j, junk) && s.jobs[j].op.kind != Write
    ensures Follows(b, Run(s, j, ok, junk)) && Run(s, j, ok, junk).slots == s.slots
    ensures forall i :: 0 <= i < QUEUE_DEPTH && Delivered(s, i) ==> Delivered(Run(s, j, ok, junk), i)
  {
    hide Loose, IdsHold, NoWrites, Stored, Scatter, Gather, Blit, PrpInside;
    var t, k := Run(s, j, ok, junk), s.jobs[j].req;
    var data := Moved(s, s.jobs[j].op, ok, junk);
    RunLoose(s, j, ok, junk);
    LooseShape(s);
    RunHistory(s, j, ok, junk);
    SameIds(s.nextCid, s.slots, s.slots, s.h, t.h);
    NoWritesSame(s.h, t.h);
    var w := RunMoves(s, j, ok, junk);
    RunBounced(s, j, ok, junk, w);
    assert FromMedium(t.h, k, b.disk) by { RanFromMedium(s, j, ok, junk); }
    forall i | 0 <= i < QUEUE_DEPTH && Delivered(s, i)
      ensures Delivered(t, i)
    {
      RunDelivered(s, j, ok, junk, w, i);
    }
  }

  lemma RunHistory(s: Sys, j: nat, ok: bool, junk: seq<u8>)
    requires CanRun(s, j, junk) && s.jobs[j].op.kind != Write
    ensures var t, k, o := Run(s, j, ok, junk), s.jobs[j].req, Outcome(ok, Moved(s, s.jobs[j].op, ok, junk));
            && t.h == Ran(s.h, k, o) && t.slots == s.slots && t.disk == s.disk && |t.ram| == |s.ram|
            && t.nextCid == s.nextCid
  {
    hide Scatter, Gather, Blit, PrpInside;
  }

  lemma RanFromMedium(s: Sys, j: nat, ok: bool, junk: seq<u8>)
    requires CanRun(s, j, junk) && s.jobs[j].req < |s.h.reqs| && s.jobs[j].op == s.h.reqs[s.jobs[j].req].op
    ensures FromMedium(Run(s, j, ok, junk).h, s.jobs[j].req, s.disk)
  {
    hide Scatter, Gather, Blit, PrpInside;
  }

  lemma RunBounced(s: Sys, j: nat, ok: bool, junk: seq<u8>, w: nat)
    requires Loose(s) && |s.slots| == |s.h.owner| == QUEUE_DEPTH && BothBounced(s)
    requires CanRun(s, j, junk) && w < QUEUE_DEPTH && s.jobs[j].op.kind != Write
    requires var op, data, k := s.jobs[j].op, Moved(s, s.jobs[j].op, ok, junk), s.jobs[j].req;
             && k < |s.h.reqs| && op == s.h.reqs[k].op && k !in s.h.outcomes
             && (op.kind == Read ==>
                   && s.slots[w].Waiting() && s.h.owner[w] == k && |data| <= RUN_BYTES
                   && s.slots[w].bounce + |data| <= |s.ram|
                   && Run(s, j, ok, junk).ram == Blit(s.ram, s.slots[w].bounce, data))
             && (op.kind != Read ==> Run(s, j, ok, junk).ram == s.ram)
    ensures BothBounced(Run(s, j, ok, junk))
  {
    hide Loose, Scatter, Gather, Blit, PrpInside, Run, Moved;
    var t, k, data := Run(s, j, ok, junk), s.jobs[j].req, Moved(s, s.jobs[j].op, ok, junk);
    RunHistory(s, j, ok, junk);
    if s.jobs[j].op.kind == Read {
      SlotRange(s, w);
      BouncedKept(s, t, 1 - w, s.slots[w].bounce, data);
      assert Stored(t.ram, s.slots[w].bounce, data);
    }
  }

  lemma RunDelivered(s: Sys, j: nat, ok: bool, junk: seq<u8>, w: nat, i: nat)
    requires Loose(s) && |s.slots| == |s.h.owner| == QUEUE_DEPTH && i < QUEUE_DEPTH && Delivered(s, i)
    requires CanRun(s, j, junk) && w < QUEUE_DEPTH && s.jobs[j].op.kind != Write && s.jobs[j].req !in s.h.outcomes
    requires var op, data := s.jobs[j].op, Moved(s, s.jobs[j].op, ok, junk);
             && (op.kind == Read ==>
                   |data| <= RUN_BYTES && s.slots[w].bounce + |data| <= |s.ram|
                   && Run(s, j, ok, junk).ram == Blit(s.ram, s.slots[w].bounce, data))
             && (op.kind != Read ==> Run(s, j, ok, junk).ram == s.ram)
    ensures Delivered(Run(s, j, ok, junk), i)
  {
    hide Loose, Scatter, Gather, Blit, PrpInside, Run, Moved;
    var t, data := Run(s, j, ok, junk), Moved(s, s.jobs[j].op, ok, junk);
    RunHistory(s, j, ok, junk);
    if s.slots[i].Booked() && s.slots[i].dst != 0 && s.slots[i].state == Done(Ok(())) && s.jobs[j].op.kind == Read {
      SlotRange(s, i);
      StoredElsewhere(s.ram, s.slots[w].bounce, data, s.slots[i].dst, s.h.outcomes[s.h.owner[i]].data);
    }
  }

  // ------------------------------------------------------------ consuming a completion

  lemma LooseCredits(s: Sys)
    requires Loose(s) && IdsHold(s.nextCid, s.slots, s.h) && DeviceStep(s, ActReap)
    ensures CreditsOwn(s)
  {
    hide StagesHold, OutcomesHold, SlotsHold, IdsHold, SqHolds, ReapedHold, Roomy, CopyInside, FindSlot;
    LooseRoom(s);
    PostFacts(s.jobs, s.h, s.h.reaped);
    Credit(s.nextCid, s.slots, s.h, s.h.posts[s.h.reaped].req);
    OneStray(s.nextCid, s.slots, s.h);
  }

  /** What consuming the completion at the head does to slots and memory. */
  lemma ReapEffect(s: Sys) returns (w: nat)
    requires Loose(s) && IdsHold(s.nextCid, s.slots, s.h) && DeviceStep(s, ActReap)
    ensures Loose(Reap(s)) && IdsHold(Reap(s).nextCid, Reap(s).slots, Reap(s).h)
    ensures var t, k := Reap(s), s.h.posts[s.h.reaped].req;
            && w <= QUEUE_DEPTH == |s.slots| == |s.h.owner| && k in s.h.outcomes
            && t.h == Taken(s.h, k) && t.disk == s.disk
            && (w == QUEUE_DEPTH ==> t.slots == s.slots && t.ram == s.ram && k in s.h.strays)
            && (w < QUEUE_DEPTH ==>
                  && s.slots[w].Waiting() && s.h.owner[w] == k
                  && t.slots == s.slots[w := s.slots[w].(state := Answer(s.h.outcomes[k].ok))]
                  && (s.slots[w].dst != 0 ==>
                      s.slots[w].dst + s.slots[w].len <= |s.ram| && s.slots[w].bounce + s.slots[w].len <= |s.ram|)
                  && t.ram == CopyOut(s.ram, s.slots[w], s.h.outcomes[k].ok))
  {
    hide Loose, IdsHold, FindSlot, CopyOut, Cqe.Phase, Cqe.IsSuccess;
    LooseCredits(s);
    ReapLoose(s);
    LooseShape(s);
    LooseShape(Reap(s));
    SameIds(s.nextCid, s.slots, Reap(s).slots, s.h, Reap(s).h);
    w := FindSlot(s.slots, s.cq[s.head].commandId);
    if w == QUEUE_DEPTH {
      LooseRoom(s);
      Uncredited(s.slots, s.h, s.h.posts[s.h.reaped].req);
    }
  }

  lemma CopyDelivers(s: Sys, w: nat)
    requires Loose(s) && |s.slots| == |s.h.owner| == QUEUE_DEPTH && BothBounced(s) && w < QUEUE_DEPTH
    requires s.slots[w].Waiting() && s.slots[w].dst != 0 && s.h.owner[w] in s.h.outcomes
    requires s.h.outcomes[s.h.owner[w]].ok
    ensures s.slots[w].dst + s.slots[w].len <= |s.ram| && s.slots[w].bounce + s.slots[w].len <= |s.ram|
    ensures var data := s.h.outcomes[s.h.owner[w]].data;
            |data| == s.slots[w].len && CopyOut(s.ram, s.slots[w], true) == Blit(s.ram, s.slots[w].dst, data)
  {
    hide Loose, Blit;
    SlotRange(s, w);
  }

  lemma FollowsReap(b: Sys, s: Sys)
    requires Follows(b, s) && DeviceStep(s, ActReap)
    ensures Follows(b, Reap(s))
  {
    hide Loose, IdsHold, NoWrites, Stored, Blit, Reap, BothBounced, FromMedium;
    var w := ReapEffect(s);
    var t := Reap(s);
    NoWritesSame(s.h, t.h);
    ReapBounced(s, t, w);
    assert forall k :: k in t.h.outcomes && k !in b.h.outcomes ==> FromMedium(t.h, k, b.disk) by {
      forall k | k in t.h.outcomes && k !in b.h.outcomes
        ensures FromMedium(t.h, k, b.disk)
      {
        assert FromMedium(s.h, k, b.disk);
        SameFromMedium(s.h, t.h, k, b.disk);
      }
    }
  }

  lemma SameFromMedium(h: History, g: History, k: nat, disk: seq<u8>)
    requires k in h.outcomes && g.outcomes == h.outcomes && g.reqs == h.reqs && FromMedium(h, k, disk)
    ensures FromMedium(g, k, disk)
  {
  }

  lemma ReapBounced(s: Sys, t: Sys, w: nat)
    requires Loose(s) && |s.slots| == |s.h.owner| == QUEUE_DEPTH && BothBounced(s) && w <= QUEUE_DEPTH
    requires t.h.reqs == s.h.reqs && t.h.outcomes == s.h.outcomes && t.h.owner == s.h.owner
    requires w == QUEUE_DEPTH ==> t.slots == s.slots && t.ram == s.ram
    requires w < QUEUE_DEPTH ==>
               && s.slots[w].Waiting() && s.h.owner[w] in s.h.outcomes
               && t.slots == s.slots[w := s.slots[w].(state := Answer(s.h.outcomes[s.h.owner[w]].ok))]
               && (s.slots[w].dst != 0 ==>
                   s.slots[w].dst + s.slots[w].len <= |s.ram| && s.slots[w].bounce + s.slots[w].len <= |s.ram|)
               && t.ram == CopyOut(s.ram, s.slots[w], s.h.outcomes[s.h.owner[w]].ok)
    ensures |t.slots| == QUEUE_DEPTH && BothBounced(t)
  {
    hide Loose, Blit;
    if w < QUEUE_DEPTH {
      if s.slots[w].dst != 0 && s.h.outcomes[s.h.owner[w]].ok {
        CopyDelivers(s, w);
        SlotRange(s, w);
        BouncedKept(s, t, 1 - w, s.slots[w].dst, s.h.outcomes[s.h.owner[w]].data);
      }
    }
  }

  /** The read answered last is delivered whatever it overwrites; the other one keeps its bytes
      where the two agree. */
  lemma ReapDelivered(s: Sys, i: nat)
    requires Loose(s) && IdsHold(s.nextCid, s.slots, s.h) && DeviceStep(s, ActReap)
    requires |s.slots| == |s.h.owner| == QUEUE_DEPTH && BothBounced(s) && i < QUEUE_DEPTH && Delivered(s, i)
    requires var o := 1 - i;
             (&& Delivers(s, i) && s.slots[o].Waiting() && s.slots[o].dst != 0 && s.h.owner[o] in s.h.outcomes
              && s.h.outcomes[s.h.owner[o]].ok) ==> Agree(s, i)
    ensures Delivered(Reap(s), i)
  {
    hide Loose, IdsHold, Blit, Reap, Agree;
    var w := ReapEffect(s);
    var t := Reap(s);
    if w == i {
      if s.slots[i].dst != 0 && s.h.outcomes[s.h.owner[i]].ok {
        CopyDelivers(s, i);
        assert Stored(t.ram, s.slots[i].dst, s.h.outcomes[s.h.owner[i]].data);
      }
    } else if w < QUEUE_DEPTH && Delivers(s, i) {
      if s.slots[w].dst != 0 && s.h.outcomes[s.h.owner[w]].ok {
        CopyDelivers(s, w);
        AgreeKept(s, i);
      }
    }
  }

  ghost predicate Delivers(s: Sys, i: nat)
    requires i < |s.slots|
  {
    s.slots[i].Booked() && s.slots[i].dst != 0 && s.slots[i].state == Done(Ok(()))
  }

  /** Both reads ran, and brought the same bytes to the part they share. */
  ghost predicate Agree(s: Sys, i: nat)
    requires i < QUEUE_DEPTH == |s.slots| == |s.h.owner|
  {
    var o := 1 - i;
    && s.h.owner[i] in s.h.outcomes && s.h.owner[o] in s.h.outcomes
    && |s.h.outcomes[s.h.owner[i]].data| == s.slots[i].len && |s.h.outcomes[s.h.owner[o]].data| == s.slots[o].len
    && forall p :: Shared(s.slots, p) ==>
         s.h.outcomes[s.h.owner[i]].data[p - s.slots[i].dst] == s.h.outcomes[s.h.owner[o]].data[p - s.slots[o].dst]
  }

  lemma AgreeKept(s: Sys, i: nat)
    requires i < QUEUE_DEPTH == |s.slots| == |s.h.owner| && Agree(s, i)
    requires Stored(s.ram, s.slots[i].dst, s.h.outcomes[s.h.owner[i]].data)
    requires s.slots[1 - i].dst + s.slots[1 - i].len <= |s.ram|
    ensures var data := s.h.outcomes[s.h.owner[1 - i]].data;
            Stored(Blit(s.ram, s.slots[1 - i].dst, data), s.slots[i].dst, s.h.outcomes[s.h.owner[i]].data)
  {
    hide Blit;
    var o := 1 - i;
    var mine, theirs := s.h.outcomes[s.h.owner[i]].data, s.h.outcomes[s.h.owner[o]].data;
    var dst, after := s.slots[i].dst, Blit(s.ram, s.slots[o].dst, theirs);
    forall n | 0 <= n < |mine|
      ensures after[dst + n] == mine[n]
    {
      assert s.ram[dst..dst + |mine|][n] == mine[n];
      if s.slots[o].dst <= dst + n < s.slots[o].dst + |theirs| {
        assert Shared(s.slots, dst + n);
      }
    }
    assert after[dst..dst + |mine|] == mine;
  }

  // ------------------------------------------------------------ along a continuation

  lemma JobWritesNothing(s: Sys, j: nat)
    requires Loose(s) && NoWrites(s.h) && j < |s.jobs|
    ensures s.jobs[j].op.kind != Write
  {
    hide SlotsHold, OutcomesHold, SqHolds, CqHolds, ReapedHold, Roomy;
    assert JobHolds(s.jobs[j], FetchCount(s), s.h);
  }

  lemma FollowsStep(b: Sys, s: Sys, a: Action)
    requires Follows(b, s) && DeviceStep(s, a)
    ensures Follows(b, DeviceDo(s, a))
  {
    match a {
      case ActFetch => FollowsFetch(b, s);
      case ActRun(j, ok, junk) =>
        JobWritesNothing(s, j);
        FollowsRun(b, s, j, ok, junk);
      case ActPublish(j, code, dw0) => FollowsPublish(b, s, j, code, dw0);
      case ActReap => FollowsReap(b, s);
      case _ =>
    }
  }

  lemma {:induction false} FollowsAlong(b: Sys, s: Sys, acts: seq<Action>, t: Sys)
    requires Follows(b, s) && DeviceRun(s, acts, t)
    ensures Follows(b, t)
    decreases |acts|
  {
    hide Follows, DeviceStep, DeviceDo;
    if acts != [] {
      FollowsStep(b, s, acts[0]);
      FollowsAlong(b, DeviceDo(s, acts[0]), acts[1..], t);
    }
  }

  /** Slot `i` was just booked: its read has neither run nor been answered. */
  ghost predicate FreshlyBooked(b: Sys, i: nat) {
    && i < QUEUE_DEPTH == |b.slots| == |b.h.owner|
    && b.slots[i].Waiting() && b.slots[i].dst != 0 && b.h.owner[i] !in b.h.outcomes
    && b.h.owner[i] !in PostsFrom(b.h, 0)
  }

  /** Completions are consumed in order, so a read answered after `b` overtakes none answered
      before it. */
  lemma AnsweredLater(b: Sys, s: Sys, i: nat)
    requires Follows(b, s) && FreshlyBooked(b, i) && |s.slots| == |s.h.owner| == QUEUE_DEPTH
    requires s.slots[i].state != Pending && s.slots[1 - i].Waiting()
    ensures s.h.owner[1 - i] !in PostsFrom(b.h, 0)
  {
    hide SqHolds, CqHolds, Roomy, OutcomesHold, IdsHold, NoWrites, BothBounced;
    SlotRange(s, i);
    SlotRange(s, 1 - i);
    var ki, ko := s.h.owner[i], s.h.owner[1 - i];
    assert Consumed(s.h, ki);
    var p :| 0 <= p < s.h.reaped && p < |s.h.posts| && s.h.posts[p].req == ki;
    assert forall q :: 0 <= q < |b.h.posts| ==> b.h.posts[q] == s.h.posts[q] && b.h.posts[q].req in PostsFrom(b.h, 0);
    forall q | 0 <= q < |b.h.posts|
      ensures b.h.posts[q].req != ko
    {
      assert b.h.posts[q] == s.h.posts[q];
    }
  }

  /** Where the other read is not stale, the two agree on what they share. */
  lemma NotStaleAgrees(b: Sys, s: Sys, i: nat)
    requires Follows(b, s) && FreshlyBooked(b, i) && !Stale(b, i) && |s.slots| == |s.h.owner| == QUEUE_DEPTH
    requires var o := 1 - i;
             && Delivers(s, i) && s.slots[o].Waiting() && s.slots[o].dst != 0 && s.h.owner[o] in s.h.outcomes
             && s.h.outcomes[s.h.owner[o]].ok
    ensures Agree(s, i)
  {
    hide Loose, IdsHold, NoWrites, BothBounced;
    var o := 1 - i;
    AnsweredLater(b, s, i);
    SlotRange(s, i);
    SlotRange(s, o);
    WaitedBefore(b, s, o);
    forall p | Shared(s.slots, p)
      ensures s.h.outcomes[s.h.owner[i]].data[p - s.slots[i].dst] == s.h.outcomes[s.h.owner[o]].data[p - s.slots[o].dst]
    {
      assert Shared(b.slots, p) && Brings(b, o, p) == Brings(b, i, p);
      BringsIs(b, s, i, p);
      BringsIs(b, s, o, p);
    }
  }

  /** What a slot's read returned is what it was to bring. */
  lemma BringsIs(b: Sys, s: Sys, w: nat, p: int)
    requires Follows(b, s) && w < QUEUE_DEPTH && |s.slots| == |s.h.owner| == |b.h.owner| == QUEUE_DEPTH
    requires s.slots[w].Booked() && s.slots[w].dst != 0 && s.h.owner[w] in s.h.outcomes && s.h.outcomes[s.h.owner[w]].ok
    requires s.slots[w].dst <= p < s.slots[w].dst + s.slots[w].len
    ensures |s.h.outcomes[s.h.owner[w]].data| == s.slots[w].len
    ensures Brings(b, w, p) == s.h.outcomes[s.h.owner[w]].data[p - s.slots[w].dst]
  {
    hide Loose, IdsHold, NoWrites, BothBounced;
    SlotRange(s, w);
    var k := s.h.owner[w];
    if k !in b.h.outcomes {
      assert FromMedium(s.h, k, b.disk);
      var lo, data := s.h.reqs[k].op.lo, s.h.outcomes[k].data;
      assert b.disk[lo..lo + |data|][p - s.slots[w].dst] == data[p - s.slots[w].dst];
    }
  }

  lemma WaitedBefore(b: Sys, s: Sys, o: nat)
    requires Follows(b, s) && o < QUEUE_DEPTH && |s.slots| == QUEUE_DEPTH && s.slots[o].Waiting()
    ensures b.slots[o].Waiting() && b.slots[o].dst == s.slots[o].dst
  {
    hide Loose, IdsHold, NoWrites, BothBounced;
  }

  lemma DeliveredStep(b: Sys, s: Sys, a: Action, i: nat)
    requires Follows(b, s) && DeviceStep(s, a) && FreshlyBooked(b, i) && !Stale(b, i) && Delivered(s, i)
    ensures Delivered(DeviceDo(s, a), i)
  {
    hide Follows, Stale, FreshlyBooked, Loose, IdsHold, Reap;
    FollowsParts(b, s);
    match a {
      case ActFetch => FollowsFetch(b, s);
      case ActRun(j, ok, junk) =>
        JobWritesNothing(s, j);
        FollowsRun(b, s, j, ok, junk);
      case ActPublish(j, code, dw0) => FollowsPublish(b, s, j, code, dw0);
      case ActReap => DeliveredReap(b, s, i);
      case _ =>
    }
  }

  lemma DeliveredReap(b: Sys, s: Sys, i: nat)
    requires Follows(b, s) && DeviceStep(s, ActReap) && FreshlyBooked(b, i) && !Stale(b, i) && Delivered(s, i)
    ensures Delivered(Reap(s), i)
  {
    hide Follows, Stale, FreshlyBooked, Reap, Delivered, Agree, Loose, IdsHold, CanReap, CopyInside, BothBounced,
         NoWrites;
    FollowsParts(b, s);
    BookedIndex(b, i);
    var o := 1 - i;
    if Delivers(s, i) && s.slots[o].Waiting() && s.slots[o].dst != 0 && s.h.owner[o] in s.h.outcomes
       && s.h.outcomes[s.h.owner[o]].ok {
      NotStaleAgrees(b, s, i);
    }
    ReapDelivered(s, i);
  }

  lemma BookedIndex(b: Sys, i: nat)
    requires FreshlyBooked(b, i)
    ensures i < QUEUE_DEPTH
  {
  }

  lemma FollowsParts(b: Sys, s: Sys)
    requires Follows(b, s)
    ensures Loose(s) && IdsHold(s.nextCid, s.slots, s.h) && NoWrites(s.h) && |s.slots| == |s.h.owner| == QUEUE_DEPTH
    ensures BothBounced(s)
  {
    hide IdsHold, NoWrites, BothBounced, Loose;
    LooseShape(s);
  }

  lemma FollowsSame(b: Sys, s: Sys)
    requires Follows(b, s)
    ensures s.h.owner == b.h.owner && s.h.reqs == b.h.reqs
  {
    hide IdsHold, NoWrites, BothBounced, Loose;
  }

  lemma {:induction false} DeliveredAlong(b: Sys, s: Sys, acts: seq<Action>, t: Sys, i: nat)
    requires Follows(b, s) && DeviceRun(s, acts, t) && FreshlyBooked(b, i) && !Stale(b, i) && Delivered(s, i)
    ensures Delivered(t, i)
    decreases |acts|
  {
    hide Follows, DeviceStep, DeviceDo, FreshlyBooked, Stale, Delivered;
    if acts != [] {
      FollowsStep(b, s, acts[0]);
      DeliveredStep(b, s, acts[0], i);
      DeliveredAlong(b, DeviceDo(s, acts[0]), acts[1..], t, i);
    }
  }

  // ------------------------------------------------------------ a stale read

  /** A live read that was never answered is with the controller. */
  lemma WithController(s: Sys, k: nat)
    requires Loose(s) && FetchCount(s) == |s.h.reqs| && k in s.h.live && k !in PostsFrom(s.h, 0)
    ensures k in JobReqs(s.jobs) && k < |s.h.reqs|
  {
    hide SlotsHold, OutcomesHold, SqHolds, CqHolds, ReapedHold, Roomy, JobReqs;
    Located(s, k);
    assert PostsFrom(s.h, s.h.reaped) <= PostsFrom(s.h, 0);
  }

  /** Both reads are run, and answered in the order that hurts: slot `i`'s first. */
  lemma AnswerBoth(b: Sys, i: nat) returns (acts: seq<Action>, t: Sys)
    requires Follows(b, b) && FreshlyBooked(b, i) && Stale(b, i)
    ensures DeviceRun(b, acts, t) && t.h.reaped == b.h.reaped && t.h.outcomes.Keys >= {b.h.owner[i], b.h.owner[1 - i]}
    ensures |t.h.posts| >= 2 && t.h.posts[|t.h.posts| - 2].req == b.h.owner[i]
    ensures t.h.posts[|t.h.posts| - 1].req == b.h.owner[1 - i]
    ensures t.h.reaped <= |t.h.posts| - 2
    ensures t.h.outcomes[b.h.owner[i]].ok && t.h.outcomes[b.h.owner[1 - i]].ok
  {
    hide Loose, IdsHold, BothBounced, JobReqs, DeviceRun, Shared, Brings;
    var o, ki, ko := 1 - i, b.h.owner[i], b.h.owner[1 - i];
    SlotRange(b, i);
    SlotRange(b, o);
    var a1, s1 := FetchAll(b);
    WithController(s1, ki);
    WithController(s1, ko);
    assert s1.h.reqs[ki].op.kind != Write && s1.h.reqs[ko].op.kind != Write;
    var a2, s2 := RunIt(s1, ki);
    var a3, s3 := RunOnce(s2, ko);
    var a4, s4 := PublishIt(s3, ki);
    var a5, s5 := PublishIt(s4, ko);
    DeviceJoin(b, a1, s1, a2, s2);
    DeviceJoin(b, a1 + a2, s2, a3, s3);
    DeviceJoin(b, a1 + a2 + a3, s3, a4, s4);
    DeviceJoin(b, a1 + a2 + a3 + a4, s4, a5, s5);
    acts, t := a1 + a2 + a3 + a4 + a5, s5;
    LooseShape(s3);
  }

  lemma RunOnce(s: Sys, k: nat) returns (acts: seq<Action>, t: Sys)
    requires Loose(s) && k in JobReqs(s.jobs) && k < |s.h.reqs| && s.h.reqs[k].op.kind != Write
    requires k in s.h.outcomes ==> s.h.outcomes[k].ok
    ensures DeviceRun(s, acts, t) && Loose(t) && SameBooks(s, t) && t.h.posts == s.h.posts
    ensures JobReqs(t.jobs) == JobReqs(s.jobs)
    ensures k in t.h.outcomes && t.h.outcomes[k].ok
    ensures forall m :: m in s.h.outcomes ==> m in t.h.outcomes && t.h.outcomes[m] == s.h.outcomes[m]
  {
    hide Loose, JobReqs;
    if k in s.h.outcomes {
      acts, t := [], s;
    } else {
      acts, t := RunIt(s, k);
    }
  }

  /** The stale read's completion, consumed last, overwrites the buffer of the read that was
      answered Done(Ok). */
  lemma StaleOverwrites(b: Sys, i: nat) returns (acts: seq<Action>, t: Sys)
    requires Follows(b, b) && FreshlyBooked(b, i) && Stale(b, i)
    ensures DeviceRun(b, acts, t) && |t.slots| == |t.h.owner| == QUEUE_DEPTH && t.h.owner == b.h.owner
    ensures t.slots[i] == b.slots[i].(state := Done(Ok(()))) && !Delivered(t, i)
  {
    hide Follows, Loose, IdsHold, FreshlyBooked, Stale, DeviceRun, CanReap, CopyInside, Reap;
    BookedIndex(b, i);
    var o := 1 - i;
    FollowsParts(b, b);
    var ki, ko := b.h.owner[i], b.h.owner[o];
    var a1, s1 := AnswerBoth(b, i);
    FollowsAlong(b, b, a1, s1);
    FollowsParts(b, s1);
    assert s1.h.posts[|s1.h.posts| - 1].req in PostsFrom(s1.h, s1.h.reaped);
    var a2, s2 := DrainTo(s1, ko);
    FollowsAlong(b, s1, a2, s2);
    FollowsParts(b, s2);
    FollowsSame(b, s1);
    FollowsSame(b, s2);
    LooseCredits(s2);
    DeviceJoin(b, a1, s1, a2, s2);
    LastPost(s1, s2, ko);
    DeviceOne(b, a1 + a2, s2, ActReap);
    acts, t := a1 + a2 + [ActReap], Reap(s2);
    FirstIsDone(b, s2, i);
    OverwrittenBy(b, s2, i);
  }

  /** The last completion posted is consumed when all others are. */
  lemma LastPost(s: Sys, t: Sys, k: nat)
    requires Loose(t) && t.h.posts == s.h.posts && s.h.posts != [] && s.h.posts[|s.h.posts| - 1].req == k
    requires t.h.reaped < |t.h.posts| && t.h.posts[t.h.reaped].req == k
    ensures t.h.reaped == |t.h.posts| - 1
  {
    hide SlotsHold, OutcomesHold, SqHolds, CqHolds, ReapedHold, Roomy;
  }

  /** A read whose completion was consumed is answered. */
  lemma FirstIsDone(b: Sys, s: Sys, i: nat)
    requires Follows(b, s) && FreshlyBooked(b, i) && |s.slots| == |s.h.owner| == QUEUE_DEPTH && s.h.reaped > 0
    requires s.h.reaped <= |s.h.posts|
    requires s.h.posts[s.h.reaped - 1].req == s.h.owner[i] && s.h.owner[i] in s.h.outcomes
    requires s.h.outcomes[s.h.owner[i]].ok
    ensures s.slots[i] == b.slots[i].(state := Done(Ok(())))
  {
    hide SqHolds, CqHolds, Roomy, OutcomesHold, IdsHold, NoWrites, BothBounced, ReapedHold;
    SlotRange(s, i);
  }

  /** The completion at the head is slot `o`'s own. */
  lemma CreditedTo(s: Sys, o: nat) returns (w: nat)
    requires Loose(s) && IdsHold(s.nextCid, s.slots, s.h) && DeviceStep(s, ActReap)
    requires o < QUEUE_DEPTH == |s.slots| == |s.h.owner| && s.slots[o].Booked()
    requires s.h.posts[s.h.reaped].req == s.h.owner[o]
    ensures w == o && s.slots[o].Waiting() && s.h.owner[o] in s.h.outcomes
    ensures s.slots[o].dst != 0 ==>
              s.slots[o].dst + s.slots[o].len <= |s.ram| && s.slots[o].bounce + s.slots[o].len <= |s.ram|
    ensures Reap(s).ram == CopyOut(s.ram, s.slots[o], s.h.outcomes[s.h.owner[o]].ok)
    ensures Reap(s).slots == s.slots[o := s.slots[o].(state := Answer(s.h.outcomes[s.h.owner[o]].ok))]
    ensures Reap(s).h.owner == s.h.owner && Reap(s).h.outcomes == s.h.outcomes
  {
    hide Loose, IdsHold, Reap, CopyOut;
    w := ReapEffect(s);
    SlotRange(s, o);
    NotStray(s, o);
  }

  lemma NotStray(s: Sys, o: nat)
    requires Loose(s) && o < QUEUE_DEPTH && s.slots[o].Booked()
    ensures |s.h.owner| == QUEUE_DEPTH && s.h.owner[o] !in s.h.strays
  {
    hide SqHolds, CqHolds, Roomy, OutcomesHold, ReapedHold, StagesHold;
    assert SlotHolds(s.slots[o], s.h.owner[o], s.h);
  }

  lemma OverwrittenBy(b: Sys, s: Sys, i: nat)
    requires Follows(b, s) && FreshlyBooked(b, i) && Stale(b, i) && DeviceStep(s, ActReap)
    requires |s.slots| == |s.h.owner| == QUEUE_DEPTH
    requires var ki, ko := s.h.owner[i], s.h.owner[1 - i];
             && s.h.posts[s.h.reaped].req == ko && s.slots[i].state == Done(Ok(()))
             && ki in s.h.outcomes && ko in s.h.outcomes && s.h.outcomes[ki].ok && s.h.outcomes[ko].ok
    ensures Reap(s).slots[i] == s.slots[i] && |Reap(s).slots| == QUEUE_DEPTH && Reap(s).h.owner == s.h.owner
    ensures !Delivered(Reap(s), i)
  {
    hide Follows, FreshlyBooked, Stale, Loose, IdsHold, NoWrites, Reap, CopyOut, Blit, CanReap, CopyInside;
    FollowsParts(b, s);
    BookedIndex(b, i);
    var o := 1 - i;
    var p := BytesDiffer(b, s, i);
    SlotRange(s, i);
    var w := CreditedTo(s, o);
    CopyDelivers(s, o);
    var t, mine := Reap(s), s.h.outcomes[s.h.owner[i]].data;
    assert t.ram[s.slots[i].dst..s.slots[i].dst + |mine|][p - s.slots[i].dst] == t.ram[p];
  }

  /** Two slots' reads brought different bytes to address `p`. */
  ghost predicate Differ(a: IoSlot, x: seq<u8>, b: IoSlot, y: seq<u8>, p: int) {
    && |x| == a.len && |y| == b.len && 0 <= p - a.dst < |x| && 0 <= p - b.dst < |y|
    && x[p - a.dst] != y[p - b.dst]
  }

  /** A stale read and slot `i`'s brought different bytes to some address. */
  lemma BytesDiffer(b: Sys, s: Sys, i: nat) returns (p: int)
    requires Follows(b, s) && FreshlyBooked(b, i) && Stale(b, i) && |s.slots| == |s.h.owner| == QUEUE_DEPTH
    requires var ki, ko := s.h.owner[i], s.h.owner[1 - i];
             ki in s.h.outcomes && ko in s.h.outcomes && s.h.outcomes[ki].ok && s.h.outcomes[ko].ok
    ensures s.slots[1 - i].Booked() && s.slots[1 - i].dst != 0 && s.slots[i].Booked() && s.slots[i].dst != 0
    ensures Shared(s.slots, p)
    ensures Differ(s.slots[i], s.h.outcomes[s.h.owner[i]].data, s.slots[1 - i], s.h.outcomes[s.h.owner[1 - i]].data, p)
  {
    hide Loose, IdsHold, BothBounced, Brings;
    SlotRange(s, i);
    p :| Shared(b.slots, p) && Brings(b, 1 - i, p) != Brings(b, i, p);
    BringsIs(b, s, i, p);
    BringsIs(b, s, 1 - i, p);
  }

  // ------------------------------------------------------------ exactly when a read is right

  lemma BookedIds(s: Sys, i: nat, sqe: Words, payload: seq<u8>, dst: nat, len: nat)
    requires Inv(s) && FitsAnywhere(s, i, sqe, payload, dst, len) && IdFree(s.slots, s.h, s.nextCid)
    ensures s.tail < |s.sq| && |s.h.owner| == |s.h.bookedAt| == QUEUE_DEPTH
    ensures var b := Book(s, i, sqe, payload, dst, len);
            |b.slots| == |b.h.owner| == |b.h.bookedAt| == QUEUE_DEPTH && IdsHold(b.nextCid, b.slots, b.h)
  {
    hide StagesHold, OutcomesHold, SlotsHold, IdsHold, LayoutHolds, DataHolds, LogHolds, SqHolds, EntriesHold,
         ReapedHold, Interpret, Describe, DstOwn, Stored, IdFree;
    TailInside(s);
    LiveFacts(s.jobs, s.h);
    InterpretCid(sqe);
    BookIds(s.nextCid, s.slots, s.h, i, Request(Interpret(Decode(sqe)), payload), dst, len);
  }

  /** Two reads share destinations only when no write is out. */
  lemma BookedFollows(s: Sys, i: nat, sqe: Words, dst: nat, len: nat)
    requires Inv(s) && FitsAnywhere(s, i, sqe, [], dst, len) && IdFree(s.slots, s.h, s.nextCid)
    requires Interpret(Decode(sqe)).kind == Read && s.slots[1 - i].dst != 0
    ensures s.tail < |s.sq| && |s.h.owner| == |s.h.bookedAt| == QUEUE_DEPTH
    ensures var b := Book(s, i, sqe, [], dst, len); Follows(b, b) && FreshlyBooked(b, i)
  {
    hide StagesHold, OutcomesHold, IdsHold, LayoutHolds, LogHolds, SqHolds, EntriesHold, ReapedHold, Interpret, DstOwn,
         Stored, IdFree, Loose;
    BookLoose(s, i, sqe, [], dst, len);
    BookedIds(s, i, sqe, [], dst, len);
    OutcomeFacts(s.h, FetchCount(s));
    LiveFacts(s.jobs, s.h);
    FlushNotRun(s);
    var b := Book(s, i, sqe, [], dst, len);
    assert SlotHolds(s.slots[1 - i], s.h.owner[1 - i], s.h) && SlotHolds(s.slots[i], s.h.owner[i], s.h);
    assert s.slots[1 - i].Booked() ==> SlotData(s.slots[1 - i], s.h.owner[1 - i], s.ram, s.h);
    assert BothBounced(b);
    assert NoWrites(b.h);
    NotPosted(s);
  }

  lemma NotPosted(s: Sys)
    requires Inv(s)
    ensures |s.h.reqs| !in PostsFrom(s.h, 0)
  {
    hide StagesHold, OutcomesHold, SlotsHold, IdsHold, LayoutHolds, DataHolds, LogHolds, SqHolds, EntriesHold,
         ReapedHold;
    forall p | 0 <= p < |s.h.posts|
      ensures s.h.posts[p].req != |s.h.reqs|
    {
      PostFacts(s.jobs, s.h, p);
    }
  }

  /** Where no destination is shared, the read is right whatever happens. */
  lemma ClearDelivered(s: Sys, i: nat, sqe: Words, dst: nat, len: nat, acts: seq<Action>, t: Sys)
    requires Inv(s) && CanBook(s, i, sqe, [], dst, len) && Interpret(Decode(sqe)).kind == Read
    requires s.tail < |s.sq| && |s.h.owner| == |s.h.bookedAt| == QUEUE_DEPTH
    requires DeviceRun(Book(s, i, sqe, [], dst, len), acts, t)
    ensures Delivered(t, i)
  {
    hide Inv, Book, DeviceRun, Interpret, IdFree, Describe, DstClear, Stored;
    BookKeeps(s, i, sqe, [], dst, len);
    DeviceIsPath(Book(s, i, sqe, [], dst, len), acts, t);
    DeliveredInv(t, i);
  }

  lemma DeliveredInv(t: Sys, i: nat)
    requires Inv(t) && i < QUEUE_DEPTH
    ensures Delivered(t, i)
  {
    hide StagesHold, OutcomesHold, IdsHold, LayoutHolds, LogHolds, SqHolds, EntriesHold, ReapedHold, Stored;
    if t.slots[i].Booked() && t.slots[i].dst != 0 && t.slots[i].state == Done(Ok(())) {
      assert SlotHolds(t.slots[i], t.h.owner[i], t.h) && SlotData(t.slots[i], t.h.owner[i], t.ram, t.h);
    }
  }

  /** Exactly when a read is right.  Every continuation that answers it Done(Ok) leaves its bytes
      in its buffer if and only if the other slot is not stale: not waiting for an unanswered
      read that brings other bytes to a shared part of the destination. */
  lemma DestinationExact(s: Sys, i: nat, sqe: Words, dst: nat, len: nat)
    requires Inv(s) && FitsAnywhere(s, i, sqe, [], dst, len) && IdFree(s.slots, s.h, s.nextCid)
    requires Interpret(Decode(sqe)).kind == Read
    ensures s.tail < |s.sq| && |s.h.owner| == |s.h.bookedAt| == QUEUE_DEPTH
    ensures var b := Book(s, i, sqe, [], dst, len);
            !Stale(b, i) <==> forall acts: seq<Action>, t: Sys :: DeviceRun(b, acts, t) ==> Delivered(t, i)
  {
    hide Inv, Interpret, DeviceRun, IdFree, Delivered, Book, Describe, DstOwn, Stored;
    BookedIds(s, i, sqe, [], dst, len);
    var b := Book(s, i, sqe, [], dst, len);
    if Fits(s, i, sqe, [], dst, len) {
      forall acts: seq<Action>, t: Sys | DeviceRun(b, acts, t)
        ensures Delivered(t, i)
      {
        ClearDelivered(s, i, sqe, dst, len, acts, t);
      }
      ClearNotStale(s, i, sqe, dst, len);
    } else {
      SharedWhenNotClear(s, i, sqe, dst, len);
      BookedFollows(s, i, sqe, dst, len);
      if Stale(b, i) {
        var acts, t := StaleOverwrites(b, i);
      } else {
        forall acts: seq<Action>, t: Sys | DeviceRun(b, acts, t)
          ensures Delivered(t, i)
        {
          assert Delivered(b, i) by { PendingDelivered(b, i); }
          DeliveredAlong(b, b, acts, t, i);
        }
      }
    }
  }

  lemma PendingDelivered(b: Sys, i: nat)
    requires FreshlyBooked(b, i)
    ensures Delivered(b, i)
  {
  }

  lemma ClearNotStale(s: Sys, i: nat, sqe: Words, dst: nat, len: nat)
    requires Inv(s) && Fits(s, i, sqe, [], dst, len) && Interpret(Decode(sqe)).kind == Read
    requires s.tail < |s.sq| && |s.h.owner| == |s.h.bookedAt| == QUEUE_DEPTH
    ensures !Stale(Book(s, i, sqe, [], dst, len), i)
  {
    hide Inv, Interpret, Stored;
    var b := Book(s, i, sqe, [], dst, len);
    assert dst != 0;
    if b.slots[1 - i].dst != 0 {
      assert forall p :: !Shared(b.slots, p);
    }
  }

  lemma SharedWhenNotClear(s: Sys, i: nat, sqe: Words, dst: nat, len: nat)
    requires FitsAnywhere(s, i, sqe, [], dst, len) && !Fits(s, i, sqe, [], dst, len)
    ensures s.slots[1 - i].dst != 0
  {
    hide Interpret, Stored;
  }
}
