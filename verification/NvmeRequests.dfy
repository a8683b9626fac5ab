/** What one request can rely on while it waits: the lemmas a caller of submit and poll uses. */
module NvmeRequests {
  import opened Machine
  import opened NvmeProtocol
  import opened NvmeModel
  import opened NvmeSteps
  import opened NvmeRuns

  /** What may happen while a caller waits in `poll`: the controller's actions, and reaping. */
  ghost predicate Background(acts: seq<Action>) {
    forall n :: 0 <= n < |acts| ==> acts[n].ActFetch? || acts[n].ActRun? || acts[n].ActPublish? || acts[n].ActReap?
  }

  /** Everything the background leaves alone. */
  ghost predicate Settled(s: Sys, t: Sys) {
    && t.nextCid == s.nextCid && |t.ram| == |s.ram| && |t.disk| == |s.disk|
    && t.h.reqs == s.h.reqs && t.h.owner == s.h.owner && t.h.bookedAt == s.h.bookedAt && t.h.reserved == s.h.reserved
    && t.h.strays <= s.h.strays
    && |t.slots| == |s.slots|
    && forall i :: 0 <= i < |s.slots| ==> t.slots[i] == s.slots[i].(state := t.slots[i].state)
  }

  lemma SettledStep(s: Sys, a: Action)
    requires Enabled(s, a) && Background([a])
    ensures Settled(s, Do(s, a))
  {
    hide OutcomesHold, StagesHold, SlotsHold, IdsHold, LayoutHolds, DataHolds, LogHolds, SqHolds, EntriesHold,
         ReapedHold, CanPost, CopyInside;
    assert [a][0] == a;
  }

  lemma {:induction false} SettledAlong(s: Sys, acts: seq<Action>, t: Sys)
    requires Inv(s) && Path(s, acts, t) && Background(acts)
    ensures Inv(t) && Settled(s, t)
    decreases |acts|
  {
    hide Inv, Enabled, Do;
    if acts != [] {
      assert Background([acts[0]]) && Background(acts[1..]);
      SettledStep(s, acts[0]);
      SettledAlong(Do(s, acts[0]), acts[1..], t);
    }
  }

  lemma BackgroundJoin(a: seq<Action>, b: seq<Action>)
    requires Background(a) && Background(b)
    ensures Background(a + b)
  {
  }

  // ------------------------------------------------------------ other callers

  /** What a caller relies on while its call is under way.  Between its own critical sections
      other callers may submit, poll and flush.  They make at most `bookings` reservations, they
      flush only if `flushes`, they write only bytes of the medium that `writes` allows, and
      they read only into buffers off this caller's own, `at..at + len`. */
  datatype Rely = Rely(bookings: nat, flushes: bool, writes: int -> bool, at: nat, len: nat)

  ghost predicate Fair(a: Action, rely: Rely) {
    match a
    case ActBook(i, sqe, payload, dst, len) =>
      && rely.bookings > 0
      && (dst != 0 ==> Apart(rely.at, rely.len, dst, len))
      && (Interpret(Decode(sqe)).kind == Write ==>
            forall x :: Interpret(Decode(sqe)).Covers(x) ==> rely.writes(x))
    case ActFlush(_) => rely.flushes
    case _ => true
  }

  /** Any actions of the controller and of fair callers, none of which holds slot `mine`. */
  ghost predicate Others(acts: seq<Action>, mine: nat, rely: Rely) {
    forall n :: 0 <= n < |acts| ==> Fair(acts[n], rely) && acts[n] != ActRelease(mine)
  }

  lemma BackgroundOthers(acts: seq<Action>, mine: nat, rely: Rely)
    requires Background(acts)
    ensures Others(acts, mine, rely)
  {
  }

  lemma OthersJoin(a: seq<Action>, b: seq<Action>, mine: nat, rely: Rely)
    requires Others(a, mine, rely) && Others(b, mine, rely)
    ensures Others(a + b, mine, rely)
  {
  }

  lemma OthersAvoid(acts: seq<Action>, mine: nat, rely: Rely, x: int)
    requires Others(acts, mine, rely) && !rely.writes(x)
    ensures forall n :: 0 <= n < |acts| ==> Avoids(acts[n], x)
  {
    forall n | 0 <= n < |acts|
      ensures Avoids(acts[n], x)
    {
      assert Fair(acts[n], rely);
    }
  }

  /** A state a caller may go on from: a slot in use was so before, or was booked by a fair
      caller since. */
  ghost predicate Onward(s: Sys, t: Sys, rely: Rely) {
    && |t.ram| == |s.ram| && |t.disk| == |s.disk|
    && |t.slots| == |s.slots| == |t.h.bookedAt| == |s.h.bookedAt|
    && s.h.reserved <= t.h.reserved && |s.h.reqs| <= |t.h.reqs|
    && (t.h.strays <= s.h.strays || rely.flushes)
    && forall i :: 0 <= i < |s.slots| ==> SlotOnward(s, t, rely, i)
  }

  ghost predicate SlotOnward(s: Sys, t: Sys, rely: Rely, i: nat)
    requires i < |t.slots| == |s.slots| == |t.h.bookedAt| == |s.h.bookedAt|
  {
    && t.slots[i].bounce == s.slots[i].bounce
    && (t.slots[i].dst != 0 ==>
          || (t.slots[i].dst == s.slots[i].dst && t.slots[i].len == s.slots[i].len)
          || Apart(rely.at, rely.len, t.slots[i].dst, t.slots[i].len))
    && (t.slots[i].Booked() ==>
          || (s.slots[i].Booked() && t.h.bookedAt[i] == s.h.bookedAt[i])
          || (rely.bookings > 0 && s.h.reserved <= t.h.bookedAt[i]))
  }

  lemma OnwardSame(s: Sys, rely: Rely)
    requires Shape(s)
    ensures Onward(s, s, rely)
  {
  }

  lemma OnwardJoin(s: Sys, t: Sys, u: Sys, rely: Rely)
    requires Onward(s, t, rely) && Onward(t, u, rely)
    ensures Onward(s, u, rely)
  {
    forall i | 0 <= i < |s.slots|
      ensures SlotOnward(s, u, rely, i)
    {
      assert SlotOnward(s, t, rely, i) && SlotOnward(t, u, rely, i);
    }
  }

  lemma OnwardStep(s: Sys, a: Action, rely: Rely)
    requires Enabled(s, a) && Fair(a, rely)
    ensures Onward(s, Do(s, a), rely)
    ensures Do(s, a).h.reserved == s.h.reserved + (if a.ActBook? then 1 else 0)
  {
    if a.ActReap? {
      hide *;
      ReapIsDo(s);
      EnabledInv(s, a);
      InvShape(s);
      ReapOnward(s, rely);
    } else {
      hide OutcomesHold, StagesHold, SlotsHold, IdsHold, LayoutHolds, DataHolds, LogHolds, SqHolds, EntriesHold,
           ReapedHold, Describe, CanPost, Interpret, IdFree, Scatter, Gather, CopyInside, DstClear, Blit, Stored, Apart;
      InvShape(s);
    }
  }

  lemma ReapOnward(s: Sys, rely: Rely)
    requires Shape(s) && CanReap(s) && s.h.reaped < |s.h.posts| && CopyInside(s.slots, |s.ram|)
    ensures Onward(s, Reap(s), rely) && Reap(s).h.reserved == s.h.reserved
  {
    hide CanReap, CopyInside, FindSlot, CopyOut;
  }

  lemma {:induction false} OnwardAlong(s: Sys, acts: seq<Action>, t: Sys, mine: nat, rely: Rely)
    requires Inv(s) && Path(s, acts, t) && Others(acts, mine, rely)
    ensures Inv(t) && Onward(s, t, rely)
    decreases |acts|
  {
    hide Inv, Enabled, Do, Fair, Onward;
    if acts == [] {
      InvShape(s);
      OnwardSame(s, rely);
    } else {
      assert Fair(acts[0], rely) && Others(acts[1..], mine, rely);
      OnwardStep(s, acts[0], rely);
      OnwardAlong(Do(s, acts[0]), acts[1..], t, mine, rely);
      OnwardJoin(s, Do(s, acts[0]), t, rely);
    }
  }

  lemma EnabledInv(s: Sys, act: Action)
    requires Enabled(s, act)
    ensures Inv(s)
  {
  }

  // ------------------------------------------------------------ memory no request touches

  /** A range of memory no slot's buffers touch. */
  predicate Untouched(slots: seq<IoSlot>, at: nat, len: nat) {
    BounceClear(slots, at, len) && DstFree(slots, at, len)
  }

  /** A buffer of a caller's own: off the driver's bounce buffers. */
  predicate BounceClear(slots: seq<IoSlot>, at: nat, len: nat) {
    forall i :: 0 <= i < |slots| ==> Apart(at, len, slots[i].bounce, RUN_BYTES)
  }

  /** No slot's destination overlaps the range. */
  predicate DstFree(slots: seq<IoSlot>, at: nat, len: nat) {
    forall i :: 0 <= i < |slots| && slots[i].dst != 0 ==> Apart(at, len, slots[i].dst, slots[i].len)
  }

  lemma RamStep(s: Sys, a: Action, at: nat, len: nat)
    requires Enabled(s, a) && Untouched(s.slots, at, len) && at + len <= |s.ram|
    ensures |Do(s, a).ram| == |s.ram| && Do(s, a).ram[at..at + len] == s.ram[at..at + len]
  {
    if a.ActRun? {
      RunRam(s, a, at, len);
    } else if a.ActReap? {
      hide *;
      ReapIsDo(s);
      ReapRam(s, at, len);
    } else if a.ActFill? {
      FillRam(s, a, at, len);
    } else {
      hide OutcomesHold, StagesHold, SlotsHold, IdsHold, LayoutHolds, DataHolds, LogHolds, SqHolds, EntriesHold,
           ReapedHold, Describe, CanPost, Interpret, IdFree, DstClear, Untouched;
    }
  }

  lemma RunRam(s: Sys, a: Action, at: nat, len: nat)
    requires Enabled(s, a) && a.ActRun? && Untouched(s.slots, at, len) && at + len <= |s.ram|
    ensures |Do(s, a).ram| == |s.ram| && Do(s, a).ram[at..at + len] == s.ram[at..at + len]
  {
    hide Inv, Enabled, Do, Scatter, Gather, Moved;
    var i := RunIsDo(s, a.j, a.ok, a.junk);
    var op := s.jobs[a.j].op;
    if op.kind == Read {
      BlitElsewhere(s.ram, s.slots[i].bounce, Moved(s, op, a.ok, a.junk), at, at + len);
    }
  }

  lemma FillRam(s: Sys, a: Action, at: nat, len: nat)
    requires Enabled(s, a) && a.ActFill? && Untouched(s.slots, at, len) && at + len <= |s.ram|
    ensures |Do(s, a).ram| == |s.ram| && Do(s, a).ram[at..at + len] == s.ram[at..at + len]
  {
    hide OutcomesHold, StagesHold, SlotsHold, IdsHold, DataHolds, LogHolds, SqHolds, EntriesHold, ReapedHold,
         LayoutHolds, Blit;
    FillKeeps(s, a.i, a.data);
    BlitElsewhere(s.ram, s.slots[a.i].bounce, a.data, at, at + len);
  }

  lemma ReapRam(s: Sys, at: nat, len: nat)
    requires CanReap(s) && s.h.reaped < |s.h.posts| && CopyInside(s.slots, |s.ram|)
    requires Untouched(s.slots, at, len) && at + len <= |s.ram|
    ensures |Reap(s).ram| == |s.ram| && Reap(s).ram[at..at + len] == s.ram[at..at + len]
  {
    var i := FindSlot(s.slots, s.cq[s.head].commandId);
    if i < |s.slots| && s.slots[i].dst != 0 {
      var slot := s.slots[i];
      BlitElsewhere(s.ram, slot.dst, s.ram[slot.bounce..slot.bounce + slot.len], at, at + len);
    }
  }

  /** A fair caller's bookings leave a part of this caller's buffer untouched. */
  lemma UntouchedOnward(s: Sys, t: Sys, rely: Rely, at: nat, len: nat)
    requires Untouched(s.slots, at, len) && Onward(s, t, rely) && rely.at <= at && at + len <= rely.at + rely.len
    ensures Untouched(t.slots, at, len)
  {
    forall i | 0 <= i < |t.slots|
      ensures Apart(at, len, t.slots[i].bounce, RUN_BYTES)
      ensures t.slots[i].dst != 0 ==> Apart(at, len, t.slots[i].dst, t.slots[i].len)
    {
      assert SlotOnward(s, t, rely, i);
    }
  }

  lemma {:induction false} RamAlong(s: Sys, acts: seq<Action>, t: Sys, mine: nat, rely: Rely, at: nat, len: nat)
    requires Inv(s) && Path(s, acts, t) && Others(acts, mine, rely)
    requires Untouched(s.slots, at, len) && at + len <= |s.ram| && rely.at <= at && at + len <= rely.at + rely.len
    ensures |t.ram| == |s.ram| && t.ram[at..at + len] == s.ram[at..at + len]
    decreases |acts|
  {
    hide Inv, Enabled, Do, Fair, Untouched, Onward;
    if acts != [] {
      assert Fair(acts[0], rely) && Others(acts[1..], mine, rely);
      RamStep(s, acts[0], at, len);
      OnwardStep(s, acts[0], rely);
      UntouchedOnward(s, Do(s, acts[0]), rely, at, len);
      RamAlong(Do(s, acts[0]), acts[1..], t, mine, rely, at, len);
    }
  }

  // ------------------------------------------------------------ writers

  ghost predicate NoWriter(h: History, x: int) {
    forall m :: !Writes(h, m, x)
  }

  /** No write to this range of the medium is on its way. */
  ghost predicate Calm(h: History, lo: int, hi: int) {
    forall x :: lo <= x < hi ==> NoWriter(h, x)
  }

  lemma QuietWhenOne(h: History, x: int, k: nat)
    ensures NoWriter(h, x) <==> Quiet(h, x, k) && !Writes(h, k, x)
  {
  }

  /** A new submission is the only writer the range may have gained. */
  lemma BookQuiet(s: Sys, i: nat, sqe: Words, payload: seq<u8>, dst: nat, len: nat, x: int)
    requires s.tail < |s.sq| && i < |s.slots| && i < |s.h.owner| && i < |s.h.bookedAt|
    requires NoWriter(s.h, x)
    ensures Quiet(Book(s, i, sqe, payload, dst, len).h, x, |s.h.reqs|)
  {
    var g := Book(s, i, sqe, payload, dst, len).h;
    forall m | m != |s.h.reqs|
      ensures !Writes(g, m, x)
    {
      assert !Writes(s.h, m, x);
    }
  }

  // ------------------------------------------------------------ one read, one write

  /** A read submitted with no write to its range on its way, and none submitted since: when
      its slot says Done(Ok), the caller's buffer holds the medium's bytes of before and after,
      whatever else the callers and the controller did meanwhile. */
  lemma ReadDone(s: Sys, acts: seq<Action>, t: Sys, i: nat)
    requires Inv(s) && Path(s, acts, t)
    requires i < QUEUE_DEPTH && s.slots[i].Waiting()
    requires forall n :: 0 <= n < |acts| ==> acts[n] != ActRelease(i)
    requires var k := s.h.owner[i];
             && k < |s.h.reqs| && s.h.reqs[k].op.kind == Read && k !in s.h.outcomes
             && s.h.reqs[k].op.lo + s.h.reqs[k].op.size <= |s.disk|
             && Calm(s.h, s.h.reqs[k].op.lo, s.h.reqs[k].op.lo + s.h.reqs[k].op.size)
             && forall n, x :: 0 <= n < |acts| && s.h.reqs[k].op.Covers(x) ==> Avoids(acts[n], x)
    requires |t.slots| == QUEUE_DEPTH && t.slots[i].state == Done(Ok(()))
    ensures var op := s.h.reqs[s.h.owner[i]].op;
            Stored(t.ram, s.slots[i].dst, s.disk[op.lo..op.lo + op.size])
  {
    hide Inv, Path, Avoids;
    InvShape(s);
    var k := s.h.owner[i];
    var op := s.h.reqs[k].op;
    SlotKept(s, acts, t, i);
    PathGrows(s, acts, t);
    DoneMeansCompleted(t, i);
    OutcomeSizes(t);
    var data := t.h.outcomes[k].data;
    forall x | op.lo <= x < op.lo + op.size
      ensures data[x - op.lo] == s.disk[x]
    {
      QuietWhenOne(s.h, x, k);
      assert op.Covers(x);
      ReadAlong(s, acts, t, x, k);
    }
    assert forall n :: 0 <= n < |data| ==> data[n] == s.disk[op.lo + n];
    assert data == s.disk[op.lo..op.lo + op.size];
  }

  /** A write that is the only one on its way to a byte, with none submitted since: when its
      slot says Done(Ok), the medium has its byte there; and whatever it answers, bytes off its
      range are as before. */
  lemma WriteDone(s: Sys, acts: seq<Action>, t: Sys, i: nat, x: int)
    requires Inv(s) && Path(s, acts, t)
    requires i < QUEUE_DEPTH && s.slots[i].Waiting() && 0 <= x < |s.disk|
    requires forall n :: 0 <= n < |acts| ==> acts[n] != ActRelease(i) && Avoids(acts[n], x)
    requires var k := s.h.owner[i];
             && k < |s.h.reqs| && s.h.reqs[k].op.kind == Write && k !in s.h.outcomes
             && |s.h.reqs[k].payload| == s.h.reqs[k].op.size
             && Quiet(s.h, x, k)
    requires |t.slots| == QUEUE_DEPTH
    ensures var r := s.h.reqs[s.h.owner[i]];
            && |t.disk| == |s.disk|
            && (!r.op.Covers(x) ==> t.disk[x] == s.disk[x])
            && (r.op.Covers(x) && t.slots[i].state == Done(Ok(())) ==> t.disk[x] == r.payload[x - r.op.lo])
            && (t.slots[i].state != Pending ==> NoWriter(t.h, x))
  {
    hide Inv, Path, Avoids, Quiet, NoWriter;
    InvShape(s);
    var k := s.h.owner[i];
    SlotKept(s, acts, t, i);
    PathGrows(s, acts, t);
    ByteAlong(s, acts, t, x, k);
    OutcomeSizes(t);
    QuietWhenOne(t.h, x, k);
    if t.slots[i].state != Pending {
      DoneMeansCompleted(t, i);
      WritePayload(t, k);
    }
  }

  lemma WritePayload(s: Sys, k: nat)
    requires Inv(s) && k in s.h.outcomes
    ensures k < |s.h.reqs|
    ensures (s.h.reqs[k].op.kind == Write && s.h.outcomes[k].ok ==> s.h.outcomes[k].data == s.h.reqs[k].payload)
  {
    hide SlotsHold, IdsHold, LayoutHolds, DataHolds, LogHolds, SqHolds, EntriesHold, ReapedHold, StagesHold;
    assert OutcomeHolds(s.h, k);
  }

  // ------------------------------------------------------------ from one call to the next

  /** A booked slot is the one its identifier names. */
  lemma FindMine(s: Sys, i: nat)
    requires Inv(s) && i < QUEUE_DEPTH && s.slots[i].Booked()
    ensures FindSlot(s.slots, s.slots[i].id) == i
  {
    hide StagesHold, OutcomesHold, SlotsHold, LayoutHolds, DataHolds, LogHolds, SqHolds, EntriesHold, ReapedHold;
    var o := 1 - i;
    assert s.slots[o].Booked() ==> s.slots[o].id != s.slots[i].id;
  }

  /** What booking slot `act.i` did, before anything else happened. */
  lemma JustBooked(s: Sys, act: Action)
    requires Enabled(s, act) && act.ActBook?
    ensures var t, i, k := Do(s, act), act.i, |s.h.reqs|;
            && i < QUEUE_DEPTH && !s.slots[i].Booked()
            && t.h.reqs == s.h.reqs + [Request(Interpret(Decode(act.sqe)), act.payload)]
            && t.h.owner[i] == k && k !in t.h.outcomes
            && t.slots == s.slots[i := IoSlot(s.nextCid, s.slots[i].bounce, act.dst, act.len, Pending)]
            && s.nextCid < 0x1_0000
            && t.disk == s.disk && t.ram == s.ram && t.h.strays == s.h.strays
            && t.h.bookedAt == s.h.bookedAt[i := s.h.reserved] && t.h.reserved == s.h.reserved + 1
            && Interpret(Decode(act.sqe)).lo + Interpret(Decode(act.sqe)).size <= |s.disk|
            && (forall x :: NoWriter(s.h, x) ==> Quiet(t.h, x, k))
  {
    hide StagesHold, OutcomesHold, SlotsHold, IdsHold, LayoutHolds, DataHolds, LogHolds, SqHolds, EntriesHold,
         ReapedHold, Interpret, IdFree, Describe, NoWriter, Quiet;
    OutcomeFacts(s.h, FetchCount(s));
    InterpretCid(act.sqe);
    TailInside(s);
    forall x | NoWriter(s.h, x)
      ensures Quiet(Do(s, act).h, x, |s.h.reqs|)
    {
      BookQuiet(s, act.i, act.sqe, act.payload, act.dst, act.len, x);
    }
  }

  /** Booked, waited for, released: a state to go on from. */
  lemma OnwardAfter(s: Sys, act: Action, bg: seq<Action>, u: Sys, rely: Rely)
    requires Enabled(s, act) && act.ActBook? && Path(Do(s, act), bg, u) && Others(bg, act.i, rely)
    ensures act.i < |u.slots|
    ensures Onward(s, Release(u, act.i), rely)
  {
    hide Inv, Enabled, Do, Path, Others, SlotOnward, Apart;
    JustBooked(s, act);
    OnwardAlong(Do(s, act), bg, u, act.i, rely);
    EnabledInv(s, act);
    InvShape(s);
    forall w | 0 <= w < |s.slots|
      ensures SlotOnward(s, Release(u, act.i), rely, w)
    {
      assert SlotOnward(Do(s, act), u, rely, w);
      SlotAfter(s, Do(s, act), u, rely, act.i, w);
    }
  }

  lemma SlotAfter(s: Sys, t: Sys, u: Sys, rely: Rely, i: nat, w: nat)
    requires w < |s.slots| == |t.slots| == |u.slots| == |s.h.bookedAt| == |t.h.bookedAt| == |u.h.bookedAt|
    requires i < |s.slots|
    requires t.slots[w].bounce == s.slots[w].bounce && s.h.reserved <= t.h.reserved
    requires w != i ==> t.slots[w] == s.slots[w] && t.h.bookedAt[w] == s.h.bookedAt[w]
    requires SlotOnward(t, u, rely, w)
    ensures SlotOnward(s, Release(u, i), rely, w)
  {
  }

  // ------------------------------------------------------------ unused identifiers

  /** The identifiers of the next `runs` reservations are all unused: no slot was, or will be,
      booked so long ago that they come round to its identifier, and none of them is a flush's
      where one may be out. */
  ghost predicate FreshFor(s: Sys, runs: nat, rely: Rely)
    requires |s.slots| <= |s.h.bookedAt|
  {
    && (runs > 0 && (rely.flushes || s.h.strays != {}) ==> 0 < s.nextCid && s.nextCid + runs <= 0x1_0000)
    && (rely.bookings > 0 ==> runs <= 0x1_0000)
    && forall i :: 0 <= i < |s.slots| && s.slots[i].Booked() ==> s.h.reserved + runs - s.h.bookedAt[i] <= 0x1_0000
  }

  lemma FreshNow(s: Sys, runs: nat, rely: Rely)
    requires Inv(s) && runs > 0 && FreshFor(s, runs, rely)
    ensures IdFree(s.slots, s.h, s.nextCid)
  {
    hide StagesHold, OutcomesHold, SlotsHold, LayoutHolds, DataHolds, LogHolds, SqHolds, EntriesHold, ReapedHold,
         IdFree;
    FreshIds(s);
  }

  lemma FreshLater(s: Sys, t: Sys, runs: nat, used: nat, rely: Rely)
    requires Inv(s) && Inv(t) && FreshFor(s, runs, rely) && used <= runs
    requires Onward(s, t, rely) && t.h.reserved == s.h.reserved + used
    ensures FreshFor(t, runs - used, rely)
  {
    hide StagesHold, OutcomesHold, SlotsHold, LayoutHolds, DataHolds, LogHolds, SqHolds, EntriesHold, ReapedHold;
    forall i | 0 <= i < |t.slots| && t.slots[i].Booked()
      ensures t.h.reserved + (runs - used) - t.h.bookedAt[i] <= 0x1_0000
    {
      assert SlotOnward(s, t, rely, i);
    }
    if runs - used > 0 && (rely.flushes || t.h.strays != {}) {
      assert rely.flushes || s.h.strays != {};
      NextId(s.h.reserved, used);
    }
  }

  lemma NextId(reserved: nat, used: nat)
    requires reserved % 0x1_0000 + used < 0x1_0000
    ensures (reserved + used) % 0x1_0000 == reserved % 0x1_0000 + used
  {
  }

  lemma FreshFewer(s: Sys, runs: nat, fewer: nat, rely: Rely)
    requires |s.slots| <= |s.h.bookedAt| && FreshFor(s, runs, rely) && fewer <= runs
    ensures FreshFor(s, fewer, rely)
  {
  }

  lemma UntouchedPart(slots: seq<IoSlot>, at: nat, len: nat, from: nat, n: nat)
    requires Untouched(slots, at, len) && at <= from && from + n <= at + len
    ensures Untouched(slots, from, n)
  {
  }

  /** Booking a destination elsewhere, and releasing a slot, keep a range untouched. */
  lemma UntouchedBooked(slots: seq<IoSlot>, i: nat, cid: u64, dst: nat, len: nat, at: nat, n: nat)
    requires i < |slots| && Untouched(slots, at, n) && Apart(at, n, dst, len)
    ensures Untouched(slots[i := IoSlot(cid, slots[i].bounce, dst, len, Pending)], at, n)
  {
  }

  // ------------------------------------------------------------ one call

  /** Bytes of the medium over a stretch of other callers' and the controller's actions. */
  lemma OthersByte(s: Sys, acts: seq<Action>, t: Sys, mine: nat, rely: Rely, x: int, k: nat)
    requires Inv(s) && Path(s, acts, t) && Others(acts, mine, rely) && 0 <= x < |s.disk| && Quiet(s.h, x, k)
    requires !rely.writes(x)
    ensures Quiet(t.h, x, k) && ByteRule(s, t, x, k)
  {
    hide Inv, Path, Others, Quiet, Avoids;
    OthersAvoid(acts, mine, rely, x);
    ByteAlong(s, acts, t, x, k);
  }

  /** A byte no write is on its way to, and none may be submitted to, stays. */
  lemma OthersKeep(s: Sys, acts: seq<Action>, t: Sys, mine: nat, rely: Rely, x: int)
    requires Inv(s) && Path(s, acts, t) && Others(acts, mine, rely) && 0 <= x < |s.disk| && NoWriter(s.h, x)
    requires !rely.writes(x)
    ensures |t.disk| == |s.disk| && t.disk[x] == s.disk[x] && NoWriter(t.h, x)
  {
    hide Inv, Path, Others, Quiet, NoWriter;
    var k := |t.h.reqs|;
    QuietWhenOne(s.h, x, k);
    OthersByte(s, acts, t, mine, rely, x, k);
    QuietWhenOne(t.h, x, k);
  }

  /** One read from submission to answer. */
  lemma ReadRound(s: Sys, act: Action, bg: seq<Action>, u: Sys, rely: Rely, at: nat, n: nat)
    requires Enabled(s, act) && act.ActBook? && Path(Do(s, act), bg, u) && Others(bg, act.i, rely) && Inv(u)
    requires var op := Interpret(Decode(act.sqe));
             op.kind == Read && op.size == act.len && act.dst != 0 && op.lo + op.size <= |s.disk|
    requires Untouched(s.slots, at, n) && Apart(at, n, act.dst, act.len) && at + n <= |s.ram|
    requires rely.at <= at && at + n <= rely.at + rely.len
    ensures |u.ram| == |s.ram| && u.ram[at..at + n] == s.ram[at..at + n]
    ensures forall x :: 0 <= x < |s.disk| && NoWriter(s.h, x) && !rely.writes(x) ==>
              |u.disk| == |s.disk| && u.disk[x] == s.disk[x] && NoWriter(u.h, x)
    ensures var op := Interpret(Decode(act.sqe));
            && |u.slots| == QUEUE_DEPTH && act.i < QUEUE_DEPTH
            && (u.slots[act.i].state == Done(Ok(())) && Still(s.h, rely, op.lo, op.lo + op.size) ==>
                  Stored(u.ram, act.dst, s.disk[op.lo..op.lo + op.size]))
  {
    hide Inv, Enabled, Do, Path, Others, Interpret, NoWriter, Quiet, Untouched, Avoids, Still;
    var t, i, k := Do(s, act), act.i, |s.h.reqs|;
    JustBooked(s, act);
    EnabledInv(s, act);
    InvShape(s);
    InvShape(u);
    UntouchedBooked(s.slots, i, s.nextCid, act.dst, act.len, at, n);
    RamAlong(t, bg, u, i, rely, at, n);
    PathGrows(t, bg, u);
    forall x | 0 <= x < |s.disk| && NoWriter(s.h, x) && !rely.writes(x)
      ensures |u.disk| == |s.disk| && u.disk[x] == s.disk[x] && NoWriter(u.h, x)
    {
      OthersByte(t, bg, u, i, rely, x, k);
      QuietWhenOne(u.h, x, k);
      assert u.h.reqs[k] == t.h.reqs[k];
    }
    var op := Interpret(Decode(act.sqe));
    if u.slots[i].state == Done(Ok(())) && Still(s.h, rely, op.lo, op.lo + op.size) {
      ReadRoundDone(s, act, bg, u, rely);
    }
  }

  /** No write to this range of the medium is on its way, and none may be submitted. */
  ghost predicate Still(h: History, rely: Rely, lo: int, hi: int) {
    forall x :: lo <= x < hi ==> NoWriter(h, x) && !rely.writes(x)
  }

  lemma ReadRoundDone(s: Sys, act: Action, bg: seq<Action>, u: Sys, rely: Rely)
    requires Enabled(s, act) && act.ActBook? && Path(Do(s, act), bg, u) && Others(bg, act.i, rely) && Inv(u)
    requires var op := Interpret(Decode(act.sqe));
             && op.kind == Read && act.dst != 0 && op.lo + op.size <= |s.disk|
             && Still(s.h, rely, op.lo, op.lo + op.size)
    requires |u.slots| == QUEUE_DEPTH && act.i < QUEUE_DEPTH && u.slots[act.i].state == Done(Ok(()))
    ensures var op := Interpret(Decode(act.sqe)); Stored(u.ram, act.dst, s.disk[op.lo..op.lo + op.size])
  {
    hide Inv, Enabled, Do, Path, Others, Interpret, NoWriter, Quiet, Avoids, Fair;
    var t, i, k, op := Do(s, act), act.i, |s.h.reqs|, Interpret(Decode(act.sqe));
    JustBooked(s, act);
    EnabledInv(s, act);
    InvShape(s);
    forall x | op.lo <= x < op.lo + op.size
      ensures NoWriter(t.h, x)
    {
      assert NoWriter(s.h, x);
      QuietWhenOne(t.h, x, k);
    }
    forall n, x | 0 <= n < |bg| && op.Covers(x)
      ensures Avoids(bg[n], x)
    {
      assert NoWriter(s.h, x);
      OthersAvoid(bg, i, rely, x);
    }
    OthersKeepMine(bg, i, rely);
    ReadDone(t, bg, u, i);
  }

  lemma OthersKeepMine(acts: seq<Action>, mine: nat, rely: Rely)
    requires Others(acts, mine, rely)
    ensures forall n :: 0 <= n < |acts| ==> acts[n] != ActRelease(mine)
  {
  }

  /** One write from submission to answer. */
  lemma WriteRound(s: Sys, act: Action, bg: seq<Action>, u: Sys, rely: Rely, x: int)
    requires Enabled(s, act) && act.ActBook? && Path(Do(s, act), bg, u) && Others(bg, act.i, rely) && Inv(u)
    requires Interpret(Decode(act.sqe)).kind == Write && Interpret(Decode(act.sqe)).size == |act.payload|
    requires 0 <= x < |s.disk| && NoWriter(s.h, x) && !rely.writes(x)
    ensures var op := Interpret(Decode(act.sqe));
            && |u.disk| == |s.disk| && |u.slots| == QUEUE_DEPTH && act.i < QUEUE_DEPTH
            && (!op.Covers(x) ==> u.disk[x] == s.disk[x])
            && (u.slots[act.i].state == Done(Ok(())) && op.Covers(x) ==> u.disk[x] == act.payload[x - op.lo])
            && (u.slots[act.i].state != Pending ==> NoWriter(u.h, x))
            && (!op.Covers(x) ==> NoWriter(u.h, x))
  {
    hide Inv, Enabled, Do, Path, Others, Interpret, NoWriter, Quiet, Avoids;
    var t, k := Do(s, act), |s.h.reqs|;
    JustBooked(s, act);
    EnabledInv(s, act);
    InvShape(s);
    InvShape(u);
    OthersAvoid(bg, act.i, rely, x);
    OthersKeepMine(bg, act.i, rely);
    WriteDone(t, bg, u, act.i, x);
    PathGrows(t, bg, u);
    OthersByte(t, bg, u, act.i, rely, x, k);
    QuietWhenOne(u.h, x, k);
    assert u.h.reqs[k] == t.h.reqs[k];
  }
}
