/** Whole runs of the queue pair: any number of callers, any controller schedule. */
module NvmeRuns {
  import opened Machine
  import opened NvmeProtocol
  import opened NvmeModel
  import opened NvmeSteps

  datatype Action =
    | ActFetch
    | ActRun(j: nat, ok: bool, junk: seq<u8>)
    | ActPublish(j: nat, code: nat, dw0: u32)
    | ActReap
    | ActFill(i: nat, data: seq<u8>)
    | ActBook(i: nat, sqe: Words, payload: seq<u8>, dst: nat, len: nat)
    | ActFlush(sqe: Words)
    | ActRelease(i: nat)

  /** What the driver and the controller may do.  The only conditions beyond the code's own
      checks are the caller's: a submission's identifier is unused, and its buffer its own. */
  ghost predicate Enabled(s: Sys, a: Action) {
    Inv(s) &&
    match a
    case ActFetch => CanFetch(s)
    case ActRun(j, ok, junk) => j < |s.jobs| && !s.jobs[j].ran && |junk| == s.jobs[j].op.size
    case ActPublish(j, code, dw0) => CanPost(s, j, code)
    case ActReap => CanReap(s)
    case ActFill(i, data) => i < QUEUE_DEPTH && !s.slots[i].Booked() && |data| <= RUN_BYTES
    case ActBook(i, sqe, payload, dst, len) => CanBook(s, i, sqe, payload, dst, len)
    case ActFlush(sqe) =>
      Interpret(Decode(sqe)) == FLUSH_OP && IdFree(s.slots, s.h, 0)
    case ActRelease(i) => i < QUEUE_DEPTH && s.slots[i].Booked() && s.slots[i].state != Pending
  }

  lemma InvShape(s: Sys)
    requires Inv(s)
    ensures Shape(s)
  {
  }

  lemma InvBounces(s: Sys)
    requires Inv(s)
    ensures |s.slots| == QUEUE_DEPTH
    ensures forall i :: 0 <= i < QUEUE_DEPTH ==>
              s.slots[i].bounce % NVME_PAGE_SIZE == 0 && s.slots[i].bounce + RUN_BYTES <= |s.ram|
  {
  }

  /** Every action the invariant enables is well defined, and keeps the invariant. */
  ghost function Do(s: Sys, a: Action): (t: Sys)
    requires Enabled(s, a)
    ensures Inv(t)
  {
    hide Inv, CanReap, IdFree, Interpret, Describe, DstClear;
    InvShape(s);
    match a
    case ActFetch => FetchKeeps(s); Fetch(s)
    case ActRun(j, ok, junk) => CanAlwaysRun(s, j, junk); RunKeeps(s, j, ok, junk); Run(s, j, ok, junk)
    case ActPublish(j, code, dw0) => PublishKeeps(s, j, code, dw0); Publish(s, j, code, dw0)
    case ActReap => ReapKeeps(s); Reap(s)
    case ActFill(i, data) => FillKeeps(s, i, data); Fill(s, i, data)
    case ActBook(i, sqe, payload, dst, len) =>
      BookKeeps(s, i, sqe, payload, dst, len);
      Book(s, i, sqe, payload, dst, len)
    case ActFlush(sqe) => FlushKeeps(s, sqe); Submit(s, sqe, [], true)
    case ActRelease(i) => ReleaseKeeps(s, i); Release(s, i)
  }

  /** `acts` leads from `s` to `t`. */
  ghost predicate Path(s: Sys, acts: seq<Action>, t: Sys)
    decreases |acts|
  {
    if acts == [] then s == t
    else Enabled(s, acts[0]) && Path(Do(s, acts[0]), acts[1..], t)
  }

  lemma {:induction false} PathKeeps(s: Sys, acts: seq<Action>, t: Sys)
    requires Inv(s) && Path(s, acts, t)
    ensures Inv(t)
    decreases |acts|
  {
    hide Inv, Enabled;
    if acts != [] {
      PathKeeps(Do(s, acts[0]), acts[1..], t);
    }
  }

  lemma {:induction false} PathJoin(s: Sys, a: seq<Action>, t: Sys, b: seq<Action>, u: Sys)
    requires Path(s, a, t) && Path(t, b, u)
    ensures Path(s, a + b, u)
    decreases |a|
  {
    hide Inv, Enabled, Do;
    if a == [] {
      assert a + b == b;
    } else {
      PathJoin(Do(s, a[0]), a[1..], t, b, u);
      assert (a + b)[1..] == a[1..] + b;
    }
  }

  lemma PathStep(s: Sys, acts: seq<Action>, t: Sys, a: Action)
    requires Path(s, acts, t) && Enabled(t, a)
    ensures Path(s, acts + [a], Do(t, a))
  {
    hide Inv, Enabled, Do;
    assert [a][1..] == [];
    assert Path(Do(t, a), [], Do(t, a));
    assert Path(t, [a], Do(t, a));
    PathJoin(s, acts, t, [a], Do(t, a));
  }

  // ------------------------------------------------------------ the initial state

  /** A controller just brought up: zeroed queues, phase tag 1 expected, free slots. */
  ghost predicate Initial(s: Sys) {
    && s.tail == s.head == s.nextCid == s.sqDb == s.cqDb == s.devHead == s.devTail == 0
    && s.phase && s.devPhase && s.jobs == []
    && |s.sq| == |s.cq| == QUEUE_ENTRIES && |s.slots| == QUEUE_DEPTH
    && (forall i :: 0 <= i < QUEUE_ENTRIES ==> s.cq[i].status == 0)
    && (forall i :: 0 <= i < QUEUE_DEPTH ==>
          && s.slots[i].id == SLOT_FREE && s.slots[i].state == Pending && s.slots[i].dst == 0
          && s.slots[i].bounce % NVME_PAGE_SIZE == 0 && s.slots[i].bounce + RUN_BYTES <= |s.ram|)
    && Apart(s.slots[0].bounce, RUN_BYTES, s.slots[1].bounce, RUN_BYTES)
    && |s.h.owner| == |s.h.bookedAt| == QUEUE_DEPTH
    && s.h == History([], [], 0, {}, {}, map[], [], s.disk, s.h.owner, s.h.bookedAt, 0)
  }

  lemma InitialInv(s: Sys)
    requires Initial(s)
    ensures Inv(s)
  {
  }

  // ------------------------------------------------------------ exactly-once, in order

  /** The entries the driver consumes along a path, in the order it consumes them. */
  ghost function Consumptions(s: Sys, acts: seq<Action>, t: Sys): (es: seq<Cqe>)
    requires Path(s, acts, t)
    decreases |acts|
  {
    if acts == [] then []
    else
      (if acts[0].ActReap? then [s.cq[s.head]] else [])
      + Consumptions(Do(s, acts[0]), acts[1..], t)
  }

  /** One action only appends to the history, and consumes a completion exactly when it reaps. */
  lemma HistoryGrows(s: Sys, a: Action)
    requires Enabled(s, a)
    ensures var t := Do(s, a);
            && s.h.posts <= t.h.posts && s.h.reqs <= t.h.reqs && s.h.log <= t.h.log
            && t.h.reaped == s.h.reaped + (if a.ActReap? then 1 else 0)
            && t.h.reaped <= |t.h.posts|
            && (forall k :: k in s.h.outcomes ==> k in t.h.outcomes && t.h.outcomes[k] == s.h.outcomes[k])
            && (forall k :: k < |s.h.reqs| && k in t.h.live ==> k in s.h.live)
  {
    hide Inv, CanFetch, CanBook, CanPost, CanReap, CanRun, IdFree, Interpret, CopyInside, Credited, CopyOut, Moved,
         Blit, Gather, Scatter, PrpInside, FindSlot, StatusWord;
    InvShape(Do(s, a));
    if a.ActRun? {
      NotYetRun(s, a.j);
    }
  }

  lemma NotYetRun(s: Sys, j: nat)
    requires Inv(s) && j < |s.jobs| && !s.jobs[j].ran
    ensures s.jobs[j].req !in s.h.outcomes
  {
    hide SlotsHold, IdsHold, LayoutHolds, DataHolds, LogHolds, SqHolds, EntriesHold, OutcomesHold, ReapedHold;
    assert JobHolds(s.jobs[j], FetchCount(s), s.h);
  }

  /** Over any path, through any number of ring wraps, the entries the driver consumes are
      the completions the controller posted: each once, in publication order, none stale. */
  lemma {:induction false} ConsumesInOrder(s: Sys, acts: seq<Action>, t: Sys)
    requires Inv(s) && Path(s, acts, t)
    ensures s.h.posts <= t.h.posts && s.h.reqs <= t.h.reqs
    ensures var es := Consumptions(s, acts, t);
            && |es| == t.h.reaped - s.h.reaped && t.h.reaped <= |t.h.posts|
            && forall e :: 0 <= e < |es| ==>
                 Carries(es[e], t.h.posts[s.h.reaped + e], t.h.reqs)
    decreases |acts|
  {
    hide StagesHold, SlotsHold, IdsHold, LayoutHolds, DataHolds, LogHolds, SqHolds, EntriesHold, OutcomesHold,
         ReapedHold, Enabled, Do;
    if acts != [] {
      var u := Do(s, acts[0]);
      HistoryGrows(s, acts[0]);
      ConsumesInOrder(u, acts[1..], t);
      if acts[0].ActReap? {
        ReapEnabled(s);
        PhaseTag(s);
        var es := Consumptions(s, acts, t);
        var rest := Consumptions(u, acts[1..], t);
        assert es == [s.cq[s.head]] + rest;
        forall e | 0 <= e < |es|
          ensures Carries(es[e], t.h.posts[s.h.reaped + e], t.h.reqs)
        {
          if e > 0 {
            assert es[e] == rest[e - 1];
            assert u.h.reaped + (e - 1) == s.h.reaped + e;
          }
        }
      }
    }
  }

  lemma ReapEnabled(s: Sys)
    requires Enabled(s, ActReap)
    ensures Inv(s) && CanReap(s)
  {
  }

  // ------------------------------------------------------------ tickets

  /** A slot answers Done only for the request it was booked for: the controller posted that
      request's completion exactly once, the answer is its status, and a successful read's
      bytes are in the caller's buffer. */
  lemma DoneMeansCompleted(s: Sys, i: nat)
    requires Inv(s) && i < QUEUE_DEPTH && s.slots[i].Booked() && s.slots[i].state != Pending
    ensures var k := s.h.owner[i];
            && Consumed(s.h, k) && k in s.h.outcomes && k < |s.h.reqs| && s.slots[i].id == s.h.reqs[k].op.cid
            && s.slots[i].state == Answer(s.h.outcomes[k].ok)
            && (forall p, q :: 0 <= p < q < |s.h.posts| ==> s.h.posts[p].req != k || s.h.posts[q].req != k)
            && (s.h.reqs[k].op.kind == Read && s.h.outcomes[k].ok ==>
                  Stored(s.ram, s.slots[i].dst, s.h.outcomes[k].data))
  {
    hide IdsHold, LayoutHolds, LogHolds, SqHolds, EntriesHold, OutcomesHold;
    assert SlotHolds(s.slots[i], s.h.owner[i], s.h);
    assert SlotData(s.slots[i], s.h.owner[i], s.ram, s.h);
  }

  /** One action leaves a booked slot's request, buffers and answer alone, unless it is the
      release of that slot; only its own completion can turn Pending into Done. */
  lemma SlotStep(s: Sys, a: Action, i: nat)
    requires Enabled(s, a) && i < QUEUE_DEPTH && s.slots[i].Booked() && a != ActRelease(i)
    ensures var t := Do(s, a);
            && |t.slots| == |t.h.owner| == QUEUE_DEPTH && t.h.owner[i] == s.h.owner[i]
            && t.slots[i] == s.slots[i].(state := t.slots[i].state)
            && (s.slots[i].state != Pending ==> t.slots[i] == s.slots[i])
            && (t.slots[i] != s.slots[i] ==>
                  a.ActReap? && s.h.reaped < |s.h.posts| && s.h.posts[s.h.reaped].req == s.h.owner[i])
  {
    if a.ActReap? {
      hide *;
      ReapIsDo(s);
      ReapSlotStep(s, i);
    } else {
      hide OutcomesHold, StagesHold, SlotsHold, IdsHold, LayoutHolds, DataHolds, LogHolds, SqHolds, EntriesHold,
           ReapedHold, Describe, CanPost, Interpret, IdFree, Scatter, Gather, CopyInside, DstClear;
      assert a.ActBook? ==> a.i != i;
    }
  }

  lemma ReapIsDo(s: Sys)
    requires Enabled(s, ActReap)
    ensures Inv(s) && CanReap(s) && s.h.reaped < |s.h.posts| && CopyInside(s.slots, |s.ram|)
    ensures Do(s, ActReap) == Reap(s)
  {
    hide Inv, CanReap, CopyInside, Reap;
    ReapKeeps(s);
  }

  lemma BookIsDo(s: Sys, i: nat, sqe: Words, payload: seq<u8>, dst: nat, len: nat)
    requires Inv(s) && CanBook(s, i, sqe, payload, dst, len)
    ensures Shape(s) && s.tail < |s.sq| && Inv(Book(s, i, sqe, payload, dst, len))
    ensures var a := ActBook(i, sqe, payload, dst, len);
            Enabled(s, a) && Do(s, a) == Book(s, i, sqe, payload, dst, len)
  {
    hide Inv, Book, IdFree, Describe, Interpret, DstClear;
    InvShape(s);
    BookKeeps(s, i, sqe, payload, dst, len);
  }

  /** Running a job that reads is a plain copy into the buffer of the slot that waits for it. */
  lemma RunIsDo(s: Sys, j: nat, ok: bool, junk: seq<u8>) returns (i: nat)
    requires Enabled(s, ActRun(j, ok, junk))
    ensures CanRun(s, j, junk) && Do(s, ActRun(j, ok, junk)) == Run(s, j, ok, junk)
    ensures i < |s.slots| && s.slots[i].bounce + RUN_BYTES <= |s.ram|
    ensures var op, data := s.jobs[j].op, Moved(s, s.jobs[j].op, ok, junk);
            op.kind == Read ==> |data| <= RUN_BYTES && Run(s, j, ok, junk).ram == Blit(s.ram, s.slots[i].bounce, data)
  {
    hide OutcomesHold, StagesHold, SlotsHold, IdsHold, DataHolds, LogHolds, SqHolds, EntriesHold, ReapedHold, Gather,
         Scatter;
    JobFacts(s.jobs, s.h, j);
    CanAlwaysRun(s, j, junk);
    i := 0;
    if s.jobs[j].op.kind == Read {
      i := HolderOf(s.slots, s.h, s.jobs[j].req);
      RunTransfer(s.ram, s.slots[i].bounce, Moved(s, s.jobs[j].op, ok, junk));
    }
  }

  lemma FillIsDo(s: Sys, i: nat, data: seq<u8>)
    requires Inv(s) && i < QUEUE_DEPTH && !s.slots[i].Booked() && |data| <= RUN_BYTES
    ensures Shape(s) && s.slots[i].bounce + |data| <= |s.ram| && Inv(Fill(s, i, data))
    ensures Enabled(s, ActFill(i, data)) && Do(s, ActFill(i, data)) == Fill(s, i, data)
  {
    hide Inv, Fill;
    FillKeeps(s, i, data);
    InvShape(s);
  }

  lemma ReapSlotStep(s: Sys, i: nat)
    requires Inv(s) && CanReap(s) && s.h.reaped < |s.h.posts| && CopyInside(s.slots, |s.ram|)
    requires i < QUEUE_DEPTH && s.slots[i].Booked()
    ensures var t := Reap(s);
            && |t.slots| == |t.h.owner| == QUEUE_DEPTH && t.h.owner[i] == s.h.owner[i]
            && t.slots[i] == s.slots[i].(state := t.slots[i].state)
            && (s.slots[i].state != Pending ==> t.slots[i] == s.slots[i])
            && (t.slots[i] != s.slots[i] ==> s.h.posts[s.h.reaped].req == s.h.owner[i])
  {
    hide OutcomesHold, StagesHold, SlotsHold, IdsHold, LayoutHolds, DataHolds, LogHolds, SqHolds, EntriesHold,
         ReapedHold, CopyInside;
    PhaseTag(s);
    PostFacts(s.jobs, s.h, s.h.reaped);
    Credit(s.nextCid, s.slots, s.h, s.h.posts[s.h.reaped].req);
  }

  lemma {:induction false} SlotKept(s: Sys, acts: seq<Action>, t: Sys, i: nat)
    requires Path(s, acts, t) && Inv(s) && i < QUEUE_DEPTH && s.slots[i].Booked()
    requires forall n :: 0 <= n < |acts| ==> acts[n] != ActRelease(i)
    ensures Inv(t) && t.h.owner[i] == s.h.owner[i]
    ensures t.slots[i] == s.slots[i].(state := t.slots[i].state)
    ensures s.slots[i].state != Pending ==> t.slots[i] == s.slots[i]
    decreases |acts|
  {
    hide Inv, Enabled, Do;
    InvShape(s);
    if acts != [] {
      assert acts[0] != ActRelease(i);
      SlotStep(s, acts[0], i);
      SlotKept(Do(s, acts[0]), acts[1..], t, i);
    }
  }

  // ------------------------------------------------------------ linearizability

  lemma {:induction false} PathGrows(s: Sys, acts: seq<Action>, t: Sys)
    requires Inv(s) && Path(s, acts, t)
    ensures Inv(t) && s.h.reqs <= t.h.reqs && s.h.log <= t.h.log
    ensures forall k :: k in s.h.outcomes ==> k in t.h.outcomes && t.h.outcomes[k] == s.h.outcomes[k]
    ensures forall k :: k < |s.h.reqs| && k in t.h.live ==> k in s.h.live
    decreases |acts|
  {
    hide Inv, Enabled, Do;
    if acts != [] {
      HistoryGrows(s, acts[0]);
      PathGrows(Do(s, acts[0]), acts[1..], t);
    }
  }

  /** The queue pair is an atomic block device.  Whatever the schedule, there is one order of
      the commands, `log`, such that the medium is what applying them one at a time gives,
      every successful read returned the medium of its own moment, and a request answered
      before another was submitted comes before it. */
  lemma Linearizable(s: Sys, acts: seq<Action>, t: Sys)
    requires Inv(s) && Path(s, acts, t)
    ensures Inv(t) && t.disk == Replay(t.h, |t.h.log|)
    ensures forall n :: 0 <= n < |t.h.log| ==> t.h.log[n] in t.h.outcomes && ReadSawReplay(t.h, n)
    ensures forall a, n :: 0 <= a < |s.h.reqs| && a !in s.h.live && 0 <= n < |t.h.log| && t.h.log[n] >= |s.h.reqs| ==>
              a in t.h.log[..n]
  {
    hide Inv, Path, Replay, ReadSawReplay;
    PathGrows(s, acts, t);
    LogFacts(s);
    LogFacts(t);
    forall a, n | 0 <= a < |s.h.reqs| && a !in s.h.live && 0 <= n < |t.h.log| && t.h.log[n] >= |s.h.reqs|
      ensures a in t.h.log[..n]
    {
      assert a in s.h.log;
      var m :| 0 <= m < |s.h.log| && s.h.log[m] == a;
      assert t.h.log[m] == a;
      assert forall q :: 0 <= q < |s.h.log| ==> t.h.log[q] == s.h.log[q] < |s.h.reqs|;
    }
  }

  /** An answered request ran, and what ran had been submitted. */
  lemma LogFacts(s: Sys)
    requires Inv(s)
    ensures s.disk == Replay(s.h, |s.h.log|)
    ensures forall n :: 0 <= n < |s.h.log| ==>
              s.h.log[n] in s.h.outcomes && s.h.log[n] < |s.h.reqs| && ReadSawReplay(s.h, n)
    ensures forall a :: 0 <= a < |s.h.reqs| && a !in s.h.live ==> a in s.h.log
  {
    hide SlotsHold, IdsHold, LayoutHolds, DataHolds, SqHolds, EntriesHold, Replay, ReadSawReplay, StagesHold;
    OutcomeFacts(s.h, FetchCount(s));
    forall a | 0 <= a < |s.h.reqs| && a !in s.h.live
      ensures a in s.h.log
    {
      assert Consumed(s.h, a);
    }
  }

  // ------------------------------------------------------------ what happens to one byte

  /** Command `k` is a write that may still change byte `x` of the medium. */
  ghost predicate Writes(h: History, k: nat, x: int) {
    k in h.live && k < |h.reqs| && k !in h.outcomes && h.reqs[k].op.kind == Write && h.reqs[k].op.Covers(x)
  }

  /** No command but perhaps `k` may still change byte `x`. */
  ghost predicate Quiet(h: History, x: int, k: nat) {
    forall m :: m != k ==> !Writes(h, m, x)
  }

  /** The action submits no write over byte `x`. */
  ghost predicate Avoids(a: Action, x: int) {
    a.ActBook? && Interpret(Decode(a.sqe)).kind == Write ==> !Interpret(Decode(a.sqe)).Covers(x)
  }

  ghost predicate Wrote(s: Sys, t: Sys, x: int, k: nat) {
    && k in t.h.outcomes && k !in s.h.outcomes && k < |t.h.reqs|
    && t.h.reqs[k].op.kind == Write && t.h.reqs[k].op.Covers(x)
    && |t.h.outcomes[k].data| == t.h.reqs[k].op.size
  }

  ghost predicate ByteRule(s: Sys, t: Sys, x: int, k: nat) {
    0 <= x < |s.disk| && |t.disk| == |s.disk| &&
    t.disk[x] == if Wrote(s, t, x, k) then t.h.outcomes[k].data[x - t.h.reqs[k].op.lo] else s.disk[x]
  }

  lemma ByteStep(s: Sys, a: Action, x: int, k: nat)
    requires Enabled(s, a) && 0 <= x < |s.disk| && Quiet(s.h, x, k) && Avoids(a, x)
    ensures Quiet(Do(s, a).h, x, k) && ByteRule(s, Do(s, a), x, k)
  {
    hide *;
    QuietStep(s, a, x, k);
    if a.ActRun? {
      RunByte(s, a, x, k);
    } else {
      DiskStep(s, a);
      SameByte(s, Do(s, a), x, k);
    }
  }

  lemma SameByte(s: Sys, t: Sys, x: int, k: nat)
    requires t.disk == s.disk && t.h.outcomes == s.h.outcomes && 0 <= x < |s.disk|
    ensures ByteRule(s, t, x, k)
  {
  }

  /** Only running a command changes the medium. */
  lemma DiskStep(s: Sys, a: Action)
    requires Enabled(s, a) && !a.ActRun?
    ensures Do(s, a).disk == s.disk && Do(s, a).h.outcomes == s.h.outcomes
  {
    hide Inv, CanBook, CanPost, CanReap, IdFree, Interpret, CopyInside, Enabled, FindSlot, Blit;
  }

  lemma RunByte(s: Sys, a: Action, x: int, k: nat)
    requires Enabled(s, a) && a.ActRun? && 0 <= x < |s.disk| && Quiet(s.h, x, k)
    ensures ByteRule(s, Do(s, a), x, k)
  {
    hide SlotsHold, IdsHold, LayoutHolds, DataHolds, LogHolds, SqHolds, EntriesHold, OutcomesHold, ReapedHold,
         StagesHold, Scatter, Gather;
    JobFacts(s.jobs, s.h, a.j);
    CanAlwaysRun(s, a.j, a.junk);
    assert s.jobs[a.j].op.kind == Write && s.jobs[a.j].op.Covers(x) ==> Writes(s.h, s.jobs[a.j].req, x);
  }

  lemma QuietStep(s: Sys, a: Action, x: int, k: nat)
    requires Enabled(s, a) && Quiet(s.h, x, k) && Avoids(a, x)
    ensures Quiet(Do(s, a).h, x, k)
  {
    hide Inv, CanBook, CanPost, CanReap, IdFree, Interpret, CopyInside;
    HistoryGrows(s, a);
    var t := Do(s, a);
    if a.ActBook? || a.ActFlush? {
      assert t.h.reqs[..|s.h.reqs|] == s.h.reqs;
    } else {
      assert t.h.reqs == s.h.reqs;
    }
    forall m | m != k
      ensures !Writes(t.h, m, x)
    {
      assert !Writes(s.h, m, x);
    }
  }

  lemma {:induction false} ByteAlong(s: Sys, acts: seq<Action>, t: Sys, x: int, k: nat)
    requires Inv(s) && Path(s, acts, t) && 0 <= x < |s.disk| && Quiet(s.h, x, k)
    requires forall n :: 0 <= n < |acts| ==> Avoids(acts[n], x)
    ensures Quiet(t.h, x, k) && ByteRule(s, t, x, k)
    decreases |acts|
  {
    hide Inv, Enabled, Do, Avoids, Quiet;
    if acts != [] {
      var u := Do(s, acts[0]);
      ByteStep(s, acts[0], x, k);
      HistoryGrows(s, acts[0]);
      ByteAlong(u, acts[1..], t, x, k);
      PathGrows(u, acts[1..], t);
      if Wrote(s, u, x, k) {
        assert !Wrote(u, t, x, k);
      }
      OutcomeSizes(u);
      OutcomeSizes(t);
    }
  }

  lemma OutcomeSizes(s: Sys)
    requires Inv(s)
    ensures forall k :: k in s.h.outcomes ==> OutcomeSize(s.h, k)
  {
    hide SlotsHold, IdsHold, LayoutHolds, DataHolds, SqHolds, EntriesHold, LogHolds, StagesHold, ReapedHold,
         OutcomesHold;
    OutcomeFacts(s.h, FetchCount(s));
  }

  /** A read that runs on the way, with no write over byte `x` on its way, returns the byte
      the medium had at the start. */
  lemma {:induction false} ReadAlong(s: Sys, acts: seq<Action>, t: Sys, x: int, k: nat)
    requires Inv(s) && Path(s, acts, t) && 0 <= x < |s.disk| && Quiet(s.h, x, k)
    requires forall n :: 0 <= n < |acts| ==> Avoids(acts[n], x)
    requires k < |s.h.reqs| && s.h.reqs[k].op.kind == Read && s.h.reqs[k].op.Covers(x)
    requires k in t.h.outcomes && k !in s.h.outcomes && t.h.outcomes[k].ok
    ensures s.h.reqs <= t.h.reqs && OutcomeSize(t.h, k)
    ensures t.h.outcomes[k].data[x - s.h.reqs[k].op.lo] == s.disk[x]
    decreases |acts|
  {
    hide Inv, Enabled, Do, Avoids, Quiet;
    PathGrows(s, acts, t);
    OutcomeSizes(t);
    var u := Do(s, acts[0]);
    HistoryGrows(s, acts[0]);
    ByteStep(s, acts[0], x, k);
    PathGrows(u, acts[1..], t);
    if k in u.h.outcomes {
      ReadStep(s, acts[0], k);
      var lo, data := s.h.reqs[k].op.lo, u.h.outcomes[k].data;
      assert s.disk[lo..lo + |data|][x - lo] == s.disk[x];
    } else {
      ReadAlong(u, acts[1..], t, x, k);
    }
  }

  lemma ReadStep(s: Sys, a: Action, k: nat)
    requires Enabled(s, a) && k in Do(s, a).h.outcomes && k !in s.h.outcomes
    requires k < |s.h.reqs| && s.h.reqs[k].op.kind == Read && Do(s, a).h.outcomes[k].ok
    ensures Stored(s.disk, s.h.reqs[k].op.lo, Do(s, a).h.outcomes[k].data)
    ensures |Do(s, a).h.outcomes[k].data| == s.h.reqs[k].op.size
  {
    hide SlotsHold, IdsHold, LayoutHolds, DataHolds, LogHolds, SqHolds, EntriesHold, OutcomesHold, ReapedHold,
         StagesHold, CanBook, CanPost, IdFree, Interpret, Scatter, Gather;
    assert a.ActRun?;
    JobFacts(s.jobs, s.h, a.j);
    CanAlwaysRun(s, a.j, a.junk);
    assert Do(s, a) == Run(s, a.j, a.ok, a.junk);
  }
}
