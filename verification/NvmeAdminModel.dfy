/** The admin queue pair as a state machine: the driver's registers, the rings, the controller,
    and the books a proof needs.  Completions are matched by position alone, and nothing stops
    the driver from overrunning the submission ring. */
module NvmeAdminModel {
  import opened Machine
  import opened NvmeProtocol
  import opened NvmeRing

  /** `cmds` were sent, the first `fetched` of them taken by the controller, which holds `held`
      and has answered `posts`. */
  datatype AdminBooks = AdminBooks(cmds: seq<Words>, fetched: nat, held: seq<nat>, posts: seq<nat>)

  datatype AdminSys = AdminSys(
    tail: nat, head: nat, phase: bool,                                // the driver
    asq: seq<Words>, acq: seq<Cqe>, sqDb: nat, cqDb: nat,             // shared
    devHead: nat, devTail: nat, devPhase: bool, jobs: seq<Words>,     // the controller
    books: AdminBooks, taken: nat)

  // ------------------------------------------------------------ steps

  datatype AdminAct = AdminFetch | AdminPost(j: nat, code: nat, dw0: u32)

  predicate CanAct(s: AdminSys, a: AdminAct) {
    match a
    case AdminFetch => s.devHead < |s.asq| && s.devHead != s.sqDb
    case AdminPost(j, code, dw0) =>
      && j < |s.jobs| && j < |s.books.held| && code < 0x8000
      && s.devTail < |s.acq| && Bump(s.devTail) != s.cqDb
  }

  function Completion(s: AdminSys, j: nat, code: nat, dw0: u32): Cqe
    requires j < |s.jobs| && code < 0x8000
  {
    Cqe(dw0, s.devHead % 0x1_0000, 0, Decode(s.jobs[j]).cid, StatusWord(code, s.devPhase))
  }

  function Act(s: AdminSys, a: AdminAct): AdminSys
    requires CanAct(s, a)
  {
    match a
    case AdminFetch =>
      s.(devHead := Bump(s.devHead), jobs := s.jobs + [s.asq[s.devHead]],
         books := s.books.(fetched := s.books.fetched + 1, held := s.books.held + [s.books.fetched]))
    case AdminPost(j, code, dw0) =>
      s.(acq := s.acq[s.devTail := Completion(s, j, code, dw0)],
         devTail := Bump(s.devTail),
         devPhase := if Bump(s.devTail) == 0 then !s.devPhase else s.devPhase,
         jobs := s.jobs[..j] + s.jobs[j + 1..],
         books := Answered(s.books, j))
  }

  function Answered(b: AdminBooks, j: nat): AdminBooks
    requires j < |b.held|
  {
    b.(held := b.held[..j] + b.held[j + 1..], posts := b.posts + [b.held[j]])
  }

  /** The controller can lead from `s` to `t`. */
  ghost predicate AdminRun(s: AdminSys, acts: seq<AdminAct>, t: AdminSys)
    decreases |acts|
  {
    if acts == [] then s == t else CanAct(s, acts[0]) && AdminRun(Act(s, acts[0]), acts[1..], t)
  }

  lemma {:induction false} AdminJoin(s: AdminSys, a: seq<AdminAct>, t: AdminSys, b: seq<AdminAct>, u: AdminSys)
    requires AdminRun(s, a, t) && AdminRun(t, b, u)
    ensures AdminRun(s, a + b, u)
    decreases |a|
  {
    hide CanAct, Act;
    if a == [] {
      assert a + b == b;
    } else {
      AdminJoin(Act(s, a[0]), a[1..], t, b, u);
      assert (a + b)[1..] == a[1..] + b;
    }
  }

  lemma AdminOne(s: AdminSys, acts: seq<AdminAct>, t: AdminSys, a: AdminAct)
    requires AdminRun(s, acts, t) && CanAct(t, a)
    ensures AdminRun(s, acts + [a], Act(t, a))
  {
    hide CanAct, Act;
    assert [a][1..] == [];
    assert AdminRun(Act(t, a), [], Act(t, a));
    assert AdminRun(t, [a], Act(t, a));
    AdminJoin(s, acts, t, [a], Act(t, a));
  }

  /** The driver writes an entry at the tail and rings the doorbell. */
  function Sent(s: AdminSys, sqe: Words): AdminSys
    requires s.tail < |s.asq|
  {
    s.(asq := s.asq[s.tail := sqe], tail := Bump(s.tail), sqDb := Bump(s.tail),
       books := s.books.(cmds := s.books.cmds + [sqe]))
  }

  predicate Published(s: AdminSys) {
    s.head < |s.acq| && s.acq[s.head].Phase() == s.phase
  }

  /** The driver consumes the entry at the head. */
  function Took(s: AdminSys): AdminSys {
    s.(head := Bump(s.head), cqDb := Bump(s.head),
       phase := if Bump(s.head) == 0 then !s.phase else s.phase, taken := s.taken + 1)
  }

  // ------------------------------------------------------------ what every step keeps

  /** The registers are the counters modulo the ring, whatever the ring holds. */
  ghost predicate Rings(s: AdminSys) {
    && |s.asq| == |s.acq| == QUEUE_ENTRIES
    && s.tail == s.sqDb == |s.books.cmds| % QUEUE_ENTRIES && s.devHead < QUEUE_ENTRIES
    && s.head == s.cqDb == s.taken % QUEUE_ENTRIES && s.phase == PhaseOf(s.taken)
    && s.devTail == |s.books.posts| % QUEUE_ENTRIES && s.devPhase == PhaseOf(|s.books.posts|)
    && s.taken <= |s.books.posts| < s.taken + QUEUE_ENTRIES
    && Tagged(s.acq, |s.books.posts|) && |s.books.held| == |s.jobs|
  }

  /** A ring whose next tail is not its head has room for one more lap-free entry. */
  lemma Room(n: nat, taken: nat)
    requires taken <= n < taken + QUEUE_ENTRIES && Bump(n % QUEUE_ENTRIES) != taken % QUEUE_ENTRIES
    ensures n + 1 < taken + QUEUE_ENTRIES
  {
    hide Bump, PhaseOf;
    RingStep(n);
    Lap(taken);
  }

  lemma Lap(n: nat)
    ensures (n + QUEUE_ENTRIES) % QUEUE_ENTRIES == n % QUEUE_ENTRIES
  {
  }

  lemma RingsSent(s: AdminSys, sqe: Words)
    requires Rings(s)
    ensures s.tail < |s.asq| && Rings(Sent(s, sqe))
  {
    hide Tagged, PhaseOf, Bump;
    RingStep(|s.books.cmds|);
  }

  lemma RingsAct(s: AdminSys, a: AdminAct)
    requires Rings(s) && CanAct(s, a)
    ensures Rings(Act(s, a))
  {
    hide Tagged, PhaseOf, Bump, Cqe.Phase, Decode, StatusWord;
    if a.AdminFetch? {
      BumpInside(s.devHead);
    } else {
      Room(|s.books.posts|, s.taken);
      RingStep(|s.books.posts|);
      TaggedPost(s.acq, |s.books.posts|, Completion(s, a.j, a.code, a.dw0));
    }
  }

  lemma BumpInside(i: nat)
    ensures Bump(i) < QUEUE_ENTRIES
    ensures i < QUEUE_ENTRIES ==> Bump(i) != i
  {
  }

  /** The head entry is published exactly when a completion waits there. */
  lemma RingsTake(s: AdminSys)
    requires Rings(s)
    ensures s.head < |s.acq| && (Published(s) <==> s.taken < |s.books.posts|)
    ensures Published(s) ==> Rings(Took(s)) && s.acq[s.head] == EntryAt(s.acq, s.taken)
  {
    hide Tagged, PhaseOf, Bump, Cqe.Phase;
    TaggedRead(s.acq, |s.books.posts|, s.taken);
    RingStep(s.taken);
  }

  // ------------------------------------------------------------ the books

  /** Every fetched command is held or answered, and a job's words are its command's. */
  ghost predicate Accounted(jobs: seq<Words>, b: AdminBooks) {
    && |jobs| == |b.held| && b.fetched <= |b.cmds|
    && (forall j :: 0 <= j < |jobs| ==> b.held[j] < b.fetched && jobs[j] == b.cmds[b.held[j]])
    && (forall i, j :: 0 <= i < j < |b.held| ==> b.held[i] != b.held[j])
    && (forall k :: 0 <= k < b.fetched ==> (k in b.held <==> k !in b.posts))
    && (forall p :: 0 <= p < |b.posts| ==> b.posts[p] < b.fetched)
  }

  /** Every entry the controller has yet to take is the command sent. */
  ghost predicate Unfetched(asq: seq<Words>, b: AdminBooks)
    requires |asq| == QUEUE_ENTRIES
  {
    forall k :: b.fetched <= k < |b.cmds| ==> asq[k % QUEUE_ENTRIES] == b.cmds[k]
  }

  /** Every completion still in its entry carries its own command's identifier. */
  ghost predicate Named(acq: seq<Cqe>, b: AdminBooks)
    requires |acq| == QUEUE_ENTRIES
  {
    forall p :: 0 <= p < |b.posts| <= p + QUEUE_ENTRIES ==> CarriesName(EntryAt(acq, p), b, b.posts[p])
  }

  ghost predicate CarriesName(e: Cqe, b: AdminBooks, k: nat) {
    k < |b.cmds| && e.commandId == Decode(b.cmds[k]).cid
  }

  /** Nothing was overwritten before the controller took it. */
  ghost predicate Whole(s: AdminSys) {
    && Rings(s) && s.devHead == s.books.fetched % QUEUE_ENTRIES
    && |s.books.cmds| <= s.books.fetched + QUEUE_ENTRIES
    && Unfetched(s.asq, s.books) && Accounted(s.jobs, s.books) && Named(s.acq, s.books)
  }

  /** One more command leaves the doorbell telling a full ring from an empty one. */
  predicate HasRoom(b: AdminBooks) { |b.cmds| + 1 < b.fetched + QUEUE_ENTRIES }

  /** The controller sees every command it has yet to take. */
  ghost predicate InOrder(s: AdminSys) { Whole(s) && |s.books.cmds| < s.books.fetched + QUEUE_ENTRIES }

  lemma SameNamed(acq: seq<Cqe>, b: AdminBooks, c: AdminBooks)
    requires |acq| == QUEUE_ENTRIES && Named(acq, b) && c.posts == b.posts && b.cmds <= c.cmds
    ensures Named(acq, c)
  {
    hide Decode, EntryAt;
    forall p | 0 <= p < |c.posts| <= p + QUEUE_ENTRIES
      ensures CarriesName(EntryAt(acq, p), c, c.posts[p])
    {
      assert CarriesName(EntryAt(acq, p), b, b.posts[p]);
    }
  }

  /** From a ring in order one more command overwrites none the controller has yet to take. */
  lemma SentWhole(s: AdminSys, sqe: Words)
    requires InOrder(s)
    ensures s.tail < |s.asq| && Whole(Sent(s, sqe)) && (InOrder(Sent(s, sqe)) <==> HasRoom(s.books))
  {
    hide Rings, Named, Tagged, Decode;
    RingsSent(s, sqe);
    RingsShape(s);
    var n, c := |s.books.cmds|, s.books.(cmds := s.books.cmds + [sqe]);
    SameNamed(s.acq, s.books, c);
    forall k | s.books.fetched <= k <= n
      ensures Sent(s, sqe).asq[k % QUEUE_ENTRIES] == c.cmds[k]
    {
      if k < n {
        SlotsApart(k, n);
      }
    }
  }

  lemma RingsShape(s: AdminSys)
    requires Rings(s)
    ensures |s.asq| == |s.acq| == QUEUE_ENTRIES && |s.books.held| == |s.jobs|
    ensures s.tail == s.sqDb == |s.books.cmds| % QUEUE_ENTRIES
    ensures s.devTail == |s.books.posts| % QUEUE_ENTRIES && s.devPhase == PhaseOf(|s.books.posts|)
    ensures s.head == s.cqDb == s.taken % QUEUE_ENTRIES
    ensures s.taken <= |s.books.posts| < s.taken + QUEUE_ENTRIES && Tagged(s.acq, |s.books.posts|)
  {
    hide Tagged, PhaseOf;
  }

  /** A doorbell that differs from the head means a command waits, and none waits unseen but a
      whole ring of them. */
  lemma Waits(s: AdminSys)
    requires Whole(s)
    ensures s.devHead != s.sqDb <==> s.books.fetched < |s.books.cmds| < s.books.fetched + QUEUE_ENTRIES
  {
    hide Rings, Named, Accounted, Unfetched;
    RingsShape(s);
    var f, n := s.books.fetched, |s.books.cmds|;
    assert f <= n by { AccountedFetched(s.jobs, s.books); }
    if f < n < f + QUEUE_ENTRIES {
      SlotsApart(f, n);
    } else if n == f + QUEUE_ENTRIES {
      Lap(f);
    }
  }

  lemma AccountedFetched(jobs: seq<Words>, b: AdminBooks)
    requires Accounted(jobs, b)
    ensures b.fetched <= |b.cmds| && |jobs| == |b.held|
  {
  }

  lemma FetchWhole(s: AdminSys)
    requires Whole(s) && CanAct(s, AdminFetch)
    ensures Whole(Act(s, AdminFetch))
  {
    hide Rings, Named, Tagged, Decode, Bump, PhaseOf;
    RingsAct(s, AdminFetch);
    RingsShape(s);
    Waits(s);
    RingStep(s.books.fetched);
    var b := s.books;
    var c := b.(fetched := b.fetched + 1, held := b.held + [b.fetched]);
    SameNamed(s.acq, b, c);
    forall k | 0 <= k < c.fetched
      ensures k in c.held <==> k !in c.posts
    {
      assert k in c.held <==> k in b.held || k == b.fetched;
    }
  }

  lemma Without(s: seq<nat>, j: nat, k: nat)
    requires j < |s| && forall a, b :: 0 <= a < b < |s| ==> s[a] != s[b]
    ensures k in s[..j] + s[j + 1..] <==> k in s && k != s[j]
  {
    assert s == s[..j] + [s[j]] + s[j + 1..];
  }

  lemma AnsweredAccounted(jobs: seq<Words>, b: AdminBooks, j: nat)
    requires Accounted(jobs, b) && j < |jobs|
    ensures Accounted(jobs[..j] + jobs[j + 1..], Answered(b, j))
    ensures b.held[j] < b.fetched && b.held[j] !in b.posts
  {
    assert b.held[j] in b.held;
    forall k | 0 <= k < b.fetched
      ensures k in b.held[..j] + b.held[j + 1..] <==> k !in b.posts + [b.held[j]]
    {
      Without(b.held, j, k);
    }
  }

  lemma PostNamed(s: AdminSys, j: nat, code: nat, dw0: u32)
    requires Rings(s) && CanAct(s, AdminPost(j, code, dw0)) && Accounted(s.jobs, s.books) && Named(s.acq, s.books)
    ensures Named(Act(s, AdminPost(j, code, dw0)).acq, Answered(s.books, j))
  {
    hide Decode, PhaseOf, Tagged, Cqe.Phase, StatusWord, Bump;
    var n, e, c := |s.books.posts|, Completion(s, j, code, dw0), Answered(s.books, j);
    TaggedPost(s.acq, n, e);
    var acq := s.acq[s.devTail := e];
    forall p | 0 <= p < |c.posts| <= p + QUEUE_ENTRIES
      ensures CarriesName(EntryAt(acq, p), c, c.posts[p])
    {
      assert p < n ==> CarriesName(EntryAt(s.acq, p), s.books, s.books.posts[p]);
    }
  }

  lemma PostWhole(s: AdminSys, j: nat, code: nat, dw0: u32)
    requires Whole(s) && CanAct(s, AdminPost(j, code, dw0))
    ensures Whole(Act(s, AdminPost(j, code, dw0)))
    ensures s.books.held[j] < s.books.fetched && s.books.held[j] !in s.books.posts
  {
    hide Rings, Named, Accounted, Decode, Bump, StatusWord;
    RingsAct(s, AdminPost(j, code, dw0));
    RingsShape(s);
    AccountedFetched(s.jobs, s.books);
    AnsweredAccounted(s.jobs, s.books, j);
    PostNamed(s, j, code, dw0);
  }

  /** What the controller does from `s` on: it answers commands not answered before, and takes
      commands only while the doorbell shows them. */
  ghost predicate Progress(s: AdminSys, t: AdminSys) {
    && t.taken == s.taken && t.head == s.head && t.phase == s.phase && t.cqDb == s.cqDb && t.tail == s.tail
    && t.books.cmds == s.books.cmds && s.books.posts <= t.books.posts && s.books.fetched <= t.books.fetched
    && (|s.books.cmds| == s.books.fetched + QUEUE_ENTRIES ==> t.books.fetched == s.books.fetched)
    && (forall p :: |s.books.posts| <= p < |t.books.posts| ==>
          t.books.posts[p] < t.books.fetched && t.books.posts[p] !in s.books.posts)
  }

  lemma ActProgress(s: AdminSys, a: AdminAct)
    requires Whole(s) && CanAct(s, a)
    ensures Whole(Act(s, a)) && Progress(s, Act(s, a))
  {
    hide Whole, Decode, StatusWord, Bump;
    if a.AdminFetch? {
      Waits(s);
      FetchWhole(s);
    } else {
      PostWhole(s, a.j, a.code, a.dw0);
    }
  }

  lemma ProgressJoin(s: AdminSys, t: AdminSys, u: AdminSys)
    requires Progress(s, t) && Progress(t, u)
    ensures Progress(s, u)
  {
    forall p | |s.books.posts| <= p < |u.books.posts|
      ensures u.books.posts[p] < u.books.fetched && u.books.posts[p] !in s.books.posts
    {
      if p < |t.books.posts| {
        assert u.books.posts[p] == t.books.posts[p];
      } else {
        assert forall k :: k in s.books.posts ==> k in t.books.posts;
      }
    }
  }

  lemma {:induction false} RunProgress(s: AdminSys, acts: seq<AdminAct>, t: AdminSys)
    requires Whole(s) && AdminRun(s, acts, t)
    ensures Whole(t) && Progress(s, t)
    decreases |acts|
  {
    hide Whole, CanAct, Act, Progress;
    if acts == [] {
      assert Progress(s, s) by { NoProgress(s); }
    } else {
      ActProgress(s, acts[0]);
      RunProgress(Act(s, acts[0]), acts[1..], t);
      ProgressJoin(s, Act(s, acts[0]), t);
    }
  }

  lemma NoProgress(s: AdminSys)
    ensures Progress(s, s)
  {
  }

  // ------------------------------------------------------------ who is answered

  /** How many of the commands, one more included, the controller can ever take. */
  function Reach(b: AdminBooks): nat { if HasRoom(b) then |b.cmds| + 1 else b.fetched }

  /** The commands whose completion a caller can be given who sends one more: the oldest one not
      yet consumed, or else any that is not answered and that the controller can take. */
  ghost function Answerable(b: AdminBooks, taken: nat): set<nat> {
    if taken < |b.posts| then {b.posts[taken]} else (set k: nat | k < Reach(b) && k !in b.posts)
  }

  lemma Unanswered(b: AdminBooks, taken: nat, k: nat)
    requires taken >= |b.posts| && k < Reach(b) && k !in b.posts
    ensures k in Answerable(b, taken)
  {
  }

  /** A schedule after which the next look finds the completion of command `k`. */
  ghost predicate Gives(s: AdminSys, acts: seq<AdminAct>, t: AdminSys, k: nat) {
    AdminRun(s, acts, t) && Published(t) && t.taken < |t.books.posts| && t.books.posts[t.taken] == k
  }

  lemma OnlyAnswerable(s: AdminSys, sqe: Words, acts: seq<AdminAct>, t: AdminSys)
    requires InOrder(s) && s.tail < |s.asq| && AdminRun(Sent(s, sqe), acts, t) && Published(t)
    ensures t.taken < |t.books.posts| && t.books.posts[t.taken] in Answerable(s.books, s.taken)
    ensures t.head < |t.acq| && CarriesName(t.acq[t.head], t.books, t.books.posts[t.taken])
    ensures Whole(t) && Progress(Sent(s, sqe), t)
  {
    hide Rings, Accounted, Unfetched, AdminRun, CarriesName;
    SentWhole(s, sqe);
    RunProgress(Sent(s, sqe), acts, t);
    RingsTake(t);
    RingsShape(t);
    AccountedFetched(t.jobs, t.books);
  }

  /** The controller takes every command the doorbell shows. */
  lemma {:induction false} TakeAll(s: AdminSys) returns (acts: seq<AdminAct>, t: AdminSys)
    requires Whole(s)
    ensures AdminRun(s, acts, t) && Whole(t) && t.books.posts == s.books.posts && Progress(s, t)
    ensures |s.books.cmds| < s.books.fetched + QUEUE_ENTRIES ==> t.books.fetched == |s.books.cmds|
    decreases |s.books.cmds| + QUEUE_ENTRIES - s.books.fetched
  {
    hide Rings, Accounted, Unfetched, Named, Bump, Progress;
    Waits(s);
    RingsShape(s);
    AccountedFetched(s.jobs, s.books);
    if s.devHead == s.sqDb {
      acts, t := [], s;
      NoProgress(s);
    } else {
      assert CanAct(s, AdminFetch) by { HeadInside(s); }
      var u := Act(s, AdminFetch);
      ActProgress(s, AdminFetch);
      acts, t := TakeAll(u);
      ProgressJoin(s, u, t);
      assert ([AdminFetch] + acts)[1..] == acts;
      acts := [AdminFetch] + acts;
    }
  }

  lemma HeadInside(s: AdminSys)
    requires Rings(s)
    ensures s.devHead < |s.asq|
  {
  }

  lemma GivesAnswerable(s: AdminSys, sqe: Words, k: nat) returns (acts: seq<AdminAct>, t: AdminSys)
    requires InOrder(s) && k in Answerable(s.books, s.taken)
    ensures s.tail < |s.asq| && Gives(Sent(s, sqe), acts, t, k)
  {
    hide Rings, Accounted, Unfetched, Named, Bump, Progress, AdminRun, Published, Decode, StatusWord;
    SentWhole(s, sqe);
    var sent := Sent(s, sqe);
    RingsShape(s);
    if s.taken < |s.books.posts| {
      acts, t := [], sent;
      RingsTake(sent);
      assert AdminRun(sent, [], sent) by { NoRun(sent); }
    } else {
      var a, u := TakeAll(sent);
      assert u.taken == s.taken && u.cqDb == s.cqDb && u.books.fetched >= Reach(s.books) by { Taken(s, sqe, u); }
      var j := HeldAt(u.jobs, u.books, k);
      RingsShape(u);
      BumpInside(u.devTail);
      PostWhole(u, j, 0, 0);
      AdminOne(sent, a, u, AdminPost(j, 0, 0));
      acts, t := a + [AdminPost(j, 0, 0)], Act(u, AdminPost(j, 0, 0));
      RingsTake(t);
    }
  }

  lemma NoRun(s: AdminSys)
    ensures AdminRun(s, [], s)
  {
  }

  lemma Taken(s: AdminSys, sqe: Words, u: AdminSys)
    requires s.tail < |s.asq| && Progress(Sent(s, sqe), u)
    requires HasRoom(s.books) ==> u.books.fetched == |s.books.cmds| + 1
    ensures u.taken == s.taken && u.cqDb == s.cqDb && u.books.fetched >= Reach(s.books)
  {
  }

  lemma HeldAt(jobs: seq<Words>, b: AdminBooks, k: nat) returns (j: nat)
    requires Accounted(jobs, b) && k < b.fetched && k !in b.posts
    ensures j < |jobs| == |b.held| && b.held[j] == k
  {
    assert k in b.held;
    j :| 0 <= j < |b.held| && b.held[j] == k;
  }

  /** Exactly the answerable commands are answered: each of them on some schedule, and no other
      on any. */
  lemma AnswerableExact(s: AdminSys, sqe: Words, k: nat)
    requires InOrder(s)
    ensures s.tail < |s.asq|
    ensures k in Answerable(s.books, s.taken)
       <==> exists acts: seq<AdminAct>, t: AdminSys :: Gives(Sent(s, sqe), acts, t, k)
  {
    hide InOrder, Answerable, AdminRun, Published, Sent;
    assert s.tail < |s.asq| by { SentWhole(s, sqe); }
    if k in Answerable(s.books, s.taken) {
      var acts, t := GivesAnswerable(s, sqe, k);
    }
    forall acts: seq<AdminAct>, t: AdminSys | Gives(Sent(s, sqe), acts, t, k)
      ensures k in Answerable(s.books, s.taken)
    {
      OnlyAnswerable(s, sqe, acts, t);
    }
  }

  /** Every earlier command was answered, and its answer taken. */
  ghost predicate NothingOut(b: AdminBooks, taken: nat) {
    taken == |b.posts| && forall k :: 0 <= k < |b.cmds| ==> k in b.posts
  }

  /** A caller can be given a completion, and on every schedule that gives one it is its own
      command's, if and only if nothing was outstanding. */
  lemma OwnAnswer(s: AdminSys, sqe: Words)
    requires InOrder(s)
    ensures s.tail < |s.asq|
    ensures NothingOut(s.books, s.taken)
       <==> && (exists k, acts: seq<AdminAct>, t: AdminSys :: Gives(Sent(s, sqe), acts, t, k))
            && (forall k, acts: seq<AdminAct>, t: AdminSys :: Gives(Sent(s, sqe), acts, t, k) ==> k == |s.books.cmds|)
  {
    hide InOrder, AdminRun, Published, Sent, Gives, Answerable, NothingOut;
    assert s.tail < |s.asq| by { SentWhole(s, sqe); }
    var own := |s.books.cmds|;
    OnlyOwn(s);
    if NothingOut(s.books, s.taken) {
      AnswerableExact(s, sqe, own);
      forall k, acts: seq<AdminAct>, t: AdminSys | Gives(Sent(s, sqe), acts, t, k)
        ensures k == own
      {
        AnswerableExact(s, sqe, k);
      }
    } else if k, acts: seq<AdminAct>, t: AdminSys :| Gives(Sent(s, sqe), acts, t, k) {
      AnswerableExact(s, sqe, k);
      var other := Another(s, k);
      AnswerableExact(s, sqe, other);
    }
  }

  /** With nothing out only the own command can be answered. */
  lemma OnlyOwn(s: AdminSys)
    requires InOrder(s)
    ensures NothingOut(s.books, s.taken) ==> Answerable(s.books, s.taken) == {|s.books.cmds|}
  {
    hide Rings, Unfetched, Named;
    if NothingOut(s.books, s.taken) {
      AllFetched(s.jobs, s.books);
      assert forall k :: k in Answerable(s.books, s.taken) <==> k == |s.books.cmds|;
    }
  }

  lemma AllFetched(jobs: seq<Words>, b: AdminBooks)
    requires Accounted(jobs, b) && forall k :: 0 <= k < |b.cmds| ==> k in b.posts
    ensures b.fetched == |b.cmds| && |b.cmds| !in b.posts
  {
    assert b.fetched !in b.posts;
  }

  /** With something out, some answerable command is another one. */
  lemma Another(s: AdminSys, k: nat) returns (other: nat)
    requires InOrder(s) && !NothingOut(s.books, s.taken) && k in Answerable(s.books, s.taken)
    ensures other in Answerable(s.books, s.taken) && other != |s.books.cmds|
  {
    hide Rings, Unfetched, Named;
    if k != |s.books.cmds| {
      other := k;
    } else {
      RingsShape(s);
      PostsOlder(s.jobs, s.books);
      other :| 0 <= other < |s.books.cmds| && other !in s.books.posts;
    }
  }

  lemma PostsOlder(jobs: seq<Words>, b: AdminBooks)
    requires Accounted(jobs, b)
    ensures b.fetched <= |b.cmds| && forall p :: 0 <= p < |b.posts| ==> b.posts[p] < |b.cmds|
  {
  }

  /** The controller can ever take the command if and only if the ring had room for it: a full
      ring looks empty. */
  lemma RoomExact(s: AdminSys, sqe: Words)
    requires InOrder(s)
    ensures s.tail < |s.asq|
    ensures HasRoom(s.books)
       <==> exists acts: seq<AdminAct>, t: AdminSys ::
              AdminRun(Sent(s, sqe), acts, t) && t.books.fetched > |s.books.cmds|
  {
    hide Rings, Accounted, Unfetched, Named, AdminRun, Bump;
    SentWhole(s, sqe);
    AccountedFetched(s.jobs, s.books);
    if HasRoom(s.books) {
      var acts, t := TakeAll(Sent(s, sqe));
    }
    forall acts: seq<AdminAct>, t: AdminSys | AdminRun(Sent(s, sqe), acts, t) && t.books.fetched > |s.books.cmds|
      ensures HasRoom(s.books)
    {
      RunProgress(Sent(s, sqe), acts, t);
    }
  }
}
