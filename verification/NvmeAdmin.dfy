/** The admin queue of src/drivers/nvme.rs: `NvmeController`'s admin fields and
    `admin_submit_and_wait`, beside the controller.  Every method is a step of the admin state
    machine. */
module NvmeAdmin {
  import opened Machine
  import opened NvmeProtocol
  import opened NvmeRing
  import opened NvmeAdminModel

  class AdminQueue {
    var asqTail: nat
    var acqHead: nat
    var acqPhase: bool
    const asq: array<Words>
    const acq: array<Cqe>
    // Doorbells
    var sqDoorbell: nat
    var cqDoorbell: nat
    // The controller
    var devHead: nat
    var devTail: nat
    var devPhase: bool
    var jobs: seq<Words>
    ghost var books: AdminBooks
    ghost var taken: nat

    ghost function View(): AdminSys
      reads this, asq, acq
    {
      AdminSys(asqTail, acqHead, acqPhase, asq[..], acq[..], sqDoorbell, cqDoorbell,
               devHead, devTail, devPhase, jobs, books, taken)
    }

    ghost predicate Valid()
      reads this, asq, acq
    {
      asq.Length == acq.Length == QUEUE_ENTRIES && Rings(View())
    }

    constructor ()
      ensures Valid() && InOrder(View()) && taken == 0 && books == AdminBooks([], 0, [], [])
      ensures fresh(asq) && fresh(acq)
    {
      asqTail, acqHead, acqPhase := 0, 0, true;
      asq := new Words[QUEUE_ENTRIES](_ => seq(SQE_WORDS, _ => 0));
      acq := new Cqe[QUEUE_ENTRIES](_ => Cqe(0, 0, 0, 0, 0));
      sqDoorbell, cqDoorbell, devHead, devTail, devPhase, jobs := 0, 0, 0, 0, true, [];
      books, taken := AdminBooks([], 0, [], []), 0;
    }

    method ControllerFetch()
      requires Valid() && CanAct(View(), AdminFetch)
      modifies this`devHead, this`jobs, this`books
      ensures Valid() && View() == Act(old(View()), AdminFetch)
    {
      hide Rings;
      ghost var before := View();
      RingsAct(before, AdminFetch);
      jobs := jobs + [asq[devHead]];
      devHead := Bump(devHead);
      books := books.(fetched := books.fetched + 1, held := books.held + [books.fetched]);
      assert View() == Act(before, AdminFetch);
    }

    /** The controller answers any command it holds; the tag flips at the wrap. */
    method ControllerPost(j: nat, code: nat, dw0: u32)
      requires Valid() && CanAct(View(), AdminPost(j, code, dw0))
      modifies this`devTail, this`devPhase, this`jobs, this`books, acq
      ensures Valid() && View() == Act(old(View()), AdminPost(j, code, dw0))
    {
      hide Rings, Bump, Decode, StatusWord;
      ghost var before := View();
      RingsAct(before, AdminPost(j, code, dw0));
      acq[devTail] := Cqe(dw0, devHead % 0x1_0000, 0, Decode(jobs[j]).cid, StatusWord(code, devPhase));
      devTail := Bump(devTail);
      if devTail == 0 {
        devPhase := !devPhase;
      }
      jobs := jobs[..j] + jobs[j + 1..];
      books := Answered(books, j);
      assert View() == Act(before, AdminPost(j, code, dw0));
    }

    /** Any finite stretch of controller activity. */
    method ControllerRuns() returns (ghost acts: seq<AdminAct>)
      requires Valid()
      modifies this`devHead, this`devTail, this`devPhase, this`jobs, this`books, acq
      ensures Valid() && AdminRun(old(View()), acts, View())
    {
      hide Rings, AdminRun, Act, Bump;
      acts := [];
      NoRun(View());
      RingsShape(View());
      var n: nat := *;
      while n > 0
        invariant Valid() && AdminRun(old(View()), acts, View())
        decreases n
      {
        ghost var before := View();
        RingsShape(before);
        var what: nat, j: nat, code: nat, dw0: u32 := *, *, *, *;
        if what == 0 && devHead < asq.Length && devHead != sqDoorbell {
          AdminOne(old(View()), acts, before, AdminFetch);
          acts := acts + [AdminFetch];
          ControllerFetch();
        } else if what == 1 && j < |jobs| && code < 0x8000 && devTail < acq.Length && Bump(devTail) != cqDoorbell {
          AdminOne(old(View()), acts, before, AdminPost(j, code, dw0));
          acts := acts + [AdminPost(j, code, dw0)];
          ControllerPost(j, code, dw0);
        }
        n := n - 1;
      }
    }

    /** Consume the entry at the head, if it is published: the oldest completion not consumed. */
    method TakeNext() returns (r: Option<Cqe>)
      requires Valid()
      modifies this`acqHead, this`acqPhase, this`cqDoorbell, this`taken
      ensures Valid()
      ensures r.None? ==> View() == old(View()) && !Published(View()) && taken == |books.posts|
      ensures r.Some? ==>
                && Published(old(View())) && View() == Took(old(View()))
                && old(taken) < |books.posts| && r.value == EntryAt(acq[..], old(taken))
    {
      hide Rings, Cqe.Phase;
      ghost var before := View();
      RingsTake(before);
      RingsShape(before);
      var cqe := acq[acqHead];
      if cqe.Phase() != acqPhase {
        return None;
      }
      acqHead := (acqHead + 1) % QUEUE_ENTRIES;
      if acqHead == 0 {
        acqPhase := !acqPhase;
      }
      cqDoorbell := acqHead;
      taken := taken + 1;
      assert View() == Took(before);
      return Some(cqe);
    }

    /** Write the entry at the tail and ring the doorbell; the code does not look whether the
        controller has room. */
    method Send(sqe: Words)
      requires Valid()
      modifies this`asqTail, this`sqDoorbell, this`books, asq
      ensures old(View()).tail < asq.Length && Valid() && View() == Sent(old(View()), sqe)
    {
      hide Rings;
      ghost var before := View();
      RingsSent(before, sqe);
      asq[asqTail] := sqe;
      asqTail := (asqTail + 1) % QUEUE_ENTRIES;
      sqDoorbell := asqTail;
      books := books.(cmds := books.cmds + [sqe]);
      assert View() == Sent(before, sqe);
    }

    /** Send a command and take the next completion, whosever it is.  From a ring in order it is
        that of an answerable command, and carries its identifier; the ring stays in order
        exactly when it had room. */
    method AdminSubmitAndWait(sqe: Words)
      returns (r: Result<Cqe>, looks: nat, ghost acts: seq<AdminAct>, ghost last: AdminSys)
      requires Valid()
      modifies this, asq, acq
      ensures Valid() && old(View()).tail < asq.Length && AdminRun(Sent(old(View()), sqe), acts, last)
      ensures r.Err? ==>
                && r == Err(TimedOut) && looks == COMPLETION_POLL_LIMIT + 1
                && View() == last && !Published(last)
      ensures r.Ok? ==>
                && looks <= COMPLETION_POLL_LIMIT + 1
                && Published(last) && View() == Took(last) && r.value == EntryAt(acq[..], old(taken))
      ensures old(InOrder(View())) ==> (InOrder(View()) <==> old(HasRoom(books)))
      ensures old(InOrder(View())) && r.Ok? ==>
                && old(taken) < |books.posts| && books.posts[old(taken)] in old(Answerable(books, taken))
                && CarriesName(r.value, books, books.posts[old(taken)])
    {
      hide Rings, AdminRun, InOrder, Published, Answerable, CarriesName, Took, Sent, EntryAt;
      ghost var start := View();
      Send(sqe);
      ghost var sent := View();
      looks, acts, last := 0, [], sent;
      NoRun(sent);
      SentTaken(start, sqe);
      var waited := 0;
      while true
        invariant Valid() && View() == last && AdminRun(sent, acts, last) && last.taken == start.taken
        invariant looks == waited <= COMPLETION_POLL_LIMIT
        decreases COMPLETION_POLL_LIMIT - waited
      {
        ghost var turn;
        turn := ControllerRuns();
        AdminJoin(sent, acts, last, turn, View());
        RunTaken(last, turn, View());
        acts, last := acts + turn, View();
        var cqe := TakeNext();
        looks := looks + 1;
        if cqe.Some? {
          if InOrder(start) {
            Given(start, sqe, acts, last);
          }
          return Ok(cqe.value), looks, acts, last;
        }
        waited := waited + 1;
        if waited > COMPLETION_POLL_LIMIT {
          if InOrder(start) {
            InOrderAfter(start, sqe, acts, last);
          }
          return Err(TimedOut), looks, acts, last;
        }
      }
    }
  }

  lemma SentTaken(s: AdminSys, sqe: Words)
    requires s.tail < |s.asq|
    ensures Sent(s, sqe).taken == s.taken
  {
  }

  lemma {:induction false} RunTaken(s: AdminSys, acts: seq<AdminAct>, t: AdminSys)
    requires AdminRun(s, acts, t)
    ensures t.taken == s.taken
    decreases |acts|
  {
    hide CanAct;
    if acts != [] {
      RunTaken(Act(s, acts[0]), acts[1..], t);
    }
  }

  lemma InOrderAfter(s: AdminSys, sqe: Words, acts: seq<AdminAct>, t: AdminSys)
    requires InOrder(s) && s.tail < |s.asq| && AdminRun(Sent(s, sqe), acts, t)
    ensures Whole(t) && (InOrder(t) <==> HasRoom(s.books))
  {
    hide Whole, AdminRun;
    SentWhole(s, sqe);
    RunProgress(Sent(s, sqe), acts, t);
  }

  lemma Given(s: AdminSys, sqe: Words, acts: seq<AdminAct>, t: AdminSys)
    requires InOrder(s) && s.tail < |s.asq| && AdminRun(Sent(s, sqe), acts, t) && Published(t)
    ensures s.taken == t.taken < |t.books.posts| && t.books.posts[t.taken] in Answerable(s.books, s.taken)
    ensures t.head < |t.acq| && CarriesName(t.acq[t.head], t.books, t.books.posts[t.taken])
    ensures |t.acq| == QUEUE_ENTRIES && t.acq[t.head] == EntryAt(t.acq, t.taken)
    ensures InOrder(Took(t)) <==> HasRoom(s.books)
  {
    hide AdminRun, Unfetched, Accounted, Named, Rings, Answerable, CarriesName, Published;
    OnlyAnswerable(s, sqe, acts, t);
    InOrderAfter(s, sqe, acts, t);
    RingsTake(t);
    RingsShape(t);
  }
}
