/** The verb half of src/drivers/hda.rs: the CORB and the RIRB of one controller as a state
    machine, the codec behind them, and `send_verb`. */
module HdaVerbs {
  import opened Machine

  const RESPONSE_POLLS := 500_000
  const RING_ENTRIES := 256
  /** What the response write pointer reads while nothing was ever answered. */
  const NO_RESPONSE: u16 := 0xFFFF

  // ------------------------------------------------------------ pointers

  /** What the response write pointer reads after `n` answers, from its first reading. */
  function WritePointer(first: u16, n: nat): (r: u16) {
    if n == 0 then first else (first % RING_ENTRIES + n) % RING_ENTRIES
  }

  /** Fewer than a ring of answers apart, the pointer tells two moments apart. */
  lemma PointersApart(first: u16, m: nat, n: nat)
    requires first < RING_ENTRIES || first == NO_RESPONSE
    requires m <= n < m + RING_ENTRIES
    ensures WritePointer(first, m) == WritePointer(first, n) <==> m == n
    ensures n > 0 ==> WritePointer(first, n) < RING_ENTRIES
  {
    var b := first % RING_ENTRIES;
    if 0 < m < n {
      CommandSlotsApart(b + m, b + n);
    } else if m == 0 < n {
      CommandSlotsApart(b, b + n);
    }
  }

  lemma NextPointer(first: u16, n: nat)
    requires first < RING_ENTRIES || first == NO_RESPONSE
    ensures WritePointer(first, n + 1) == (WritePointer(first, n) % RING_ENTRIES + 1) % RING_ENTRIES
  {
    var b := first % RING_ENTRIES;
    SlotStep(b + n);
    assert (b + n) % RING_ENTRIES % RING_ENTRIES == (b + n) % RING_ENTRIES;
  }

  lemma SlotStep(n: nat)
    ensures (n % RING_ENTRIES + 1) % RING_ENTRIES == (n + 1) % RING_ENTRIES
  {
  }

  lemma CommandSlotsApart(a: nat, b: nat)
    requires a < b < a + RING_ENTRIES
    ensures a % RING_ENTRIES != b % RING_ENTRIES
  {
  }

  // ------------------------------------------------------------ steps

  /** The driver's pointers, the rings, the controller's registers, and the history: the verbs
      queued, how many the codec answered, and how many answers the driver has gone past.  The
      codec's answer to a verb may depend on every verb before it. */
  datatype VerbSys = VerbSys(
    codec: seq<u32> -> u32, first: u16,
    corbWp: nat, rirbRp: u16, corb: seq<u32>, rirb: seq<u32>,
    wpRegister: nat, rirbWp: u16, corbRp: nat, heard: seq<u32>,
    verbs: seq<u32>, answered: nat, seen: nat)

  /** The registers are inside the rings, whatever the rings hold. */
  predicate Wired(s: VerbSys) {
    && |s.corb| == RING_ENTRIES && |s.rirb| == 2 * RING_ENTRIES
    && s.corbWp == s.wpRegister < RING_ENTRIES && s.corbRp < RING_ENTRIES
  }

  /** `send_verb` writes the verb after the last one and advances the write pointer to it. */
  function Queued(s: VerbSys, verb: u32): VerbSys
    requires Wired(s)
  {
    var index := (s.corbWp + 1) % RING_ENTRIES;
    s.(corb := s.corb[index := verb], corbWp := index, wpRegister := index, verbs := s.verbs + [verb])
  }

  predicate CanAnswer(s: VerbSys) { s.corbRp != s.wpRegister }

  /** The controller takes the next verb and writes the codec's answer. */
  function Answer(s: VerbSys): VerbSys
    requires Wired(s)
  {
    var rp, wp := (s.corbRp + 1) % RING_ENTRIES, (s.rirbWp % RING_ENTRIES + 1) % RING_ENTRIES;
    var heard := s.heard + [s.corb[rp]];
    s.(corbRp := rp, heard := heard, rirbWp := wp, rirb := s.rirb[wp * 2 := s.codec(heard)],
       answered := s.answered + 1)
  }

  /** The controller answers `n` verbs. */
  ghost predicate Answers(s: VerbSys, n: nat, t: VerbSys)
    decreases n
  {
    if n == 0 then s == t else Wired(s) && CanAnswer(s) && Answers(Answer(s), n - 1, t)
  }

  lemma {:induction false} AnswersJoin(s: VerbSys, m: nat, t: VerbSys, n: nat, u: VerbSys)
    requires Answers(s, m, t) && Answers(t, n, u)
    ensures Answers(s, m + n, u)
    decreases m
  {
    hide Answer, Wired, CanAnswer;
    if m > 0 {
      AnswersJoin(Answer(s), m - 1, t, n, u);
    }
  }

  lemma AnswersOnce(s: VerbSys)
    requires Wired(s) && CanAnswer(s)
    ensures Answers(s, 1, Answer(s))
  {
    hide Answer, Wired, CanAnswer;
    assert Answers(Answer(s), 0, Answer(s));
  }

  /** What the driver looks for: the write pointer is not where it left it. */
  predicate Sees(s: VerbSys) { s.rirbWp != NO_RESPONSE && s.rirbWp != s.rirbRp }

  /** The driver goes past the newest answer. */
  function Looked(s: VerbSys): VerbSys { s.(rirbRp := s.rirbWp, seen := s.answered) }

  // ------------------------------------------------------------ what every step keeps

  /** Every verb the controller has yet to take is where it will look for it. */
  ghost predicate Pending(corb: seq<u32>, verbs: seq<u32>, answered: nat) {
    |corb| == RING_ENTRIES && forall k :: answered <= k < |verbs| ==> CorbAt(corb, k + 1) == verbs[k]
  }

  function CorbAt(corb: seq<u32>, k: nat): u32
    requires |corb| == RING_ENTRIES
  {
    corb[k % RING_ENTRIES]
  }

  lemma CorbSet(corb: seq<u32>, m: nat, verb: u32, k: nat)
    requires |corb| == RING_ENTRIES
    ensures CorbAt(corb[m % RING_ENTRIES := verb], k)
         == if k % RING_ENTRIES == m % RING_ENTRIES then verb else CorbAt(corb, k)
  {
  }

  lemma NextVerb(corb: seq<u32>, verbs: seq<u32>, answered: nat)
    requires Pending(corb, verbs, answered) && answered <= |verbs| < answered + RING_ENTRIES
    requires answered % RING_ENTRIES != |verbs| % RING_ENTRIES
    ensures answered < |verbs| && CorbAt(corb, answered + 1) == verbs[answered]
    ensures verbs[..answered] + [verbs[answered]] == verbs[..answered + 1]
    ensures (answered % RING_ENTRIES + 1) % RING_ENTRIES == (answered + 1) % RING_ENTRIES
    ensures Pending(corb, verbs, answered + 1)
  {
    hide CorbAt;
    SlotStep(answered);
  }

  lemma PendingQueued(corb: seq<u32>, verbs: seq<u32>, answered: nat, verb: u32)
    requires Pending(corb, verbs, answered) && |verbs| + 1 < answered + RING_ENTRIES
    ensures var index := (|verbs| % RING_ENTRIES + 1) % RING_ENTRIES;
            && index == (|verbs| + 1) % RING_ENTRIES
            && Pending(corb[index := verb], verbs + [verb], answered)
  {
    hide CorbAt;
    SlotStep(|verbs|);
    var last := |verbs| + 1;
    forall k | answered <= k < last
      ensures CorbAt(corb[last % RING_ENTRIES := verb], k + 1) == (verbs + [verb])[k]
    {
      CorbSet(corb, last, verb, k + 1);
      if k < |verbs| {
        CommandSlotsApart(k + 1, last);
        assert CorbAt(corb, k + 1) == verbs[k];
      }
    }
  }

  /** The registers are the counters, and fewer than a ring of verbs is outstanding. */
  ghost predicate InStep(s: VerbSys) {
    && Wired(s) && (s.first < RING_ENTRIES || s.first == NO_RESPONSE)
    && s.seen <= s.answered <= |s.verbs| < s.seen + RING_ENTRIES
    && s.corbWp == |s.verbs| % RING_ENTRIES && s.corbRp == s.answered % RING_ENTRIES
    && s.rirbRp == WritePointer(s.first, s.seen) && s.rirbWp == WritePointer(s.first, s.answered)
    && Pending(s.corb, s.verbs, s.answered) && s.heard == s.verbs[..s.answered]
    && (s.answered > 0 ==> s.rirb[s.rirbWp % RING_ENTRIES * 2] == s.codec(s.verbs[..s.answered]))
  }

  /** Nothing is outstanding: every verb was answered and its answer taken. */
  predicate Idle(s: VerbSys) { s.seen == s.answered == |s.verbs| }

  predicate HasRoom(s: VerbSys) { |s.verbs| + 1 < s.seen + RING_ENTRIES }

  lemma QueuedInStep(s: VerbSys, verb: u32)
    requires InStep(s)
    ensures InStep(Queued(s, verb)) <==> HasRoom(s)
  {
    hide Pending, WritePointer, CorbAt;
    if HasRoom(s) {
      PendingQueued(s.corb, s.verbs, s.answered, verb);
      assert (s.verbs + [verb])[..s.answered] == s.verbs[..s.answered];
    }
  }

  /** The ring is not checked for room: with 255 verbs unanswered one more makes it look empty, and
      only then does the controller see nothing to take. */
  lemma QueuedSeen(s: VerbSys, verb: u32)
    requires InStep(s)
    ensures CanAnswer(Queued(s, verb)) <==> |s.verbs| - s.answered < 255
  {
    hide Pending, WritePointer, CorbAt;
    SlotStep(|s.verbs|);
    if |s.verbs| - s.answered < 255 {
      CommandSlotsApart(s.answered, |s.verbs| + 1);
    }
  }

  /** The controller sees a verb exactly when one is unanswered. */
  lemma WaitsExact(s: VerbSys)
    requires InStep(s)
    ensures CanAnswer(s) <==> s.answered < |s.verbs|
  {
    hide Pending, WritePointer;
    if s.answered < |s.verbs| {
      CommandSlotsApart(s.answered, |s.verbs|);
    }
  }

  lemma AnswerInStep(s: VerbSys)
    requires InStep(s) && CanAnswer(s)
    ensures InStep(Answer(s))
  {
    hide Pending, WritePointer, CorbAt;
    WaitsExact(s);
    NextPointer(s.first, s.answered);
    NextVerb(s.corb, s.verbs, s.answered);
    CorbIs(s.corb, s.answered + 1);
    var wp := (s.rirbWp % RING_ENTRIES + 1) % RING_ENTRIES;
    assert wp % RING_ENTRIES == wp;
  }

  lemma CorbIs(corb: seq<u32>, k: nat)
    requires |corb| == RING_ENTRIES
    ensures CorbAt(corb, k) == corb[k % RING_ENTRIES]
  {
  }

  lemma {:induction false} AnswersInStep(s: VerbSys, n: nat, t: VerbSys)
    requires InStep(s) && Answers(s, n, t)
    ensures InStep(t) && t == t.(verbs := s.verbs, seen := s.seen, codec := s.codec) && t.answered == s.answered + n
    decreases n
  {
    hide InStep;
    if n > 0 {
      AnswerInStep(s);
      AnswersInStep(Answer(s), n - 1, t);
    }
  }

  /** The driver sees an answer exactly when there is one it has not gone past; the entry at the
      write pointer is the newest. */
  lemma SeesExact(s: VerbSys)
    requires InStep(s)
    ensures Sees(s) <==> s.seen < s.answered
    ensures Sees(s) ==>
              && s.rirb[s.rirbWp % RING_ENTRIES * 2] == s.codec(s.verbs[..s.answered])
              && InStep(Looked(s))
  {
    hide Pending, WritePointer;
    PointersApart(s.first, s.seen, s.answered);
  }

  /** A schedule after which the driver's look sees an answer. */
  ghost predicate Shows(s: VerbSys, n: nat, t: VerbSys) { Answers(s, n, t) && Sees(t) }

  /** On every schedule that shows an answer it is this verb's own, if and only if nothing was
      outstanding; and some schedule does show one. */
  lemma OwnVerb(s: VerbSys, verb: u32)
    requires InStep(s) && HasRoom(s)
    ensures Idle(s) <==> forall n, t: VerbSys :: Shows(Queued(s, verb), n, t) ==> t.answered == |t.verbs|
    ensures exists n, t: VerbSys :: Shows(Queued(s, verb), n, t)
  {
    hide InStep, Sees, Answers, Wired, Queued;
    Counts(s);
    var q := Queued(s, verb);
    QueuedInStep(s, verb);
    QueuedCounts(s, verb);
    Counts(q);
    if Idle(s) {
      forall n, t: VerbSys | Shows(q, n, t)
        ensures t.answered == |t.verbs|
      {
        AnswersInStep(q, n, t);
        SeesExact(t);
        Counts(t);
      }
    }
    if s.seen < s.answered {
      SeesExact(q);
      NoAnswers(q);
      assert Shows(q, 0, q);
    } else {
      WaitsExact(q);
      AnswerInStep(q);
      AnswersOnce(q);
      SeesExact(Answer(q));
      assert Shows(q, 1, Answer(q));
    }
  }

  lemma QueuedCounts(s: VerbSys, verb: u32)
    requires Wired(s)
    ensures var q := Queued(s, verb); |q.verbs| == |s.verbs| + 1 && q.answered == s.answered && q.seen == s.seen
  {
  }

  lemma NoAnswers(s: VerbSys)
    ensures Answers(s, 0, s)
  {
  }

  lemma Counts(s: VerbSys)
    requires InStep(s)
    ensures Wired(s) && s.seen <= s.answered <= |s.verbs|
  {
    hide Pending, WritePointer;
  }

  // ------------------------------------------------------------ the driver

  class CommandRings {
    const codec: seq<u32> -> u32
    const first: u16
    var corbWp: nat
    var rirbRp: u16
    const corb: array<u32>
    const rirb: array<u32>
    // Registers and the controller's side
    var corbWpRegister: nat
    var rirbWpRegister: u16
    var corbRp: nat
    var heard: seq<u32>
    ghost var verbs: seq<u32>
    ghost var answered: nat
    ghost var seen: nat

    ghost function View(): VerbSys
      reads this, corb, rirb
    {
      VerbSys(codec, first, corbWp, rirbRp, corb[..], rirb[..], corbWpRegister, rirbWpRegister, corbRp, heard,
              verbs, answered, seen)
    }

    ghost predicate Valid()
      reads this, corb, rirb
    {
      Wired(View())
    }

    constructor (codec: seq<u32> -> u32, first: u16)
      requires first < RING_ENTRIES || first == NO_RESPONSE
      ensures Valid() && InStep(View()) && Idle(View()) && verbs == []
      ensures this.codec == codec && fresh(corb) && fresh(rirb)
    {
      this.codec, this.first := codec, first;
      corbWp, corbWpRegister, corbRp := 0, 0, 0;
      rirbRp, rirbWpRegister := first, first;
      corb := new u32[RING_ENTRIES](_ => 0);
      rirb := new u32[2 * RING_ENTRIES](_ => 0);
      heard, verbs, answered, seen := [], [], 0, 0;
    }

    method CodecAnswers()
      requires Valid() && CanAnswer(View())
      modifies this`corbRp, this`rirbWpRegister, this`answered, this`heard, rirb
      ensures Valid() && View() == Answer(old(View()))
    {
      ghost var before := View();
      corbRp := (corbRp + 1) % RING_ENTRIES;
      heard := heard + [corb[corbRp]];
      var wp := (rirbWpRegister % RING_ENTRIES + 1) % RING_ENTRIES;
      rirbWpRegister := wp;
      rirb[wp * 2] := codec(heard);
      answered := answered + 1;
      assert View() == Answer(before);
    }

    /** The controller may take any number of verbs. */
    method CodecMayAnswer() returns (ghost n: nat)
      requires Valid()
      modifies this`corbRp, this`rirbWpRegister, this`answered, this`heard, rirb
      ensures Valid() && Answers(old(View()), n, View())
    {
      hide Answer, Answers;
      n := 0;
      NoAnswers(View());
      var more: nat := *;
      while more > 0 && corbRp != corbWpRegister
        invariant Valid() && Answers(old(View()), n, View())
        decreases more
      {
        ghost var before := View();
        AnswersOnce(before);
        CodecAnswers();
        AnswersJoin(old(View()), n, before, 1, View());
        n, more := n + 1, more - 1;
      }
    }

    /** Write the verb after the last one and advance the write pointer to it. */
    method QueueVerb(verb: u32)
      requires Valid()
      modifies this`corbWp, this`corbWpRegister, this`verbs, corb
      ensures Valid() && View() == Queued(old(View()), verb)
      ensures old(InStep(View())) ==> (InStep(View()) <==> old(HasRoom(View())))
    {
      hide InStep;
      ghost var before := View();
      if InStep(before) {
        QueuedInStep(before, verb);
      }
      var index := (corbWp + 1) % RING_ENTRIES;
      corb[index] := verb;
      corbWpRegister := index;
      corbWp := index;
      verbs := verbs + [verb];
      assert View() == Queued(before, verb);
    }

    /** Send a verb and poll for its answer: after some schedule of the controller, the newest
        answer given, if there is one not gone past.  With nothing outstanding it is this
        verb's own, through any number of wraps of both rings. */
    method SendVerb(verb: u32) returns (r: Result<u32>, looks: nat, ghost n: nat, ghost last: VerbSys)
      requires Valid()
      modifies this, corb, rirb
      ensures Valid() && Answers(Queued(old(View()), verb), n, last)
      ensures r.Err? ==> r == Err(TimedOut) && looks == RESPONSE_POLLS && View() == last && !Sees(last)
      ensures r.Ok? ==> Sees(last) && View() == Looked(last) && r.value == last.rirb[last.rirbWp % RING_ENTRIES * 2]
      ensures old(InStep(View()) && HasRoom(View())) ==>
                && InStep(View()) && verbs == old(verbs) + [verb]
                && (r.Ok? ==> old(seen) < seen <= |verbs| && r.value == codec(verbs[..seen]))
                && (r.Ok? && old(Idle(View())) ==> Idle(View()) && r.value == codec(verbs))
    {
      hide InStep, Answers;
      ghost var start := View();
      QueueVerb(verb);
      ghost var queued := View();
      looks, n, last := 0, 0, queued;
      NoAnswers(queued);
      var lastRp := rirbRp;
      for polls := 0 to RESPONSE_POLLS
        invariant Valid() && View() == last && Answers(queued, n, last) && lastRp == rirbRp
        invariant looks == polls && (polls > 0 ==> !Sees(last))
      {
        ghost var more;
        more := CodecMayAnswer();
        AnswersJoin(queued, n, last, more, View());
        n, last := n + more, View();
        looks := looks + 1;
        var wp := rirbWpRegister;
        if wp != NO_RESPONSE && wp != lastRp {
          var low := rirb[wp % RING_ENTRIES * 2];
          if InStep(queued) {
            Newest(queued, n, last);
          }
          rirbRp := wp;
          seen := answered;
          assert verbs[..|verbs|] == verbs;
          return Ok(low), looks, n, last;
        }
      }
      if InStep(queued) {
        AnswersInStep(queued, n, last);
      }
      return Err(TimedOut), looks, n, last;
    }
  }

  /** A look that sees an answer sees the newest, of a verb not gone past. */
  lemma Newest(q: VerbSys, n: nat, t: VerbSys)
    requires InStep(q) && Answers(q, n, t) && Sees(t)
    ensures t.verbs == q.verbs && t.codec == q.codec && InStep(Looked(t)) && q.seen < t.answered <= |t.verbs|
    ensures Wired(t) && t.rirb[t.rirbWp % RING_ENTRIES * 2] == t.codec(t.verbs[..t.answered])
  {
    hide InStep, Sees;
    AnswersInStep(q, n, t);
    SeesExact(t);
    Counts(t);
  }

  /** The first verb of all times out, and the next caller can be given its answer. */
  method LateVerb(codec: seq<u32> -> u32, first: u16, one: u32, two: u32)
    returns (rings: CommandRings, ghost t: VerbSys)
    requires first < RING_ENTRIES || first == NO_RESPONSE
    ensures rings.Valid() && rings.verbs == [one] && Shows(Queued(rings.View(), two), 1, t)
    ensures Wired(t) && t.rirb[t.rirbWp % RING_ENTRIES * 2] == codec([one])
  {
    hide InStep, Sees, Answers, Answer;
    rings := new CommandRings(codec, first);
    rings.QueueVerb(one);
    ghost var s := rings.View();
    ghost var q := Queued(s, two);
    QueuedInStep(s, two);
    WaitsExact(q);
    AnswersOnce(q);
    t := Answer(q);
    AnswersInStep(q, 1, t);
    SeesExact(t);
    Counts(t);
    assert t.verbs[..1] == [one];
  }
}
