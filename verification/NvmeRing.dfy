/** A completion ring with phase tags, as both queue pairs use it: nothing but the tag of the
    entry at the head says whether the controller has published it. */
module NvmeRing {
  import opened NvmeProtocol

  /** The phase tag the controller posts with its `n`-th completion. */
  predicate PhaseOf(n: nat) { n / QUEUE_ENTRIES % 2 == 0 }

  function Bump(i: nat): nat { (i + 1) % QUEUE_ENTRIES }

  lemma RingStep(n: nat)
    ensures (n + 1) % QUEUE_ENTRIES == Bump(n % QUEUE_ENTRIES)
    ensures PhaseOf(n + 1) == if Bump(n % QUEUE_ENTRIES) == 0 then !PhaseOf(n) else PhaseOf(n)
  {
  }

  lemma SlotsApart(a: nat, b: nat)
    requires a < b < a + QUEUE_ENTRIES
    ensures a % QUEUE_ENTRIES != b % QUEUE_ENTRIES
  {
  }

  /** `n` completions were posted: an entry has the tag of the latest one posted there, and
      one never written has the tag no first-lap completion has. */
  ghost predicate Tagged(cq: seq<Cqe>, n: nat) {
    && |cq| == QUEUE_ENTRIES
    && (forall p :: 0 <= p < n <= p + QUEUE_ENTRIES ==> EntryAt(cq, p).Phase() == PhaseOf(p))
    && (forall i :: n <= i < QUEUE_ENTRIES ==> !cq[i].Phase())
  }

  /** The entry the `p`-th completion is posted in. */
  function EntryAt(cq: seq<Cqe>, p: nat): Cqe
    requires |cq| == QUEUE_ENTRIES
  {
    cq[p % QUEUE_ENTRIES]
  }

  /** Posting overwrites no entry of the last lap but the oldest. */
  lemma TaggedPost(cq: seq<Cqe>, n: nat, e: Cqe)
    requires Tagged(cq, n) && e.Phase() == PhaseOf(n)
    ensures Tagged(cq[n % QUEUE_ENTRIES := e], n + 1)
    ensures forall p :: 0 <= p < n < p + QUEUE_ENTRIES ==>
              EntryAt(cq[n % QUEUE_ENTRIES := e], p) == EntryAt(cq, p)
  {
    var cq' := cq[n % QUEUE_ENTRIES := e];
    forall p | 0 <= p < n < p + QUEUE_ENTRIES
      ensures EntryAt(cq', p) == EntryAt(cq, p)
    {
      SlotsApart(p, n);
    }
  }

  /** The tag is exact, through any number of wraps: the entry at the head of a ring that is
      never lapped carries the expected tag if and only if it was published. */
  lemma TaggedRead(cq: seq<Cqe>, n: nat, c: nat)
    requires Tagged(cq, n) && c <= n < c + QUEUE_ENTRIES
    ensures EntryAt(cq, c).Phase() == PhaseOf(c) <==> c < n
  {
    if c == n && n >= QUEUE_ENTRIES {
      var p := n - QUEUE_ENTRIES;
      assert EntryAt(cq, p) == EntryAt(cq, c) && EntryAt(cq, p).Phase() == PhaseOf(p);
      assert n / QUEUE_ENTRIES == p / QUEUE_ENTRIES + 1;
    }
  }
}
