/** The interrupt-identity registry of src/arch/irq_handlers.rs: per-base windows of handler
    slots, a first-fit all-or-nothing allocator, and dispatch. */
module IrqHandlers {
  import opened Machine

  const IRQ_TABLE_LEN := 256
  const MAX_WINDOWS := 4
  const MAX_U32 := 0xFFFF_FFFF

  /** Which closure runs: handlers are compared by identity, never looked into. */
  type Handler = nat

  type Table = t: seq<Option<Handler>> | |t| == IRQ_TABLE_LEN witness seq(IRQ_TABLE_LEN, _ => None)

  /** The registry as a value. */
  datatype Reg = Reg(bases: seq<Option<u32>>, tabs: seq<Table>)

  /** A successful claim: identities `start..start + |handlers|` of `base`, one handler each. */
  datatype Grant = Grant(base: u32, start: u32, handlers: seq<Handler>)
  {
    predicate Covers(b: u32, identity: int) { b == base && start <= identity < start + |handlers| }
  }

  // ------------------------------------------------------------ lookups

  /** The first window with this content; the number of windows when there is none. */
  function Position(bases: seq<Option<u32>>, what: Option<u32>): (w: nat)
    ensures w <= |bases|
    ensures w < |bases| ==> bases[w] == what
    ensures forall v :: 0 <= v < w ==> bases[v] != what
  {
    if bases == [] || bases[0] == what then 0 else 1 + Position(bases[1..], what)
  }

  /** `slot`: the window and offset an identity occupies. */
  function Slot(reg: Reg, base: u32, identity: u32): (r: Option<(nat, nat)>)
    ensures r.Some? ==> r.value.0 < |reg.bases| && r.value.1 < IRQ_TABLE_LEN
  {
    var w := Position(reg.bases, Some(base));
    if w == |reg.bases| || identity < base || identity - base >= IRQ_TABLE_LEN then None
    else Some((w, identity - base))
  }

  /** The handler registered for an identity of a base. */
  function Registered(reg: Reg, base: u32, identity: u32): (r: Option<Handler>)
    requires |reg.tabs| == |reg.bases|
  {
    match Slot(reg, base, identity)
    case None => None
    case Some((w, offset)) => reg.tabs[w][offset]
  }

  /** Open windows have distinct bases, and a window nobody opened holds nothing. */
  ghost predicate WellFormed(reg: Reg) {
    && |reg.bases| == |reg.tabs| == MAX_WINDOWS
    && (forall v, w :: 0 <= v < w < MAX_WINDOWS && reg.bases[v].Some? ==> reg.bases[v] != reg.bases[w])
    && (forall w, o :: 0 <= w < MAX_WINDOWS && reg.bases[w].None? && 0 <= o < IRQ_TABLE_LEN ==> reg.tabs[w][o].None?)
  }

  // ------------------------------------------------------------ runs of slots

  predicate SlotFree(tab: Table, base: u32, identity: int)
    requires base <= identity < base + IRQ_TABLE_LEN
  {
    tab[identity - base].None?
  }

  /** Every slot of the run is free. */
  ghost predicate FreeRun(tab: Table, base: u32, start: int, count: nat) {
    && base <= start && start + count <= base + IRQ_TABLE_LEN
    && forall identity :: start <= identity < start + count ==> SlotFree(tab, base, identity)
  }

  /** The check as the code makes it: the end of the run is a 32-bit sum, and a range whose
      end does not exceed its start is empty. */
  predicate CheckRun(tab: Table, base: u32, candidate: u32, count: u32)
    requires base <= candidate && candidate + count <= base + IRQ_TABLE_LEN
  {
    var end := (candidate + count) % (MAX_U32 + 1);
    forall identity :: candidate <= identity < end ==> SlotFree(tab, base, identity)
  }

  /** Exactly where the check is right: for every table it answers whether the run is free, if
      and only if the run stays below the last 32-bit identity. */
  lemma CheckRunExact(base: u32, candidate: u32, count: u32)
    requires base <= candidate && candidate + count <= base + IRQ_TABLE_LEN && count > 0
    ensures (forall tab: Table :: CheckRun(tab, base, candidate, count) <==> FreeRun(tab, base, candidate, count))
       <==> candidate + count <= MAX_U32
  {
    if candidate + count > MAX_U32 {
      var full: Table := seq(IRQ_TABLE_LEN, _ => Some(0));
      assert CheckRun(full, base, candidate, count);
      assert !SlotFree(full, base, candidate);
      assert !FreeRun(full, base, candidate, count);
    }
  }

  /** The table with `run` written from offset `at`. */
  function Granted(tab: Table, at: nat, run: seq<Handler>): (r: Table)
    requires at + |run| <= IRQ_TABLE_LEN
    ensures forall o :: 0 <= o < IRQ_TABLE_LEN ==> r[o] == if at <= o < at + |run| then Some(run[o - at]) else tab[o]
  {
    Blit(tab, at, seq(|run|, i requires 0 <= i < |run| => Some(run[i])))
  }

  // ------------------------------------------------------------ what every call keeps

  /** What was granted is what is registered: every identity belongs to at most one grant, an
      identity of a grant has that grant's handler, and no other identity has one. */
  ghost predicate Ledger(reg: Reg, grants: seq<Grant>) {
    && WellFormed(reg)
    && (forall g, h, b: u32, identity: u32 :: 0 <= g < h < |grants| ==>
          !(grants[g].Covers(b, identity) && grants[h].Covers(b, identity)))
    && (forall g, b: u32, identity: u32 :: 0 <= g < |grants| && grants[g].Covers(b, identity) ==>
          Registered(reg, b, identity) == Some(grants[g].handlers[identity - grants[g].start]))
    && (forall b: u32, identity: u32 :: Registered(reg, b, identity).Some? ==> Owned(grants, b, identity))
  }

  ghost predicate Owned(grants: seq<Grant>, b: u32, identity: u32) {
    exists g :: 0 <= g < |grants| && grants[g].Covers(b, identity)
  }

  /** Opening a window for a new base registers nothing and hides nothing. */
  lemma OpenKeeps(reg: Reg, base: u32, w: nat)
    requires WellFormed(reg) && w < MAX_WINDOWS && reg.bases[w] == None && Some(base) !in reg.bases
    ensures var t := reg.(bases := reg.bases[w := Some(base)]);
            && WellFormed(t)
            && forall b: u32, identity: u32 :: Registered(t, b, identity) == Registered(reg, b, identity)
  {
    var t := reg.(bases := reg.bases[w := Some(base)]);
    forall b: u32, identity: u32
      ensures Registered(t, b, identity) == Registered(reg, b, identity)
    {
      if b != base {
        SameWindow(reg.bases, t.bases, w, b);
      } else {
        FoundAt(t.bases, w, base);
      }
    }
  }

  lemma SameWindow(bases: seq<Option<u32>>, bases': seq<Option<u32>>, w: nat, b: u32)
    requires w < |bases| == |bases'| && bases[w] == None && bases' == bases[w := bases'[w]] && bases'[w] != Some(b)
    ensures Position(bases', Some(b)) == Position(bases, Some(b))
  {
    assert forall v :: 0 <= v < |bases| ==> (bases'[v] == Some(b) <==> bases[v] == Some(b));
  }

  /** In a registry with distinct bases, a base's window is the one that holds it. */
  lemma FoundAt(bases: seq<Option<u32>>, w: nat, base: u32)
    requires w < |bases| && bases[w] == Some(base)
    requires forall v :: 0 <= v < |bases| && v != w ==> bases[v] != Some(base)
    ensures Position(bases, Some(base)) == w
  {
  }

  /** Writing a free run into a base's window changes the handlers of exactly that run of that
      base: the same slot numbers of another base are another window's. */
  lemma GrantChanges(reg: Reg, base: u32, w: nat, start: u32, run: seq<Handler>)
    requires WellFormed(reg) && w < MAX_WINDOWS && reg.bases[w] == Some(base)
    requires base <= start && start + |run| <= base + IRQ_TABLE_LEN
    ensures var t := reg.(tabs := reg.tabs[w := Granted(reg.tabs[w], start - base, run)]);
            && WellFormed(t)
            && forall b: u32, identity: u32 :: Registered(t, b, identity) ==
                 if b == base && start <= identity < start + |run| then Some(run[identity - start])
                 else Registered(reg, b, identity)
  {
    FoundAt(reg.bases, w, base);
    var t := reg.(tabs := reg.tabs[w := Granted(reg.tabs[w], start - base, run)]);
    forall b: u32, identity: u32
      ensures Registered(t, b, identity) ==
                if b == base && start <= identity < start + |run| then Some(run[identity - start])
                else Registered(reg, b, identity)
    {
      var p := Position(reg.bases, Some(b));
      assert p == w ==> b == base;
    }
  }

  /** A grant of identities nobody had keeps the ledger. */
  lemma LedgerGrows(reg: Reg, t: Reg, grants: seq<Grant>, g: Grant)
    requires Ledger(reg, grants) && WellFormed(t)
    requires forall b: u32, identity: u32 :: Registered(t, b, identity) ==
               if g.Covers(b, identity) then Some(g.handlers[identity - g.start]) else Registered(reg, b, identity)
    requires forall b: u32, identity: u32 :: g.Covers(b, identity) ==> Registered(reg, b, identity).None?
    ensures Ledger(t, grants + [g])
  {
    var all := grants + [g];
    forall b: u32, identity: u32 | Registered(t, b, identity).Some?
      ensures Owned(all, b, identity)
    {
      if g.Covers(b, identity) {
        assert all[|grants|].Covers(b, identity);
      } else {
        var i :| 0 <= i < |grants| && grants[i].Covers(b, identity);
        assert all[i].Covers(b, identity);
      }
    }
  }

  lemma LedgerSame(reg: Reg, t: Reg, grants: seq<Grant>)
    requires Ledger(reg, grants) && WellFormed(t)
    requires forall b: u32, identity: u32 :: Registered(t, b, identity) == Registered(reg, b, identity)
    ensures Ledger(t, grants)
  {
  }

  // ------------------------------------------------------------ the registry

  class Registry {
    const bases: array<Option<u32>>
    const tables: seq<array<Option<Handler>>>
    ghost var grants: seq<Grant>

    /** Four windows, each with a table of its own. */
    ghost predicate Shape() {
      && bases.Length == MAX_WINDOWS && |tables| == MAX_WINDOWS
      && (forall w :: 0 <= w < MAX_WINDOWS ==> tables[w].Length == IRQ_TABLE_LEN)
      && (forall v, w :: 0 <= v < w < MAX_WINDOWS ==> tables[v] != tables[w])
    }

    ghost function View(): Reg
      requires Shape()
      reads bases, tables
    {
      Reg(bases[..], [tables[0][..], tables[1][..], tables[2][..], tables[3][..]])
    }

    ghost predicate Valid()
      reads this, bases, tables
    {
      Shape() && Ledger(View(), grants)
    }

    constructor ()
      ensures Valid() && grants == [] && fresh(bases) && fresh(tables)
      ensures forall w :: 0 <= w < MAX_WINDOWS ==> bases[w].None?
    {
      bases := new Option<u32>[MAX_WINDOWS](_ => None);
      var t0 := new Option<Handler>[IRQ_TABLE_LEN](_ => None);
      var t1 := new Option<Handler>[IRQ_TABLE_LEN](_ => None);
      var t2 := new Option<Handler>[IRQ_TABLE_LEN](_ => None);
      var t3 := new Option<Handler>[IRQ_TABLE_LEN](_ => None);
      tables := [t0, t1, t2, t3];
      grants := [];
      new;
      EmptyLedger(View());
    }

    /** Whether any handler is registered for `identity`: exactly when a claim of this base
        was granted it. */
    method IsRegistered(base: u32, identity: u32) returns (r: bool)
      requires Valid()
      ensures r <==> Owned(grants, base, identity)
    {
      var h := Dispatch(base, identity);
      r := h.Some?;
    }

    /** Which handler runs for a delivered identity: the one its claim gave it, and none for
        an identity no claim of this base was granted. */
    method Dispatch(base: u32, identity: u32) returns (ran: Option<Handler>)
      requires Valid()
      ensures ran.Some? <==> Owned(grants, base, identity)
      ensures forall g :: 0 <= g < |grants| && grants[g].Covers(base, identity) ==>
                ran == Some(grants[g].handlers[identity - grants[g].start])
    {
      ghost var reg := View();
      var w := Position(bases[..], Some(base));
      if w == MAX_WINDOWS || identity < base || identity - base >= IRQ_TABLE_LEN {
        assert Registered(reg, base, identity) == None;
        return None;
      }
      ran := tables[w][identity - base];
      assert reg.tabs[w] == tables[w][..];
      assert ran == Registered(reg, base, identity);
    }

    /** The window of `base`, opening the first unused one for a base not seen before. */
    method Open(base: u32) returns (w: nat)
      requires Valid()
      modifies bases
      ensures Valid() && View().tabs == old(View().tabs) && w <= MAX_WINDOWS
      ensures w == MAX_WINDOWS <==> Some(base) !in old(bases[..]) && None !in old(bases[..])
      ensures w < MAX_WINDOWS ==> bases[w] == Some(base)
      ensures bases[..] == OpenedFor(old(bases[..]), base)
      ensures forall b: u32, identity: u32 :: Registered(View(), b, identity) == Registered(old(View()), b, identity)
    {
      hide Ledger;
      ghost var reg := View();
      w := Position(bases[..], Some(base));
      if w == MAX_WINDOWS {
        w := Position(bases[..], None);
        if w < MAX_WINDOWS {
          LedgerShape(reg, grants);
          OpenKeeps(reg, base, w);
          bases[w] := Some(base);
          assert View() == reg.(bases := reg.bases[w := Some(base)]);
          LedgerSame(reg, View(), grants);
        }
      }
    }

    /** Claim `count` consecutive identities, first-fit from `first`, one handler each; either
        all of the run is registered or no handler is.  A claim that must be refused for want
        of room may still have opened a window for its base.  A run that ends with the last
        32-bit identity is taken whoever holds it: the ledger survives exactly when the claim
        does not come to that. */
    method ClaimRun(base: u32, first: u32, last: u32, count: u32, handlerAt: nat -> Option<Handler>)
      returns (r: Result<u32>)
      requires Valid()
      modifies this`grants, bases, tables
      ensures Shape() && Claimed(old(View()), old(grants), View(), grants, base, first, last, count, handlerAt, r)
      ensures Valid() <==>
              !TakesHeld(old(View()), old(grants), base, first, last, count, handlerAt)
      ensures Valid() <==> r.Ok? ==> Clear(old(grants), base, r.value, count)
      ensures last < MAX_U32 || base + IRQ_TABLE_LEN <= MAX_U32 ==> Valid()
    {
      hide Ledger, FirstFit, HandlerRun, Clear, Registers;
      ghost var reg, held := View(), grants;
      if count == 0 || first < base || last < first {
        return Err(InvalidArgument);
      }
      var top := LastIdentity(base, last);
      if top < first {
        return Err(NoSpace);
      }
      if exists index :: 0 <= index < count && handlerAt(index).None? {
        return Err(InvalidArgument);
      }
      var run := HandlerRun(handlerAt, count);
      var window := Open(base);
      if window == MAX_WINDOWS {
        return Err(NoSpace);
      }
      ghost var windowed := View();
      r := Search(base, first, top, run, window);
      FitReaches(held, base, first, last, count, r);
      FitTakes(held, base, first, last, count, r);
      if r.Ok? {
        RegistersAfter(reg, windowed, View(), Grant(base, r.value, run));
      }
    }

    /** Try every start in turn; the first whose whole run is free gets the handlers. */
    method Search(base: u32, first: u32, last: u32, run: seq<Handler>, window: nat) returns (r: Result<u32>)
      requires Valid() && window < MAX_WINDOWS && bases[window] == Some(base)
      requires 0 < |run| <= MAX_U32 && base <= first <= last < base + IRQ_TABLE_LEN
      modifies this`grants, tables
      ensures Shape() && View().bases == old(View().bases)
      ensures Valid() <==> r.Ok? ==> Clear(old(grants), base, r.value, |run|)
      ensures FirstFit(old(grants), base, first, last, |run|, r)
      ensures r.Ok? ==>
                && grants == old(grants) + [Grant(base, r.value, run)]
                && Registers(old(View()), View(), Grant(base, r.value, run))
      ensures r.Err? ==> grants == old(grants) && View().tabs == old(View().tabs)
    {
      hide Ledger, Registers, Clear;
      ghost var reg := View();
      if last < |run| - 1 {
        return Err(NoSpace);
      }
      var lastFirst := last - (|run| - 1);
      var candidate := first;
      while candidate <= lastFirst
        invariant Valid() && View() == reg && grants == old(grants) && first <= candidate
        invariant forall c :: first <= c < candidate ==> !Clear(grants, base, c, |run|) && c + |run| <= MAX_U32
      {
        RunVsLedger(reg, grants, base, window, candidate, |run|);
        assert reg.tabs[window] == tables[window][..];
        var free := CheckRun(tables[window][..], base, candidate, |run|);
        if free {
          GrantRun(base, candidate, run, window);
          return Ok(candidate);
        }
        candidate := candidate + 1;
      }
      return Err(NoSpace);
    }

    /** Register the run.  The ledger survives exactly when nobody held any part of it. */
    method GrantRun(base: u32, start: u32, run: seq<Handler>, window: nat)
      requires Valid() && window < MAX_WINDOWS && bases[window] == Some(base)
      requires base <= start && start + |run| <= base + IRQ_TABLE_LEN && start + |run| <= MAX_U32 + 1
      modifies this`grants, tables
      ensures Shape() && View().bases == old(View().bases) && grants == old(grants) + [Grant(base, start, run)]
      ensures Valid() <==> Clear(old(grants), base, start, |run|)
      ensures Registers(old(View()), View(), Grant(base, start, run))
    {
      hide Ledger, Clear, WellFormed, Registered, Granted;
      ghost var reg, g := View(), Grant(base, start, run);
      LedgerShape(reg, grants);
      GrantChanges(reg, base, window, start, run);
      WriteRun(window, start - base, run);
      if Clear(grants, base, start, |run|) {
        ClearMeansFree(reg, grants, g);
        LedgerGrows(reg, View(), grants, g);
      } else {
        TakenTwice(View(), grants, g);
      }
      grants := grants + [g];
    }

    method WriteRun(window: nat, at: nat, run: seq<Handler>)
      requires Shape() && window < MAX_WINDOWS && at + |run| <= IRQ_TABLE_LEN
      modifies tables[window]
      ensures View() == old(View()).(tabs := old(View()).tabs[window := Granted(old(View()).tabs[window], at, run)])
    {
      ghost var reg := View();
      assert reg.tabs[window] == tables[window][..];
      for i := 0 to |run|
        invariant forall o :: 0 <= o < IRQ_TABLE_LEN ==>
                    tables[window][o] == if at <= o < at + i then Some(run[o - at]) else reg.tabs[window][o]
      {
        tables[window][at + i] := Some(run[i]);
      }
      assert tables[window][..] == Granted(reg.tabs[window], at, run);
      assert forall w :: 0 <= w < MAX_WINDOWS && w != window ==> tables[w][..] == reg.tabs[w];
    }

    /** `claim`: the same handler for every identity of the run. */
    method Claim(base: u32, first: u32, last: u32, count: u32, handler: Handler) returns (r: Result<u32>)
      requires Valid()
      modifies this`grants, bases, tables
      ensures Shape()
      ensures Claimed(old(View()), old(grants), View(), grants, base, first, last, count, _ => Some(handler), r)
      ensures r.Ok? ==> grants == old(grants) + [Grant(base, r.value, seq(count, _ => handler))]
      ensures Valid() <==> !TakesHeld(old(View()), old(grants), base, first, last, count, _ => Some(handler))
    {
      hide Ledger, FirstFit, Clear, Registers, TakesHeld;
      r := ClaimRun(base, first, last, count, _ => Some(handler));
      assert r.Ok? ==> HandlerRun(_ => Some(handler), count) == seq(count, _ => handler);
    }

    /** `claim_each`: one handler per identity, in order.  The number of handlers is cut to 32
        bits. */
    method ClaimEach(base: u32, first: u32, last: u32, handlers: seq<Handler>) returns (r: Result<u32>)
      requires Valid()
      modifies this`grants, bases, tables
      ensures Shape()
      ensures var n := |handlers| % (MAX_U32 + 1);
              && Claimed(old(View()), old(grants), View(), grants, base, first, last, n, Nth(handlers), r)
              && (r.Ok? ==> grants == old(grants) + [Grant(base, r.value, handlers[..n])])
              && (Valid() <==> !TakesHeld(old(View()), old(grants), base, first, last, n, Nth(handlers)))
    {
      hide Ledger, FirstFit, Clear, Registers, TakesHeld;
      var n: u32 := |handlers| % (MAX_U32 + 1);
      r := ClaimRun(base, first, last, n, Nth(handlers));
      assert r.Ok? ==> HandlerRun(Nth(handlers), n) == handlers[..n];
    }
  }

  /** `handlers.get`. */
  function Nth(handlers: seq<Handler>): nat -> Option<Handler> {
    (i: nat) => if i < |handlers| then Some(handlers[i]) else None
  }

  /** What a claim does to windows, tables and ledger, and what it answers: InvalidArgument for
      a bad request and NoSpace before any window with nothing changed, and otherwise first fit. */
  ghost predicate Claimed(reg: Reg, held: seq<Grant>, t: Reg, grants: seq<Grant>,
                          base: u32, first: u32, last: u32, count: u32, handlerAt: nat -> Option<Handler>,
                          r: Result<u32>)
  {
    && |reg.bases| == |reg.tabs| && |t.bases| == |t.tabs|
    && (r.Err? ==> grants == held && t.tabs == reg.tabs)
    && (r.Err? ==> (t == reg <==> !OpensInVain(reg, base, first, last, count, handlerAt)))
    && if BadRequest(base, first, last, count, handlerAt) then r == Err(InvalidArgument) && t == reg
       else if first >= base + IRQ_TABLE_LEN || !HasWindow(reg.bases, base) then r == Err(NoSpace) && t == reg
       else
         && FirstFit(held, base, first, last, count, r)
         && t.bases == OpenedFor(reg.bases, base)
         && (r.Ok? ==>
               && grants == held + [Grant(base, r.value, HandlerRun(handlerAt, count))]
               && Registers(reg, t, Grant(base, r.value, HandlerRun(handlerAt, count))))
  }

  predicate HasWindow(bases: seq<Option<u32>>, base: u32) {
    Some(base) in bases || None in bases
  }

  /** A refusal of such a claim keeps the window it opened: the request is good, its base is new,
      and a window is left. */
  predicate OpensInVain(reg: Reg, base: u32, first: u32, last: u32, count: u32, handlerAt: nat -> Option<Handler>) {
    && !BadRequest(base, first, last, count, handlerAt) && first < base + IRQ_TABLE_LEN
    && Some(base) !in reg.bases && None in reg.bases
  }

  /** The claim comes to the run that ends with the last 32-bit identity while somebody holds
      part of it: the run is in range, and neither it nor any before it is clear. */
  ghost predicate TakesHeld(reg: Reg, grants: seq<Grant>, base: u32, first: u32, last: u32, count: u32,
                            handlerAt: nat -> Option<Handler>)
  {
    && !BadRequest(base, first, last, count, handlerAt) && HasWindow(reg.bases, base)
    && last == MAX_U32 < base + IRQ_TABLE_LEN && NoneClear(grants, base, first, count)
  }

  /** A run of `count` fits between `first` and the last 32-bit identity, and none is clear. */
  ghost predicate NoneClear(grants: seq<Grant>, base: u32, first: u32, count: u32) {
    && first + count - 1 <= MAX_U32
    && forall c :: first <= c && c + count - 1 <= MAX_U32 ==> !Clear(grants, base, c, count)
  }

  lemma FitTakes(grants: seq<Grant>, base: u32, first: u32, last: u32, count: u32, r: Result<u32>)
    requires FirstFit(grants, base, first, last, count, r) && count > 0
    ensures (r.Ok? ==> Clear(grants, base, r.value, count)) <==>
              !(last == MAX_U32 < base + IRQ_TABLE_LEN && NoneClear(grants, base, first, count))
  {
    hide Clear;
    var end := MAX_U32 + 1 - count;
    if r.Ok? && !Clear(grants, base, r.value, count) {
      forall c | first <= c && c + count - 1 <= MAX_U32
        ensures !Clear(grants, base, c, count)
      {
        assert c <= r.value;
      }
    } else if last == MAX_U32 < base + IRQ_TABLE_LEN && first <= end {
      assert Clear(grants, base, end, count) || !Clear(grants, base, end, count);
    }
  }

  /** The last identity a claim may reach: its own bound, or its window's end. */
  function LastIdentity(base: u32, last: u32): (r: u32) {
    Min(last, if base + IRQ_TABLE_LEN - 1 > MAX_U32 then MAX_U32 else base + IRQ_TABLE_LEN - 1)
  }

  /** The windows once a claim of `base` got as far as looking for a slot. */
  function OpenedFor(bases: seq<Option<u32>>, base: u32): seq<Option<u32>> {
    var w := Position(bases, None);
    if Some(base) in bases || w == |bases| then bases else bases[w := Some(base)]
  }

  predicate BadRequest(base: u32, first: u32, last: u32, count: u32, handlerAt: nat -> Option<Handler>) {
    || count == 0 || first < base || last < first
    || (first < base + IRQ_TABLE_LEN && exists index :: 0 <= index < count && handlerAt(index).None?)
  }

  function HandlerRun(handlerAt: nat -> Option<Handler>, count: nat): (run: seq<Handler>)
    requires forall index :: 0 <= index < count ==> handlerAt(index).Some?
    ensures |run| == count
  {
    seq(count, index requires 0 <= index < count => handlerAt(index).value)
  }

  /** No claim was granted any identity of the run. */
  ghost predicate Clear(grants: seq<Grant>, base: u32, start: int, count: nat) {
    forall identity: u32 :: start <= identity < start + count ==> !Owned(grants, base, identity)
  }

  /** The answer is the least start from `first` on whose whole run is unclaimed, or ends with the
      last 32-bit identity, among the runs that end by `last` and inside the window of `base`; a
      refusal exactly when there is none. */
  ghost predicate FirstFit(grants: seq<Grant>, base: u32, first: u32, last: u32, count: nat, r: Result<u32>) {
    match r
    case Ok(start) =>
      && first <= start && start + count - 1 <= last && start + count <= base + IRQ_TABLE_LEN
      && (Clear(grants, base, start, count) || start + count > MAX_U32)
      && forall c :: first <= c < start ==> !Clear(grants, base, c, count)
    case Err(e) =>
      && e == NoSpace
      && forall c :: first <= c && c + count - 1 <= last && c + count <= base + IRQ_TABLE_LEN ==>
           !Clear(grants, base, c, count) && c + count <= MAX_U32
  }

  /** Cutting the range at the window's end leaves the same runs. */
  lemma FitReaches(grants: seq<Grant>, base: u32, first: u32, last: u32, count: nat, r: Result<u32>)
    requires FirstFit(grants, base, first, LastIdentity(base, last), count, r)
    ensures FirstFit(grants, base, first, last, count, r)
  {
    hide Clear;
  }

  /** The handlers of the grant's identities are the grant's, and no other identity's changed. */
  ghost predicate Registers(reg: Reg, t: Reg, g: Grant)
    requires |reg.bases| == |reg.tabs| && |t.bases| == |t.tabs|
  {
    forall b: u32, identity: u32 :: Registered(t, b, identity) ==
      if g.Covers(b, identity) then Some(g.handlers[identity - g.start]) else Registered(reg, b, identity)
  }

  lemma RegistersAfter(reg: Reg, mid: Reg, t: Reg, g: Grant)
    requires |reg.bases| == |reg.tabs| && |mid.bases| == |mid.tabs| && |t.bases| == |t.tabs|
    requires Registers(mid, t, g)
    requires forall b: u32, identity: u32 :: Registered(mid, b, identity) == Registered(reg, b, identity)
    ensures Registers(reg, t, g)
  {
  }

  /** An identity of a new grant that an earlier one has too belongs to both. */
  lemma TakenTwice(reg: Reg, grants: seq<Grant>, g: Grant)
    requires !Clear(grants, g.base, g.start, |g.handlers|)
    ensures !Ledger(reg, grants + [g])
  {
    var identity: u32 :| g.start <= identity < g.start + |g.handlers| && Owned(grants, g.base, identity);
    var i :| 0 <= i < |grants| && grants[i].Covers(g.base, identity);
    var all := grants + [g];
    assert all[i].Covers(g.base, identity) && all[|grants|].Covers(g.base, identity);
  }

  lemma EmptyLedger(reg: Reg)
    requires |reg.bases| == |reg.tabs| == MAX_WINDOWS
    requires forall w :: 0 <= w < MAX_WINDOWS ==> reg.bases[w].None?
    requires forall w, o :: 0 <= w < MAX_WINDOWS && 0 <= o < IRQ_TABLE_LEN ==> reg.tabs[w][o].None?
    ensures Ledger(reg, [])
  {
  }

  lemma LedgerShape(reg: Reg, grants: seq<Grant>)
    requires Ledger(reg, grants)
    ensures WellFormed(reg)
  {
  }

  lemma ClearMeansFree(reg: Reg, grants: seq<Grant>, g: Grant)
    requires Ledger(reg, grants) && Clear(grants, g.base, g.start, |g.handlers|)
    ensures forall b: u32, identity: u32 :: g.Covers(b, identity) ==> Registered(reg, b, identity).None?
  {
  }

  /** The check over a base's table is a question about the ledger. */
  lemma RunVsLedger(reg: Reg, grants: seq<Grant>, base: u32, w: nat, start: u32, count: u32)
    requires Ledger(reg, grants) && w < MAX_WINDOWS && reg.bases[w] == Some(base) && count > 0
    requires base <= start && start + count <= base + IRQ_TABLE_LEN && start + count <= MAX_U32 + 1
    ensures CheckRun(reg.tabs[w], base, start, count) <==> Clear(grants, base, start, count) || start + count > MAX_U32
  {
    FoundAt(reg.bases, w, base);
    var tab := reg.tabs[w];
    forall identity: u32 | start <= identity < start + count
      ensures SlotFree(tab, base, identity) <==> !Owned(grants, base, identity)
    {
      assert Registered(reg, base, identity) == tab[identity - base];
    }
  }

  lemma OpenedAt(bases: seq<Option<u32>>, base: u32, k: nat)
    requires k < |bases| && bases[k] == None && (forall v :: 0 <= v < k ==> bases[v] != None) && Some(base) !in bases
    ensures OpenedFor(bases, base) == bases[k := Some(base)]
  {
  }

  /** The last identity claimed twice: the second claim is granted it too, and the ledger is
      broken. */
  method TwoOwners(reg: Registry, one: Handler, two: Handler) returns (r: Result<u32>, q: Result<u32>)
    requires reg.Valid() && reg.grants == [] && None in reg.bases[..]
    modifies reg`grants, reg.bases, reg.tables
    ensures r == q == Ok(MAX_U32) && !reg.Valid()
    ensures reg.grants == [Grant(MAX_U32, MAX_U32, [one]), Grant(MAX_U32, MAX_U32, [two])]
  {
    hide Ledger, FirstFit, Registers, OpensInVain;
    assert seq(1, _ => one) == [one] && seq(1, _ => two) == [two];
    OpenedHas(reg.bases[..], MAX_U32);
    r := reg.Claim(MAX_U32, MAX_U32, MAX_U32, 1, one);
    LastFits([], r);
    assert Clear([], MAX_U32, MAX_U32, 1);
    ghost var held := reg.grants;
    assert held == [Grant(MAX_U32, MAX_U32, [one])];
    assert held[0].Covers(MAX_U32, MAX_U32) && Owned(held, MAX_U32, MAX_U32);
    q := reg.Claim(MAX_U32, MAX_U32, MAX_U32, 1, two);
    LastFits(held, q);
  }

  lemma OpenedHas(bases: seq<Option<u32>>, base: u32)
    requires HasWindow(bases, base)
    ensures Some(base) in OpenedFor(bases, base)
  {
    var w := Position(bases, None);
    if Some(base) !in bases {
      assert OpenedFor(bases, base)[w] == Some(base);
    }
  }

  lemma LastFits(grants: seq<Grant>, r: Result<u32>)
    requires FirstFit(grants, MAX_U32, MAX_U32, MAX_U32, 1, r)
    ensures r == Ok(MAX_U32)
  {
    hide Clear;
    assert Clear(grants, MAX_U32, MAX_U32, 1) || !Clear(grants, MAX_U32, MAX_U32, 1);
  }

  /** A run of ten between two identities is refused; its window stays open. */
  method RefusedRun(reg: Registry, base: u32)
    requires reg.Valid() && base + IRQ_TABLE_LEN <= MAX_U32 && None in reg.bases[..]
    modifies reg`grants, reg.bases, reg.tables
    ensures reg.Valid() && reg.grants == old(reg.grants) && reg.bases[..] == OpenedFor(old(reg.bases[..]), base)
  {
    hide Ledger, OpenedFor;
    var r := reg.ClaimRun(base, base + 1, base + 2, 10, _ => Some(0));
  }

  /** A refused claim is not without effect, although the allocator's own description says
      that nothing is written: it keeps the window it opened.  Four refusals leave a registry
      with no handler in it that refuses every base but those four. */
  method RefusalsUseUpWindows(base: u32) returns (r: Result<u32>)
    requires base !in {0, 1000, 2000, 3000} && base + IRQ_TABLE_LEN <= MAX_U32
    ensures r == Err(NoSpace)
  {
    hide Ledger, FirstFit, OpenedFor;
    var reg := new Registry();
    assert reg.bases[..] == [None, None, None, None];
    OpenedAt(reg.bases[..], 0, 0);
    RefusedRun(reg, 0);
    assert reg.bases[..] == [Some(0), None, None, None];
    OpenedAt(reg.bases[..], 1000, 1);
    RefusedRun(reg, 1000);
    assert reg.bases[..] == [Some(0), Some(1000), None, None];
    OpenedAt(reg.bases[..], 2000, 2);
    RefusedRun(reg, 2000);
    assert reg.bases[..] == [Some(0), Some(1000), Some(2000), None];
    OpenedAt(reg.bases[..], 3000, 3);
    RefusedRun(reg, 3000);
    assert reg.bases[..] == [Some(0), Some(1000), Some(2000), Some(3000)];
    r := reg.ClaimRun(base, base, base, 1, _ => Some(0));
    assert reg.grants == [];
  }
}
