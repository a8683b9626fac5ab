/** The scancode decoder of src/drivers/keyboard.rs and its three queues. */
module Keyboard {
  import opened Machine

  const MAX_BUFFERED_SCANCODES := 64
  const MAX_BUFFERED_EVENTS := 256
  const MAX_BUFFERED_CHARS := 256

  const BREAK_BIT: u8 := 0x80
  const EXTENDED_PREFIX: u8 := 0xE0
  const MOD_LEFT_SHIFT: u8 := 0x2A
  const MOD_RIGHT_SHIFT: u8 := 0x36
  const MOD_LEFT_CTRL: u8 := 0x1D
  const MOD_LEFT_ALT: u8 := 0x38
  const MOD_CAPS_LOCK: u8 := 0x3A

  /** Unshifted and shifted characters by make code; 0 where a key has none. */
  const SCANCODE_BASE: seq<u8> :=
    [0, 0, 49, 50, 51, 52, 53, 54, 55, 56, 57, 48, 45, 61, 8, 9] +
    [113, 119, 101, 114, 116, 121, 117, 105, 111, 112, 91, 93, 10, 0] +
    [97, 115, 100, 102, 103, 104, 106, 107, 108, 59, 39, 96, 0] +
    [92, 122, 120, 99, 118, 98, 110, 109, 44, 46, 47, 0, 42, 0, 32, 0]
  const SCANCODE_SHIFT: seq<u8> :=
    [0, 0, 33, 64, 35, 36, 37, 94, 38, 42, 40, 41, 95, 43, 8, 9] +
    [81, 87, 69, 82, 84, 89, 85, 73, 79, 80, 123, 125, 10, 0] +
    [65, 83, 68, 70, 71, 72, 74, 75, 76, 58, 34, 126, 0] +
    [124, 90, 88, 67, 86, 66, 78, 77, 60, 62, 63, 0, 42, 0, 32, 0]

  /** A key, named by its make code: the plain keys, and the ten keys behind the prefix. */
  datatype KeyCode = Plain(make: u8) | Extended(make: u8)

  datatype KeyModifiers = KeyModifiers(shift: bool, ctrl: bool, alt: bool, capsLock: bool)

  datatype KeyEvent = KeyEvent(code: KeyCode, pressed: bool, character: Option<u8>, modifiers: KeyModifiers)

  function KeycodeForExtended(scancode: u8): Option<KeyCode> {
    var make := scancode % BREAK_BIT;
    if make in {0x48, 0x50, 0x4B, 0x4D, 0x47, 0x4F, 0x49, 0x51, 0x52, 0x53} then Some(Extended(make)) else None
  }

  function CharacterFor(make: u8, m: KeyModifiers): Option<u8> {
    var table := if m.shift != m.capsLock then SCANCODE_SHIFT else SCANCODE_BASE;
    if make < |table| && table[make] != 0 then Some(table[make]) else None
  }

  // ------------------------------------------------------------ the history

  /** Whether byte `i` follows a prefix byte that is not itself the second byte of a pair. */
  predicate Prefixed(fed: seq<u8>, i: nat)
    requires i <= |fed|
  {
    i > 0 && fed[i - 1] == EXTENDED_PREFIX && !Prefixed(fed, i - 1)
  }

  /** Byte `i` is a make or break code of its own. */
  predicate IsPlain(fed: seq<u8>, i: nat)
    requires i < |fed|
  {
    !Prefixed(fed, i) && fed[i] != EXTENDED_PREFIX
  }

  /** Byte `i` is a plain make or break of one of the keys. */
  predicate Concerns(fed: seq<u8>, i: nat, keys: set<u8>)
    requires i < |fed|
  {
    IsPlain(fed, i) && fed[i] % BREAK_BIT in keys
  }

  /** A key is held: the last plain byte about it was a make. */
  ghost predicate Held(fed: seq<u8>, keys: set<u8>) {
    exists i :: 0 <= i < |fed| && Concerns(fed, i, keys) && fed[i] < BREAK_BIT && Quiet(fed, i + 1, keys)
  }

  ghost predicate Quiet(fed: seq<u8>, from: nat, keys: set<u8>) {
    forall j :: from <= j < |fed| ==> !Concerns(fed, j, keys)
  }

  /** Every plain press of CapsLock. */
  ghost function CapsPresses(fed: seq<u8>): set<nat> {
    set i: nat | i < |fed| && IsPlain(fed, i) && fed[i] == MOD_CAPS_LOCK
  }

  ghost function ModifiersOf(fed: seq<u8>): KeyModifiers {
    KeyModifiers(Held(fed, {MOD_LEFT_SHIFT, MOD_RIGHT_SHIFT}), Held(fed, {MOD_LEFT_CTRL}),
                 Held(fed, {MOD_LEFT_ALT}), |CapsPresses(fed)| % 2 == 1)
  }

  /** One event for a plain byte and one for a mapped pair; none for a prefix or any other pair. */
  function EventFrom(prefixed: bool, b: u8, m: KeyModifiers): Option<KeyEvent> {
    if prefixed then
      match KeycodeForExtended(b)
      case Some(code) => Some(KeyEvent(code, b < BREAK_BIT, None, m))
      case None => None
    else if b == EXTENDED_PREFIX then None
    else if b >= BREAK_BIT then Some(KeyEvent(Plain(b - BREAK_BIT), false, None, m))
    else Some(KeyEvent(Plain(b), true, CharacterFor(b, m), m))
  }

  /** The event byte `i` gives rise to, with the modifiers that hold after it. */
  ghost function EventAt(fed: seq<u8>, i: nat): Option<KeyEvent>
    requires i < |fed|
  {
    EventFrom(Prefixed(fed, i), fed[i], ModifiersOf(fed[..i + 1]))
  }

  function Listed<T>(o: Option<T>): seq<T> {
    match o
    case Some(x) => [x]
    case None => []
  }

  ghost function EventsOf(fed: seq<u8>): seq<KeyEvent> {
    if fed == [] then [] else EventsOf(fed[..|fed| - 1]) + Listed(EventAt(fed, |fed| - 1))
  }

  /** The characters of the events that have one. */
  function CharsOf(events: seq<KeyEvent>): seq<u8> {
    if events == [] then []
    else
      var n := |events| - 1;
      CharsOf(events[..n]) + Listed(events[n].character)
  }

  function CharOf(e: Option<KeyEvent>): Option<u8> {
    if e.Some? then e.value.character else None
  }

  /** What a plain byte does to the modifiers. */
  function Shifted(m: KeyModifiers, b: u8): KeyModifiers {
    var make, pressed := b % BREAK_BIT, b < BREAK_BIT;
    KeyModifiers(if make in {MOD_LEFT_SHIFT, MOD_RIGHT_SHIFT} then pressed else m.shift,
                 if make == MOD_LEFT_CTRL then pressed else m.ctrl,
                 if make == MOD_LEFT_ALT then pressed else m.alt,
                 if b == MOD_CAPS_LOCK then !m.capsLock else m.capsLock)
  }

  // ------------------------------------------------------------ one more byte

  lemma {:induction false} PrefixedLater(fed: seq<u8>, b: u8, i: nat)
    requires i <= |fed|
    ensures Prefixed(fed + [b], i) == Prefixed(fed, i)
    decreases i
  {
    if i > 0 {
      PrefixedLater(fed, b, i - 1);
    }
  }

  lemma ConcernsLater(fed: seq<u8>, b: u8, keys: set<u8>)
    ensures forall i :: 0 <= i < |fed| ==> Concerns(fed + [b], i, keys) == Concerns(fed, i, keys)
  {
    forall i | 0 <= i < |fed|
      ensures Concerns(fed + [b], i, keys) == Concerns(fed, i, keys)
    {
      PrefixedLater(fed, b, i);
    }
  }

  /** How one more byte moves a held key: it decides if it concerns the key, and changes
      nothing if it does not. */
  lemma HeldLater(fed: seq<u8>, b: u8, keys: set<u8>)
    ensures var all := fed + [b];
            Held(all, keys) == if Concerns(all, |fed|, keys) then b < BREAK_BIT else Held(fed, keys)
  {
    var all, n := fed + [b], |fed|;
    ConcernsLater(fed, b, keys);
    if Concerns(all, n, keys) {
      if b < BREAK_BIT {
        assert Quiet(all, n + 1, keys);
      }
    } else {
      assert forall i :: 0 <= i <= n ==> Quiet(all, i, keys) == Quiet(fed, i, keys);
      if Held(fed, keys) {
        var i :| 0 <= i < n && Concerns(fed, i, keys) && fed[i] < BREAK_BIT && Quiet(fed, i + 1, keys);
        assert Concerns(all, i, keys) && Quiet(all, i + 1, keys);
      }
    }
  }

  lemma PlainLater(fed: seq<u8>, b: u8)
    ensures forall i :: 0 <= i < |fed| ==> IsPlain(fed + [b], i) == IsPlain(fed, i)
  {
    hide Prefixed;
    forall i | 0 <= i < |fed|
      ensures IsPlain(fed + [b], i) == IsPlain(fed, i)
    {
      PrefixedLater(fed, b, i);
    }
  }

  lemma CapsLater(fed: seq<u8>, b: u8)
    ensures var all := fed + [b];
            |CapsPresses(all)| == |CapsPresses(fed)| + (if IsPlain(all, |fed|) && b == MOD_CAPS_LOCK then 1 else 0)
  {
    hide IsPlain;
    var all, n := fed + [b], |fed|;
    PlainLater(fed, b);
    if IsPlain(all, n) && b == MOD_CAPS_LOCK {
      assert CapsPresses(all) == CapsPresses(fed) + {n};
    } else {
      assert CapsPresses(all) == CapsPresses(fed);
    }
  }

  /** What one more byte does to the modifiers: only a plain byte can change them. */
  lemma ModifiersLater(fed: seq<u8>, b: u8)
    ensures var all, m := fed + [b], ModifiersOf(fed);
            && Prefixed(all, |all|) == (!Prefixed(fed, |fed|) && b == EXTENDED_PREFIX)
            && ModifiersOf(all) == (if !Prefixed(fed, |fed|) && b != EXTENDED_PREFIX then Shifted(m, b) else m)
  {
    hide Held, CapsPresses;
    PrefixedLater(fed, b, |fed|);
    HeldLater(fed, b, {MOD_LEFT_SHIFT, MOD_RIGHT_SHIFT});
    HeldLater(fed, b, {MOD_LEFT_CTRL});
    HeldLater(fed, b, {MOD_LEFT_ALT});
    CapsLater(fed, b);
  }

  lemma CharsLater(was: seq<KeyEvent>, e: Option<KeyEvent>)
    ensures CharsOf(was + Listed(e)) == CharsOf(was) + Listed(CharOf(e))
  {
    if e.Some? {
      assert (was + [e.value])[..|was|] == was;
    } else {
      assert was + [] == was;
    }
  }

  /** What one more byte adds to the events and characters. */
  lemma EventsLater(fed: seq<u8>, b: u8)
    ensures var all, e := fed + [b], EventFrom(Prefixed(fed, |fed|), b, ModifiersOf(fed + [b]));
            && EventAt(all, |fed|) == e
            && EventsOf(all) == EventsOf(fed) + Listed(e)
            && CharsOf(EventsOf(all)) == CharsOf(EventsOf(fed)) + Listed(CharOf(e))
  {
    hide EventFrom, ModifiersOf, CharsOf, Prefixed;
    var all, n := fed + [b], |fed|;
    PrefixedLater(fed, b, n);
    assert all[..n] == fed && all[..n + 1] == all;
    CharsLater(EventsOf(fed), EventAt(all, n));
  }

  // ------------------------------------------------------------ queues

  /** `a` is what is left of `b` when some of its elements are dropped. */
  ghost predicate Subsequence<T>(a: seq<T>, b: seq<T>) {
    a == [] || (b != [] && (|| Subsequence(a, b[..|b| - 1])
                            || (a[|a| - 1] == b[|b| - 1] && Subsequence(a[..|a| - 1], b[..|b| - 1]))))
  }

  /** A queue that refuses what arrives while it is full: what was taken and what waits is the
      arrivals in order, less the refused ones; with nothing taken it holds the oldest. */
  ghost predicate KeepsOldest<T>(arrived: seq<T>, taken: seq<T>, queue: seq<T>, refused: nat, limit: nat) {
    && |queue| <= limit
    && |taken| + |queue| + refused == |arrived|
    && Subsequence(taken + queue, arrived)
    && (taken == [] ==> queue == arrived[..Min(limit, |arrived|)])
  }

  /** A queue that forgets its oldest element to make room: it is the newest arrivals. */
  ghost predicate KeepsNewest<T>(arrived: seq<T>, queue: seq<T>, limit: nat) {
    |queue| <= limit && |queue| <= |arrived| && queue == arrived[|arrived| - |queue|..]
  }

  lemma {:induction false} SubsequenceShorter<T>(a: seq<T>, b: seq<T>)
    requires Subsequence(a, b)
    ensures |a| <= |b| && (|a| == |b| ==> a == b)
    decreases |b|
  {
    if a != [] {
      if Subsequence(a, b[..|b| - 1]) {
        SubsequenceShorter(a, b[..|b| - 1]);
      } else {
        SubsequenceShorter(a[..|a| - 1], b[..|b| - 1]);
        if |a| == |b| {
          assert a == a[..|a| - 1] + [a[|a| - 1]] && b == b[..|b| - 1] + [b[|b| - 1]];
        }
      }
    }
  }

  /** Nothing refused means nothing lost: every arrival was taken or waits, in order. */
  lemma NothingLost<T>(arrived: seq<T>, taken: seq<T>, queue: seq<T>, limit: nat)
    requires KeepsOldest(arrived, taken, queue, 0, limit)
    ensures taken + queue == arrived
  {
    SubsequenceShorter(taken + queue, arrived);
  }

  lemma Offered<T>(arrived: seq<T>, taken: seq<T>, queue: seq<T>, refused: nat, limit: nat, x: T)
    requires KeepsOldest(arrived, taken, queue, refused, limit)
    ensures |queue| <= limit
    ensures |queue| < limit ==> KeepsOldest(arrived + [x], taken, queue + [x], refused, limit)
    ensures |queue| == limit ==> KeepsOldest(arrived + [x], taken, queue, refused + 1, limit)
  {
    var all := arrived + [x];
    assert all[..|arrived|] == arrived;
    if |queue| < limit {
      var kept := taken + (queue + [x]);
      assert kept[..|kept| - 1] == taken + queue && kept[|kept| - 1] == x;
    } else {
      assert Subsequence(taken + queue, all);
    }
  }

  lemma Taken<T>(arrived: seq<T>, taken: seq<T>, queue: seq<T>, refused: nat, limit: nat)
    requires KeepsOldest(arrived, taken, queue, refused, limit) && queue != []
    ensures KeepsOldest(arrived, taken + [queue[0]], queue[1..], refused, limit)
  {
    assert taken + [queue[0]] + queue[1..] == taken + queue;
  }

  lemma Buffered<T>(arrived: seq<T>, queue: seq<T>, limit: nat, x: T)
    requires KeepsNewest(arrived, queue, limit) && limit > 0
    ensures |queue| <= limit
    ensures KeepsNewest(arrived + [x], (if |queue| == limit then queue[1..] else queue) + [x], limit)
  {
  }

  lemma Unbuffered<T>(arrived: seq<T>, queue: seq<T>, limit: nat)
    requires KeepsNewest(arrived, queue, limit) && queue != []
    ensures KeepsNewest(arrived, queue[1..], limit)
  {
  }

  // ------------------------------------------------------------ the driver's core

  class KeyboardCore {
    var scancodes: seq<u8>
    var events: seq<KeyEvent>
    var chars: seq<u8>
    var e0Pending: bool
    var shift: bool
    var ctrl: bool
    var alt: bool
    var caps: bool
    /** The bytes handed on to the console's input. */
    var console: seq<u8>

    ghost var fed: seq<u8>
    ghost var eventsTaken: seq<KeyEvent>
    ghost var eventsRefused: nat
    ghost var charsTaken: seq<u8>
    ghost var charsRefused: nat

    function Modifiers(): KeyModifiers
      reads this
    {
      KeyModifiers(shift, ctrl, alt, caps)
    }

    /** The decoder's state is a function of the bytes fed, and each queue holds its share of
        what they gave rise to. */
    ghost predicate Valid()
      reads this
    {
      && e0Pending == Prefixed(fed, |fed|)
      && Modifiers() == ModifiersOf(fed)
      && KeepsNewest(fed, scancodes, MAX_BUFFERED_SCANCODES)
      && KeepsOldest(EventsOf(fed), eventsTaken, events, eventsRefused, MAX_BUFFERED_EVENTS)
      && KeepsOldest(CharsOf(EventsOf(fed)), charsTaken, chars, charsRefused, MAX_BUFFERED_CHARS)
      && console == CharsOf(EventsOf(fed))
    }

    constructor ()
      ensures Valid() && fed == [] && eventsTaken == [] && charsTaken == []
    {
      scancodes, events, chars, console := [], [], [], [];
      e0Pending, shift, ctrl, alt, caps := false, false, false, false, false;
      fed, eventsTaken, charsTaken, eventsRefused, charsRefused := [], [], [], 0, 0;
    }

    /** The decoder's part of a byte: the modifiers move, and a character or an event is made. */
    method Decode(scancode: u8) returns (event: Option<KeyEvent>)
      modifies `e0Pending, `shift, `ctrl, `alt, `caps
      ensures e0Pending == (!old(e0Pending) && scancode == EXTENDED_PREFIX)
      ensures Modifiers() == if !old(e0Pending) && scancode != EXTENDED_PREFIX
                             then Shifted(old(Modifiers()), scancode) else old(Modifiers())
      ensures event == EventFrom(old(e0Pending), scancode, Modifiers())
    {
      hide CharacterFor;
      event := None;
      if e0Pending {
        e0Pending := false;
        var code := KeycodeForExtended(scancode);
        if code.Some? {
          event := Some(KeyEvent(code.value, scancode < BREAK_BIT, None, Modifiers()));
        }
      } else if scancode == EXTENDED_PREFIX {
        e0Pending := true;
      } else if scancode >= BREAK_BIT {
        var code := scancode - BREAK_BIT;
        if code == MOD_LEFT_SHIFT || code == MOD_RIGHT_SHIFT {
          shift := false;
        } else if code == MOD_LEFT_CTRL {
          ctrl := false;
        } else if code == MOD_LEFT_ALT {
          alt := false;
        }
        event := Some(KeyEvent(Plain(code), false, None, Modifiers()));
      } else {
        if scancode == MOD_LEFT_SHIFT || scancode == MOD_RIGHT_SHIFT {
          shift := true;
        } else if scancode == MOD_CAPS_LOCK {
          caps := !caps;
        } else if scancode == MOD_LEFT_CTRL {
          ctrl := true;
        } else if scancode == MOD_LEFT_ALT {
          alt := true;
        }
        event := Some(KeyEvent(Plain(scancode), true, CharacterFor(scancode, Modifiers()), Modifiers()));
      }
    }

    /** The raw queue drops its oldest byte for a new one. */
    method QueueRaw(scancode: u8)
      requires KeepsNewest(fed, scancodes, MAX_BUFFERED_SCANCODES)
      modifies `scancodes
      ensures KeepsNewest(fed + [scancode], scancodes, MAX_BUFFERED_SCANCODES)
      ensures |scancodes| == Min(MAX_BUFFERED_SCANCODES, |old(scancodes)| + 1)
    {
      hide KeepsNewest;
      Buffered(fed, scancodes, MAX_BUFFERED_SCANCODES, scancode);
      if |scancodes| >= MAX_BUFFERED_SCANCODES {
        scancodes := scancodes[1..];
      }
      scancodes := scancodes + [scancode];
    }

    /** A full character queue refuses the character; the console gets it all the same. */
    method QueueChar(character: Option<u8>, ghost typed: seq<u8>)
      requires KeepsOldest(typed, charsTaken, chars, charsRefused, MAX_BUFFERED_CHARS)
      modifies `chars, `charsRefused, `console
      ensures KeepsOldest(typed + Listed(character), charsTaken, chars, charsRefused, MAX_BUFFERED_CHARS)
      ensures chars == if |old(chars)| < MAX_BUFFERED_CHARS then old(chars) + Listed(character) else old(chars)
      ensures charsRefused > old(charsRefused) ==> |old(chars)| == MAX_BUFFERED_CHARS
      ensures console == old(console) + Listed(character)
    {
      hide KeepsOldest;
      assert typed + [] == typed && chars + [] == chars && console + [] == console;
      if character.Some? {
        Offered(typed, charsTaken, chars, charsRefused, MAX_BUFFERED_CHARS, character.value);
        if |chars| < MAX_BUFFERED_CHARS {
          chars := chars + [character.value];
        } else {
          charsRefused := charsRefused + 1;
        }
        console := console + [character.value];
      }
    }

    method QueueEvent(event: Option<KeyEvent>, ghost made: seq<KeyEvent>)
      requires KeepsOldest(made, eventsTaken, events, eventsRefused, MAX_BUFFERED_EVENTS)
      modifies `events, `eventsRefused
      ensures KeepsOldest(made + Listed(event), eventsTaken, events, eventsRefused, MAX_BUFFERED_EVENTS)
      ensures events == if |old(events)| < MAX_BUFFERED_EVENTS then old(events) + Listed(event) else old(events)
      ensures eventsRefused > old(eventsRefused) ==> |old(events)| == MAX_BUFFERED_EVENTS
    {
      hide KeepsOldest;
      assert made + [] == made && events + [] == events;
      if event.Some? {
        Offered(made, eventsTaken, events, eventsRefused, MAX_BUFFERED_EVENTS, event.value);
        if |events| < MAX_BUFFERED_EVENTS {
          events := events + [event.value];
        } else {
          eventsRefused := eventsRefused + 1;
        }
      }
    }

    /** A byte from the hardware: buffered raw, decoded, and its event and character queued. */
    method FeedScancode(scancode: u8)
      requires Valid()
      modifies this
      ensures Valid() && fed == old(fed) + [scancode]
      ensures |scancodes| == Min(MAX_BUFFERED_SCANCODES, |old(scancodes)| + 1)
      ensures events == if |old(events)| < MAX_BUFFERED_EVENTS
                        then old(events) + Listed(EventAt(fed, |fed| - 1)) else old(events)
      ensures chars == if |old(chars)| < MAX_BUFFERED_CHARS
                       then old(chars) + Listed(CharOf(EventAt(fed, |fed| - 1))) else old(chars)
      ensures TypesAt(fed, |fed| - 1)
      ensures eventsTaken == old(eventsTaken) && charsTaken == old(charsTaken)
      ensures eventsRefused > old(eventsRefused) ==> |old(events)| == MAX_BUFFERED_EVENTS
      ensures charsRefused > old(charsRefused) ==> |old(chars)| == MAX_BUFFERED_CHARS
    {
      hide Prefixed, ModifiersOf, EventsOf, EventAt, CharsOf, CharOf, EventFrom, Shifted, KeepsOldest, KeepsNewest,
           Listed, TypesAt;
      ModifiersLater(fed, scancode);
      EventsLater(fed, scancode);
      QueueRaw(scancode);
      var event := Decode(scancode);
      QueueChar(CharOf(event), CharsOf(EventsOf(fed)));
      QueueEvent(event, EventsOf(fed));
      fed := fed + [scancode];
      Typed(fed, |fed| - 1);
    }

    method TryReadScancode() returns (r: Option<u8>)
      requires Valid()
      modifies `scancodes
      ensures Valid()
      ensures r.None? <==> old(scancodes) == []
      ensures old(scancodes) == Listed(r) + scancodes
    {
      hide KeepsOldest, KeepsNewest, ModifiersOf, EventsOf, CharsOf, Prefixed;
      if scancodes == [] {
        return None;
      }
      Unbuffered(fed, scancodes, MAX_BUFFERED_SCANCODES);
      r, scancodes := Some(scancodes[0]), scancodes[1..];
    }

    method TryReadEvent() returns (r: Option<KeyEvent>)
      requires Valid()
      modifies `events, `eventsTaken
      ensures Valid()
      ensures r.None? <==> old(events) == []
      ensures old(events) == Listed(r) + events && eventsTaken == old(eventsTaken) + Listed(r)
    {
      hide KeepsOldest, KeepsNewest, ModifiersOf, EventsOf, CharsOf, Prefixed;
      if events == [] {
        assert eventsTaken + [] == eventsTaken;
        return None;
      }
      Taken(EventsOf(fed), eventsTaken, events, eventsRefused, MAX_BUFFERED_EVENTS);
      r := Some(events[0]);
      eventsTaken, events := eventsTaken + [events[0]], events[1..];
    }

    method TryReadChar() returns (r: Option<u8>)
      requires Valid()
      modifies `chars, `charsTaken
      ensures Valid()
      ensures r.None? <==> old(chars) == []
      ensures old(chars) == Listed(r) + chars && charsTaken == old(charsTaken) + Listed(r)
    {
      hide KeepsOldest, KeepsNewest, ModifiersOf, EventsOf, CharsOf, Prefixed;
      if chars == [] {
        assert charsTaken + [] == charsTaken;
        return None;
      }
      Taken(CharsOf(EventsOf(fed)), charsTaken, chars, charsRefused, MAX_BUFFERED_CHARS);
      r := Some(chars[0]);
      charsTaken, chars := charsTaken + [chars[0]], chars[1..];
    }

    /** While no event was refused, the events handed out and waiting are all of them, in order. */
    lemma EveryEventOnce()
      requires Valid() && eventsRefused == 0
      ensures eventsTaken + events == EventsOf(fed)
    {
      hide EventsOf, CharsOf, ModifiersOf;
      NothingLost(EventsOf(fed), eventsTaken, events, MAX_BUFFERED_EVENTS);
    }
  }

  // ------------------------------------------------------------ what the bytes mean

  /** The keys behind the prefix: Home, Up, PageUp; Left; Right; End, Down, PageDown, Insert,
      Delete. */
  predicate OfTheCursorBlock(make: u8) {
    0x47 <= make <= 0x49 || make == 0x4B || make == 0x4D || 0x4F <= make <= 0x53
  }

  /** A byte that makes an event. */
  predicate MakesEvent(fed: seq<u8>, i: nat)
    requires i < |fed|
  {
    IsPlain(fed, i) || (Prefixed(fed, i) && OfTheCursorBlock(fed[i] % BREAK_BIT))
  }

  ghost function EventMakers(fed: seq<u8>): set<nat> {
    set i: nat | i < |fed| && MakesEvent(fed, i)
  }

  lemma MakesEventLater(fed: seq<u8>, b: u8, i: nat)
    requires i < |fed|
    ensures MakesEvent(fed + [b], i) == MakesEvent(fed, i)
  {
    PrefixedLater(fed, b, i);
  }

  lemma MakersLater(fed: seq<u8>, b: u8)
    ensures |EventMakers(fed + [b])| == |EventMakers(fed)| + (if MakesEvent(fed + [b], |fed|) then 1 else 0)
  {
    hide MakesEvent;
    var all, n := fed + [b], |fed|;
    forall i | 0 <= i < n
      ensures MakesEvent(all, i) == MakesEvent(fed, i)
    {
      MakesEventLater(fed, b, i);
    }
    if MakesEvent(all, n) {
      assert EventMakers(all) == EventMakers(fed) + {n};
    } else {
      assert EventMakers(all) == EventMakers(fed);
    }
  }

  lemma MakesEventExact(fed: seq<u8>, i: nat)
    requires i < |fed|
    ensures MakesEvent(fed, i) <==> EventAt(fed, i).Some?
  {
    hide Prefixed, ModifiersOf, CharacterFor;
  }

  /** Exactly one event for each plain byte and each mapped pair, and no other. */
  lemma {:induction false} OneEventEach(fed: seq<u8>)
    ensures |EventsOf(fed)| == |EventMakers(fed)|
  {
    hide EventAt, MakesEvent;
    if fed != [] {
      var n := |fed| - 1;
      assert fed == fed[..n] + [fed[n]];
      OneEventEach(fed[..n]);
      MakersLater(fed[..n], fed[n]);
      MakesEventExact(fed, n);
    }
  }

  // ------------------------------------------------------------ what is typed

  /** What is printed on a key, alone and with shift, row by row. */
  function Keycap(make: u8, shifted: bool): Option<char> {
    if 0x02 <= make < 0x0E then Some((if shifted then "!@#$%^&*()_+" else "1234567890-=")[make - 0x02])
    else if 0x0E <= make < 0x10 then Some("\U{0008}\t"[make - 0x0E])
    else if 0x10 <= make < 0x1C then Some((if shifted then "QWERTYUIOP{}" else "qwertyuiop[]")[make - 0x10])
    else if make == 0x1C then Some('\n')
    else if 0x1E <= make < 0x2A then Some((if shifted then "ASDFGHJKL:\"~" else "asdfghjkl;'`")[make - 0x1E])
    else if 0x2B <= make < 0x36 then Some((if shifted then "|ZXCVBNM<>?" else "\\zxcvbnm,./")[make - 0x2B])
    else if make == 0x37 then Some('*')
    else if make == 0x39 then Some(' ')
    else None
  }

  /** The tables give the key the character printed on it. */
  predicate AsPrinted(make: u8, m: KeyModifiers) {
    var c, k := CharacterFor(make, m), Keycap(make, m.shift != m.capsLock);
    (c.Some? <==> k.Some?) && (c.Some? ==> c.value == k.value as int)
  }

  lemma DigitRow(make: u8, m: KeyModifiers)
    requires 0x02 <= make < 0x10
    ensures AsPrinted(make, m)
  {
  }

  lemma TopRow(make: u8, m: KeyModifiers)
    requires 0x10 <= make < 0x1E
    ensures AsPrinted(make, m)
  {
  }

  lemma HomeRow(make: u8, m: KeyModifiers)
    requires 0x1E <= make < 0x2B
    ensures AsPrinted(make, m)
  {
    assert make == 0x1E || make == 0x1F || make == 0x20 || make == 0x21 || make == 0x22 || make == 0x23 || make == 0x24
        || make == 0x25 || make == 0x26 || make == 0x27 || make == 0x28 || make == 0x29 || make == 0x2A;
  }

  lemma BottomRow(make: u8, m: KeyModifiers)
    requires 0x2B <= make < 0x36
    ensures AsPrinted(make, m)
  {
    assert make == 0x2B || make == 0x2C || make == 0x2D || make == 0x2E || make == 0x2F || make == 0x30
        || make == 0x31 || make == 0x32 || make == 0x33 || make == 0x34 || make == 0x35;
  }

  lemma TablesExact(make: u8, m: KeyModifiers)
    ensures AsPrinted(make, m)
  {
    hide AsPrinted;
    if 0x02 <= make < 0x10 {
      DigitRow(make, m);
    } else if 0x10 <= make < 0x1E {
      TopRow(make, m);
    } else if 0x1E <= make < 0x2B {
      HomeRow(make, m);
    } else if 0x2B <= make < 0x36 {
      BottomRow(make, m);
    } else {
      OtherKeys(make, m);
    }
  }

  lemma OtherKeys(make: u8, m: KeyModifiers)
    requires make < 0x02 || make >= 0x36
    ensures AsPrinted(make, m)
  {
  }

  /** Shift is held exactly when CapsLock was pressed an even number of times. */
  ghost predicate Upper(fed: seq<u8>) {
    Held(fed, {MOD_LEFT_SHIFT, MOD_RIGHT_SHIFT}) <==> |CapsPresses(fed)| % 2 == 0
  }

  /** What byte `i` types: a plain make types what is printed on its key, and nothing else types
      anything. */
  ghost predicate TypesAt(fed: seq<u8>, i: nat)
    requires i < |fed|
  {
    var c, k := CharOf(EventAt(fed, i)), Keycap(fed[i], Upper(fed[..i + 1]));
    && (c.Some? <==> IsPlain(fed, i) && fed[i] < BREAK_BIT && k.Some?)
    && (c.Some? ==> c.value == k.value as int)
  }

  lemma Typed(fed: seq<u8>, i: nat)
    requires i < |fed|
    ensures TypesAt(fed, i)
  {
    hide Prefixed, Held, CapsPresses, CharacterFor, Keycap, KeycodeForExtended;
    TablesExact(fed[i], ModifiersOf(fed[..i + 1]));
  }

  /** The letter on a key of the three letter rows. */
  function LetterOn(make: u8): char
    requires 0x10 <= make <= 0x19 || 0x1E <= make <= 0x26 || 0x2C <= make <= 0x32
  {
    if make <= 0x19 then "qwertyuiop"[make - 0x10]
    else if make <= 0x26 then "asdfghjkl"[make - 0x1E]
    else "zxcvbnm"[make - 0x2C]
  }

  /** A letter key types its letter: a capital when shift is held, or CapsLock is on, but not
      both. */
  lemma LetterTyped(fed: seq<u8>, i: nat)
    requires i < |fed| && IsPlain(fed, i)
    requires 0x10 <= fed[i] <= 0x19 || 0x1E <= fed[i] <= 0x26 || 0x2C <= fed[i] <= 0x32
    ensures var c := CharOf(EventAt(fed, i));
            && c.Some? && c.value == LetterOn(fed[i]) as int - (if Upper(fed[..i + 1]) then 32 else 0)
            && (97 <= c.value <= 122 <==> !Upper(fed[..i + 1])) && (65 <= c.value <= 90 <==> Upper(fed[..i + 1]))
  {
    hide Prefixed, EventAt, Upper;
    Typed(fed, i);
    LettersOn(fed[i]);
  }

  lemma LettersOn(make: u8)
    requires 0x10 <= make <= 0x19 || 0x1E <= make <= 0x26 || 0x2C <= make <= 0x32
    ensures Keycap(make, false) == Some(LetterOn(make)) && 97 <= LetterOn(make) as int <= 122
    ensures Keycap(make, true).Some? && Keycap(make, true).value as int == LetterOn(make) as int - 32
  {
  }

  /** A key of the digit row types its digit, and CapsLock shifts it as it does a letter. */
  lemma DigitTyped(fed: seq<u8>, i: nat)
    requires i < |fed| && IsPlain(fed, i) && 0x02 <= fed[i] <= 0x0B
    ensures var c := CharOf(EventAt(fed, i));
            && c.Some? && (48 <= c.value <= 57 <==> !Upper(fed[..i + 1]))
            && (!Upper(fed[..i + 1]) ==> c.value == 48 + (fed[i] - 1) % 10)
  {
    hide Prefixed, EventAt, Upper;
    Typed(fed, i);
    DigitsOn(fed[i]);
  }

  lemma DigitsOn(make: u8)
    requires 0x02 <= make <= 0x0B
    ensures Keycap(make, false).Some? && Keycap(make, false).value as int == 48 + (make - 1) % 10
    ensures Keycap(make, true).Some? && !(48 <= Keycap(make, true).value as int <= 57)
  {
  }

  /** Modifiers, Escape, the keys past Space, releases and the keys behind the prefix type
      nothing. */
  lemma NothingTyped(fed: seq<u8>, i: nat)
    requires i < |fed|
    requires fed[i] in {0x00, 0x01, 0x1D, 0x2A, 0x36, 0x38} || fed[i] > 0x39 || Prefixed(fed, i)
    ensures CharOf(EventAt(fed, i)) == None
  {
    hide Prefixed, EventAt, Upper;
    Typed(fed, i);
  }
}
