/** The playback ring of src/drivers/hda_protocol.rs: producer and consumer positions over a
    cyclic byte buffer, and the descriptor list that shows the buffer to the DMA engine. */
module HdaRing {
  import opened Machine

  const BDL_ENTRIES := 16
  const BDL_ENTRY_BYTES := 16
  const BDL_ENTRY_LEN := 4096
  const BDL_TOTAL_LEN := BDL_ENTRIES * BDL_ENTRY_LEN
  const BDL_RESERVED_FRAME := 4

  // ------------------------------------------------------------ the descriptor list

  datatype Descriptor = Descriptor(address: u64, length: u32, flags: u32)

  const BDL_IOC_BIT: u32 := 1

  function BdlEntryBytes(address: u64, length: u32, ioc: bool): (r: seq<u8>)
    ensures |r| == BDL_ENTRY_BYTES
  {
    LeBytes(address, 8) + LeBytes(length, 4) + [if ioc then 1 else 0, 0, 0, 0]
  }

  /** What the engine reads out of sixteen bytes (section 3.6.3 of the Intel HDA specification). */
  function DescriptorOf(e: seq<u8>): Descriptor
    requires |e| == BDL_ENTRY_BYTES
  {
    LeBytesOfValue(e[0..8]);
    LeBytesOfValue(e[8..12]);
    Pow256Values();
    LeBytesOfValue(e[12..16]);
    Descriptor(LeValue(e[0..8]), LeValue(e[8..12]), LeValue(e[12..16]))
  }

  lemma EntryRoundTrip(address: u64, length: u32, ioc: bool)
    ensures DescriptorOf(BdlEntryBytes(address, length, ioc)) ==
              Descriptor(address, length, if ioc then BDL_IOC_BIT else 0)
  {
    var e := BdlEntryBytes(address, length, ioc);
    Pow256Values();
    LeRoundTrip(address, 8);
    LeRoundTrip(length, 4);
    var flags := if ioc then BDL_IOC_BIT else 0;
    LeRoundTrip(flags, 4);
    assert e[0..8] == LeBytes(address, 8) && e[8..12] == LeBytes(length, 4) && e[12..16] == LeBytes(flags, 4);
  }

  /** Descriptor `i` of a list. */
  function DescriptorAt(bdl: seq<u8>, i: nat): Descriptor
    requires (i + 1) * BDL_ENTRY_BYTES <= |bdl|
  {
    DescriptorOf(bdl[i * BDL_ENTRY_BYTES..(i + 1) * BDL_ENTRY_BYTES])
  }

  /** The list covers the ring that starts at `phys`, in order, interrupting on the last. */
  ghost predicate Covers(bdl: seq<u8>, phys: u64) {
    Filled(bdl, phys, BDL_ENTRIES)
  }

  function RingDescriptor(phys: u64, i: nat): Descriptor {
    Descriptor((phys + i * BDL_ENTRY_LEN) % 0x1_0000_0000_0000_0000, BDL_ENTRY_LEN,
               if i == BDL_ENTRIES - 1 then BDL_IOC_BIT else 0)
  }

  /** Fill a descriptor list for the ring at `phys`; a list too short is left alone. */
  method PopulateBdl(bdl: array<u8>, phys: u64) returns (r: Option<()>)
    modifies bdl
    ensures r.Some? <==> BDL_ENTRIES * BDL_ENTRY_BYTES <= bdl.Length
    ensures r.None? ==> bdl[..] == old(bdl[..])
    ensures r.Some? ==> Covers(bdl[..], phys) && InterruptsLast(bdl[..])
    ensures forall x :: BDL_ENTRIES * BDL_ENTRY_BYTES <= x < bdl.Length ==> bdl[x] == old(bdl[x])
  {
    if bdl.Length < BDL_ENTRIES * BDL_ENTRY_BYTES {
      return None;
    }
    for i := 0 to BDL_ENTRIES
      invariant Filled(bdl[..], phys, i)
      invariant forall x :: BDL_ENTRIES * BDL_ENTRY_BYTES <= x < bdl.Length ==> bdl[x] == old(bdl[x])
    {
      hide Filled, BdlEntryBytes;
      var address := (phys + i * BDL_ENTRY_LEN) % 0x1_0000_0000_0000_0000;
      FilledNext(bdl[..], phys, i);
      StoreEntry(bdl, i, BdlEntryBytes(address, BDL_ENTRY_LEN, i == BDL_ENTRIES - 1));
    }
    OnlyLast(bdl[..], phys);
    return Some(());
  }

  /** The interrupt bit is set in the last entry's flags and in no other's, and no other flag is. */
  ghost predicate InterruptsLast(bdl: seq<u8>)
    requires 256 <= |bdl|
  {
    forall i :: 0 <= i < 16 ==> bdl[16 * i + 12..16 * i + 16] == [if i == 15 then 1 else 0, 0, 0, 0]
  }

  lemma OnlyLast(bdl: seq<u8>, phys: u64)
    requires Covers(bdl, phys)
    ensures InterruptsLast(bdl)
  {
    forall i | 0 <= i < 16
      ensures bdl[16 * i + 12..16 * i + 16] == [if i == 15 then 1 else 0, 0, 0, 0]
    {
      assert DescriptorAt(bdl, i) == RingDescriptor(phys, i);
      var word := bdl[16 * i + 12..16 * i + 16];
      assert bdl[i * BDL_ENTRY_BYTES..(i + 1) * BDL_ENTRY_BYTES][12..16] == word;
      LeBytesOfValue(word);
      assert LeBytes(1, 4) == [1, 0, 0, 0] && LeBytes(0, 4) == [0, 0, 0, 0];
    }
  }

  method StoreEntry(bdl: array<u8>, i: nat, entry: seq<u8>)
    requires (i + 1) * BDL_ENTRY_BYTES <= bdl.Length && |entry| == BDL_ENTRY_BYTES
    modifies bdl
    ensures bdl[..] == Blit(old(bdl[..]), i * BDL_ENTRY_BYTES, entry)
    ensures forall x :: (i + 1) * BDL_ENTRY_BYTES <= x < bdl.Length ==> bdl[x] == old(bdl[x])
  {
    var off := i * BDL_ENTRY_BYTES;
    forall k | 0 <= k < BDL_ENTRY_BYTES {
      bdl[off + k] := entry[k];
    }
    assert forall x :: 0 <= x < bdl.Length ==> bdl[..][x] == Blit(old(bdl[..]), off, entry)[x];
  }

  ghost predicate Filled(bdl: seq<u8>, phys: u64, n: nat) {
    n * BDL_ENTRY_BYTES <= |bdl| && forall j :: 0 <= j < n ==> DescriptorAt(bdl, j) == RingDescriptor(phys, j)
  }

  lemma FilledNext(bdl: seq<u8>, phys: u64, i: nat)
    requires Filled(bdl, phys, i) && (i + 1) * BDL_ENTRY_BYTES <= |bdl|
    ensures var d, last := RingDescriptor(phys, i), i == BDL_ENTRIES - 1;
            Filled(Blit(bdl, i * BDL_ENTRY_BYTES, BdlEntryBytes(d.address, d.length, last)), phys, i + 1)
  {
    hide BdlEntryBytes, DescriptorOf;
    var d, off := RingDescriptor(phys, i), i * BDL_ENTRY_BYTES;
    var entry := BdlEntryBytes(d.address, d.length, i == BDL_ENTRIES - 1);
    var after := Blit(bdl, off, entry);
    EntryRoundTrip(d.address, d.length, i == BDL_ENTRIES - 1);
    assert after[off..off + BDL_ENTRY_BYTES] == entry;
    forall j | 0 <= j < i
      ensures DescriptorAt(after, j) == DescriptorAt(bdl, j)
    {
      BlitElsewhere(bdl, off, entry, j * BDL_ENTRY_BYTES, (j + 1) * BDL_ENTRY_BYTES);
    }
  }

  /** Where the engine finds the byte at link position `pos`: it walks the list from entry
      `i`, using up each entry's length. */
  function Locate(bdl: seq<u8>, i: nat, pos: nat): (r: Option<nat>)
    requires BDL_ENTRIES * BDL_ENTRY_BYTES <= |bdl| && i <= BDL_ENTRIES
    decreases BDL_ENTRIES - i
  {
    if i == BDL_ENTRIES then None
    else
      var d := DescriptorAt(bdl, i);
      if pos < d.length then Some(d.address + pos) else Locate(bdl, i + 1, pos - d.length)
  }

  /** Through a populated list the cyclic buffer is contiguous: every link position is the
      byte at that offset of the ring. */
  lemma {:induction false} LocateInRing(bdl: seq<u8>, phys: u64, i: nat, pos: nat)
    requires Covers(bdl, phys) && phys + BDL_TOTAL_LEN <= 0x1_0000_0000_0000_0000
    requires i <= BDL_ENTRIES && i * BDL_ENTRY_LEN + pos < BDL_TOTAL_LEN
    ensures Locate(bdl, i, pos) == Some(phys + i * BDL_ENTRY_LEN + pos)
    decreases BDL_ENTRIES - i
  {
    assert DescriptorAt(bdl, i) == RingDescriptor(phys, i);
    if pos >= BDL_ENTRY_LEN {
      LocateInRing(bdl, phys, i + 1, pos - BDL_ENTRY_LEN);
    }
  }

  // ------------------------------------------------------------ positions as a stream

  /** The unbounded stream a ring stands for: every byte ever written, how many of them the
      engine has played, and how many the driver knows to be played. */
  datatype Stream = Stream(written: seq<u8>, played: nat, synced: nat)

  /** The ring holds every byte not yet played; what the driver knows is never ahead of what
      was played, nor a whole ring behind what was written. */
  ghost predicate Fifo(writePos: nat, readPos: nat, ring: seq<u8>, st: Stream) {
    && |ring| == BDL_TOTAL_LEN
    && st.synced <= st.played <= |st.written| < st.synced + BDL_TOTAL_LEN
    && writePos == |st.written| % BDL_TOTAL_LEN
    && readPos == st.synced % BDL_TOTAL_LEN
    && Holds(ring, st)
  }

  /** Every byte the engine has yet to play is where it will look for it. */
  ghost predicate Holds(ring: seq<u8>, st: Stream)
    requires |ring| == BDL_TOTAL_LEN
  {
    forall j :: st.played <= j < |st.written| ==> RingAt(ring, j) == st.written[j]
  }

  function RingAt(ring: seq<u8>, j: nat): u8
    requires |ring| == BDL_TOTAL_LEN
  {
    ring[j % BDL_TOTAL_LEN]
  }

  function Available(writePos: nat, readPos: nat): (r: nat)
    requires readPos <= BDL_TOTAL_LEN
  {
    (writePos + BDL_TOTAL_LEN - readPos) % BDL_TOTAL_LEN
  }

  function FreeSpace(writePos: nat, readPos: nat): (r: nat)
    requires readPos <= BDL_TOTAL_LEN
  {
    var used := Available(writePos, readPos) + BDL_RESERVED_FRAME;
    BDL_TOTAL_LEN - Min(used, BDL_TOTAL_LEN)
  }

  /** The positions say exactly how many bytes are unplayed as far as the driver knows; equal
      positions mean empty, and only that. */
  lemma PositionsExact(writePos: nat, readPos: nat, ring: seq<u8>, st: Stream)
    requires Fifo(writePos, readPos, ring, st)
    ensures Available(writePos, readPos) == |st.written| - st.synced
    ensures FreeSpace(writePos, readPos) == Max(0, BDL_TOTAL_LEN - BDL_RESERVED_FRAME - (|st.written| - st.synced))
    ensures writePos == readPos <==> |st.written| == st.synced
    ensures |st.written| < st.synced + BDL_TOTAL_LEN
    ensures |ring| == BDL_TOTAL_LEN && writePos < BDL_TOTAL_LEN && readPos < BDL_TOTAL_LEN
  {
    ModDistance(|st.written|, st.synced);
  }

  lemma FifoCopied(writePos: nat, readPos: nat, before: seq<u8>, after: seq<u8>, src: seq<u8>, n: nat, st: Stream)
    requires Fifo(writePos, readPos, before, st) && n <= |src| && |after| == BDL_TOTAL_LEN
    requires |st.written| + n < st.synced + BDL_TOTAL_LEN
    requires Copied(before, after, src, writePos % BDL_TOTAL_LEN, n)
    ensures Fifo((writePos + n) % BDL_TOTAL_LEN, readPos, after, st.(written := st.written + src[..n]))
  {
    hide Copied, Holds;
    CopyKeeps(before, after, src, n, st);
    Advance(|st.written|, n);
  }

  /** The engine, at its link position, finds the next byte of the stream. */
  lemma FifoPlays(writePos: nat, readPos: nat, ring: seq<u8>, st: Stream)
    requires Fifo(writePos, readPos, ring, st) && st.played < |st.written|
    ensures |ring| == BDL_TOTAL_LEN && RingAt(ring, st.played) == st.written[st.played]
    ensures Fifo(writePos, readPos, ring, st.(played := st.played + 1))
    ensures (st.played + 1) % BDL_TOTAL_LEN == (st.played % BDL_TOTAL_LEN + 1) % BDL_TOTAL_LEN
  {
    Advance(st.played, 1);
  }

  lemma FifoOrder(writePos: nat, readPos: nat, ring: seq<u8>, st: Stream)
    requires Fifo(writePos, readPos, ring, st)
    ensures |ring| == BDL_TOTAL_LEN && st.synced <= st.played <= |st.written|
  {
  }

  lemma ModDistance(a: nat, b: nat)
    requires b <= a < b + BDL_TOTAL_LEN
    ensures (a % BDL_TOTAL_LEN + BDL_TOTAL_LEN - b % BDL_TOTAL_LEN) % BDL_TOTAL_LEN == a - b
    ensures a % BDL_TOTAL_LEN == b % BDL_TOTAL_LEN <==> a == b
  {
    var q := b / BDL_TOTAL_LEN;
    assert a / BDL_TOTAL_LEN == q || a / BDL_TOTAL_LEN == q + 1;
  }

  // ------------------------------------------------------------ a restarted engine

  /** What the engine has yet to play. */
  function Left(st: Stream): seq<u8>
    requires st.played <= |st.written|
  {
    st.written[st.played..]
  }

  /** The stream an engine at link position `at` plays, up to the write position, from whatever
      the ring holds. */
  function Restarted(ring: seq<u8>, writePos: nat, at: nat): Stream
    requires |ring| == BDL_TOTAL_LEN && writePos < BDL_TOTAL_LEN && at < BDL_TOTAL_LEN
  {
    Stream(if at <= writePos then ring[..writePos] else ring + ring[..writePos], at, at)
  }

  lemma RestartedFifo(ring: seq<u8>, writePos: nat, at: nat)
    requires |ring| == BDL_TOTAL_LEN && writePos < BDL_TOTAL_LEN && at < BDL_TOTAL_LEN
    ensures Fifo(writePos, at, ring, Restarted(ring, writePos, at))
    ensures |Left(Restarted(ring, writePos, at))| == (writePos + BDL_TOTAL_LEN - at) % BDL_TOTAL_LEN
  {
    var st := Restarted(ring, writePos, at);
    assert at % BDL_TOTAL_LEN == at && writePos % BDL_TOTAL_LEN == writePos;
    assert (BDL_TOTAL_LEN + writePos) % BDL_TOTAL_LEN == writePos;
    forall j | st.played <= j < |st.written|
      ensures RingAt(ring, j) == st.written[j]
    {
      if j >= BDL_TOTAL_LEN {
        assert j % BDL_TOTAL_LEN == j - BDL_TOTAL_LEN;
      }
    }
  }

  /** A restart goes on with what was left exactly when it starts where the engine had
      stopped: anywhere else it plays a different number of bytes. */
  lemma RestartExact(writePos: nat, ring: seq<u8>, st: Stream, at: nat)
    requires Fifo(writePos, st.synced % BDL_TOTAL_LEN, ring, st) && at < BDL_TOTAL_LEN
    ensures |ring| == BDL_TOTAL_LEN && writePos < BDL_TOTAL_LEN && st.played <= |st.written|
    ensures Left(Restarted(ring, writePos, at)) == Left(st) <==> at == st.played % BDL_TOTAL_LEN
  {
    hide Fifo, Holds;
    FifoOrder(writePos, st.synced % BDL_TOTAL_LEN, ring, st);
    FifoLeft(writePos, st.synced % BDL_TOTAL_LEN, ring, st);
    RestartedFifo(ring, writePos, at);
    var r, p := Restarted(ring, writePos, at), st.played % BDL_TOTAL_LEN;
    if at == p {
      RestartedFifo(ring, writePos, p);
      SameLeft(ring, r, st);
    } else {
      SameDistance(writePos, at, p);
    }
  }

  lemma EmptyFifo(ring: seq<u8>)
    requires |ring| == BDL_TOTAL_LEN
    ensures Fifo(0, 0, ring, Stream([], 0, 0)) && Left(Stream([], 0, 0)) == []
  {
  }

  lemma FifoLeft(writePos: nat, readPos: nat, ring: seq<u8>, st: Stream)
    requires Fifo(writePos, readPos, ring, st)
    ensures |ring| == BDL_TOTAL_LEN && writePos < BDL_TOTAL_LEN && Holds(ring, st)
    ensures |Left(st)| == (writePos + BDL_TOTAL_LEN - st.played % BDL_TOTAL_LEN) % BDL_TOTAL_LEN
  {
    ModDistance(|st.written|, st.played);
  }

  lemma SameLeft(ring: seq<u8>, r: Stream, st: Stream)
    requires |ring| == BDL_TOTAL_LEN && Holds(ring, r) && Holds(ring, st)
    requires r.played <= |r.written| && st.played <= |st.written| && |Left(r)| == |Left(st)| < BDL_TOTAL_LEN
    requires r.played % BDL_TOTAL_LEN == st.played % BDL_TOTAL_LEN
    ensures Left(r) == Left(st)
  {
    hide RingAt;
    forall d | 0 <= d < |Left(st)|
      ensures Left(r)[d] == Left(st)[d]
    {
      SameByte(ring, r.played, st.played, d);
      assert RingAt(ring, r.played + d) == r.written[r.played + d];
      assert RingAt(ring, st.played + d) == st.written[st.played + d];
    }
  }

  lemma SameByte(ring: seq<u8>, a: nat, b: nat, d: nat)
    requires |ring| == BDL_TOTAL_LEN && a % BDL_TOTAL_LEN == b % BDL_TOTAL_LEN && d < BDL_TOTAL_LEN
    ensures RingAt(ring, a + d) == RingAt(ring, b + d)
  {
    Advance(a, d);
    Advance(b, d);
  }

  lemma SameDistance(w: nat, a: nat, b: nat)
    requires w < BDL_TOTAL_LEN && a < BDL_TOTAL_LEN && b < BDL_TOTAL_LEN
    ensures (w + BDL_TOTAL_LEN - a) % BDL_TOTAL_LEN == (w + BDL_TOTAL_LEN - b) % BDL_TOTAL_LEN <==> a == b
  {
  }

  // ------------------------------------------------------------ the ring object

  class BdlRingState {
    var writePos: nat
    var readPos: nat

    constructor ()
      ensures writePos == readPos == 0
    {
      writePos, readPos := 0, 0;
    }

    /** Re-sync the consumer position from a link position that may be stale: any count
        between the last one known and the one played now.  What the position said before does
        not matter. */
    method SyncReadFromLink(linkPos: u32, ghost ring: seq<u8>, ghost st: Stream, ghost sample: nat)
      requires Fifo(writePos, st.synced % BDL_TOTAL_LEN, ring, st)
      requires st.synced <= sample <= st.played && linkPos % BDL_TOTAL_LEN == sample % BDL_TOTAL_LEN
      modifies this`readPos
      ensures Fifo(writePos, readPos, ring, st.(synced := sample))
    {
      readPos := linkPos % BDL_TOTAL_LEN;
    }

    /** Copy as much of `src` as fits before the reserve.  The stream grows by exactly those
        bytes, and no byte the engine has yet to play is overwritten. */
    method CopyInto(ring: array<u8>, src: seq<u8>, ghost st: Stream) returns (n: nat)
      requires Fifo(writePos, readPos, ring[..], st)
      modifies this`writePos, ring
      ensures n == Min(|src|, Max(0, BDL_TOTAL_LEN - BDL_RESERVED_FRAME - (|st.written| - st.synced)))
      ensures Fifo(writePos, readPos, ring[..], st.(written := st.written + src[..n]))
    {
      hide Fifo, Copied, Available, FreeSpace;
      PositionsExact(writePos, readPos, ring[..], st);
      n := Min(|src|, FreeSpace(writePos, readPos));
      assert n <= BDL_TOTAL_LEN - BDL_RESERVED_FRAME;
      ghost var before := ring[..];
      CopyWrapped(ring, writePos % BDL_TOTAL_LEN, src, n);
      FifoCopied(writePos, readPos, before, ring[..], src, n, st);
      writePos := (writePos + n) % BDL_TOTAL_LEN;
    }
  }

  /** Lay `n` bytes of `src` down from `pos`, in at most two pieces. */
  method CopyWrapped(ring: array<u8>, pos: nat, src: seq<u8>, n: nat)
    requires ring.Length == BDL_TOTAL_LEN && pos < ring.Length && n <= |src| && n < ring.Length
    modifies ring
    ensures Copied(old(ring[..]), ring[..], src, pos, n)
  {
    var first := Min(n, ring.Length - pos);
    forall i | 0 <= i < first {
      ring[pos + i] := src[i];
    }
    if first < n {
      forall i | 0 <= i < n - first {
        ring[i] := src[first + i];
      }
    }
  }

  /** The byte at offset `x` after `n` bytes of `src` were laid down from `pos`, wrapping. */
  function CopiedByte(ring: seq<u8>, src: seq<u8>, pos: nat, n: nat, x: nat): u8
    requires |ring| == BDL_TOTAL_LEN && pos < BDL_TOTAL_LEN && n <= |src| && n <= BDL_TOTAL_LEN && x < BDL_TOTAL_LEN
  {
    if pos <= x < pos + n then src[x - pos]
    else if x + BDL_TOTAL_LEN < pos + n then src[x + BDL_TOTAL_LEN - pos]
    else ring[x]
  }

  ghost predicate Copied(before: seq<u8>, after: seq<u8>, src: seq<u8>, pos: nat, n: nat)
    requires |before| == |after| == BDL_TOTAL_LEN && pos < BDL_TOTAL_LEN && n <= |src| && n <= BDL_TOTAL_LEN
  {
    forall x :: 0 <= x < BDL_TOTAL_LEN ==> after[x] == CopiedByte(before, src, pos, n, x)
  }

  lemma CopyKeeps(before: seq<u8>, after: seq<u8>, src: seq<u8>, n: nat, st: Stream)
    requires n <= |src| && |before| == |after| == BDL_TOTAL_LEN
    requires st.played <= |st.written| && |st.written| + n < st.played + BDL_TOTAL_LEN
    requires Holds(before, st) && Copied(before, after, src, |st.written| % BDL_TOTAL_LEN, n)
    ensures Holds(after, st.(written := st.written + src[..n]))
  {
    var w := |st.written|;
    forall j | st.played <= j < w + n
      ensures RingAt(after, j) == (st.written + src[..n])[j]
    {
      var pos, x := w % BDL_TOTAL_LEN, j % BDL_TOTAL_LEN;
      if j >= w {
        Advance(w, j - w);
      } else {
        Advance(j, w - j);
        assert RingAt(before, j) == st.written[j];
      }
    }
  }

  /** Moving `d` places round the ring, less than once: where one lands. */
  lemma Advance(a: nat, d: nat)
    requires d < BDL_TOTAL_LEN
    ensures var p := a % BDL_TOTAL_LEN;
            (a + d) % BDL_TOTAL_LEN == if p + d < BDL_TOTAL_LEN then p + d else p + d - BDL_TOTAL_LEN
  {
    var p, q := a % BDL_TOTAL_LEN, a / BDL_TOTAL_LEN;
    assert a == q * BDL_TOTAL_LEN + p;
    if p + d < BDL_TOTAL_LEN {
      assert (a + d) / BDL_TOTAL_LEN == q;
    } else {
      assert (a + d) / BDL_TOTAL_LEN == q + 1;
    }
  }

  // ------------------------------------------------------------ whole runs

  /** A ring in memory at `phys`, shown to the engine by `bdl`, and every byte it has played. */
  datatype Playback = Playback(writePos: nat, readPos: nat, ring: seq<u8>, st: Stream, heard: seq<u8>)

  datatype Event =
    | Copy(src: seq<u8>)   // copy_into
    | Play                 // the engine plays one byte
    | Sync(sample: nat)    // sync_read_from_link, from a position sampled when `sample` were played

  /** The byte the engine plays at a link position: it finds the address through the list. */
  ghost function Fetched(bdl: seq<u8>, phys: u64, ring: seq<u8>, pos: nat): Option<u8>
    requires BDL_ENTRIES * BDL_ENTRY_BYTES <= |bdl|
  {
    match Locate(bdl, 0, pos)
    case Some(a) => if phys <= a < phys + |ring| then Some(ring[a - phys]) else None
    case None => None
  }

  /** One event.  The engine never passes the producer; a sampled position may be stale. */
  ghost predicate Next(bdl: seq<u8>, phys: u64, s: Playback, e: Event, t: Playback)
    requires BDL_ENTRIES * BDL_ENTRY_BYTES <= |bdl|
  {
    match e
    case Copy(src) =>
      && |s.ring| == |t.ring| == BDL_TOTAL_LEN && s.readPos <= BDL_TOTAL_LEN
      && var n := Min(|src|, FreeSpace(s.writePos, s.readPos));
         && Copied(s.ring, t.ring, src, s.writePos % BDL_TOTAL_LEN, n)
         && t == s.(writePos := (s.writePos + n) % BDL_TOTAL_LEN, ring := t.ring,
                    st := s.st.(written := s.st.written + src[..n]))
    case Play =>
      && s.st.played < |s.st.written|
      && var b := Fetched(bdl, phys, s.ring, s.st.played % BDL_TOTAL_LEN);
         b.Some? && t == s.(st := s.st.(played := s.st.played + 1), heard := s.heard + [b.value])
    case Sync(sample) =>
      && s.st.synced <= sample <= s.st.played
      && t == s.(readPos := sample % BDL_TOTAL_LEN, st := s.st.(synced := sample))
  }

  ghost predicate Sound(s: Playback) {
    && Fifo(s.writePos, s.readPos, s.ring, s.st)
    && s.heard == s.st.written[..s.st.played]
  }

  lemma NextSound(bdl: seq<u8>, phys: u64, s: Playback, e: Event, t: Playback)
    requires Covers(bdl, phys) && phys + BDL_TOTAL_LEN <= 0x1_0000_0000_0000_0000
    requires Sound(s) && Next(bdl, phys, s, e, t)
    ensures Sound(t) && s.st.written <= t.st.written
  {
    match e
    case Copy(src) =>
      hide Copied, FreeSpace, Holds;
      PositionsExact(s.writePos, s.readPos, s.ring, s.st);
      var n := Min(|src|, FreeSpace(s.writePos, s.readPos));
      FifoCopied(s.writePos, s.readPos, s.ring, t.ring, src, n, s.st);
      assert t.st.written[..t.st.played] == s.st.written[..s.st.played];
    case Play =>
      hide Covers, Locate;
      LocateInRing(bdl, phys, 0, s.st.played % BDL_TOTAL_LEN);
      FifoPlays(s.writePos, s.readPos, s.ring, s.st);
      assert t.heard == t.st.written[..t.st.played];
    case Sync(sample) =>
  }

  ghost predicate IsRun(bdl: seq<u8>, phys: u64, states: seq<Playback>, events: seq<Event>)
    requires BDL_ENTRIES * BDL_ENTRY_BYTES <= |bdl|
  {
    && |states| == |events| + 1
    && forall n :: 0 <= n < |events| ==> Next(bdl, phys, states[n], events[n], states[n + 1])
  }

  /** The ring is a FIFO.  From an empty ring, for every interleaving of writes, playing and
      late re-synchronisation, through any number of wraps, what the engine has played through
      the descriptor list is a prefix of what was written, and the rest is still in the ring. */
  lemma {:induction false} RingIsFifo(bdl: seq<u8>, phys: u64, states: seq<Playback>, events: seq<Event>)
    requires Covers(bdl, phys) && phys + BDL_TOTAL_LEN <= 0x1_0000_0000_0000_0000
    requires IsRun(bdl, phys, states, events)
    requires states[0] == Playback(0, 0, states[0].ring, Stream([], 0, 0), []) && |states[0].ring| == BDL_TOTAL_LEN
    ensures forall n :: 0 <= n < |states| ==> Sound(states[n])
    decreases |events|
  {
    if events == [] {
      assert Sound(states[0]);
    } else {
      var k := |events| - 1;
      RingIsFifo(bdl, phys, states[..k + 1], events[..k]);
      assert Sound(states[..k + 1][k]);
      NextSound(bdl, phys, states[k], events[k], states[k + 1]);
      forall n | 0 <= n < |states|
        ensures Sound(states[n])
      {
        assert n <= k ==> states[..k + 1][n] == states[n];
      }
    }
  }
}
