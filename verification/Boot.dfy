/** The boot hand-off of src/arch/boot.rs: the Multiboot2 tag walks and the PVH memory map. */
module Boot {
  import opened Machine

  const MULTIBOOT2_TAG_END: u32 := 0
  const MULTIBOOT2_TAG_CMDLINE: u32 := 1
  const MULTIBOOT2_TAG_MMAP: u32 := 6
  const MULTIBOOT2_TAG_FRAMEBUFFER: u32 := 8
  const PVH_START_MAGIC: u32 := 0x336e_c578
  const PVH_MMAP_VERSION: u32 := 1
  const PVH_MEMMAP_ENTRY_SIZE := 24
  const PVH_MEMMAP_MAX_ENTRIES := 128
  const MEMORY_REGION_AVAILABLE: u32 := 1

  datatype MemoryRegion = MemoryRegion(base: u64, length: u64, kind: u32)

  datatype LoaderFramebuffer =
    LoaderFramebuffer(address: u64, pitch: u32, width: u32, height: u32, bitsPerPixel: u8, kind: u8)

  // ------------------------------------------------------------ memory

  /** Physical memory as the boot reads it. */
  type Memory = nat -> u8

  function Bytes(mem: Memory, at: nat, n: nat): (r: seq<u8>)
    ensures |r| == n
  {
    seq(n, i requires 0 <= i < n => mem(at + i))
  }

  function Word32(mem: Memory, at: nat): u32 {
    Pow256Values();
    LeBytesOfValue(Bytes(mem, at, 4));
    LeValue(Bytes(mem, at, 4))
  }

  function Word64(mem: Memory, at: nat): u64 {
    Pow256Values();
    LeBytesOfValue(Bytes(mem, at, 8));
    LeValue(Bytes(mem, at, 8))
  }

  ghost predicate Holds(mem: Memory, at: nat, bytes: seq<u8>) {
    Bytes(mem, at, |bytes|) == bytes
  }

  lemma HoldsParts(mem: Memory, at: nat, a: seq<u8>, b: seq<u8>)
    ensures Holds(mem, at, a + b) <==> Holds(mem, at, a) && Holds(mem, at + |a|, b)
  {
    assert Bytes(mem, at, |a + b|) == Bytes(mem, at, |a|) + Bytes(mem, at + |a|, |b|);
    if Holds(mem, at, a + b) {
      assert a == (a + b)[..|a|] == Bytes(mem, at, |a + b|)[..|a|] == Bytes(mem, at, |a|);
      assert b == (a + b)[|a|..] == Bytes(mem, at, |a + b|)[|a|..] == Bytes(mem, at + |a|, |b|);
    }
  }

  lemma HoldsWord32(mem: Memory, at: nat, v: u32)
    requires Holds(mem, at, LeBytes(v, 4))
    ensures Word32(mem, at) == v
  {
    Pow256Values();
    LeRoundTrip(v, 4);
  }

  lemma HoldsWord64(mem: Memory, at: nat, v: u64)
    requires Holds(mem, at, LeBytes(v, 8))
    ensures Word64(mem, at) == v
  {
    Pow256Values();
    LeRoundTrip(v, 8);
  }

  // ------------------------------------------------------------ tags

  function Aligned(size: nat): (r: nat)
    ensures size <= r < size + 8 && r % 8 == 0
  {
    (size + 7) / 8 * 8
  }

  /** Where a walk from `offset` finds the first tag of a kind, for any memory at all. */
  function FindTag(mem: Memory, addr: nat, offset: nat, total: nat, kind: u32): (r: Option<nat>)
    ensures r.Some? ==> offset <= r.value && r.value + 8 <= total
    ensures r.Some? ==> Word32(mem, addr + r.value) == kind && Word32(mem, addr + r.value + 4) >= 8
    decreases total - offset
  {
    if offset + 8 > total then None
    else
      var tagType, tagSize := Word32(mem, addr + offset), Word32(mem, addr + offset + 4);
      if tagType == MULTIBOOT2_TAG_END || tagSize < 8 then None
      else if tagType == kind then Some(offset)
      else FindTag(mem, addr, offset + Aligned(tagSize), total, kind)
  }

  // ------------------------------------------------------------ what a walk reads

  /** The `n` addresses from `at` on. */
  ghost function Span(at: nat, n: nat): (r: set<nat>)
    ensures forall x :: x in r <==> at <= x < at + n
  {
    if n == 0 then {} else Span(at, n - 1) + {at + n - 1}
  }

  ghost predicate Within(seen: set<nat>, lo: nat, hi: nat) {
    forall x :: x in seen ==> lo <= x < hi
  }

  lemma SpanWithin(at: nat, n: nat, lo: nat, hi: nat)
    requires lo <= at
    ensures Within(Span(at, n), lo, hi) <==> n == 0 || at + n <= hi
  {
    if n > 0 {
      assert at + n - 1 in Span(at, n);
    }
  }

  lemma BothWithin(a: set<nat>, b: set<nat>, lo: nat, hi: nat)
    ensures Within(a + b, lo, hi) <==> Within(a, lo, hi) && Within(b, lo, hi)
  {
    assert forall x :: x in a ==> x in a + b;
    assert forall x :: x in b ==> x in a + b;
  }

  /** The tag headers a walk looks at. */
  ghost function HeaderReads(mem: Memory, addr: nat, offset: nat, total: nat, kind: u32): set<nat>
    decreases total - offset
  {
    if offset + 8 > total then {}
    else
      var tagType, tagSize := Word32(mem, addr + offset), Word32(mem, addr + offset + 4);
      if tagType == MULTIBOOT2_TAG_END || tagSize < 8 || tagType == kind then Span(addr + offset, 8)
      else Span(addr + offset, 8) + HeaderReads(mem, addr, offset + Aligned(tagSize), total, kind)
  }

  /** The size word of the block, and the headers. */
  ghost function WalkReads(mem: Memory, addr: nat, kind: u32): set<nat> {
    Span(addr, 4) + HeaderReads(mem, addr, 8, Word32(mem, addr), kind)
  }

  /** Where a block ends; its size word is always read. */
  function BlockEnd(mem: Memory, addr: nat): nat {
    addr + Max(Word32(mem, addr), 4)
  }

  lemma {:induction false} HeadersInside(mem: Memory, addr: nat, offset: nat, total: nat, kind: u32)
    ensures Within(HeaderReads(mem, addr, offset, total, kind), addr, addr + total)
    decreases total - offset
  {
    hide Word32, Span, Aligned, Within;
    if offset + 8 > total {
      assert Within({}, addr, addr + total) by { NothingWithin(addr, addr + total); }
    } else {
      SpanWithin(addr + offset, 8, addr, addr + total);
      var tagSize := Word32(mem, addr + offset + 4);
      if tagSize >= 8 {
        HeadersInside(mem, addr, offset + Aligned(tagSize), total, kind);
        BothWithin(Span(addr + offset, 8), HeaderReads(mem, addr, offset + Aligned(tagSize), total, kind), addr,
                   addr + total);
      }
    }
  }

  lemma NothingWithin(lo: nat, hi: nat)
    ensures Within({}, lo, hi)
  {
  }

  lemma WalkInside(mem: Memory, addr: nat, kind: u32)
    ensures Within(WalkReads(mem, addr, kind), addr, BlockEnd(mem, addr))
  {
    hide Word32, Span, HeaderReads;
    var total := Word32(mem, addr);
    SpanWithin(addr, 4, addr, BlockEnd(mem, addr));
    HeadersInside(mem, addr, 8, total, kind);
  }

  /** Two memories alike at some addresses. */
  ghost predicate Agree(mem: Memory, other: Memory, at: set<nat>) {
    forall x :: x in at ==> mem(x) == other(x)
  }

  lemma SameBytes(mem: Memory, other: Memory, at: nat, n: nat, seen: set<nat>)
    requires Agree(mem, other, seen) && Span(at, n) <= seen
    ensures Bytes(mem, at, n) == Bytes(other, at, n)
  {
    forall i | 0 <= i < n
      ensures Bytes(mem, at, n)[i] == Bytes(other, at, n)[i]
    {
      assert at + i in Span(at, n);
    }
  }

  lemma SameWords(mem: Memory, other: Memory, at: nat, n: nat, seen: set<nat>)
    requires Agree(mem, other, seen) && Span(at, n) <= seen
    ensures n >= 4 ==> Word32(mem, at) == Word32(other, at)
    ensures n >= 8 ==> Word64(mem, at) == Word64(other, at) && Word32(mem, at + 4) == Word32(other, at + 4)
  {
    if n >= 4 {
      assert Span(at, 4) <= Span(at, n);
      SameBytes(mem, other, at, 4, seen);
    }
    if n >= 8 {
      assert Span(at, 8) <= Span(at, n) && Span(at + 4, 4) <= Span(at, n);
      SameBytes(mem, other, at, 8, seen);
      SameBytes(mem, other, at + 4, 4, seen);
    }
  }

  /** A walk depends on the headers it looks at and on nothing else. */
  lemma {:induction false} SameWalk(mem: Memory, other: Memory, addr: nat, offset: nat, total: nat, kind: u32,
                                    seen: set<nat>)
    requires Agree(mem, other, seen) && HeaderReads(mem, addr, offset, total, kind) <= seen
    ensures FindTag(other, addr, offset, total, kind) == FindTag(mem, addr, offset, total, kind)
    decreases total - offset
  {
    hide Word32, Word64, Span, Aligned, Agree;
    if offset + 8 <= total {
      assert Span(addr + offset, 8) <= HeaderReads(mem, addr, offset, total, kind);
      SameWords(mem, other, addr + offset, 8, seen);
      var tagType, tagSize := Word32(mem, addr + offset), Word32(mem, addr + offset + 4);
      if tagType != MULTIBOOT2_TAG_END && tagSize >= 8 && tagType != kind {
        SameWalk(mem, other, addr, offset + Aligned(tagSize), total, kind, seen);
      }
    }
  }

  /** The block's size and the tag found are alike in memories alike where the walk looks. */
  lemma SameFind(mem: Memory, other: Memory, addr: nat, kind: u32, seen: set<nat>)
    requires Agree(mem, other, seen) && WalkReads(mem, addr, kind) <= seen
    ensures Word32(other, addr) == Word32(mem, addr)
    ensures FindTag(other, addr, 8, Word32(other, addr), kind) == FindTag(mem, addr, 8, Word32(mem, addr), kind)
    ensures var o := FindTag(mem, addr, 8, Word32(mem, addr), kind);
            o.Some? ==> Word32(other, addr + o.value + 4) == Word32(mem, addr + o.value + 4)
  {
    hide Word32, Word64, Span, Aligned, Agree, HeaderReads, FindTag;
    SameWords(mem, other, addr, 4, seen);
    SameWalk(mem, other, addr, 8, Word32(mem, addr), kind, seen);
    var o := FindTag(mem, addr, 8, Word32(mem, addr), kind);
    if o.Some? {
      HeaderRead(mem, addr, 8, Word32(mem, addr), kind);
      SameWords(mem, other, addr + o.value, 8, seen);
    }
  }

  lemma {:induction false} HeaderRead(mem: Memory, addr: nat, offset: nat, total: nat, kind: u32)
    requires FindTag(mem, addr, offset, total, kind).Some?
    ensures Span(addr + FindTag(mem, addr, offset, total, kind).value, 8) <= HeaderReads(mem, addr, offset, total, kind)
    decreases total - offset
  {
    hide Word32, Span, Aligned;
    var tagType, tagSize := Word32(mem, addr + offset), Word32(mem, addr + offset + 4);
    if tagType != kind {
      HeaderRead(mem, addr, offset + Aligned(tagSize), total, kind);
    }
  }

  // ------------------------------------------------------------ a loader's block

  /** A tag as a loader writes it: its kind, and what follows the eight-byte header. */
  datatype Tag = Tag(kind: u32, body: seq<u8>)

  ghost predicate ProperTag(t: Tag) {
    t.kind != MULTIBOOT2_TAG_END && 8 + |t.body| < 0x1_0000_0000
  }

  ghost predicate ProperTags(tags: seq<Tag>) {
    forall i :: 0 <= i < |tags| ==> ProperTag(tags[i])
  }

  function TagBytes(t: Tag): (r: seq<u8>)
    ensures |r| == Aligned(8 + |t.body|)
  {
    LeBytes(t.kind, 4) + LeBytes(8 + |t.body|, 4) + t.body + Zeros(Aligned(8 + |t.body|) - (8 + |t.body|))
  }

  /** The tags one after another, closed by the end tag. */
  function TagsBytes(tags: seq<Tag>): seq<u8> {
    if tags == [] then TagBytes(Tag(MULTIBOOT2_TAG_END, [])) else TagBytes(tags[0]) + TagsBytes(tags[1..])
  }

  /** The whole information block: its size, a reserved word, the tags. */
  function BlockBytes(tags: seq<Tag>): (r: seq<u8>)
    ensures |r| == 8 + |TagsBytes(tags)|
  {
    LeBytes(8 + |TagsBytes(tags)|, 4) + LeBytes(0, 4) + TagsBytes(tags)
  }

  /** A loader's block lies at `addr`. */
  ghost predicate Handed(mem: Memory, addr: nat, tags: seq<Tag>) {
    && addr != 0 && ProperTags(tags)
    && |BlockBytes(tags)| < 0x1_0000_0000
    && Holds(mem, addr, BlockBytes(tags))
  }

  function First(tags: seq<Tag>, kind: u32): Option<Tag> {
    if tags == [] then None else if tags[0].kind == kind then Some(tags[0]) else First(tags[1..], kind)
  }

  /** `First` is the tag with the least index of its kind. */
  lemma {:induction false} FirstIs(tags: seq<Tag>, kind: u32, i: nat)
    requires i < |tags| && tags[i].kind == kind && forall j :: 0 <= j < i ==> tags[j].kind != kind
    ensures First(tags, kind) == Some(tags[i])
    decreases i
  {
    if i > 0 {
      FirstIs(tags[1..], kind, i - 1);
    }
  }

  /** What a walk finds at an offset is the tag the loader put there. */
  ghost predicate Found(mem: Memory, addr: nat, at: Option<nat>, t: Option<Tag>) {
    match t
    case None => at == None
    case Some(tag) =>
      && at.Some?
      && Word32(mem, addr + at.value + 4) == 8 + |tag.body|
      && Holds(mem, addr + at.value + 8, tag.body)
  }

  /** The tag found, if any, ends in the block. */
  ghost predicate Ends(mem: Memory, addr: nat, at: Option<nat>, total: nat) {
    at.Some? ==> at.value + Word32(mem, addr + at.value + 4) <= total
  }

  lemma HoldsTag(mem: Memory, at: nat, t: Tag)
    requires Holds(mem, at, TagBytes(t)) && 8 + |t.body| < 0x1_0000_0000
    ensures Word32(mem, at) == t.kind && Word32(mem, at + 4) == 8 + |t.body|
    ensures Holds(mem, at + 8, t.body)
  {
    hide Holds, LeBytes, Word32;
    var kind, size, rest := LeBytes(t.kind, 4), LeBytes(8 + |t.body|, 4), Zeros(Aligned(8 + |t.body|) - (8 + |t.body|));
    HoldsParts(mem, at, kind + size + t.body, rest);
    HoldsParts(mem, at, kind + size, t.body);
    HoldsParts(mem, at, kind, size);
    HoldsWord32(mem, at, t.kind);
    HoldsWord32(mem, at + 4, 8 + |t.body|);
  }

  /** A walk over any proper tags finds the first of its kind, whatever the others are. */
  lemma {:induction false} WalkFindsFirst(mem: Memory, addr: nat, offset: nat, total: nat, tags: seq<Tag>, kind: u32)
    requires ProperTags(tags) && kind != MULTIBOOT2_TAG_END
    requires Holds(mem, addr + offset, TagsBytes(tags)) && offset + |TagsBytes(tags)| == total
    ensures Found(mem, addr, FindTag(mem, addr, offset, total, kind), First(tags, kind))
    ensures Ends(mem, addr, FindTag(mem, addr, offset, total, kind), total)
    decreases |tags|
  {
    hide Holds, Word32, TagBytes;
    if tags == [] {
      HoldsTag(mem, addr + offset, Tag(MULTIBOOT2_TAG_END, []));
    } else {
      HoldsParts(mem, addr + offset, TagBytes(tags[0]), TagsBytes(tags[1..]));
      HoldsTag(mem, addr + offset, tags[0]);
      assert ProperTag(tags[0]);
      if tags[0].kind != kind {
        WalkFindsFirst(mem, addr, offset + Aligned(8 + |tags[0].body|), total, tags[1..], kind);
      }
    }
  }

  lemma BlockFindsFirst(mem: Memory, addr: nat, tags: seq<Tag>, kind: u32)
    requires Handed(mem, addr, tags) && kind != MULTIBOOT2_TAG_END
    ensures Found(mem, addr, FindTag(mem, addr, 8, Word32(mem, addr), kind), First(tags, kind))
    ensures Ends(mem, addr, FindTag(mem, addr, 8, Word32(mem, addr), kind), Word32(mem, addr))
  {
    hide Holds, LeBytes, Word32, TagsBytes, FindTag, Found, Ends;
    var size := |BlockBytes(tags)|;
    HoldsParts(mem, addr, LeBytes(size, 4) + LeBytes(0, 4), TagsBytes(tags));
    HoldsParts(mem, addr, LeBytes(size, 4), LeBytes(0, 4));
    HoldsWord32(mem, addr, size);
    WalkFindsFirst(mem, addr, 8, size, tags, kind);
  }

  // ------------------------------------------------------------ the command line

  lemma {:induction false} UpToNulIs(s: seq<u8>, r: seq<u8>)
    requires r <= s && 0 !in r && (r == s || s[|r|] == 0)
    ensures UpToNul(s) == r
  {
    if r != [] {
      UpToNulIs(s[1..], r[1..]);
      assert r == [r[0]] + r[1..];
    }
  }

  function CommandLineOf(mem: Memory, addr: nat): Option<seq<u8>> {
    if addr == 0 then None
    else
      match FindTag(mem, addr, 8, Word32(mem, addr), MULTIBOOT2_TAG_CMDLINE)
      case None => None
      case Some(o) => Some(UpToNul(Bytes(mem, addr + o + 8, Word32(mem, addr + o + 4) - 8)))
  }

  /** The bytes read of a string that ends at a NUL or at its limit. */
  function StringReads(s: seq<u8>): (n: nat)
    ensures n <= |s|
  {
    if UpToNul(s) == s then |s| else |UpToNul(s)| + 1
  }

  /** Every address the search for the command line reads. */
  ghost function CommandLineReads(mem: Memory, addr: nat): set<nat> {
    if addr == 0 then {}
    else
      match FindTag(mem, addr, 8, Word32(mem, addr), MULTIBOOT2_TAG_CMDLINE)
      case None => WalkReads(mem, addr, MULTIBOOT2_TAG_CMDLINE)
      case Some(o) =>
        WalkReads(mem, addr, MULTIBOOT2_TAG_CMDLINE)
        + Span(addr + o + 8, StringReads(Bytes(mem, addr + o + 8, Word32(mem, addr + o + 4) - 8)))
  }

  method Multiboot2CommandLine(mem: Memory, addr: nat) returns (r: Option<seq<u8>>, ghost touched: set<nat>)
    ensures r == CommandLineOf(mem, addr) && touched == CommandLineReads(mem, addr)
  {
    hide Word32, UpToNul, Aligned, Span;
    touched := {};
    if addr == 0 {
      return None, touched;
    }
    var totalSize := Word32(mem, addr);
    touched := Span(addr, 4);
    var offset: nat := 8;
    while offset + 8 <= totalSize
      invariant FindTag(mem, addr, offset, totalSize, MULTIBOOT2_TAG_CMDLINE)
             == FindTag(mem, addr, 8, totalSize, MULTIBOOT2_TAG_CMDLINE)
      invariant touched + HeaderReads(mem, addr, offset, totalSize, MULTIBOOT2_TAG_CMDLINE)
             == WalkReads(mem, addr, MULTIBOOT2_TAG_CMDLINE)
    {
      var tagType, tagSize := Word32(mem, addr + offset), Word32(mem, addr + offset + 4);
      touched := touched + Span(addr + offset, 8);
      if tagType == MULTIBOOT2_TAG_END || tagSize < 8 {
        return None, touched;
      }
      if tagType == MULTIBOOT2_TAG_CMDLINE {
        var line;
        ghost var n;
        line, n := ReadString(mem, addr + offset + 8, tagSize - 8);
        return Some(line), touched + Span(addr + offset + 8, n);
      }
      offset := offset + Aligned(tagSize);
    }
    return None, touched;
  }

  method ReadString(mem: Memory, at: nat, maxLen: nat) returns (r: seq<u8>, ghost n: nat)
    ensures r == UpToNul(Bytes(mem, at, maxLen)) && n == StringReads(Bytes(mem, at, maxLen))
  {
    r := [];
    for i := 0 to maxLen
      invariant r == Bytes(mem, at, i) && 0 !in r
    {
      var byte := mem(at + i);
      if byte == 0 {
        UpToNulIs(Bytes(mem, at, maxLen), r);
        return r, i + 1;
      }
      r := r + [byte];
    }
    UpToNulIs(Bytes(mem, at, maxLen), r);
    return r, maxLen;
  }

  lemma NulWithin(s: seq<u8>, m: nat)
    requires m < |s|
    ensures StringReads(s) <= m <==> 0 in s[..m]
  {
    var r := UpToNul(s);
    assert forall j :: 0 <= j < |r| ==> r[j] == s[j] && r[j] in r;
    if StringReads(s) <= m {
      assert s[..m][|r|] == 0;
    }
  }

  /** The search stays inside the block exactly when the tag it finds ends there, or a NUL
      comes before the block's end: the tag's own size is never compared with it. */
  lemma CommandLineInside(mem: Memory, addr: nat)
    requires addr != 0
    ensures Within(CommandLineReads(mem, addr), addr, BlockEnd(mem, addr))
       <==> match FindTag(mem, addr, 8, Word32(mem, addr), MULTIBOOT2_TAG_CMDLINE)
            case None => true
            case Some(o) =>
              var total, size := Word32(mem, addr), Word32(mem, addr + o + 4);
              o + size <= total || 0 in Bytes(mem, addr + o + 8, total - o - 8)
  {
    hide Word32, Span, FindTag, HeaderReads, WalkReads, UpToNul, StringReads, Within;
    WalkInside(mem, addr, MULTIBOOT2_TAG_CMDLINE);
    var at := FindTag(mem, addr, 8, Word32(mem, addr), MULTIBOOT2_TAG_CMDLINE);
    if at.Some? {
      var o, total := at.value, Word32(mem, addr);
      var s := Bytes(mem, addr + o + 8, Word32(mem, addr + o + 4) - 8);
      BothWithin(WalkReads(mem, addr, MULTIBOOT2_TAG_CMDLINE), Span(addr + o + 8, StringReads(s)), addr,
                 BlockEnd(mem, addr));
      SpanWithin(addr + o + 8, StringReads(s), addr, BlockEnd(mem, addr));
      if o + 8 + |s| > total {
        NulWithin(s, total - o - 8);
        assert s[..total - o - 8] == Bytes(mem, addr + o + 8, total - o - 8);
      }
    }
  }

  /** The command line depends on the addresses read and on nothing else. */
  lemma SameCommandLine(mem: Memory, other: Memory, addr: nat)
    requires Agree(mem, other, CommandLineReads(mem, addr))
    ensures CommandLineOf(other, addr) == CommandLineOf(mem, addr)
  {
    hide Word32, Span, FindTag, HeaderReads, WalkReads, UpToNul, StringReads, Agree;
    if addr != 0 {
      SameFind(mem, other, addr, MULTIBOOT2_TAG_CMDLINE, CommandLineReads(mem, addr));
      var at := FindTag(mem, addr, 8, Word32(mem, addr), MULTIBOOT2_TAG_CMDLINE);
      if at.Some? {
        SameString(mem, other, addr + at.value + 8, Word32(mem, addr + at.value + 4) - 8, CommandLineReads(mem, addr));
      }
    }
  }

  lemma SameString(mem: Memory, other: Memory, at: nat, n: nat, seen: set<nat>)
    requires Agree(mem, other, seen) && Span(at, StringReads(Bytes(mem, at, n))) <= seen
    ensures UpToNul(Bytes(other, at, n)) == UpToNul(Bytes(mem, at, n))
  {
    hide Span, Agree;
    var s, t := Bytes(mem, at, n), Bytes(other, at, n);
    var k := StringReads(s);
    SameBytes(mem, other, at, k, seen);
    assert s[..k] == Bytes(mem, at, k) == Bytes(other, at, k) == t[..k];
    var r := UpToNul(s);
    assert r == s[..k][..|r|] && r == t[..|r|];
    assert |r| < k ==> s[..k][|r|] == t[..k][|r|];
    UpToNulIs(t, r);
  }

  /** Whatever else a loader's block holds, the command line is that of its first such tag. */
  lemma CommandLineRead(mem: Memory, addr: nat, tags: seq<Tag>)
    requires Handed(mem, addr, tags)
    ensures CommandLineOf(mem, addr) == match First(tags, MULTIBOOT2_TAG_CMDLINE)
                                        case None => None
                                        case Some(t) => Some(UpToNul(t.body))
  {
    hide Word32, UpToNul, FindTag, First;
    BlockFindsFirst(mem, addr, tags, MULTIBOOT2_TAG_CMDLINE);
  }

  // ------------------------------------------------------------ the memory map

  function RegionAt(mem: Memory, at: nat): MemoryRegion {
    MemoryRegion(Word64(mem, at), Word64(mem, at + 8), Word32(mem, at + 16))
  }

  function Kept(region: MemoryRegion): seq<MemoryRegion> {
    if region.length > 0 then [region] else []
  }

  /** The regions of a table in memory, empty ones left out. */
  function RegionsIn(mem: Memory, at: nat, stride: nat, count: nat): seq<MemoryRegion> {
    if count == 0 then []
    else RegionsIn(mem, at, stride, count - 1) + Kept(RegionAt(mem, at + (count - 1) * stride))
  }

  function RegionsOf(mem: Memory, addr: nat): Option<seq<MemoryRegion>> {
    if addr == 0 then None
    else
      match FindTag(mem, addr, 8, Word32(mem, addr), MULTIBOOT2_TAG_MMAP)
      case None => None
      case Some(o) => TableOf(mem, addr + o)
  }

  /** The table of the memory-map tag at `tag`, if the tag is not too small for one. */
  function TableOf(mem: Memory, tag: nat): Option<seq<MemoryRegion>> {
    TableFor(mem, tag, Word32(mem, tag + 4), Word32(mem, tag + 8))
  }

  function TableFor(mem: Memory, tag: nat, size: nat, stride: nat): Option<seq<MemoryRegion>> {
    if size < 16 || stride < 24 then None else Some(RegionsIn(mem, tag + 16, stride, (size - 16) / stride))
  }

  /** The twenty bytes read of each entry. */
  ghost function EntryReads(at: nat, stride: nat, count: nat): set<nat> {
    if count == 0 then {} else EntryReads(at, stride, count - 1) + Span(at + (count - 1) * stride, 20)
  }

  ghost function TableReads(mem: Memory, tag: nat): set<nat> {
    TableReadsFor(tag, Word32(mem, tag + 4), Word32(mem, tag + 8))
  }

  ghost function TableReadsFor(tag: nat, size: nat, stride: nat): set<nat> {
    if size < 16 then {}
    else if stride < 24 then Span(tag + 8, 4)
    else Span(tag + 8, 8) + EntryReads(tag + 16, stride, (size - 16) / stride)
  }

  /** Every address the search for the memory map reads. */
  ghost function RegionsReads(mem: Memory, addr: nat): set<nat> {
    if addr == 0 then {}
    else
      match FindTag(mem, addr, 8, Word32(mem, addr), MULTIBOOT2_TAG_MMAP)
      case None => WalkReads(mem, addr, MULTIBOOT2_TAG_MMAP)
      case Some(o) => WalkReads(mem, addr, MULTIBOOT2_TAG_MMAP) + TableReads(mem, addr + o)
  }

  method Multiboot2MemoryRegionsAt(mem: Memory, addr: nat)
    returns (r: Option<seq<MemoryRegion>>, ghost touched: set<nat>)
    ensures r == RegionsOf(mem, addr) && touched == RegionsReads(mem, addr)
  {
    hide Word32, Word64, Aligned, RegionsIn, Span, EntryReads;
    touched := {};
    if addr == 0 {
      return None, touched;
    }
    var totalSize := Word32(mem, addr);
    touched := Span(addr, 4);
    var offset: nat := 8;
    while offset + 8 <= totalSize
      invariant FindTag(mem, addr, offset, totalSize, MULTIBOOT2_TAG_MMAP)
             == FindTag(mem, addr, 8, totalSize, MULTIBOOT2_TAG_MMAP)
      invariant touched + HeaderReads(mem, addr, offset, totalSize, MULTIBOOT2_TAG_MMAP)
             == WalkReads(mem, addr, MULTIBOOT2_TAG_MMAP)
    {
      var tagType, tagSize := Word32(mem, addr + offset), Word32(mem, addr + offset + 4);
      touched := touched + Span(addr + offset, 8);
      if tagType == MULTIBOOT2_TAG_END || tagSize < 8 {
        return None, touched;
      }
      if tagType == MULTIBOOT2_TAG_MMAP {
        if tagSize < 16 {
          return None, touched;
        }
        var entrySize := Word32(mem, addr + offset + 8);
        if entrySize < 24 {
          return None, touched + Span(addr + offset + 8, 4);
        }
        SpanSplit(addr + offset + 8, 4, 4);
        touched := touched + (Span(addr + offset + 8, 4) + Span(addr + offset + 12, 4));
        var regions;
        ghost var entries;
        regions, entries := ReadTable(mem, addr + offset + 16, addr + offset + tagSize, entrySize);
        return Some(regions), touched + entries;
      }
      offset := offset + Aligned(tagSize);
    }
    return None, touched;
  }

  lemma SpanSplit(at: nat, a: nat, b: nat)
    ensures Span(at, a + b) == Span(at, a) + Span(at + a, b)
  {
  }

  method ReadTable(mem: Memory, start: nat, end: nat, entrySize: nat)
    returns (regions: seq<MemoryRegion>, ghost touched: set<nat>)
    requires start <= end && entrySize > 0
    ensures regions == RegionsIn(mem, start, entrySize, (end - start) / entrySize)
    ensures touched == EntryReads(start, entrySize, (end - start) / entrySize)
  {
    hide Word32, Word64, Span, RegionsIn, EntryReads;
    regions, touched := [], {};
    NoEntries(mem, start, entrySize);
    var entry := start;
    ghost var k := 0;
    while entry + entrySize <= end
      invariant entry <= end && entry == start + k * entrySize
      invariant regions == RegionsIn(mem, start, entrySize, k) && touched == EntryReads(start, entrySize, k)
      decreases end - entry
    {
      var base, length, kind := Word64(mem, entry), Word64(mem, entry + 8), Word32(mem, entry + 16);
      touched := touched + Span(entry, 20);
      OneMoreEntry(mem, start, entrySize, k);
      if length > 0 {
        regions := regions + [MemoryRegion(base, length, kind)];
      } else {
        assert regions + [] == regions;
      }
      entry := entry + entrySize;
      k := k + 1;
    }
    Quotient(end - start, entrySize, k);
  }

  lemma NoEntries(mem: Memory, at: nat, stride: nat)
    ensures RegionsIn(mem, at, stride, 0) == [] && EntryReads(at, stride, 0) == {}
  {
  }

  lemma OneMoreEntry(mem: Memory, at: nat, stride: nat, k: nat)
    ensures (k + 1) * stride == k * stride + stride
    ensures RegionsIn(mem, at, stride, k + 1) == RegionsIn(mem, at, stride, k) + Kept(RegionAt(mem, at + k * stride))
    ensures EntryReads(at, stride, k + 1) == EntryReads(at, stride, k) + Span(at + k * stride, 20)
  {
    hide Word32, Word64, Span;
  }

  lemma {:induction false} EntriesWithin(at: nat, stride: nat, count: nat, lo: nat, hi: nat)
    requires lo <= at
    ensures Within(EntryReads(at, stride, count), lo, hi) <==> count == 0 || at + (count - 1) * stride + 20 <= hi
  {
    hide Span, Within;
    if count == 0 {
      NothingWithin(lo, hi);
    } else {
      EntriesWithin(at, stride, count - 1, lo, hi);
      assert count > 1 ==> (count - 1) * stride == (count - 2) * stride + stride;
      SpanWithin(at + (count - 1) * stride, 20, lo, hi);
      BothWithin(EntryReads(at, stride, count - 1), Span(at + (count - 1) * stride, 20), lo, hi);
    }
  }

  /** Where the reads of a map tag at offset `o` end. */
  function TableEnd(o: nat, size: nat, stride: nat): nat {
    if size < 16 then o + 8
    else if stride < 24 then o + 12
    else if size - 16 < stride then o + 16
    else o + 16 + ((size - 16) / stride - 1) * stride + 20
  }

  lemma TableWithin(mem: Memory, addr: nat, o: nat, hi: nat)
    requires addr + o + 8 <= hi
    ensures Within(TableReads(mem, addr + o), addr, hi)
       <==> addr + TableEnd(o, Word32(mem, addr + o + 4), Word32(mem, addr + o + 8)) <= hi
  {
    hide Word32, Span, EntryReads, Within;
    var tag, size, stride := addr + o, Word32(mem, addr + o + 4), Word32(mem, addr + o + 8);
    NothingWithin(addr, hi);
    SpanWithin(tag + 8, 4, addr, hi);
    SpanWithin(tag + 8, 8, addr, hi);
    if size >= 16 && stride >= 24 {
      var count := (size - 16) / stride;
      CountOf(size - 16, stride);
      EntriesWithin(tag + 16, stride, count, addr, hi);
      BothWithin(Span(tag + 8, 8), EntryReads(tag + 16, stride, count), addr, hi);
    }
  }

  lemma CountOf(n: nat, d: nat)
    requires d > 0
    ensures n / d == 0 <==> n < d
    ensures n / d > 0 ==> (n / d - 1) * d >= 0 && (n / d - 1) * d + d <= n
  {
    var q := n / d;
    assert q * d <= n < q * d + d;
    assert q > 0 ==> (q - 1) * d + d == q * d;
  }

  /** The search for the map stays inside the block exactly when the last entry the tag claims
      does. */
  lemma RegionsInside(mem: Memory, addr: nat)
    requires addr != 0
    ensures Within(RegionsReads(mem, addr), addr, BlockEnd(mem, addr))
       <==> match FindTag(mem, addr, 8, Word32(mem, addr), MULTIBOOT2_TAG_MMAP)
            case None => true
            case Some(o) => TableEnd(o, Word32(mem, addr + o + 4), Word32(mem, addr + o + 8)) <= Word32(mem, addr)
  {
    hide Word32, Span, FindTag, WalkReads, TableReads, TableEnd, Within;
    WalkInside(mem, addr, MULTIBOOT2_TAG_MMAP);
    var at := FindTag(mem, addr, 8, Word32(mem, addr), MULTIBOOT2_TAG_MMAP);
    if at.Some? {
      TableWithin(mem, addr, at.value, BlockEnd(mem, addr));
      BothWithin(WalkReads(mem, addr, MULTIBOOT2_TAG_MMAP), TableReads(mem, addr + at.value), addr,
                 BlockEnd(mem, addr));
    }
  }

  /** The map depends on the addresses read and on nothing else. */
  lemma SameRegions(mem: Memory, other: Memory, addr: nat)
    requires Agree(mem, other, RegionsReads(mem, addr))
    ensures RegionsOf(other, addr) == RegionsOf(mem, addr)
  {
    hide Word32, Span, FindTag, WalkReads, TableReads, TableOf, Agree;
    if addr != 0 {
      var seen := RegionsReads(mem, addr);
      SameFind(mem, other, addr, MULTIBOOT2_TAG_MMAP, seen);
      var at := FindTag(mem, addr, 8, Word32(mem, addr), MULTIBOOT2_TAG_MMAP);
      if at.Some? {
        SameTable(mem, other, addr + at.value, seen);
      }
    }
  }

  lemma SameTable(mem: Memory, other: Memory, tag: nat, seen: set<nat>)
    requires Agree(mem, other, seen) && TableReads(mem, tag) <= seen && Word32(other, tag + 4) == Word32(mem, tag + 4)
    ensures TableOf(other, tag) == TableOf(mem, tag)
  {
    hide Word32, Word64, Span, EntryReads, RegionsIn, Agree;
    var size, stride := Word32(mem, tag + 4), Word32(mem, tag + 8);
    if size >= 16 {
      if stride < 24 {
        SameWords(mem, other, tag + 8, 4, seen);
      } else {
        SameWords(mem, other, tag + 8, 8, seen);
        SameEntries(mem, other, tag + 16, stride, (size - 16) / stride, seen);
      }
    }
  }

  lemma {:induction false} SameEntries(mem: Memory, other: Memory, at: nat, stride: nat, count: nat, seen: set<nat>)
    requires Agree(mem, other, seen) && EntryReads(at, stride, count) <= seen
    ensures RegionsIn(other, at, stride, count) == RegionsIn(mem, at, stride, count)
  {
    hide Word32, Word64, Span, Agree;
    if count > 0 {
      SameEntries(mem, other, at, stride, count - 1, seen);
      var e := at + (count - 1) * stride;
      SpanSplit(e, 16, 4);
      SpanSplit(e, 8, 8);
      SameWords(mem, other, e, 8, seen);
      SameWords(mem, other, e + 8, 8, seen);
      SameWords(mem, other, e + 16, 4, seen);
    }
  }

  lemma Quotient(n: nat, d: nat, k: nat)
    requires d > 0 && k * d <= n < k * d + d
    ensures n / d == k
  {
    var q := n / d;
    assert q * d <= n < q * d + d;
    assert q < k ==> (q + 1) * d <= k * d;
    assert k < q ==> (k + 1) * d <= q * d;
  }

  // ------------------------------------------------------------ the PVH map

  /** The table a PVH block points at, when the block is one to trust. */
  function PvhTable(mem: Memory, addr: nat, limit: nat): Option<(nat, nat)> {
    var table, entries := Word64(mem, addr + 0x28), Word32(mem, addr + 0x30);
    if addr == 0 || addr >= limit || Word32(mem, addr) != PVH_START_MAGIC || Word32(mem, addr + 4) < PVH_MMAP_VERSION
       || table == 0 || entries == 0 || entries > PVH_MEMMAP_MAX_ENTRIES
       || table + entries * PVH_MEMMAP_ENTRY_SIZE > Min(limit, MAX_U64)
    then None
    else Some((table, entries))
  }

  method PvhMemoryRegionsAt(mem: Memory, addr: nat, limit: nat) returns (r: Option<seq<MemoryRegion>>)
    ensures r == match PvhTable(mem, addr, limit)
                 case None => None
                 case Some((table, entries)) => Some(RegionsIn(mem, table, PVH_MEMMAP_ENTRY_SIZE, entries))
  {
    hide Word32, Word64;
    if addr == 0 || addr >= limit {
      return None;
    }
    if Word32(mem, addr) != PVH_START_MAGIC {
      return None;
    }
    if Word32(mem, addr + 4) < PVH_MMAP_VERSION {
      return None;
    }
    var table, entries := Word64(mem, addr + 0x28), Word32(mem, addr + 0x30);
    if table == 0 || entries == 0 || entries > PVH_MEMMAP_MAX_ENTRIES {
      return None;
    }
    var tableBytes := entries * PVH_MEMMAP_ENTRY_SIZE;
    if table + tableBytes >= ADDRESS_LIMIT {
      return None;
    }
    if table + tableBytes > limit {
      return None;
    }
    var regions: seq<MemoryRegion> := [];
    for index := 0 to entries
      invariant regions == RegionsIn(mem, table, PVH_MEMMAP_ENTRY_SIZE, index)
    {
      var entry := table + index * PVH_MEMMAP_ENTRY_SIZE;
      var base, length, kind := Word64(mem, entry), Word64(mem, entry + 8), Word32(mem, entry + 16);
      if length > 0 {
        regions := regions + [MemoryRegion(base, length, kind)];
      } else {
        assert regions + [] == regions;
      }
    }
    return Some(regions);
  }

  // ------------------------------------------------------------ one table, two protocols

  function EntryBytes(e: MemoryRegion, stride: nat): (r: seq<u8>)
    requires stride >= 24
    ensures |r| == stride
  {
    LeBytes(e.base, 8) + LeBytes(e.length, 8) + LeBytes(e.kind, 4) + Zeros(stride - 20)
  }

  function TableBytes(entries: seq<MemoryRegion>, stride: nat): (r: seq<u8>)
    requires stride >= 24
    ensures |r| == |entries| * stride
  {
    if entries == [] then []
    else
      var n := |entries| - 1;
      assert (n + 1) * stride == n * stride + stride;
      TableBytes(entries[..n], stride) + EntryBytes(entries[n], stride)
  }

  function NonEmpty(entries: seq<MemoryRegion>): seq<MemoryRegion> {
    if entries == [] then [] else NonEmpty(entries[..|entries| - 1]) + Kept(entries[|entries| - 1])
  }

  /** Which entries of a table come back: those of non-zero length, each once and in order. */
  lemma {:induction false} NonEmptyIs(entries: seq<MemoryRegion>) returns (picks: seq<nat>)
    ensures forall i, j :: 0 <= i < j < |picks| ==> picks[i] < picks[j]
    ensures forall i: nat :: i in picks <==> i < |entries| && entries[i].length != 0
    ensures |NonEmpty(entries)| == |picks|
    ensures forall j :: 0 <= j < |picks| ==> picks[j] in picks && NonEmpty(entries)[j] == entries[picks[j]]
  {
    picks := [];
    if entries != [] {
      var n := |entries| - 1;
      picks := NonEmptyIs(entries[..n]);
      if entries[n].length != 0 {
        picks := picks + [n];
      }
    }
  }

  /** Any table in memory, entry by entry. */
  lemma {:induction false} RegionsAre(mem: Memory, at: nat, stride: nat, count: nat)
    ensures RegionsIn(mem, at, stride, count) == NonEmpty(EntriesAt(mem, at, stride, count))
  {
    hide RegionAt;
    if count > 0 {
      RegionsAre(mem, at, stride, count - 1);
      var all := EntriesAt(mem, at, stride, count);
      assert all[..count - 1] == EntriesAt(mem, at, stride, count - 1);
    }
  }

  function EntriesAt(mem: Memory, at: nat, stride: nat, count: nat): seq<MemoryRegion> {
    seq(count, i requires 0 <= i < count => RegionAt(mem, at + i * stride))
  }

  lemma HoldsEntry(mem: Memory, at: nat, e: MemoryRegion, stride: nat)
    requires stride >= 24 && Holds(mem, at, EntryBytes(e, stride))
    ensures RegionAt(mem, at) == e
  {
    hide Holds, LeBytes, Word32, Word64;
    var base, length, kind := LeBytes(e.base, 8), LeBytes(e.length, 8), LeBytes(e.kind, 4);
    HoldsParts(mem, at, base + length + kind, Zeros(stride - 20));
    HoldsParts(mem, at, base + length, kind);
    HoldsParts(mem, at, base, length);
    HoldsWord64(mem, at, e.base);
    HoldsWord64(mem, at + 8, e.length);
    HoldsWord32(mem, at + 16, e.kind);
  }

  /** A table in memory reads back as its entries, empty ones left out. */
  lemma {:induction false} TableRead(mem: Memory, at: nat, entries: seq<MemoryRegion>, stride: nat)
    requires stride >= 24 && Holds(mem, at, TableBytes(entries, stride))
    ensures RegionsIn(mem, at, stride, |entries|) == NonEmpty(entries)
    decreases |entries|
  {
    hide Holds, EntryBytes, RegionAt;
    if entries != [] {
      var n := |entries| - 1;
      HoldsParts(mem, at, TableBytes(entries[..n], stride), EntryBytes(entries[n], stride));
      TableRead(mem, at, entries[..n], stride);
      HoldsEntry(mem, at + n * stride, entries[n], stride);
    }
  }

  /** The memory-map tag's body: entry size, entry version, entries. */
  function MmapBody(entries: seq<MemoryRegion>, stride: u32): (r: seq<u8>)
    requires stride >= 24
    ensures |r| == 8 + |entries| * stride
  {
    LeBytes(stride, 4) + LeBytes(0, 4) + TableBytes(entries, stride)
  }

  /** A Multiboot2 block whose first memory map lists some entries gives exactly those, whatever
      its other tags and its entry size. */
  lemma RegionsRead(mem: Memory, addr: nat, tags: seq<Tag>, entries: seq<MemoryRegion>, stride: u32)
    requires stride >= 24 && Handed(mem, addr, tags)
    requires First(tags, MULTIBOOT2_TAG_MMAP) == Some(Tag(MULTIBOOT2_TAG_MMAP, MmapBody(entries, stride)))
    ensures RegionsOf(mem, addr) == Some(NonEmpty(entries))
  {
    hide Holds, LeBytes, Word32, TableBytes, RegionsIn, NonEmpty, FindTag, First;
    BlockFindsFirst(mem, addr, tags, MULTIBOOT2_TAG_MMAP);
    var at := FindTag(mem, addr, 8, Word32(mem, addr), MULTIBOOT2_TAG_MMAP).value + addr + 8;
    HoldsParts(mem, at, LeBytes(stride, 4) + LeBytes(0, 4), TableBytes(entries, stride));
    HoldsParts(mem, at, LeBytes(stride, 4), LeBytes(0, 4));
    HoldsWord32(mem, at, stride);
    TableRead(mem, at + 8, entries, stride);
    Quotient(|entries| * stride, stride, |entries|);
  }

  /** A block with no memory map describes nothing. */
  lemma NoRegions(mem: Memory, addr: nat, tags: seq<Tag>)
    requires Handed(mem, addr, tags) && First(tags, MULTIBOOT2_TAG_MMAP) == None
    ensures RegionsOf(mem, addr) == None
  {
    hide Holds, Word32, FindTag, First;
    BlockFindsFirst(mem, addr, tags, MULTIBOOT2_TAG_MMAP);
  }

  /** A PVH start-of-day block as the Xen project defines it. */
  datatype PvhStart = PvhStart(magic: u32, version: u32, flags: u32, modules: u32, modlist: u64, cmdline: u64,
                               rsdp: u64, memmap: u64, entries: u32)

  function PvhBytes(p: PvhStart): (r: seq<u8>)
    ensures |r| == 0x38
  {
    LeBytes(p.magic, 4) + LeBytes(p.version, 4)
    + (LeBytes(p.flags, 4) + LeBytes(p.modules, 4) + LeBytes(p.modlist, 8) + LeBytes(p.cmdline, 8) + LeBytes(p.rsdp, 8))
    + LeBytes(p.memmap, 8) + LeBytes(p.entries, 4) + LeBytes(0, 4)
  }

  /** A PVH start-of-day block lies at `addr`, and the table of entries it points at; both are
      what a loader may hand over. */
  ghost predicate PvhHanded(mem: Memory, addr: nat, limit: nat, p: PvhStart, entries: seq<MemoryRegion>) {
    && 0 < addr < limit && Holds(mem, addr, PvhBytes(p))
    && p.magic == PVH_START_MAGIC && p.version >= PVH_MMAP_VERSION && p.memmap != 0
    && p.entries == |entries| && 0 < |entries| <= PVH_MEMMAP_MAX_ENTRIES
    && p.memmap + |entries| * PVH_MEMMAP_ENTRY_SIZE <= Min(limit, MAX_U64)
    && Holds(mem, p.memmap, TableBytes(entries, PVH_MEMMAP_ENTRY_SIZE))
  }

  lemma PvhFields(mem: Memory, addr: nat, p: PvhStart)
    requires Holds(mem, addr, PvhBytes(p))
    ensures Word32(mem, addr) == p.magic && Word32(mem, addr + 4) == p.version
    ensures Word64(mem, addr + 0x28) == p.memmap && Word32(mem, addr + 0x30) == p.entries
  {
    hide Holds, LeBytes, Word32, Word64;
    var magic, version := LeBytes(p.magic, 4), LeBytes(p.version, 4);
    var middle :=
      LeBytes(p.flags, 4) + LeBytes(p.modules, 4) + LeBytes(p.modlist, 8) + LeBytes(p.cmdline, 8) + LeBytes(p.rsdp, 8);
    var table, count, rest := LeBytes(p.memmap, 8), LeBytes(p.entries, 4), LeBytes(0, 4);
    HoldsParts(mem, addr, magic + version + middle + table + count, rest);
    HoldsParts(mem, addr, magic + version + middle + table, count);
    HoldsParts(mem, addr, magic + version + middle, table);
    HoldsParts(mem, addr, magic + version, middle);
    HoldsParts(mem, addr, magic, version);
    HoldsWord32(mem, addr, p.magic);
    HoldsWord32(mem, addr + 4, p.version);
    HoldsWord64(mem, addr + 0x28, p.memmap);
    HoldsWord32(mem, addr + 0x30, p.entries);
  }

  /** Which start-of-day blocks are trusted, field by field: any other magic, version 0, a table
      at 0 or past the limit, and 0 or more than 128 entries are refused, and nothing else is. */
  lemma PvhExact(mem: Memory, addr: nat, limit: nat, p: PvhStart)
    requires Holds(mem, addr, PvhBytes(p))
    ensures PvhTable(mem, addr, limit) ==
              if && 0 < addr < limit && p.magic == 0x336e_c578 && p.version >= 1 && p.memmap != 0
                 && 1 <= p.entries <= 128 && p.memmap + 24 * p.entries <= limit
                 && p.memmap + 24 * p.entries < 0x1_0000_0000_0000_0000
              then Some((p.memmap, p.entries)) else None
  {
    hide Holds, PvhBytes, Word32, Word64;
    PvhFields(mem, addr, p);
  }

  /** The block is recognised, and its table found. */
  lemma PvhRead(mem: Memory, addr: nat, limit: nat, p: PvhStart, entries: seq<MemoryRegion>)
    requires PvhHanded(mem, addr, limit, p, entries)
    ensures PvhTable(mem, addr, limit) == Some((p.memmap, |entries|))
  {
    hide Holds, PvhBytes, TableBytes, PvhTable;
    PvhExact(mem, addr, limit, p);
  }

  /** The two protocols agree: whichever way a table of entries is handed over, the same
      regions come out. */
  method TwoProtocols(pvhMem: Memory, pvhAddr: nat, limit: nat, ghost start: PvhStart,
                      mem: Memory, addr: nat, ghost tags: seq<Tag>, ghost stride: u32,
                      ghost entries: seq<MemoryRegion>)
    returns (pvh: Option<seq<MemoryRegion>>, multiboot: Option<seq<MemoryRegion>>)
    requires PvhHanded(pvhMem, pvhAddr, limit, start, entries)
    requires stride >= 24 && Handed(mem, addr, tags)
    requires First(tags, MULTIBOOT2_TAG_MMAP) == Some(Tag(MULTIBOOT2_TAG_MMAP, MmapBody(entries, stride)))
    ensures pvh == multiboot == Some(NonEmpty(entries))
  {
    PvhRead(pvhMem, pvhAddr, limit, start, entries);
    pvh := PvhMemoryRegionsAt(pvhMem, pvhAddr, limit);
    TableRead(pvhMem, start.memmap, entries, PVH_MEMMAP_ENTRY_SIZE);
    ghost var touched;
    multiboot, touched := Multiboot2MemoryRegionsAt(mem, addr);
    RegionsRead(mem, addr, tags, entries, stride);
  }

  // ------------------------------------------------------------ the framebuffer

  function FramebufferOf(mem: Memory, addr: nat): Option<LoaderFramebuffer> {
    if addr == 0 then None
    else
      match FindTag(mem, addr, 8, Word32(mem, addr), MULTIBOOT2_TAG_FRAMEBUFFER)
      case None => None
      case Some(o) => ModeOf(mem, addr + o)
  }

  function ModeOf(mem: Memory, tag: nat): Option<LoaderFramebuffer> {
    var mode := LoaderFramebuffer(Word64(mem, tag + 8), Word32(mem, tag + 16), Word32(mem, tag + 20),
                                  Word32(mem, tag + 24), mem(tag + 28), mem(tag + 29));
    if Word32(mem, tag + 4) < 32 || !Usable(mode) then None else Some(mode)
  }

  predicate Usable(mode: LoaderFramebuffer) {
    mode.address != 0 && mode.pitch != 0 && mode.width != 0 && mode.height != 0
  }

  /** Every address the search for the framebuffer reads. */
  ghost function FramebufferReads(mem: Memory, addr: nat): set<nat> {
    if addr == 0 then {}
    else
      match FindTag(mem, addr, 8, Word32(mem, addr), MULTIBOOT2_TAG_FRAMEBUFFER)
      case None => WalkReads(mem, addr, MULTIBOOT2_TAG_FRAMEBUFFER)
      case Some(o) =>
        WalkReads(mem, addr, MULTIBOOT2_TAG_FRAMEBUFFER)
        + Span(addr + o + 8, if Word32(mem, addr + o + 4) < 32 then 0 else 22)
  }

  method Multiboot2FramebufferAt(mem: Memory, addr: nat) returns (r: Option<LoaderFramebuffer>, ghost touched: set<nat>)
    ensures r == FramebufferOf(mem, addr) && touched == FramebufferReads(mem, addr)
  {
    hide Word32, Word64, Aligned, Span;
    touched := {};
    if addr == 0 {
      return None, touched;
    }
    var totalSize := Word32(mem, addr);
    touched := Span(addr, 4);
    var offset: nat := 8;
    while offset + 8 <= totalSize
      invariant FindTag(mem, addr, offset, totalSize, MULTIBOOT2_TAG_FRAMEBUFFER)
             == FindTag(mem, addr, 8, totalSize, MULTIBOOT2_TAG_FRAMEBUFFER)
      invariant touched + HeaderReads(mem, addr, offset, totalSize, MULTIBOOT2_TAG_FRAMEBUFFER)
             == WalkReads(mem, addr, MULTIBOOT2_TAG_FRAMEBUFFER)
    {
      var tagType, tagSize := Word32(mem, addr + offset), Word32(mem, addr + offset + 4);
      touched := touched + Span(addr + offset, 8);
      if tagType == MULTIBOOT2_TAG_END || tagSize < 8 {
        return None, touched;
      }
      if tagType == MULTIBOOT2_TAG_FRAMEBUFFER {
        NoSpan(addr + offset + 8);
        if tagSize < 32 {
          return None, touched;
        }
        var address := Word64(mem, addr + offset + 8);
        var pitch := Word32(mem, addr + offset + 16);
        var width := Word32(mem, addr + offset + 20);
        var height := Word32(mem, addr + offset + 24);
        var bitsPerPixel := mem(addr + offset + 28);
        var kind := mem(addr + offset + 29);
        touched := touched + Span(addr + offset + 8, 8 + 4 + 4 + 4 + 1 + 1);
        if address == 0 || pitch == 0 || width == 0 || height == 0 {
          return None, touched;
        }
        return Some(LoaderFramebuffer(address, pitch, width, height, bitsPerPixel, kind)), touched;
      }
      offset := offset + Aligned(tagSize);
    }
    return None, touched;
  }

  lemma NoSpan(at: nat)
    ensures Span(at, 0) == {}
  {
  }

  /** The search for the framebuffer stays inside the block exactly when a tag large enough has
      its fields there. */
  lemma FramebufferInside(mem: Memory, addr: nat)
    requires addr != 0
    ensures Within(FramebufferReads(mem, addr), addr, BlockEnd(mem, addr))
       <==> match FindTag(mem, addr, 8, Word32(mem, addr), MULTIBOOT2_TAG_FRAMEBUFFER)
            case None => true
            case Some(o) => Word32(mem, addr + o + 4) < 32 || o + 30 <= Word32(mem, addr)
  {
    hide Word32, Span, FindTag, WalkReads, Within;
    WalkInside(mem, addr, MULTIBOOT2_TAG_FRAMEBUFFER);
    var at := FindTag(mem, addr, 8, Word32(mem, addr), MULTIBOOT2_TAG_FRAMEBUFFER);
    if at.Some? {
      var n := if Word32(mem, addr + at.value + 4) < 32 then 0 else 22;
      SpanWithin(addr + at.value + 8, n, addr, BlockEnd(mem, addr));
      BothWithin(WalkReads(mem, addr, MULTIBOOT2_TAG_FRAMEBUFFER), Span(addr + at.value + 8, n), addr,
                 BlockEnd(mem, addr));
    }
  }

  /** The framebuffer depends on the addresses read and on nothing else. */
  lemma SameFramebuffer(mem: Memory, other: Memory, addr: nat)
    requires Agree(mem, other, FramebufferReads(mem, addr))
    ensures FramebufferOf(other, addr) == FramebufferOf(mem, addr)
  {
    hide Word32, Word64, Span, FindTag, WalkReads, Agree, Usable;
    if addr != 0 {
      var seen := FramebufferReads(mem, addr);
      SameFind(mem, other, addr, MULTIBOOT2_TAG_FRAMEBUFFER, seen);
      var at := FindTag(mem, addr, 8, Word32(mem, addr), MULTIBOOT2_TAG_FRAMEBUFFER);
      if at.Some? && Word32(mem, addr + at.value + 4) >= 32 {
        SameMode(mem, other, addr + at.value + 8, seen);
      }
    }
  }

  lemma SameMode(mem: Memory, other: Memory, at: nat, seen: set<nat>)
    requires Agree(mem, other, seen) && Span(at, 22) <= seen
    ensures Word64(other, at) == Word64(mem, at) && Word32(other, at + 8) == Word32(mem, at + 8)
    ensures Word32(other, at + 12) == Word32(mem, at + 12) && Word32(other, at + 16) == Word32(mem, at + 16)
    ensures other(at + 20) == mem(at + 20) && other(at + 21) == mem(at + 21)
  {
    hide Word32, Word64;
    assert at + 20 in Span(at, 22) && at + 21 in Span(at, 22);
    assert Span(at, 8) <= Span(at, 22) && Span(at + 8, 8) <= Span(at, 22) && Span(at + 16, 4) <= Span(at, 22);
    SameWords(mem, other, at, 8, seen);
    SameWords(mem, other, at + 8, 8, seen);
    SameWords(mem, other, at + 16, 4, seen);
  }

  /** A block of sixteen bytes at `addr`: one tag, which says it has a hundred. */
  function ShortBytes(kind: u32): (r: seq<u8>)
    ensures |r| == 16
  {
    LeBytes(16, 4) + LeBytes(0, 4) + LeBytes(kind, 4) + LeBytes(100, 4)
  }

  /** Memory with that block, and no zero byte after it. */
  function ShortBlock(addr: nat, kind: u32): Memory {
    var bytes := ShortBytes(kind);
    (x: nat) => if addr <= x < addr + 16 then bytes[x - addr] else 24
  }

  lemma ShortHolds(addr: nat, kind: u32)
    requires kind != MULTIBOOT2_TAG_END
    ensures var mem := ShortBlock(addr, kind);
            && Word32(mem, addr) == 16 && Word32(mem, addr + 12) == 100
            && FindTag(mem, addr, 8, 16, kind) == Some(8)
  {
    hide LeBytes, Word32, Holds;
    var mem := ShortBlock(addr, kind);
    var size, zero, k, claim := LeBytes(16, 4), LeBytes(0, 4), LeBytes(kind, 4), LeBytes(100, 4);
    assert Holds(mem, addr, ShortBytes(kind)) by { ShortLies(addr, kind); }
    HoldsParts(mem, addr, size + zero + k, claim);
    HoldsParts(mem, addr, size + zero, k);
    HoldsParts(mem, addr, size, zero);
    HoldsWord32(mem, addr, 16);
    HoldsWord32(mem, addr + 8, kind);
    HoldsWord32(mem, addr + 12, 100);
  }

  lemma ShortLies(addr: nat, kind: u32)
    ensures Holds(ShortBlock(addr, kind), addr, ShortBytes(kind))
  {
    hide LeBytes;
    assert Bytes(ShortBlock(addr, kind), addr, 16) == ShortBytes(kind);
  }

  /** In such a block each search reads past the end. */
  lemma ShortBlockLeft(addr: nat)
    requires addr != 0
    ensures var mem := ShortBlock(addr, MULTIBOOT2_TAG_CMDLINE);
            !Within(CommandLineReads(mem, addr), addr, BlockEnd(mem, addr))
    ensures var mem := ShortBlock(addr, MULTIBOOT2_TAG_MMAP);
            !Within(RegionsReads(mem, addr), addr, BlockEnd(mem, addr))
    ensures var mem := ShortBlock(addr, MULTIBOOT2_TAG_FRAMEBUFFER);
            !Within(FramebufferReads(mem, addr), addr, BlockEnd(mem, addr))
  {
    hide Word32, FindTag, Within, CommandLineReads, RegionsReads, FramebufferReads, ShortBlock, BlockEnd;
    ShortHolds(addr, MULTIBOOT2_TAG_CMDLINE);
    ShortHolds(addr, MULTIBOOT2_TAG_MMAP);
    ShortHolds(addr, MULTIBOOT2_TAG_FRAMEBUFFER);
    CommandLineInside(ShortBlock(addr, MULTIBOOT2_TAG_CMDLINE), addr);
    RegionsInside(ShortBlock(addr, MULTIBOOT2_TAG_MMAP), addr);
    FramebufferInside(ShortBlock(addr, MULTIBOOT2_TAG_FRAMEBUFFER), addr);
    assert Bytes(ShortBlock(addr, MULTIBOOT2_TAG_CMDLINE), addr + 16, 0) == [];
  }

  /** In a loader's own block every search stays inside. */
  lemma HandedInside(mem: Memory, addr: nat, tags: seq<Tag>)
    requires Handed(mem, addr, tags)
    ensures Within(CommandLineReads(mem, addr), addr, BlockEnd(mem, addr))
    ensures Within(RegionsReads(mem, addr), addr, BlockEnd(mem, addr))
    ensures Within(FramebufferReads(mem, addr), addr, BlockEnd(mem, addr))
  {
    hide Word32, FindTag, First, Found, Within, CommandLineReads, RegionsReads, FramebufferReads, BlockBytes,
         ProperTags, Holds, TableEnd;
    CommandLineInside(mem, addr);
    RegionsInside(mem, addr);
    FramebufferInside(mem, addr);
    BlockFindsFirst(mem, addr, tags, MULTIBOOT2_TAG_CMDLINE);
    BlockFindsFirst(mem, addr, tags, MULTIBOOT2_TAG_MMAP);
    BlockFindsFirst(mem, addr, tags, MULTIBOOT2_TAG_FRAMEBUFFER);
    var at := FindTag(mem, addr, 8, Word32(mem, addr), MULTIBOOT2_TAG_MMAP);
    if at.Some? {
      TableEndsInTag(at.value, Word32(mem, addr + at.value + 4), Word32(mem, addr + at.value + 8));
    }
  }

  lemma TableEndsInTag(o: nat, size: nat, stride: nat)
    requires size >= 8
    ensures TableEnd(o, size, stride) <= o + size
  {
    if size >= 16 && stride >= 24 {
      CountOf(size - 16, stride);
    }
  }

  /** The framebuffer tag's body as a loader writes it. */
  function ModeBytes(mode: LoaderFramebuffer): (r: seq<u8>)
    ensures |r| == 24
  {
    LeBytes(mode.address, 8) + LeBytes(mode.pitch, 4) + LeBytes(mode.width, 4) + LeBytes(mode.height, 4)
    + [mode.bitsPerPixel, mode.kind] + [0, 0]
  }

  /** The first framebuffer tag's mode comes back, whatever the other tags, unless one of its
      fields says there is no framebuffer. */
  lemma FramebufferRead(mem: Memory, addr: nat, tags: seq<Tag>, mode: LoaderFramebuffer)
    requires Handed(mem, addr, tags)
    requires First(tags, MULTIBOOT2_TAG_FRAMEBUFFER) == Some(Tag(MULTIBOOT2_TAG_FRAMEBUFFER, ModeBytes(mode)))
    ensures FramebufferOf(mem, addr) ==
              if mode.address == 0 || mode.pitch == 0 || mode.width == 0 || mode.height == 0 then None else Some(mode)
  {
    hide Holds, LeBytes, Word32, Word64, FindTag, First;
    BlockFindsFirst(mem, addr, tags, MULTIBOOT2_TAG_FRAMEBUFFER);
    HoldsMode(mem, addr + FindTag(mem, addr, 8, Word32(mem, addr), MULTIBOOT2_TAG_FRAMEBUFFER).value + 8, mode);
  }

  lemma HoldsMode(mem: Memory, at: nat, mode: LoaderFramebuffer)
    requires Holds(mem, at, ModeBytes(mode))
    ensures Word64(mem, at) == mode.address && Word32(mem, at + 8) == mode.pitch && Word32(mem, at + 12) == mode.width
    ensures Word32(mem, at + 16) == mode.height && mem(at + 20) == mode.bitsPerPixel && mem(at + 21) == mode.kind
  {
    hide Holds, LeBytes, Word32, Word64;
    var a, p, w, h := LeBytes(mode.address, 8), LeBytes(mode.pitch, 4), LeBytes(mode.width, 4), LeBytes(mode.height, 4);
    var two := [mode.bitsPerPixel, mode.kind];
    HoldsParts(mem, at, a + p + w + h + two, [0, 0]);
    HoldsParts(mem, at, a + p + w + h, two);
    HoldsParts(mem, at, a + p + w, h);
    HoldsParts(mem, at, a + p, w);
    HoldsParts(mem, at, a, p);
    HoldsWord64(mem, at, mode.address);
    HoldsWord32(mem, at + 8, mode.pitch);
    HoldsWord32(mem, at + 12, mode.width);
    HoldsWord32(mem, at + 16, mode.height);
    HoldsTwo(mem, at + 20, mode.bitsPerPixel, mode.kind);
  }

  lemma HoldsTwo(mem: Memory, at: nat, a: u8, b: u8)
    requires Holds(mem, at, [a, b])
    ensures mem(at) == a && mem(at + 1) == b
  {
    assert Bytes(mem, at, 2)[0] == a && Bytes(mem, at, 2)[1] == b;
  }

  // ------------------------------------------------------------ the total

  /** The lengths of the regions free for the taking, added without a limit. */
  function TrueTotal(regions: seq<MemoryRegion>): nat {
    if regions == [] then 0
    else
      var n := |regions| - 1;
      TrueTotal(regions[..n]) + (if regions[n].kind == MEMORY_REGION_AVAILABLE then regions[n].length else 0)
  }

  /** Saturating at each step is the true sum capped once. */
  function AvailableBytes(regions: seq<MemoryRegion>): (r: u64)
    ensures r == Min(TrueTotal(regions), MAX_U64)
  {
    if regions == [] then 0
    else
      var n := |regions| - 1;
      var total := AvailableBytes(regions[..n]);
      if regions[n].kind == MEMORY_REGION_AVAILABLE then SaturatingAdd(total, regions[n].length) else total
  }
}
