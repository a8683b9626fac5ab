/** The initial user stack of src/arch/user_loader.rs, and the C runtime that reads it back. */
module UserStack {
  import opened Machine

  const WORD := 8
  const AUXV_AT_NULL := 0

  type Bytes = seq<u8>
  type Auxv = seq<(u64, u64)>

  // ------------------------------------------------------------ the layout

  /** Strings one after another, each with its terminator. */
  function CStrings(values: seq<Bytes>): (r: Bytes) {
    if values == [] then [] else values[0] + [0] + CStrings(values[1..])
  }

  /** Where each of them starts, the first at `base`. */
  function Addresses(values: seq<Bytes>, base: nat): (r: seq<nat>)
    ensures |r| == |values|
  {
    if values == [] then [] else [base] + Addresses(values[1..], base + |values[0]| + 1)
  }

  function AuxWords(auxv: Auxv): (r: seq<nat>)
    ensures |r| == 2 * |auxv|
  {
    if auxv == [] then [] else [auxv[0].0, auxv[0].1] + AuxWords(auxv[1..])
  }

  /** Words as little-endian bytes. */
  function WordBytes(words: seq<nat>): (r: Bytes)
    ensures |r| == WORD * |words|
  {
    if words == [] then [] else LeBytes(words[0], WORD) + WordBytes(words[1..])
  }

  /** The last multiple of sixteen up to `value`. */
  function AlignDown16(value: nat): (r: nat)
    ensures r % 16 == 0 && r <= value < r + 16
  {
    value - value % 16
  }

  /** The environment lies below the arguments, and both below the top. */
  function ArgumentsBase(top: nat, args: seq<Bytes>): int { top - |CStrings(args)| }
  function StringsBase(top: nat, args: seq<Bytes>, env: seq<Bytes>): int {
    ArgumentsBase(top, args) - |CStrings(env)|
  }

  function MetadataSize(args: seq<Bytes>, env: seq<Bytes>, auxv: Auxv): (r: nat) {
    (1 + |args| + 1 + |env| + 1 + 2 * |auxv| + 2) * WORD
  }

  /** The aligned layout fits between `bottom` and `top`. */
  predicate Fits(bottom: nat, top: nat, args: seq<Bytes>, env: seq<Bytes>, auxv: Auxv) {
    var below := StringsBase(top, args, env) - MetadataSize(args, env, auxv);
    below >= 0 && AlignDown16(below) >= bottom
  }

  function FinalPointer(top: nat, args: seq<Bytes>, env: seq<Bytes>, auxv: Auxv): (r: nat)
    requires Fits(0, top, args, env, auxv)
  {
    AlignDown16(StringsBase(top, args, env) - MetadataSize(args, env, auxv))
  }

  /** argc, argv, NULL, envp, NULL, auxv, AT_NULL. */
  function Metadata(argv: seq<nat>, envp: seq<nat>, auxv: Auxv): (r: seq<nat>)
    ensures |r| == |argv| + |envp| + 2 * |auxv| + 5
  {
    [|argv|] + argv + [0] + envp + [0] + AuxWords(auxv) + [AUXV_AT_NULL, 0]
  }

  /** The whole stack: metadata, alignment padding, environment strings, argument strings. */
  function Image(top: nat, args: seq<Bytes>, env: seq<Bytes>, auxv: Auxv): (r: Bytes)
    requires Fits(0, top, args, env, auxv)
    ensures |r| == top - FinalPointer(top, args, env, auxv)
  {
    var mid := StringsBase(top, args, env);
    var gap := mid - FinalPointer(top, args, env, auxv) - MetadataSize(args, env, auxv);
    var words := Metadata(Addresses(args, ArgumentsBase(top, args)), Addresses(env, mid), auxv);
    WordBytes(words) + Zeros(gap) + (CStrings(env) + CStrings(args))
  }

  // ------------------------------------------------------------ recorded writes

  datatype Write = Write(address: nat, data: Bytes)

  ghost predicate Within(writes: seq<Write>, lo: nat, hi: nat) {
    forall i :: 0 <= i < |writes| ==> lo <= writes[i].address && writes[i].address + |writes[i].data| <= hi
  }

  /** Every write lies in `lo..hi`, and no two overlap. */
  ghost predicate Separate(writes: seq<Write>, lo: nat, hi: nat) {
    && Within(writes, lo, hi)
    && (forall i, j :: 0 <= i < j < |writes| ==>
          || writes[i].address + |writes[i].data| <= writes[j].address
          || writes[j].address + |writes[j].data| <= writes[i].address)
  }

  /** Zeroed memory `lo..hi` after the writes, in order. */
  ghost function Render(writes: seq<Write>, lo: nat, hi: nat): (r: Bytes)
    requires lo <= hi && Within(writes, lo, hi)
    ensures |r| == hi - lo
  {
    if writes == [] then Zeros(hi - lo)
    else
      var n := |writes| - 1;
      Blit(Render(writes[..n], lo, hi), writes[n].address - lo, writes[n].data)
  }

  /** Memory below the writes is zero. */
  lemma {:induction false} RenderBelow(writes: seq<Write>, lo: nat, mid: nat, hi: nat)
    requires lo <= mid <= hi && Within(writes, mid, hi)
    ensures Within(writes, lo, hi)
    ensures Render(writes, lo, hi) == Zeros(mid - lo) + Render(writes, mid, hi)
  {
    hide Blit;
    var zeros := Zeros(mid - lo);
    if writes == [] {
      assert Zeros(hi - lo) == zeros + Zeros(hi - mid);
    } else {
      var n := |writes| - 1;
      var w, low := writes[n], Render(writes[..n], mid, hi);
      RenderBelow(writes[..n], lo, mid, hi);
      BlitShift(zeros, low, w.address - mid, w.data);
      RenderLast(writes, lo, hi);
      RenderLast(writes, mid, hi);
      hide Render;
    }
  }

  lemma RenderLast(writes: seq<Write>, lo: nat, hi: nat)
    requires lo <= hi && Within(writes, lo, hi) && writes != []
    ensures var n := |writes| - 1;
            Render(writes, lo, hi) == Blit(Render(writes[..n], lo, hi), writes[n].address - lo, writes[n].data)
  {
  }

  lemma BlitShift(front: Bytes, back: Bytes, at: nat, data: Bytes)
    requires at + |data| <= |back|
    ensures Blit(front + back, |front| + at, data) == front + Blit(back, at, data)
  {
    var a, b := Blit(front + back, |front| + at, data), front + Blit(back, at, data);
    assert forall x :: 0 <= x < |a| ==> a[x] == b[x];
  }

  /** The writes make up `content` between `lo` and `hi`. */
  ghost predicate Paints(writes: seq<Write>, lo: nat, hi: nat, content: Bytes) {
    lo <= hi && Separate(writes, lo, hi) && Render(writes, lo, hi) == content
  }

  lemma RenderAppend(writes: seq<Write>, w: Write, lo: nat, hi: nat)
    requires lo <= hi && Within(writes, lo, hi) && lo <= w.address && w.address + |w.data| <= hi
    ensures Within(writes + [w], lo, hi)
    ensures Render(writes + [w], lo, hi) == Blit(Render(writes, lo, hi), w.address - lo, w.data)
  {
    var all := writes + [w];
    assert all[..|writes|] == writes;
  }

  /** A write that touches none of the others joins them. */
  lemma SeparateAppend(writes: seq<Write>, w: Write, lo: nat, hi: nat)
    requires Separate(writes, lo, hi) && lo <= w.address && w.address + |w.data| <= hi
    requires Leaves(writes, w.address, |w.data|)
    ensures Separate(writes + [w], lo, hi)
  {
  }

  lemma SeparateBelow(writes: seq<Write>, lo: nat, mid: nat, hi: nat)
    requires Separate(writes, mid, hi) && lo <= mid
    ensures Separate(writes, lo, hi) && Leaves(writes, lo, mid - lo)
  {
  }

  /** One more piece, directly below. */
  lemma PaintBelow(writes: seq<Write>, lo: nat, hi: nat, content: Bytes, piece: Bytes)
    requires Paints(writes, lo, hi, content) && |piece| <= lo
    ensures Paints(writes + [Write(lo - |piece|, piece)], lo - |piece|, hi, piece + content)
  {
    hide Render, Blit, Within, Leaves, Zeros;
    var w, from := Write(lo - |piece|, piece), lo - |piece|;
    SeparateBelow(writes, from, lo, hi);
    SeparateAppend(writes, w, from, hi);
    RenderAppend(writes, w, from, hi);
    RenderBelow(writes, from, lo, hi);
    BlitFront(|piece|, content, piece);
  }

  lemma BlitFront(n: nat, content: Bytes, piece: Bytes)
    requires |piece| == n
    ensures Blit(Zeros(n) + content, 0, piece) == piece + content
  {
  }

  /** One more word, into a gap of zeros. */
  lemma PaintGap(writes: seq<Write>, lo: nat, hi: nat, front: Bytes, gap: nat, back: Bytes, piece: Bytes)
    requires Separate(writes, lo, hi) && lo <= hi && Render(writes, lo, hi) == front + Zeros(gap) + back
    requires |piece| <= gap && Leaves(writes, lo + |front|, gap)
    ensures var all := writes + [Write(lo + |front|, piece)];
            && Paints(all, lo, hi, front + piece + Zeros(gap - |piece|) + back)
            && Leaves(all, lo + |front| + |piece|, gap - |piece|)
  {
    hide Render, Blit, Within, Zeros, Leaves;
    var w := Write(lo + |front|, piece);
    assert |front| + gap + |back| == hi - lo;
    LeavesPart(writes, lo + |front|, gap, piece);
    SeparateAppend(writes, w, lo, hi);
    RenderAppend(writes, w, lo, hi);
    BlitGap(front, gap, back, piece);
  }

  lemma LeavesPart(writes: seq<Write>, at: nat, n: nat, piece: Bytes)
    requires Leaves(writes, at, n) && |piece| <= n
    ensures Leaves(writes, at, |piece|)
    ensures Leaves(writes + [Write(at, piece)], at + |piece|, n - |piece|)
  {
  }

  lemma BlitGap(front: Bytes, gap: nat, back: Bytes, piece: Bytes)
    requires |piece| <= gap
    ensures Blit(front + Zeros(gap) + back, |front|, piece) == front + piece + Zeros(gap - |piece|) + back
  {
  }

  /** No write touches `at..at + n`. */
  ghost predicate Leaves(writes: seq<Write>, at: nat, n: nat) {
    forall i :: 0 <= i < |writes| ==> writes[i].address + |writes[i].data| <= at || at + n <= writes[i].address
  }

  // ------------------------------------------------------------ building

  /** Push strings downwards, last first, and answer where each one went, in caller order. */
  method PushCStrings(top: nat, values: seq<Bytes>, writes: seq<Write>, ghost hi: nat, ghost content: Bytes)
    returns (ok: bool, pointer: nat, written: seq<Write>, addresses: seq<nat>)
    requires Paints(writes, top, hi, content)
    ensures ok <==> |CStrings(values)| <= top
    ensures ok ==>
              && pointer == top - |CStrings(values)|
              && addresses == Addresses(values, pointer)
              && Paints(written, pointer, hi, CStrings(values) + content)
  {
    hide Paints;
    pointer, written, addresses := top, writes, [];
    assert CStrings([]) + content == content;
    var i := |values|;
    assert values[i..] == [];
    while i > 0
      invariant 0 <= i <= |values|
      invariant |CStrings(values[i..])| <= top && pointer == top - |CStrings(values[i..])|
      invariant addresses == Addresses(values[i..], pointer)
      invariant Paints(written, pointer, hi, CStrings(values[i..]) + content)
    {
      i := i - 1;
      assert values[i..][1..] == values[i + 1..];
      var bytes := values[i] + [0];
      if pointer < |bytes| {
        Suffix(values, i);
        return false, pointer, written, addresses;
      }
      PaintBelow(written, pointer, hi, CStrings(values[i + 1..]) + content, bytes);
      assert bytes + (CStrings(values[i + 1..]) + content) == CStrings(values[i..]) + content;
      pointer := pointer - |bytes|;
      written := written + [Write(pointer, bytes)];
      addresses := [pointer] + addresses;
    }
    assert values[0..] == values;
    ok := true;
  }

  lemma {:induction false} Suffix(values: seq<Bytes>, i: nat)
    requires i <= |values|
    ensures |CStrings(values[i..])| <= |CStrings(values)|
  {
    if i > 0 {
      Suffix(values[1..], i - 1);
      assert values[1..][i - 1..] == values[i..];
    } else {
      assert values[0..] == values;
    }
  }

  /** Words written upwards from `lo`, a gap of zeros, then the strings. */
  ghost predicate Filling(writes: seq<Write>, lo: nat, hi: nat, words: seq<nat>, gap: nat, back: Bytes) {
    && Paints(writes, lo, hi, WordBytes(words) + Zeros(gap) + back)
    && Leaves(writes, lo + WORD * |words|, gap)
  }

  lemma {:induction false} WordBytesAppend(words: seq<nat>, w: nat)
    ensures WordBytes(words + [w]) == WordBytes(words) + LeBytes(w, WORD)
  {
    if words != [] {
      WordBytesAppend(words[1..], w);
      assert (words + [w])[1..] == words[1..] + [w];
    }
  }

  lemma FillOne(writes: seq<Write>, lo: nat, hi: nat, words: seq<nat>, gap: nat, back: Bytes, w: nat)
    requires Filling(writes, lo, hi, words, gap, back) && gap >= WORD
    ensures Filling(writes + [Write(lo + WORD * |words|, LeBytes(w, WORD))], lo, hi, words + [w], gap - WORD, back)
  {
    hide WordBytes, LeBytes, Separate, Leaves, Render, Zeros;
    WordBytesAppend(words, w);
    PaintGap(writes, lo, hi, WordBytes(words), gap, back, LeBytes(w, WORD));
  }

  /** Record one word and advance the cursor, unless the address space ends there. */
  method WriteU64StackEntry(writes: seq<Write>, cursor: nat, value: nat)
    returns (ok: bool, written: seq<Write>, next: nat)
    ensures written == writes + [Write(cursor, LeBytes(value, WORD))]
    ensures ok <==> cursor + WORD < ADDRESS_LIMIT
    ensures ok ==> next == cursor + WORD
  {
    written := writes + [Write(cursor, LeBytes(value, WORD))];
    next := cursor + WORD;
    ok := next < ADDRESS_LIMIT;
  }

  /** Record a list of words in order. */
  method WriteEntries(writes: seq<Write>, cursor: nat, values: seq<nat>,
                      ghost lo: nat, ghost hi: nat, ghost words: seq<nat>, ghost gap: nat, ghost back: Bytes)
    returns (ok: bool, written: seq<Write>, next: nat)
    requires Filling(writes, lo, hi, words, gap, back) && cursor == lo + WORD * |words|
    requires WORD * |values| <= gap && hi < ADDRESS_LIMIT && cursor + gap <= hi
    ensures ok && next == cursor + WORD * |values|
    ensures Filling(written, lo, hi, words + values, gap - WORD * |values|, back)
  {
    hide Filling;
    written, next, ok := writes, cursor, true;
    assert words + values[..0] == words;
    for i := 0 to |values|
      invariant ok && next == cursor + WORD * i
      invariant Filling(written, lo, hi, words + values[..i], gap - WORD * i, back)
    {
      FillOne(written, lo, hi, words + values[..i], gap - WORD * i, back, values[i]);
      ok, written, next := WriteU64StackEntry(written, next, values[i]);
      assert words + values[..i] + [values[i]] == words + values[..i + 1];
    }
    assert values[..|values|] == values;
  }

  /** argc, argv, NULL, envp, NULL, auxv, AT_NULL: written in that order from `lo`. */
  method WriteMetadata(writes: seq<Write>, lo: nat, argv: seq<nat>, envp: seq<nat>, auxv: Auxv,
                       ghost mid: nat, ghost hi: nat, ghost back: Bytes)
    returns (written: seq<Write>)
    requires Paints(writes, mid, hi, back) && hi < ADDRESS_LIMIT
    requires lo + WORD * (|argv| + |envp| + 2 * |auxv| + 5) <= mid
    ensures var words := Metadata(argv, envp, auxv);
            Paints(written, lo, hi, WordBytes(words) + Zeros(mid - lo - WORD * |words|) + back)
  {
    hide Filling, Paints, Separate;
    StartFilling(writes, lo, mid, hi, back);
    var ok, cursor;
    ghost var gap := mid - lo;
    ok, written, cursor := WriteEntries(writes, lo, [|argv|], lo, hi, [], gap, back);
    assert [] + [|argv|] == [|argv|];
    ghost var words := [|argv|];
    ok, written, cursor := WriteEntries(written, cursor, argv, lo, hi, words, gap - WORD * |words|, back);
    words := words + argv;
    ok, written, cursor := WriteEntries(written, cursor, [0], lo, hi, words, gap - WORD * |words|, back);
    words := words + [0];
    ok, written, cursor := WriteEntries(written, cursor, envp, lo, hi, words, gap - WORD * |words|, back);
    words := words + envp;
    ok, written, cursor := WriteEntries(written, cursor, [0], lo, hi, words, gap - WORD * |words|, back);
    words := words + [0];
    ok, written, cursor := WriteEntries(written, cursor, AuxWords(auxv), lo, hi, words, gap - WORD * |words|, back);
    words := words + AuxWords(auxv);
    ok, written, cursor := WriteEntries(written, cursor, [AUXV_AT_NULL, 0], lo, hi, words, gap - WORD * |words|, back);
    FillingPaints(written, lo, hi, words + [AUXV_AT_NULL, 0], gap - WORD * (|words| + 2), back);
  }

  lemma StartFilling(writes: seq<Write>, lo: nat, mid: nat, hi: nat, back: Bytes)
    requires Paints(writes, mid, hi, back) && lo <= mid
    ensures Filling(writes, lo, hi, [], mid - lo, back) && mid <= hi
  {
    hide Render, Within, Leaves, Zeros;
    SeparateBelow(writes, lo, mid, hi);
    RenderBelow(writes, lo, mid, hi);
    assert WordBytes([]) == [];
    assert [] + Zeros(mid - lo) + back == Zeros(mid - lo) + back;
  }

  lemma FillingPaints(writes: seq<Write>, lo: nat, hi: nat, words: seq<nat>, gap: nat, back: Bytes)
    requires Filling(writes, lo, hi, words, gap, back)
    ensures Paints(writes, lo, hi, WordBytes(words) + Zeros(gap) + back)
  {
  }

  lemma NothingPainted(at: nat)
    ensures Paints([], at, at, [])
  {
  }

  lemma PaintedIs(writes: seq<Write>, lo: nat, hi: nat, content: Bytes)
    requires Paints(writes, lo, hi, content)
    ensures lo <= hi && Within(writes, lo, hi) && Separate(writes, lo, hi) && Render(writes, lo, hi) == content
  {
  }

  datatype PreparedStack = PreparedStack(pointer: nat, bytes: Bytes)

  /** Lay the recorded writes into a zeroed buffer. */
  method LayOut(writes: seq<Write>, lo: nat, hi: nat) returns (bytes: Bytes)
    requires lo <= hi && Within(writes, lo, hi)
    ensures bytes == Render(writes, lo, hi)
  {
    bytes := Zeros(hi - lo);
    for i := 0 to |writes|
      invariant bytes == Render(writes[..i], lo, hi)
    {
      var start := writes[i].address - lo;
      assert writes[..i + 1][..i] == writes[..i];
      bytes := Blit(bytes, start, writes[i].data);
    }
    assert writes[..|writes|] == writes;
  }

  /** Build the stack.  It fails exactly when the aligned layout does not fit; otherwise the
      bytes are the image, the pointer is 16-byte aligned and not below `bottom`, and the
      writes that made it up are disjoint and inside `pointer..top`. */
  method BuildInitialUserStack(bottom: nat, top: nat, args: seq<Bytes>, env: seq<Bytes>, auxv: Auxv)
    returns (r: Result<PreparedStack>, ghost writes: seq<Write>)
    requires top < ADDRESS_LIMIT
    ensures r.Ok? <==> Fits(bottom, top, args, env, auxv)
    ensures r.Err? ==> r == Err(OutOfMemory)
    ensures r.Ok? ==>
              && Fits(0, top, args, env, auxv)
              && r.value == PreparedStack(FinalPointer(top, args, env, auxv), Image(top, args, env, auxv))
              && r.value.pointer % 16 == 0 && bottom <= r.value.pointer
              && Separate(writes, r.value.pointer, top)
  {
    hide Paints, Filling, Separate, CStrings, Addresses, Image, Metadata, FinalPointer;
    writes := [];
    NothingPainted(top);
    var ok, pointer, recorded, argAddresses := PushCStrings(top, args, [], top, []);
    if !ok {
      return Err(OutOfMemory), writes;
    }
    assert CStrings(args) + [] == CStrings(args);
    var envAddresses;
    ok, pointer, recorded, envAddresses := PushCStrings(pointer, env, recorded, top, CStrings(args));
    if !ok {
      return Err(OutOfMemory), writes;
    }
    var slots := 1 + |argAddresses| + 1 + |envAddresses| + 1 + |auxv| * 2 + 2;
    var size := slots * WORD;
    if slots >= ADDRESS_LIMIT || size >= ADDRESS_LIMIT || pointer < size {
      return Err(OutOfMemory), writes;
    }
    var final := AlignDown16(pointer - size);
    if final < bottom {
      return Err(OutOfMemory), writes;
    }
    recorded := WriteMetadata(recorded, final, argAddresses, envAddresses, auxv, pointer, top,
                              CStrings(env) + CStrings(args));
    writes := recorded;
    ImageIs(top, args, env, auxv);
    PaintedIs(recorded, final, top, Image(top, args, env, auxv));
    var bytes := LayOut(recorded, final, top);
    return Ok(PreparedStack(final, bytes)), writes;
  }

  lemma ImageIs(top: nat, args: seq<Bytes>, env: seq<Bytes>, auxv: Auxv)
    requires Fits(0, top, args, env, auxv)
    ensures var mid, size := StringsBase(top, args, env), MetadataSize(args, env, auxv);
            var lo := AlignDown16(mid - size);
            && FinalPointer(top, args, env, auxv) == lo && lo % 16 == 0
            && var words := Metadata(Addresses(args, mid + |CStrings(env)|), Addresses(env, mid), auxv);
               Image(top, args, env, auxv)
               == WordBytes(words) + Zeros(mid - lo - WORD * |words|) + (CStrings(env) + CStrings(args))
  {
    hide CStrings, Addresses, WordBytes, AuxWords, Zeros, Metadata;
  }

  // ------------------------------------------------------------ the C runtime's side

  /** The word at an offset; an unreadable one reads as 0. */
  function WordAt(mem: Bytes, at: nat): (r: nat) {
    if at + WORD <= |mem| then LeValue(mem[at..at + WORD]) else 0
  }

  /** A string at an offset, up to its terminator. */
  function CStringAt(mem: Bytes, at: nat): (r: Bytes)
    decreases |mem| - at
  {
    if at >= |mem| || mem[at] == 0 then [] else [mem[at]] + CStringAt(mem, at + 1)
  }

  function Pointers(mem: Bytes, at: nat, n: nat): (r: seq<nat>)
    ensures |r| == n
    decreases n
  {
    if n == 0 then [] else [WordAt(mem, at)] + Pointers(mem, at + WORD, n - 1)
  }

  /** Pointers up to the NULL. */
  function PointersToNull(mem: Bytes, at: nat): (r: seq<nat>)
    decreases |mem| - at
  {
    if at + WORD > |mem| || WordAt(mem, at) == 0 then [] else [WordAt(mem, at)] + PointersToNull(mem, at + WORD)
  }

  /** Auxiliary entries up to AT_NULL. */
  function AuxvAt(mem: Bytes, at: nat): (r: seq<(nat, nat)>)
    decreases |mem| - at
  {
    if at + WORD > |mem| || WordAt(mem, at) == AUXV_AT_NULL then []
    else [(WordAt(mem, at), WordAt(mem, at + WORD))] + AuxvAt(mem, at + 2 * WORD)
  }

  /** The strings a list of pointers names, in a memory that starts at `origin`. */
  function Follow(mem: Bytes, origin: nat, pointers: seq<nat>): (r: seq<Bytes>) {
    if pointers == [] then []
    else
      [if pointers[0] < origin then [] else CStringAt(mem, pointers[0] - origin)]
      + Follow(mem, origin, pointers[1..])
  }

  datatype ProcessStart = ProcessStart(args: seq<Bytes>, env: seq<Bytes>, auxv: seq<(nat, nat)>)

  /** What a C runtime makes of the memory at its stack pointer (section 3.4.1 of the System V
      AMD64 ABI). */
  function Startup(pointer: nat, mem: Bytes): ProcessStart {
    var argc := WordAt(mem, 0);
    var argv := Pointers(mem, WORD, argc);
    var envAt := WORD * (argc + 2);
    var envp := PointersToNull(mem, envAt);
    ProcessStart(Follow(mem, pointer, argv), Follow(mem, pointer, envp), AuxvAt(mem, envAt + WORD * (|envp| + 1)))
  }

  /** What survives of a string, and of an auxiliary vector: what precedes the first
      terminator. */
  function AllUpToNul(values: seq<Bytes>): (r: seq<Bytes>)
    ensures |r| == |values|
    ensures r == values <==> forall i :: 0 <= i < |values| ==> 0 !in values[i]
  {
    if values == [] then [] else
      assert values == [values[0]] + values[1..];
      [UpToNul(values[0])] + AllUpToNul(values[1..])
  }

  function UpToAtNull(auxv: Auxv): (r: seq<(nat, nat)>)
    ensures r == auxv <==> forall i :: 0 <= i < |auxv| ==> auxv[i].0 != AUXV_AT_NULL
  {
    if auxv == [] || auxv[0].0 == AUXV_AT_NULL then [] else
      assert auxv == [auxv[0]] + auxv[1..];
      [auxv[0]] + UpToAtNull(auxv[1..])
  }

  // ------------------------------------------------------------ reading back

  lemma {:induction false} WordInBytes(words: seq<nat>, rest: Bytes, k: nat)
    requires k < |words| && words[k] < ADDRESS_LIMIT
    ensures WordAt(WordBytes(words) + rest, WORD * k) == words[k]
  {
    var mem := WordBytes(words) + rest;
    if k == 0 {
      Pow256Values();
      LeRoundTrip(words[0], WORD);
      assert mem[0..WORD] == LeBytes(words[0], WORD);
    } else {
      WordInBytes(words[1..], rest, k - 1);
      var tail := WordBytes(words[1..]) + rest;
      assert mem == LeBytes(words[0], WORD) + tail;
      assert mem[WORD * k..WORD * k + WORD] == tail[WORD * (k - 1)..WORD * (k - 1) + WORD];
    }
  }

  lemma {:induction false} PointersRead(words: seq<nat>, rest: Bytes, k: nat, part: seq<nat>)
    requires k + |part| <= |words| && words[k..k + |part|] == part
    requires forall i :: 0 <= i < |part| ==> part[i] < ADDRESS_LIMIT
    ensures Pointers(WordBytes(words) + rest, WORD * k, |part|) == part
    decreases |part|
  {
    if part != [] {
      assert words[k] == part[0] && words[k + 1..k + |part|] == part[1..];
      WordInBytes(words, rest, k);
      PointersRead(words, rest, k + 1, part[1..]);
    }
  }

  lemma {:induction false} PointersToNullRead(words: seq<nat>, rest: Bytes, k: nat, part: seq<nat>)
    requires k + |part| < |words| && words[k..k + |part|] == part && words[k + |part|] == 0
    requires forall i :: 0 <= i < |part| ==> 0 < part[i] < ADDRESS_LIMIT
    ensures PointersToNull(WordBytes(words) + rest, WORD * k) == part
    decreases |part|
  {
    if part == [] {
      WordInBytes(words, rest, k);
    } else {
      assert words[k] == part[0] && words[k + 1..k + |part|] == part[1..];
      WordInBytes(words, rest, k);
      PointersToNullRead(words, rest, k + 1, part[1..]);
    }
  }

  lemma {:induction false} AuxvRead(words: seq<nat>, rest: Bytes, k: nat, auxv: Auxv)
    requires k + 2 * |auxv| + 2 <= |words| && words[k + 2 * |auxv|] == AUXV_AT_NULL
    requires words[k..k + 2 * |auxv|] == AuxWords(auxv)
    ensures AuxvAt(WordBytes(words) + rest, WORD * k) == UpToAtNull(auxv)
    decreases |auxv|
  {
    if auxv == [] {
      WordInBytes(words, rest, k);
    } else {
      assert words[k..k + 2 * |auxv|][0] == words[k] && words[k..k + 2 * |auxv|][1] == words[k + 1];
      WordInBytes(words, rest, k);
      WordInBytes(words, rest, k + 1);
      assert words[k + 2..k + 2 * |auxv|] == words[k..k + 2 * |auxv|][2..];
      assert AuxWords(auxv)[2..] == AuxWords(auxv[1..]);
      AuxvRead(words, rest, k + 2, auxv[1..]);
    }
  }

  lemma {:induction false} CStringRead(front: Bytes, value: Bytes, tail: Bytes)
    ensures CStringAt(front + value + [0] + tail, |front|) == UpToNul(value)
    decreases |value|
  {
    var mem := front + value + [0] + tail;
    if value != [] && value[0] != 0 {
      var front' := front + [value[0]];
      CStringRead(front', value[1..], tail);
      assert front' + value[1..] + [0] + tail == mem;
    }
  }

  lemma {:induction false} FollowRead(mem: Bytes, front: Bytes, values: seq<Bytes>, tail: Bytes, origin: nat)
    requires mem == front + CStrings(values) + tail
    ensures Follow(mem, origin, Addresses(values, origin + |front|)) == AllUpToNul(values)
    decreases |values|
  {
    if values != [] {
      hide CStrings;
      var front' := front + values[0] + [0];
      FirstString(front, values, tail);
      CStringRead(front, values[0], CStrings(values[1..]) + tail);
      FollowRead(mem, front', values[1..], tail, origin);
      var addresses := Addresses(values, origin + |front|);
      assert addresses[1..] == Addresses(values[1..], origin + |front'|);
    }
  }

  lemma FirstString(front: Bytes, values: seq<Bytes>, tail: Bytes)
    requires values != []
    ensures front + CStrings(values) + tail == front + values[0] + [0] + (CStrings(values[1..]) + tail)
    ensures front + CStrings(values) + tail == front + values[0] + [0] + CStrings(values[1..]) + tail
  {
  }

  lemma {:induction false} AddressBounds(values: seq<Bytes>, base: nat)
    ensures forall i :: 0 <= i < |values| ==> base <= Addresses(values, base)[i] < base + |CStrings(values)|
  {
    if values != [] {
      AddressBounds(values[1..], base + |values[0]| + 1);
    }
  }

  /** The round trip, exactly: a C runtime finds the arguments, the environment and the
      auxiliary vector it was given, each up to its first terminator; so it finds all of them
      unchanged if and only if no string holds a NUL and no entry has the key AT_NULL. */
  lemma StackRoundTrip(top: nat, args: seq<Bytes>, env: seq<Bytes>, auxv: Auxv)
    requires Fits(0, top, args, env, auxv) && top < ADDRESS_LIMIT
    ensures var start := Startup(FinalPointer(top, args, env, auxv), Image(top, args, env, auxv));
            && start == ProcessStart(AllUpToNul(args), AllUpToNul(env), UpToAtNull(auxv))
            && (start == ProcessStart(args, env, auxv) <==>
                  && (forall i :: 0 <= i < |args| ==> 0 !in args[i])
                  && (forall i :: 0 <= i < |env| ==> 0 !in env[i])
                  && (forall i :: 0 <= i < |auxv| ==> auxv[i].0 != AUXV_AT_NULL))
  {
    hide *;
    StackRead(top, args, env, auxv);
  }

  lemma StackRead(top: nat, args: seq<Bytes>, env: seq<Bytes>, auxv: Auxv)
    requires Fits(0, top, args, env, auxv) && top < ADDRESS_LIMIT
    ensures Startup(FinalPointer(top, args, env, auxv), Image(top, args, env, auxv))
         == ProcessStart(AllUpToNul(args), AllUpToNul(env), UpToAtNull(auxv))
  {
    hide CStrings, Addresses, AuxWords, WordBytes, Startup, AllUpToNul, UpToAtNull, Zeros, Image, Metadata,
         FinalPointer, LaidOut;
    var mid, size := StringsBase(top, args, env), MetadataSize(args, env, auxv);
    var lo, above := AlignDown16(mid - size), mid + |CStrings(env)|;
    var argv, envp := Addresses(args, above), Addresses(env, mid);
    ImageIs(top, args, env, auxv);
    PointerBounds(args, above, env, mid, top);
    WordsLaidOut(argv, envp, auxv);
    var words := Metadata(argv, envp, auxv);
    assert |words| * WORD == size;
    var pad := Zeros(mid - lo - size);
    assert lo + WORD * |words| + |pad| == mid;
    StartupRead(words, argv, envp, pad, args, env, auxv, lo);
  }

  lemma PointerBounds(args: seq<Bytes>, above: nat, env: seq<Bytes>, mid: nat, top: nat)
    requires 0 < mid && mid + |CStrings(env)| == above && above + |CStrings(args)| == top < ADDRESS_LIMIT
    ensures forall i :: 0 <= i < |args| ==> Addresses(args, above)[i] < ADDRESS_LIMIT
    ensures forall i :: 0 <= i < |env| ==> 0 < Addresses(env, mid)[i] < ADDRESS_LIMIT
  {
    hide CStrings, Addresses;
    AddressBounds(args, above);
    AddressBounds(env, mid);
  }

  lemma StartupRead(words: seq<nat>, argv: seq<nat>, envp: seq<nat>, pad: Bytes,
                    args: seq<Bytes>, env: seq<Bytes>, auxv: Auxv, origin: nat)
    requires LaidOut(words, argv, envp, auxv) && |argv| < ADDRESS_LIMIT
    requires (forall i :: 0 <= i < |argv| ==> argv[i] < ADDRESS_LIMIT)
    requires (forall i :: 0 <= i < |envp| ==> 0 < envp[i] < ADDRESS_LIMIT)
    requires var base := origin + WORD * |words| + |pad|;
             envp == Addresses(env, base) && argv == Addresses(args, base + |CStrings(env)|)
    ensures Startup(origin, WordBytes(words) + pad + (CStrings(env) + CStrings(args)))
         == ProcessStart(AllUpToNul(args), AllUpToNul(env), UpToAtNull(auxv))
  {
    hide CStrings, Addresses, AuxWords, WordBytes, Pointers, PointersToNull, AuxvAt, Follow, WordAt, AllUpToNul,
         UpToAtNull, LaidOut;
    var rest := CStrings(env) + CStrings(args);
    MetadataRead(words, argv, envp, auxv, pad + rest);
    assert WordBytes(words) + pad + rest == WordBytes(words) + (pad + rest);
    StringsRead(WordBytes(words) + pad, env, args, origin);
  }

  /** Where the parts of the metadata are. */
  ghost predicate LaidOut(words: seq<nat>, argv: seq<nat>, envp: seq<nat>, auxv: Auxv) {
    var e := |argv| + 2;
    var x := e + |envp| + 1;
    && |words| == x + 2 * |auxv| + 2
    && words[0] == |argv| && words[1..1 + |argv|] == argv
    && words[e..e + |envp|] == envp && words[e + |envp|] == 0
    && words[x..x + 2 * |auxv|] == AuxWords(auxv) && words[x + 2 * |auxv|] == AUXV_AT_NULL
  }

  lemma WordsLaidOut(argv: seq<nat>, envp: seq<nat>, auxv: Auxv)
    ensures LaidOut(Metadata(argv, envp, auxv), argv, envp, auxv)
  {
    hide AuxWords;
    var a := [|argv|] + argv + [0];
    var b := a + envp + [0];
    var words := b + AuxWords(auxv) + [AUXV_AT_NULL, 0];
    assert words[..|b|] == b && b[..|a|] == a;
    assert words[1..1 + |argv|] == a[1..1 + |argv|] == argv;
    assert words[|a|..|a| + |envp|] == b[|a|..|a| + |envp|] == envp;
    assert words[|b|..|b| + 2 * |auxv|] == AuxWords(auxv);
  }

  lemma MetadataRead(words: seq<nat>, argv: seq<nat>, envp: seq<nat>, auxv: Auxv, rest: Bytes)
    requires LaidOut(words, argv, envp, auxv) && |argv| < ADDRESS_LIMIT
    requires (forall i :: 0 <= i < |argv| ==> argv[i] < ADDRESS_LIMIT)
    requires (forall i :: 0 <= i < |envp| ==> 0 < envp[i] < ADDRESS_LIMIT)
    ensures var mem := WordBytes(words) + rest;
            && WordAt(mem, 0) == |argv|
            && Pointers(mem, WORD, |argv|) == argv
            && PointersToNull(mem, WORD * (|argv| + 2)) == envp
            && AuxvAt(mem, WORD * (|argv| + 2) + WORD * (|envp| + 1)) == UpToAtNull(auxv)
  {
    hide LaidOut, WordBytes, Pointers, PointersToNull, AuxvAt, WordAt, UpToAtNull;
    ArgvRead(words, argv, envp, auxv, rest);
    EnvpRead(words, argv, envp, auxv, rest);
    AuxRead(words, argv, envp, auxv, rest);
  }

  lemma ArgvRead(words: seq<nat>, argv: seq<nat>, envp: seq<nat>, auxv: Auxv, rest: Bytes)
    requires LaidOut(words, argv, envp, auxv) && |argv| < ADDRESS_LIMIT
    requires (forall i :: 0 <= i < |argv| ==> argv[i] < ADDRESS_LIMIT)
    ensures WordAt(WordBytes(words) + rest, 0) == |argv|
    ensures Pointers(WordBytes(words) + rest, WORD, |argv|) == argv
  {
    hide AuxWords, WordBytes, Pointers, WordAt;
    WordInBytes(words, rest, 0);
    PointersRead(words, rest, 1, argv);
  }

  lemma EnvpRead(words: seq<nat>, argv: seq<nat>, envp: seq<nat>, auxv: Auxv, rest: Bytes)
    requires LaidOut(words, argv, envp, auxv)
    requires (forall i :: 0 <= i < |envp| ==> 0 < envp[i] < ADDRESS_LIMIT)
    ensures PointersToNull(WordBytes(words) + rest, WORD * (|argv| + 2)) == envp
  {
    hide AuxWords, WordBytes, PointersToNull;
    PointersToNullRead(words, rest, |argv| + 2, envp);
  }

  lemma AuxRead(words: seq<nat>, argv: seq<nat>, envp: seq<nat>, auxv: Auxv, rest: Bytes)
    requires LaidOut(words, argv, envp, auxv)
    ensures AuxvAt(WordBytes(words) + rest, WORD * (|argv| + 2) + WORD * (|envp| + 1)) == UpToAtNull(auxv)
  {
    hide AuxWords, WordBytes, AuxvAt, UpToAtNull;
    AuxvRead(words, rest, |argv| + |envp| + 3, auxv);
  }

  lemma StringsRead(front: Bytes, env: seq<Bytes>, args: seq<Bytes>, origin: nat)
    ensures var mem, base := front + (CStrings(env) + CStrings(args)), origin + |front|;
            && Follow(mem, origin, Addresses(env, base)) == AllUpToNul(env)
            && Follow(mem, origin, Addresses(args, base + |CStrings(env)|)) == AllUpToNul(args)
  {
    hide CStrings, Addresses, Follow, AllUpToNul;
    var mem := front + (CStrings(env) + CStrings(args));
    assert mem == front + CStrings(env) + CStrings(args);
    FollowRead(mem, front, env, CStrings(args), origin);
    assert mem == (front + CStrings(env)) + CStrings(args) + [];
    FollowRead(mem, front + CStrings(env), args, [], origin);
  }
}
