/** The paravirtual GPU command stream of src/abi/virgl.rs. */
module Virgl {
  import opened Machine

  const VIRGL_CMD_CLEAR: u32 := 1
  const VIRGL_CMD_DRAW: u32 := 2
  const VIRGL_CMD_HEADER_WORDS := 2
  const VIRGL_CLEAR_ARG_WORDS := 4
  const VIRGL_DRAW_ARG_WORDS := 5

  datatype VirglCommand = VirglCommand(commandType: u32, argCount: u32, args: seq<u32>)

  datatype VirglCommandError = TruncatedHeader | TruncatedArgs

  datatype Walked = Commands(commands: seq<VirglCommand>) | Malformed(error: VirglCommandError)

  datatype Encoded = Words(count: nat) | BufferTooSmall

  // ------------------------------------------------------------ framing

  predicate Framed(c: VirglCommand) {
    c.argCount == |c.args|
  }

  function Frame(c: VirglCommand): seq<u32> {
    [c.commandType, c.argCount] + c.args
  }

  function Flatten(commands: seq<VirglCommand>): seq<u32> {
    if commands == [] then [] else Frame(commands[0]) + Flatten(commands[1..])
  }

  ghost predicate AllFramed(commands: seq<VirglCommand>) {
    forall i :: 0 <= i < |commands| ==> Framed(commands[i])
  }

  /** Why no command starts a stream. */
  predicate Stuck(words: seq<u32>, e: VirglCommandError) {
    match e
    case TruncatedHeader => |words| == 1
    case TruncatedArgs => |words| >= VIRGL_CMD_HEADER_WORDS && VIRGL_CMD_HEADER_WORDS + words[1] > |words|
  }

  /** The meaning of a stream, without a walk: the commands it flattens from, or the commands it
      starts with and why the rest starts none. */
  ghost predicate Decodes(words: seq<u32>, r: Walked) {
    exists front: seq<VirglCommand>, rest: seq<u32> :: DecodesInto(words, front, rest, r)
  }

  ghost predicate DecodesInto(words: seq<u32>, front: seq<VirglCommand>, rest: seq<u32>, r: Walked) {
    && AllFramed(front)
    && words == Flatten(front) + rest
    && match r
       case Commands(commands) => commands == front && rest == []
       case Malformed(e) => Stuck(rest, e)
  }

  lemma Associates<T>(a: seq<T>, b: seq<T>, c: seq<T>)
    ensures a + (b + c) == (a + b) + c
  {
  }

  lemma {:induction false} FlattenJoin(a: seq<VirglCommand>, b: seq<VirglCommand>)
    ensures Flatten(a + b) == Flatten(a) + Flatten(b)
  {
    if a == [] {
      assert a + b == b;
    } else {
      FlattenJoin(a[1..], b);
      assert (a + b)[1..] == a[1..] + b;
      Associates(Frame(a[0]), Flatten(a[1..]), Flatten(b));
    }
  }

  /** Two framings of one stream go the same way as long as both go on. */
  lemma {:induction false} FramingUnique(a: seq<VirglCommand>, b: seq<VirglCommand>, x: seq<u32>, y: seq<u32>)
    requires AllFramed(a) && AllFramed(b) && |a| <= |b|
    requires Flatten(a) + x == Flatten(b) + y
    ensures a == b[..|a|] && x == Flatten(b[|a|..]) + y
  {
    if a != [] {
      FirstFrame(a, x);
      FirstFrame(b, y);
      FramingUnique(a[1..], b[1..], x, y);
      assert b[1..][..|a| - 1] == b[1..|a|] && b[1..][|a| - 1..] == b[|a|..];
      assert a == [a[0]] + a[1..] && b[..|a|] == [b[0]] + b[1..|a|];
    } else {
      assert b[0..] == b;
    }
  }

  /** A stream that starts with a framed command gives that command away. */
  lemma FirstFrame(a: seq<VirglCommand>, x: seq<u32>)
    requires a != [] && Framed(a[0])
    ensures var w := Flatten(a) + x;
            && |w| >= VIRGL_CMD_HEADER_WORDS + |a[0].args|
            && w[0] == a[0].commandType && w[1] == |a[0].args|
            && w[VIRGL_CMD_HEADER_WORDS..VIRGL_CMD_HEADER_WORDS + w[1]] == a[0].args
            && w[VIRGL_CMD_HEADER_WORDS + w[1]..] == Flatten(a[1..]) + x
  {
    assert Flatten(a) + x == Frame(a[0]) + (Flatten(a[1..]) + x);
  }

  lemma DecodesOnceInOrder(words: seq<u32>, r: Walked, s: Walked,
                           a: seq<VirglCommand>, x: seq<u32>, b: seq<VirglCommand>, y: seq<u32>)
    requires DecodesInto(words, a, x, r) && DecodesInto(words, b, y, s) && |a| <= |b|
    ensures r == s
  {
    FramingUnique(a, b, x, y);
    if |a| < |b| {
      FirstFrame(b[|a|..], y);
    } else {
      assert b[|a|..] == [];
    }
  }

  /** Every stream has at most one meaning; in particular a rejected one has no framing. */
  lemma DecodesOnce(words: seq<u32>, r: Walked, s: Walked)
    requires Decodes(words, r) && Decodes(words, s)
    ensures r == s
  {
    hide DecodesInto;
    var a: seq<VirglCommand>, x: seq<u32> :| DecodesInto(words, a, x, r);
    var b: seq<VirglCommand>, y: seq<u32> :| DecodesInto(words, b, y, s);
    if |a| <= |b| {
      DecodesOnceInOrder(words, r, s, a, x, b, y);
    } else {
      DecodesOnceInOrder(words, s, r, b, y, a, x);
    }
  }

  /** A framed list is what its flattening decodes to. */
  lemma FlatDecodes(commands: seq<VirglCommand>)
    requires AllFramed(commands)
    ensures Decodes(Flatten(commands), Commands(commands))
  {
    assert DecodesInto(Flatten(commands), commands, [], Commands(commands));
  }

  function After(front: seq<VirglCommand>, r: Walked): Walked {
    match r
    case Commands(commands) => Commands(front + commands)
    case Malformed(_) => r
  }

  /** Behind an accepted stream, any stream decodes as it would alone. */
  lemma DecodesBehind(front: seq<VirglCommand>, words: seq<u32>, r: Walked)
    requires AllFramed(front) && Decodes(words, r)
    ensures Decodes(Flatten(front) + words, After(front, r))
  {
    hide Flatten, Stuck;
    var a: seq<VirglCommand>, x: seq<u32> :| DecodesInto(words, a, x, r);
    FlattenJoin(front, a);
    assert Flatten(front) + words == Flatten(front + a) + x;
    assert DecodesInto(Flatten(front) + words, front + a, x, After(front, r));
  }

  /** A stream is accepted with commands that flatten back to it, or rejected when it has no
      framing, for the reason its unframed rest gives. */
  method WalkCommands(words: seq<u32>) returns (r: Walked)
    ensures Decodes(words, r)
    ensures r.Commands? ==> AllFramed(r.commands) && Flatten(r.commands) == words
    ensures r.Malformed? ==> !exists commands :: AllFramed(commands) && Flatten(commands) == words
  {
    var commands: seq<VirglCommand> := [];
    var index := 0;
    while index < |words|
      invariant index <= |words| && AllFramed(commands)
      invariant Flatten(commands) == words[..index]
    {
      assert words == Flatten(commands) + words[index..];
      if |words| - index < VIRGL_CMD_HEADER_WORDS {
        r := Malformed(TruncatedHeader);
        Rejected(words, commands, words[index..], TruncatedHeader);
        return;
      }
      var commandType := words[index];
      var argCount := words[index + 1];
      var end := index + VIRGL_CMD_HEADER_WORDS + argCount;
      if end > |words| {
        r := Malformed(TruncatedArgs);
        Rejected(words, commands, words[index..], TruncatedArgs);
        return;
      }
      var c := VirglCommand(commandType, argCount, words[index + VIRGL_CMD_HEADER_WORDS..end]);
      OneMore(commands, c, words, index);
      commands := commands + [c];
      index := end;
    }
    assert words[..index] == words;
    FlatDecodes(commands);
    r := Commands(commands);
  }

  lemma OneMore(commands: seq<VirglCommand>, c: VirglCommand, words: seq<u32>, index: nat)
    requires index + VIRGL_CMD_HEADER_WORDS + |c.args| <= |words|
    requires Flatten(commands) == words[..index]
    requires Frame(c) == words[index..index + VIRGL_CMD_HEADER_WORDS + |c.args|]
    ensures Flatten(commands + [c]) == words[..index + VIRGL_CMD_HEADER_WORDS + |c.args|]
  {
    FlattenJoin(commands, [c]);
    assert Flatten([c]) == Frame(c) + [] == Frame(c);
  }

  lemma Rejected(words: seq<u32>, front: seq<VirglCommand>, rest: seq<u32>, e: VirglCommandError)
    requires AllFramed(front) && words == Flatten(front) + rest && Stuck(rest, e)
    ensures Decodes(words, Malformed(e))
    ensures !exists commands :: AllFramed(commands) && Flatten(commands) == words
  {
    assert DecodesInto(words, front, rest, Malformed(e));
    forall commands | AllFramed(commands) && Flatten(commands) == words
      ensures false
    {
      FlatDecodes(commands);
      DecodesOnce(words, Malformed(e), Commands(commands));
    }
  }

  // ------------------------------------------------------------ encoders

  /** What the encoders are asked for. */
  datatype Op =
    | Clear(color: seq<u32>)
    | Draw(numVertices: u32, vertexStart: u32, mode: u32, instanceCount: u32)

  predicate WellFormed(op: Op) {
    op.Clear? ==> |op.color| == VIRGL_CLEAR_ARG_WORDS
  }

  function CommandOf(op: Op): VirglCommand {
    match op
    case Clear(color) => VirglCommand(VIRGL_CMD_CLEAR, VIRGL_CLEAR_ARG_WORDS, color)
    case Draw(n, start, mode, instances) =>
      VirglCommand(VIRGL_CMD_DRAW, VIRGL_DRAW_ARG_WORDS, [n, start, mode, instances, 0])
  }

  method EncodeClear(buffer: array<u32>, at: nat, color: seq<u32>) returns (r: Encoded)
    requires at <= buffer.Length && |color| == VIRGL_CLEAR_ARG_WORDS
    modifies buffer
    ensures Wrote(old(buffer[..]), buffer[..], at, Frame(CommandOf(Clear(color))), r)
  {
    var used := VIRGL_CMD_HEADER_WORDS + VIRGL_CLEAR_ARG_WORDS;
    if buffer.Length - at < used {
      return BufferTooSmall;
    }
    buffer[at] := VIRGL_CMD_CLEAR;
    buffer[at + 1] := VIRGL_CLEAR_ARG_WORDS;
    forall i | 0 <= i < VIRGL_CLEAR_ARG_WORDS {
      buffer[at + 2 + i] := color[i];
    }
    return Words(used);
  }

  method EncodeDraw(buffer: array<u32>, at: nat, numVertices: u32, vertexStart: u32, mode: u32, instanceCount: u32)
    returns (r: Encoded)
    requires at <= buffer.Length
    modifies buffer
    ensures Wrote(old(buffer[..]), buffer[..], at,
                  Frame(CommandOf(Draw(numVertices, vertexStart, mode, instanceCount))), r)
  {
    var used := VIRGL_CMD_HEADER_WORDS + VIRGL_DRAW_ARG_WORDS;
    if buffer.Length - at < used {
      return BufferTooSmall;
    }
    buffer[at] := VIRGL_CMD_DRAW;
    buffer[at + 1] := VIRGL_DRAW_ARG_WORDS;
    buffer[at + 2] := numVertices;
    buffer[at + 3] := vertexStart;
    buffer[at + 4] := mode;
    buffer[at + 5] := instanceCount;
    buffer[at + 6] := 0;
    return Words(used);
  }

  /** The words went in whole at `at` and nothing else changed, or they had no room. */
  predicate Wrote(before: seq<u32>, after: seq<u32>, at: nat, words: seq<u32>, r: Encoded) {
    if at + |words| <= |before|
    then r == Words(|words|) && after == Blit(before, at, words)
    else r == BufferTooSmall && after == before
  }

  // ------------------------------------------------------------ bytes

  function BytesOf(words: seq<u32>): (r: seq<u8>)
    ensures |r| == 4 * |words|
  {
    if words == [] then [] else BytesOf(words[..|words| - 1]) + LeBytes(words[|words| - 1], 4)
  }

  /** The words a byte string holds, the ragged end dropped. */
  function WordsOf(bytes: seq<u8>): (r: seq<u32>)
    ensures |r| == |bytes| / 4
    decreases |bytes|
  {
    if |bytes| < 4 then []
    else
      var n := |bytes| / 4 - 1;
      WordsOf(bytes[..4 * n]) + [WordAt(bytes, n)]
  }

  function WordAt(bytes: seq<u8>, i: nat): u32
    requires 4 * i + 4 <= |bytes|
  {
    Pow256Values();
    LeBytesOfValue(bytes[4 * i..4 * i + 4]);
    LeValue(bytes[4 * i..4 * i + 4])
  }

  method WordsToLeBytes(words: seq<u32>, out: array<u8>) returns (n: nat)
    modifies out
    ensures n == 4 * Min(|words|, out.Length / 4)
    ensures out[..] == Blit(old(out[..]), 0, BytesOf(words[..n / 4]))
  {
    hide Blit, LeBytes;
    var wordCount := Min(|words|, out.Length / 4);
    assert Blit(out[..], 0, BytesOf(words[..0])) == out[..];
    hide BytesOf;
    var index := 0;
    while index < wordCount
      invariant index <= wordCount
      invariant out[..] == Blit(old(out[..]), 0, BytesOf(words[..index]))
    {
      OneMoreBlit(old(out[..]), words, index);
      StoreWord(out, 4 * index, LeBytes(words[index], 4));
      index := index + 1;
    }
    n := 4 * wordCount;
  }

  method StoreWord(out: array<u8>, at: nat, word: seq<u8>)
    requires |word| == 4 && at + 4 <= out.Length
    modifies out
    ensures out[..] == Blit(old(out[..]), at, word)
  {
    out[at], out[at + 1], out[at + 2], out[at + 3] := word[0], word[1], word[2], word[3];
  }

  lemma OneMoreBlit(before: seq<u8>, words: seq<u32>, i: nat)
    requires i < |words| && 4 * i + 4 <= |before|
    ensures Blit(Blit(before, 0, BytesOf(words[..i])), 4 * i, LeBytes(words[i], 4))
         == Blit(before, 0, BytesOf(words[..i + 1]))
  {
    hide LeBytes;
    assert words[..i + 1][..i] == words[..i];
    assert words[..i + 1][i] == words[i];
  }

  method LeBytesToWords(bytes: seq<u8>, out: array<u32>) returns (n: nat)
    modifies out
    ensures n == Min(|bytes| / 4, out.Length)
    ensures out[..] == Blit(old(out[..]), 0, WordsOf(bytes[..4 * n]))
  {
    hide Blit, WordAt;
    n := Min(|bytes| / 4, out.Length);
    assert Blit(out[..], 0, WordsOf(bytes[..0])) == out[..];
    hide WordsOf;
    var index := 0;
    while index < n
      invariant index <= n
      invariant out[..] == Blit(old(out[..]), 0, WordsOf(bytes[..4 * index]))
    {
      OneMoreWord(bytes, index);
      OneMoreStore(old(out[..]), WordsOf(bytes[..4 * index]), WordAt(bytes, index));
      out[index] := WordAt(bytes, index);
      index := index + 1;
    }
  }

  lemma OneMoreStore(before: seq<u32>, words: seq<u32>, w: u32)
    requires |words| < |before|
    ensures Blit(before, 0, words)[|words| := w] == Blit(before, 0, words + [w])
  {
    hide Blit;
  }

  lemma OneMoreWord(bytes: seq<u8>, i: nat)
    requires 4 * i + 4 <= |bytes|
    ensures WordsOf(bytes[..4 * (i + 1)]) == WordsOf(bytes[..4 * i]) + [WordAt(bytes, i)]
  {
    var head := bytes[..4 * (i + 1)];
    assert head[..4 * i] == bytes[..4 * i] && head[4 * i..4 * i + 4] == bytes[4 * i..4 * i + 4];
    assert WordAt(head, i) == WordAt(bytes, i);
  }

  lemma {:induction false} WordsRoundTrip(words: seq<u32>)
    ensures WordsOf(BytesOf(words)) == words
  {
    hide LeBytes, LeValue, Pow256, WordsOf;
    if words != [] {
      var n := |words| - 1;
      var bytes := BytesOf(words);
      WordsRoundTrip(words[..n]);
      assert bytes[..4 * n] == BytesOf(words[..n]) && bytes[4 * n..4 * n + 4] == LeBytes(words[n], 4);
      Pow256Values();
      LeRoundTrip(words[n], 4);
      OneMoreWord(bytes, n);
      assert bytes[..4 * (n + 1)] == bytes;
      assert words == words[..n] + [words[n]];
    }
  }

  lemma {:induction false} BytesRoundTrip(bytes: seq<u8>)
    requires |bytes| % 4 == 0
    ensures BytesOf(WordsOf(bytes)) == bytes
    decreases |bytes|
  {
    hide LeBytes, LeValue, Pow256, WordsOf;
    if bytes != [] {
      var n := |bytes| / 4 - 1;
      BytesRoundTrip(bytes[..4 * n]);
      OneMoreWord(bytes, n);
      assert bytes[..4 * (n + 1)] == bytes;
      var front := WordsOf(bytes[..4 * n]);
      assert (front + [WordAt(bytes, n)])[..n] == front;
      LeBytesOfValue(bytes[4 * n..4 * n + 4]);
      assert bytes == bytes[..4 * n] + bytes[4 * n..4 * n + 4];
    }
  }

  // ------------------------------------------------------------ end to end

  ghost predicate AllWellFormed(ops: seq<Op>) {
    forall i :: 0 <= i < |ops| ==> WellFormed(ops[i])
  }

  function CommandsOf(ops: seq<Op>): seq<VirglCommand> {
    seq(|ops|, i requires 0 <= i < |ops| => CommandOf(ops[i]))
  }

  /** What a decoded command asks for. */
  function OpOf(c: VirglCommand): Option<Op> {
    if c.commandType == VIRGL_CMD_CLEAR && |c.args| == VIRGL_CLEAR_ARG_WORDS then Some(Clear(c.args))
    else if c.commandType == VIRGL_CMD_DRAW && |c.args| == VIRGL_DRAW_ARG_WORDS
    then Some(Draw(c.args[0], c.args[1], c.args[2], c.args[3]))
    else None
  }

  /** Encode each operation behind the last, send the words as bytes, and decode what arrives:
      every operation comes out, in order, and none other, whenever the buffer has room. */
  method SendAndDecode(ops: seq<Op>, buffer: array<u32>) returns (r: Option<Walked>)
    requires AllWellFormed(ops)
    modifies buffer
    ensures r.None? <==> |Flatten(CommandsOf(ops))| > buffer.Length
    ensures r.Some? ==> r.value == Commands(CommandsOf(ops))
    ensures r.Some? ==> forall i :: 0 <= i < |ops| ==> OpOf(r.value.commands[i]) == Some(ops[i])
  {
    var used := EncodeAll(ops, buffer);
    if used.None? {
      return None;
    }
    var stream := buffer[..used.value];
    var received := OverTheWire(stream);
    var walked := WalkCommands(received);
    FlatDecodes(CommandsOf(ops));
    DecodesOnce(stream, walked, Commands(CommandsOf(ops)));
    r := Some(walked);
  }

  method OverTheWire(words: seq<u32>) returns (received: seq<u32>)
    ensures received == words
  {
    var wire := new u8[4 * |words|];
    var sent := WordsToLeBytes(words, wire);
    assert words[..sent / 4] == words;
    assert wire[..] == BytesOf(words);
    var out := new u32[|words|];
    var count := LeBytesToWords(wire[..], out);
    assert wire[..][..4 * count] == wire[..];
    WordsRoundTrip(words);
    received := out[..];
  }

  method EncodeAll(ops: seq<Op>, buffer: array<u32>) returns (used: Option<nat>)
    requires AllWellFormed(ops)
    modifies buffer
    ensures used.None? <==> |Flatten(CommandsOf(ops))| > buffer.Length
    ensures used.Some? ==> used.value <= buffer.Length && buffer[..used.value] == Flatten(CommandsOf(ops))
  {
    var at: nat := 0;
    var i := 0;
    while i < |ops|
      invariant i <= |ops| && at <= buffer.Length
      invariant buffer[..at] == Flatten(CommandsOf(ops[..i]))
    {
      NextOp(ops, i);
      ghost var before := buffer[..];
      var r: Encoded;
      match ops[i] {
        case Clear(color) => r := EncodeClear(buffer, at, color);
        case Draw(n, start, mode, instances) => r := EncodeDraw(buffer, at, n, start, mode, instances);
      }
      if r.BufferTooSmall? {
        FlattenPrefix(ops, i + 1);
        return None;
      }
      assert buffer[..at + r.count] == before[..at] + Frame(CommandOf(ops[i]));
      at := at + r.count;
      i := i + 1;
    }
    assert ops[..i] == ops;
    used := Some(at);
  }

  lemma NextOp(ops: seq<Op>, i: nat)
    requires i < |ops|
    ensures Flatten(CommandsOf(ops[..i + 1])) == Flatten(CommandsOf(ops[..i])) + Frame(CommandOf(ops[i]))
  {
    assert CommandsOf(ops[..i + 1]) == CommandsOf(ops[..i]) + [CommandOf(ops[i])];
    FlattenJoin(CommandsOf(ops[..i]), [CommandOf(ops[i])]);
    assert Flatten([CommandOf(ops[i])]) == Frame(CommandOf(ops[i])) + [];
  }

  lemma FlattenPrefix(ops: seq<Op>, i: nat)
    requires i <= |ops|
    ensures |Flatten(CommandsOf(ops[..i]))| <= |Flatten(CommandsOf(ops))|
  {
    assert CommandsOf(ops) == CommandsOf(ops[..i]) + CommandsOf(ops[i..]);
    FlattenJoin(CommandsOf(ops[..i]), CommandsOf(ops[i..]));
  }
}
