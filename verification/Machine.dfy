/** Fixed-width integers, results, memory blits and little-endian words: the vocabulary
    every component below shares. */
module Machine {

  type u8 = x: int | 0 <= x < 0x100
  type u16 = x: int | 0 <= x < 0x1_0000
  type u32 = x: int | 0 <= x < 0x1_0000_0000
  type u64 = x: int | 0 <= x < 0x1_0000_0000_0000_0000

  /** Addresses and lengths are 64 bits wide. */
  const ADDRESS_LIMIT := 0x1_0000_0000_0000_0000
  const MAX_U64 := ADDRESS_LIMIT - 1

  datatype Option<+T> = None | Some(value: T)

  datatype Error =
    | InvalidArgument | OutOfMemory | NoSpace | Busy | TimedOut
    | DeviceError | PermissionDenied | Unsupported | NotFound

  datatype Result<+T> = Ok(value: T) | Err(error: Error)

  function Min(a: int, b: int): int { if a < b then a else b }

  function Max(a: int, b: int): int { if a < b then b else a }

  function SaturatingAdd(a: u64, b: u64): u64 { Min(a + b, MAX_U64) }

  function Zeros(n: nat): (r: seq<u8>)
    ensures |r| == n && forall i :: 0 <= i < n ==> r[i] == 0
  {
    seq(n, _ => 0)
  }

  /** A byte string as a C reader takes it. */
  function UpToNul(s: seq<u8>): (r: seq<u8>)
    ensures r <= s && 0 !in r && (r == s || s[|r|] == 0)
    ensures r == s <==> 0 !in s
  {
    if s == [] || s[0] == 0 then [] else [s[0]] + UpToNul(s[1..])
  }

  /** `mem` with `data` stored at `at`. */
  function Blit<T>(mem: seq<T>, at: nat, data: seq<T>): (r: seq<T>)
    requires at + |data| <= |mem|
    ensures |r| == |mem|
    ensures forall x :: 0 <= x < |mem| ==> r[x] == if at <= x < at + |data| then data[x - at] else mem[x]
    ensures r[at..at + |data|] == data
  {
    mem[..at] + data + mem[at + |data|..]
  }

  /** A range outside a blit keeps its bytes. */
  lemma BlitElsewhere<T>(mem: seq<T>, at: nat, data: seq<T>, lo: nat, hi: nat)
    requires at + |data| <= |mem|
    requires lo <= hi <= |mem|
    requires hi <= at || at + |data| <= lo
    ensures Blit(mem, at, data)[lo..hi] == mem[lo..hi]
  {
  }

  function Pow256(n: nat): (r: nat)
    ensures r > 0
  {
    if n == 0 then 1 else 256 * Pow256(n - 1)
  }

  /** The `n` low bytes of `value`, least significant first. */
  function LeBytes(value: nat, n: nat): (r: seq<u8>)
    ensures |r| == n
  {
    if n == 0 then [] else [value % 256] + LeBytes(value / 256, n - 1)
  }

  /** The number a little-endian byte string denotes. */
  function LeValue(bytes: seq<u8>): (r: nat)
  {
    if bytes == [] then 0 else bytes[0] + 256 * LeValue(bytes[1..])
  }

  lemma {:induction false} LeRoundTrip(value: nat, n: nat)
    requires value < Pow256(n)
    ensures LeValue(LeBytes(value, n)) == value
  {
    if n > 0 {
      LeRoundTrip(value / 256, n - 1);
      assert LeBytes(value, n)[1..] == LeBytes(value / 256, n - 1);
    }
  }

  lemma {:induction false} LeBytesOfValue(bytes: seq<u8>)
    ensures LeValue(bytes) < Pow256(|bytes|)
    ensures LeBytes(LeValue(bytes), |bytes|) == bytes
  {
    if bytes != [] {
      LeBytesOfValue(bytes[1..]);
      assert LeValue(bytes) % 256 == bytes[0];
      assert LeValue(bytes) / 256 == LeValue(bytes[1..]);
      assert bytes == [bytes[0]] + bytes[1..];
    }
  }

  lemma Pow256Values()
    ensures Pow256(4) == 0x1_0000_0000
    ensures Pow256(8) == 0x1_0000_0000_0000_0000
  {
    assert Pow256(2) == 65536;
    assert Pow256(4) == 65536 * 65536;
    assert Pow256(6) == 65536 * Pow256(4);
    assert Pow256(8) == 65536 * Pow256(6);
  }
}
