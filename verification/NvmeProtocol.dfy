/** The NVMe wire format (src/drivers/nvme_protocol.rs): submission entries as sixteen
    words, completion status words, and the PRP pair that describes a run to the device. */
module NvmeProtocol {
  import opened Machine

  /** How often a caller looks for its completion before it gives up. */
  const COMPLETION_POLL_LIMIT := 1_000_000
  const SQE_WORDS := 16
  const NVME_PAGE_SIZE := 4096
  const QUEUE_ENTRIES := 64
  /** What `lba_size` answers for every namespace. */
  const BLOCK_SIZE := 512
  /** Bytes one queued request may cover: two physically contiguous frames. */
  const RUN_BYTES := 2 * NVME_PAGE_SIZE

  const NVM_FLUSH: u8 := 0x00
  const NVM_WRITE: u8 := 0x01
  const NVM_READ: u8 := 0x02

  // ------------------------------------------------------------ submission entries

  /** A 64-bit value stored as two words, low word first. */
  function Wide(lo: u32, hi: u32): (r: u64) { lo + 0x1_0000_0000 * hi }

  /** What a controller reads out of the sixteen words of an entry. */
  datatype Command = Command(
    opcode: u8, cid: u16, nsid: u32, prp1: u64, prp2: u64,
    cdw10: u32, cdw11: u32, cdw12: u32)
  {
    /** The 64-bit starting block, split over two words. */
    function Slba(): (r: u64) { Wide(cdw10, cdw11) }

    /** The block count, which the wire counts from zero. */
    function Blocks(): (r: nat) { cdw12 % 0x1_0000 + 1 }
  }

  type Words = w: seq<u32> | |w| == SQE_WORDS witness seq(SQE_WORDS, _ => 0)

  function Decode(raw: Words): Command {
    Command(raw[0] % 0x100, raw[0] / 0x1_0000, raw[1],
            Wide(raw[6], raw[7]), Wide(raw[8], raw[9]),
            raw[10], raw[11], raw[12])
  }

  lemma ByteOf(q: nat, r: u8)
    ensures (q * 0x100 + r) % 0x100 == r && (q * 0x100 + r) / 0x100 == q
  {
  }

  lemma HalfOf(q: nat, r: u16)
    ensures (q * 0x1_0000 + r) / 0x1_0000 == q
  {
  }

  /** Replacing the low byte of a word leaves its upper half, and the other way round. */
  lemma LowByte(w: u32, b: u8)
    ensures 0 <= w - w % 0x100 + b < 0x1_0000_0000
    ensures (w - w % 0x100 + b) % 0x100 == b && (w - w % 0x100 + b) / 0x1_0000 == w / 0x1_0000
  {
    var upper, rest := w / 0x100 / 0x100, w / 0x100 % 0x100;
    ByteOf(w / 0x100, b);
    HalfOf(upper, rest * 0x100 + b);
    HalfOf(upper, rest * 0x100 + w % 0x100);
  }

  lemma UpperHalf(w: u32, id: u16)
    ensures 0 <= w % 0x1_0000 + id * 0x1_0000 < 0x1_0000_0000
    ensures (w % 0x1_0000 + id * 0x1_0000) / 0x1_0000 == id
    ensures (w % 0x1_0000 + id * 0x1_0000) % 0x100 == w % 0x100
  {
    var upper, low := w / 0x1_0000, w % 0x1_0000;
    HalfOf(id, low);
    ByteOf(id * 0x100 + low / 0x100, low % 0x100);
    ByteOf(upper * 0x100 + low / 0x100, low % 0x100);
  }

  lemma ZeroEntry(raw: Words)
    requires forall i :: 0 <= i < SQE_WORDS ==> raw[i] == 0
    ensures Decode(raw) == Command(0, 0, 0, 0, 0, 0, 0, 0)
  {
    assert raw[0] == 0 && raw[1] == 0 && raw[10] == 0 && raw[11] == 0 && raw[12] == 0;
    assert raw[6] == 0 && raw[7] == 0 && raw[8] == 0 && raw[9] == 0;
  }

  /** A submission entry under construction.  Every setter is a lens: the field it names
      decodes to the new value, and every other field decodes as before. */
  class NvmeSqe {
    var raw: Words

    constructor Zeroed()
      ensures Decode(raw) == Command(0, 0, 0, 0, 0, 0, 0, 0)
    {
      raw := seq(SQE_WORDS, _ => 0);
      new;
      ZeroEntry(raw);
    }

    method SetOpcode(opcode: u8)
      modifies this
      ensures Decode(raw) == Decode(old(raw)).(opcode := opcode)
    {
      LowByte(raw[0], opcode);
      raw := raw[0 := raw[0] - raw[0] % 0x100 + opcode];
    }

    method SetNsid(nsid: u32)
      modifies this
      ensures Decode(raw) == Decode(old(raw)).(nsid := nsid)
    {
      raw := raw[1 := nsid];
    }

    method SetCommandId(id: u16)
      modifies this
      ensures Decode(raw) == Decode(old(raw)).(cid := id)
    {
      UpperHalf(raw[0], id);
      raw := raw[0 := raw[0] % 0x1_0000 + id * 0x1_0000];
    }

    method SetPrp1(prp1: u64)
      modifies this
      ensures Decode(raw) == Decode(old(raw)).(prp1 := prp1)
    {
      raw := raw[6 := prp1 % 0x1_0000_0000][7 := prp1 / 0x1_0000_0000];
    }

    method SetPrp2(prp2: u64)
      modifies this
      ensures Decode(raw) == Decode(old(raw)).(prp2 := prp2)
    {
      raw := raw[8 := prp2 % 0x1_0000_0000][9 := prp2 / 0x1_0000_0000];
    }

    method SetCdw(dw10: u32, dw11: u32, dw12: u32)
      modifies this
      ensures Decode(raw) == Decode(old(raw)).(cdw10 := dw10, cdw11 := dw11, cdw12 := dw12)
    {
      raw := raw[10 := dw10][11 := dw11][12 := dw12];
    }
  }

  /** The entry for one run: the controller recovers the 64-bit block address from the two
      words it was split over, and the block count from its zero-based field. */
  method RunSqe(opcode: u8, nsid: u32, cid: u16, lba: u64, blocks: u32, prp1: u64, prp2: u64)
    returns (words: Words)
    requires 1 <= blocks <= 0x1_0000
    ensures var c := Decode(words);
            && c.opcode == opcode && c.nsid == nsid && c.cid == cid
            && c.prp1 == prp1 && c.prp2 == prp2
            && c.Slba() == lba && c.Blocks() == blocks
  {
    var sqe := new NvmeSqe.Zeroed();
    sqe.SetOpcode(opcode);
    sqe.SetNsid(nsid);
    sqe.SetCommandId(cid);
    sqe.SetPrp1(prp1);
    sqe.SetPrp2(prp2);
    sqe.SetCdw(lba % 0x1_0000_0000, lba / 0x1_0000_0000, (blocks - 1) % 0x1_0000);
    words := sqe.raw;
  }

  // ------------------------------------------------------------ completion entries

  datatype Cqe = Cqe(dw0: u32, sqHead: u16, sqId: u16, commandId: u16, status: u16)
  {
    /** The phase tag, bit 0 of the status word. */
    predicate Phase() { status % 2 != 0 }

    function StatusCode(): (r: u16) { status / 2 % 0x8000 }

    predicate IsSuccess() { StatusCode() == 0 }
  }

  /** The status word a controller posts for a 15-bit status and a phase tag. */
  function StatusWord(code: nat, phase: bool): (r: u16)
    requires code < 0x8000
    ensures forall dw0: u32, h: u16, q: u16, c: u16 ::
              var e := Cqe(dw0, h, q, c, r);
              e.StatusCode() == code && e.Phase() == phase && (e.IsSuccess() <==> code == 0)
  {
    2 * code + (if phase then 1 else 0)
  }

  // ------------------------------------------------------------ PRP pairs

  function RunPrp(base: nat, bytes: nat): (r: (nat, nat)) {
    (base, if bytes > NVME_PAGE_SIZE then base + NVME_PAGE_SIZE else 0)
  }

  /** Bytes the first PRP entry covers: up to the end of the page it points into. */
  function FirstPage(prp1: nat): (r: nat)
    ensures 1 <= r <= NVME_PAGE_SIZE
  {
    NVME_PAGE_SIZE - prp1 % NVME_PAGE_SIZE
  }

  /** Where the device finds byte `i` of a transfer a PRP pair describes (section 4.3 of
      NVM Express 1.0). */
  function PrpAddress(prp1: nat, prp2: nat, i: nat): nat {
    if i < FirstPage(prp1) then prp1 + i else prp2 + (i - FirstPage(prp1))
  }

  /** The pair describes the contiguous run `base..base + bytes` without a PRP list. */
  ghost predicate Describes(prp: (nat, nat), base: nat, bytes: nat) {
    && bytes <= FirstPage(prp.0) + NVME_PAGE_SIZE
    && forall i: nat :: i < bytes ==> PrpAddress(prp.0, prp.1, i) == base + i
  }

  /** Exactly which runs `run_prp` describes: those inside one page, and page-aligned ones
      of at most two pages.  A run no longer than a page leaves the second entry 0. */
  lemma RunPrpDescribes(base: nat, bytes: nat)
    ensures Describes(RunPrp(base, bytes), base, bytes)
       <==> (bytes <= FirstPage(base) || (base % NVME_PAGE_SIZE == 0 && bytes <= RUN_BYTES))
    ensures bytes <= NVME_PAGE_SIZE ==> RunPrp(base, bytes).1 == 0
  {
    var prp := RunPrp(base, bytes);
    var first := FirstPage(base);
    if bytes > first {
      assert PrpAddress(prp.0, prp.1, first) == prp.1;
      if base % NVME_PAGE_SIZE != 0 {
        assert prp.1 != base + first;
      }
    }
  }

  /** The transfer stays inside `size` bytes of memory and needs no PRP list. */
  predicate PrpInside(prp1: nat, prp2: nat, bytes: nat, size: nat) {
    && bytes <= FirstPage(prp1) + NVME_PAGE_SIZE
    && prp1 + Min(bytes, FirstPage(prp1)) <= size
    && (bytes > FirstPage(prp1) ==> prp2 + bytes - FirstPage(prp1) <= size)
  }

  /** The bytes the device reads out of memory for a transfer to the medium. */
  function Gather(ram: seq<u8>, prp1: nat, prp2: nat, bytes: nat): (r: seq<u8>)
    requires PrpInside(prp1, prp2, bytes, |ram|)
    ensures |r| == bytes
    ensures forall i: nat :: i < bytes ==> r[i] == ram[PrpAddress(prp1, prp2, i)]
  {
    var first := FirstPage(prp1);
    if bytes <= first then ram[prp1..prp1 + bytes]
    else ram[prp1..prp1 + first] + ram[prp2..prp2 + bytes - first]
  }

  /** Memory after the device wrote `data` through a PRP pair. */
  function Scatter(ram: seq<u8>, prp1: nat, prp2: nat, data: seq<u8>): (r: seq<u8>)
    requires PrpInside(prp1, prp2, |data|, |ram|)
    ensures |r| == |ram|
  {
    var first := FirstPage(prp1);
    if |data| <= first then Blit(ram, prp1, data)
    else Blit(Blit(ram, prp1, data[..first]), prp2, data[first..])
  }

  lemma BlitTwice(ram: seq<u8>, at: nat, data: seq<u8>, k: nat)
    requires k <= |data| && at + |data| <= |ram|
    ensures Blit(Blit(ram, at, data[..k]), at + k, data[k..]) == Blit(ram, at, data)
  {
    hide Blit;
  }

  lemma SliceTwice(ram: seq<u8>, a: nat, b: nat, c: nat)
    requires a <= b <= c <= |ram|
    ensures ram[a..b] + ram[b..c] == ram[a..c]
  {
  }

  /** Through the pair `run_prp` makes for a page-aligned buffer, a transfer is a plain copy. */
  lemma RunTransfer(ram: seq<u8>, base: nat, data: seq<u8>)
    requires base % NVME_PAGE_SIZE == 0 && |data| <= RUN_BYTES && base + |data| <= |ram|
    ensures var (prp1, prp2) := RunPrp(base, |data|);
            && PrpInside(prp1, prp2, |data|, |ram|)
            && Gather(ram, prp1, prp2, |data|) == ram[base..base + |data|]
            && Scatter(ram, prp1, prp2, data) == Blit(ram, base, data)
  {
    hide Blit;
    assert FirstPage(base) == NVME_PAGE_SIZE;
    hide FirstPage;
    if |data| > NVME_PAGE_SIZE {
      SliceTwice(ram, base, base + NVME_PAGE_SIZE, base + |data|);
      BlitTwice(ram, base, data, NVME_PAGE_SIZE);
    }
  }
}
