/** What a successful SD read is worth: the bytes of the card, with checksums that have matched, even over a
    line that garbles a burst of bits in every block. */
module SdTheorems {
  import opened SdCard
  import Crc16
  import CrcPoly

  /** The contents of a card. */
  type Disk = nat -> Byte

  function DiskBytes(disk: Disk, at: nat, n: nat): (s: seq<Byte>)
    ensures |s| == n
  {
    seq<Byte>(n, k requires 0 <= k => disk(at + k))
  }

  function DiskBlock(disk: Disk, k: nat): (s: seq<Byte>)
    ensures |s| == BLOCK
  {
    DiskBytes(disk, BLOCK * k, BLOCK)
  }

  /** The positions from which the tokens of the first `n` blocks were awaited. */
  function Starts(bus: Bus, chunk: nat, check: bool, at: nat, n: nat): (ps: seq<nat>)
    requires chunk > 0 && Blocks(bus, chunk, check, at, n).Ok?
    ensures |ps| == n
    ensures forall b :: 0 <= b < n ==> Block(bus, chunk, check, ps[b]).Ok?
  {
    if n == 0 then []
    else Starts(bus, chunk, check, at, n - 1) + [Blocks(bus, chunk, check, at, n - 1).at]
  }

  /** The blocks received from the given positions are those of the card from block `arg` on. */
  ghost predicate Honest(bus: Bus, ps: seq<nat>, arg: nat, disk: Disk)
  {
    forall b :: 0 <= b < |ps| ==> Payload(bus, ps[b]) == DiskBlock(disk, arg + b)
  }

  lemma {:induction false} HonestData(bus: Bus, chunk: nat, check: bool, at: nat, n: nat, arg: nat, disk: Disk)
    requires chunk > 0 && Blocks(bus, chunk, check, at, n).Ok?
    requires Honest(bus, Starts(bus, chunk, check, at, n), arg, disk)
    ensures Data(bus, chunk, check, at, n) == DiskBytes(disk, BLOCK * arg, BLOCK * n)
  {
    if n > 0 {
      var ps, p := Starts(bus, chunk, check, at, n - 1), Blocks(bus, chunk, check, at, n - 1).at;
      StartsSnoc(bus, chunk, check, at, n, p);
      hide Poll, Block, Payload, Blocks, Starts, Data;
      HonestPrefix(bus, ps, p, arg, disk);
      HonestData(bus, chunk, check, at, n - 1, arg, disk);
      DataSnoc(bus, chunk, check, at, n, p);
      DiskSnoc(disk, arg, n);
    }
  }

  lemma StartsSnoc(bus: Bus, chunk: nat, check: bool, at: nat, n: nat, p: nat)
    requires chunk > 0 && n > 0 && Blocks(bus, chunk, check, at, n).Ok?
    requires Blocks(bus, chunk, check, at, n - 1) == Ok(p)
    ensures Starts(bus, chunk, check, at, n) == Starts(bus, chunk, check, at, n - 1) + [p]
  {
  }

  lemma HonestPrefix(bus: Bus, ps: seq<nat>, p: nat, arg: nat, disk: Disk)
    requires Honest(bus, ps + [p], arg, disk)
    ensures Honest(bus, ps, arg, disk) && Payload(bus, p) == DiskBlock(disk, arg + |ps|)
  {
    var qs := ps + [p];
    assert qs[|ps|] == p;
    assert forall b :: 0 <= b < |ps| ==> ps[b] == qs[b];
  }

  lemma DataSnoc(bus: Bus, chunk: nat, check: bool, at: nat, n: nat, p: nat)
    requires chunk > 0 && n > 0 && Blocks(bus, chunk, check, at, n).Ok?
    requires Blocks(bus, chunk, check, at, n - 1) == Ok(p)
    ensures Data(bus, chunk, check, at, n) == Data(bus, chunk, check, at, n - 1) + Payload(bus, p)
  {
  }

  lemma DiskSnoc(disk: Disk, arg: nat, n: nat)
    requires n > 0
    ensures DiskBytes(disk, BLOCK * arg, BLOCK * n) ==
            DiskBytes(disk, BLOCK * arg, BLOCK * (n - 1)) + DiskBlock(disk, arg + n - 1)
  {
    DiskConcat(disk, BLOCK * arg, BLOCK * (n - 1), BLOCK);
    assert BLOCK * arg + BLOCK * (n - 1) == BLOCK * (arg + n - 1);
  }

  lemma DiskConcat(disk: Disk, at: nat, m: nat, n: nat)
    ensures DiskBytes(disk, at, m) + DiskBytes(disk, at + m, n) == DiskBytes(disk, at, m + n)
  {
  }

  // ---- addresses ----

  /** The range the card's thirty-two-bit block addresses span. */
  const ADDRESSABLE := 0x200_0000_0000

  lemma TruncatedAddress(addr: nat)
    ensures BLOCK * ((addr / BLOCK) % 0x1_0000_0000) + addr % BLOCK == addr % ADDRESSABLE
  {
    var q, r := addr / BLOCK, addr % BLOCK;
    var u, v := q / 0x1_0000_0000, q % 0x1_0000_0000;
    assert addr == ADDRESSABLE * u + (BLOCK * v + r);
    assert 0 <= BLOCK * v + r < ADDRESSABLE;
  }

  /** A successful read from an honest card delivers `len` bytes from `addr` on, taken modulo two tebibytes. */
  lemma {:induction false} ReadsDisk(
    bus: Bus, chunk: nat, check: bool, at: nat, addr: nat, len: nat, disk: Disk, n: nat, start: nat, arg: nat,
    first: nat, from: nat)
    requires chunk > 0 && len > 0 && n == BlockCount(addr, len) && first == addr % BLOCK
    requires arg == ReadCommand(addr / BLOCK, n).arg && from == addr % ADDRESSABLE
    requires Issue(bus, at, false) == Ok(start)
    requires n > 0 && Transfer(bus, chunk, check, at, n).Ok?
    requires Honest(bus, Starts(bus, chunk, check, start, n), arg, disk)
    ensures first + len <= BLOCK * n
    ensures Delivered(bus, chunk, check, at, n)[first..first + len] == DiskBytes(disk, from, len)
  {
    WithinBlocks(addr, len, first, n);
    TruncatedAddress(addr);
    DeliveredIsDisk(bus, chunk, check, at, disk, n, start, arg);
    DiskSlice(disk, BLOCK * arg, BLOCK * n, first, len);
  }

  lemma WithinBlocks(addr: nat, len: nat, first: nat, n: nat)
    requires len > 0 && n == BlockCount(addr, len) && first == addr % BLOCK
    ensures first + len <= BLOCK * n && n > 0
  {
  }

  lemma DeliveredIsDisk(
    bus: Bus, chunk: nat, check: bool, at: nat, disk: Disk, n: nat, start: nat, arg: nat)
    requires chunk > 0 && n > 0 && Issue(bus, at, false) == Ok(start)
    requires n > 0 && Transfer(bus, chunk, check, at, n).Ok?
    requires Honest(bus, Starts(bus, chunk, check, start, n), arg, disk)
    ensures Delivered(bus, chunk, check, at, n) == DiskBytes(disk, BLOCK * arg, BLOCK * n)
  {
    HonestData(bus, chunk, check, start, n, arg, disk);
  }

  lemma DiskSlice(disk: Disk, at: nat, n: nat, from: nat, len: nat)
    requires from + len <= n
    ensures DiskBytes(disk, at, n)[from..from + len] == DiskBytes(disk, at + from, len)
  {
  }

  /** The modulus does no harm exactly for the addresses below it. */
  lemma AddressableExactly(addr: nat, len: nat)
    requires len > 0
    ensures (forall disk: Disk :: DiskBytes(disk, addr % ADDRESSABLE, len) == DiskBytes(disk, addr, len))
            <==> addr < ADDRESSABLE
  {
    if addr >= ADDRESSABLE {
      var disk: Disk := k => if k == addr then 1 else 0;
      assert DiskBytes(disk, addr % ADDRESSABLE, len)[0] != DiskBytes(disk, addr, len)[0];
    }
  }

  // ---- checksums ----

  /** Where the data of the block awaited from `at` on begin. */
  function DataStart(bus: Bus, at: nat): nat
    requires Poll(bus, Token, at, Limit(Token)).Ok?
  {
    Poll(bus, Token, at, Limit(Token)).at
  }

  lemma {:induction false} BlocksPrefix(bus: Bus, chunk: nat, check: bool, at: nat, b: nat, n: nat)
    requires chunk > 0 && b <= n && Blocks(bus, chunk, check, at, n).Ok?
    ensures Blocks(bus, chunk, check, at, b).Ok?
  {
    BlocksStop(bus, chunk, check, at, b, n);
  }

  /** A block that passed with checking on was followed by the checksum of its own data. */
  lemma CheckPassed(bus: Bus, chunk: nat, at: nat)
    requires chunk > 0 && Block(bus, chunk, true, at).Ok?
    ensures Poll(bus, Token, at, Limit(Token)).Ok?
    ensures WireCrc(bus, DataStart(bus, at)) == Crc16.Swap(Crc16.State(Payload(bus, at)))
  {
  }

  /** With checking on, every delivered block was followed by the remainder of its own data. */
  lemma {:induction false} ChecksumsMatched(bus: Bus, chunk: nat, at: nat, b: nat, n: nat, p: nat, q: nat)
    requires chunk > 0 && b < n && Blocks(bus, chunk, true, at, n).Ok?
    requires Blocks(bus, chunk, true, at, b) == Ok(p)
    requires Poll(bus, Token, p, Limit(Token)) == Ok(q)
    ensures Crc16.Bits(bus.rx(q + BLOCK), 8) + Crc16.Bits(bus.rx(q + BLOCK + 1), 8)
            == CrcPoly.Remainder(Crc16.MessageBits(Payload(bus, p)) + CrcPoly.Zeros(16))
  {
    BlocksPrefix(bus, chunk, true, at, b + 1, n);
    CheckPassed(bus, chunk, p);
    RemainderFollows(bus, q, Payload(bus, p));
  }

  lemma {:induction false} RemainderFollows(bus: Bus, q: nat, x: seq<Byte>)
    requires WireCrc(bus, q) == Crc16.Swap(Crc16.State(x))
    ensures Crc16.Bits(bus.rx(q + BLOCK), 8) + Crc16.Bits(bus.rx(q + BLOCK + 1), 8)
            == CrcPoly.Remainder(Crc16.MessageBits(x) + CrcPoly.Zeros(16))
  {
    Crc16.CheckMeansRemainder(x, bus.rx(q + BLOCK), bus.rx(q + BLOCK + 1));
  }

  /** The block awaited from `at` on is `y`, garbled within one window of sixteen bits, but with the checksum
      of `y`. */
  ghost predicate Garbled(bus: Bus, at: nat, y: seq<Byte>)
    requires |y| == BLOCK
  {
    && Poll(bus, Token, at, Limit(Token)).Ok?
    && WireCrc(bus, DataStart(bus, at)) == Crc16.Swap(Crc16.State(y))
    && exists w: nat :: CrcPoly.DifferInWindow(Crc16.MessageBits(Payload(bus, at)), Crc16.MessageBits(y), w)
  }

  /** Every block may be garbled by a burst. */
  ghost predicate Noisy(bus: Bus, ps: seq<nat>, arg: nat, disk: Disk)
  {
    forall b :: 0 <= b < |ps| ==> Garbled(bus, ps[b], DiskBlock(disk, arg + b))
  }

  lemma GarbledIsCaught(bus: Bus, chunk: nat, at: nat, y: seq<Byte>)
    requires chunk > 0 && |y| == BLOCK && Garbled(bus, at, y)
    requires Block(bus, chunk, true, at).Ok?
    ensures Payload(bus, at) == y
  {
    var x := Payload(bus, at);
    var w: nat :| CrcPoly.DifferInWindow(Crc16.MessageBits(x), Crc16.MessageBits(y), w);
    if x != y {
      Crc16.BurstDetected(x, y, w);
    }
  }

  /** With checking on, a transfer over a line that garbles bursts either fails or is honest. */
  lemma CheckedIsHonest(bus: Bus, chunk: nat, ps: seq<nat>, arg: nat, disk: Disk)
    requires chunk > 0 && forall b :: 0 <= b < |ps| ==> Block(bus, chunk, true, ps[b]).Ok?
    requires Noisy(bus, ps, arg, disk)
    ensures Honest(bus, ps, arg, disk)
  {
    forall b | 0 <= b < |ps| ensures Payload(bus, ps[b]) == DiskBlock(disk, arg + b) {
      GarbledIsCaught(bus, chunk, ps[b], DiskBlock(disk, arg + b));
    }
  }

  /** A successful checked transfer over such a line delivers the card's own bytes, from `addr` on taken modulo
      two tebibytes. */
  lemma {:induction false} CheckedReadIsExact(
    bus: Bus, chunk: nat, at: nat, addr: nat, len: nat, disk: Disk, n: nat, start: nat, arg: nat,
    first: nat, from: nat)
    requires chunk > 0 && len > 0 && n == BlockCount(addr, len) && first == addr % BLOCK
    requires arg == ReadCommand(addr / BLOCK, n).arg && from == addr % ADDRESSABLE
    requires Issue(bus, at, false) == Ok(start)
    requires n > 0 && Transfer(bus, chunk, true, at, n).Ok?
    requires Noisy(bus, Starts(bus, chunk, true, start, n), arg, disk)
    ensures first + len <= BLOCK * n
    ensures Delivered(bus, chunk, true, at, n)[first..first + len] == DiskBytes(disk, from, len)
  {
    WithinBlocks(addr, len, first, n);
    CheckedIsHonest(bus, chunk, Starts(bus, chunk, true, start, n), arg, disk);
    ReadsDisk(bus, chunk, true, at, addr, len, disk, n, start, arg, first, from);
  }

  // ---- the driver on a card ----

  /** If the `n`-block transfer from position `at` on succeeds, it serves blocks of the card: exactly, or with
      checking on, garbled by bursts. */
  ghost predicate Serves(bus: Bus, chunk: nat, check: bool, at: nat, arg: nat, n: nat, disk: Disk)
    requires chunk > 0
  {
    n > 0 && Transfer(bus, chunk, check, at, n).Ok? ==>
      var ps := Starts(bus, chunk, check, Issue(bus, at, false).at, n);
      if check then Noisy(bus, ps, arg, disk) else Honest(bus, ps, arg, disk)
  }

  /** The same for the transfer of a read. */
  ghost predicate ServesRead(host: Host, r: ReadCall, disk: Disk)
    requires host.chunk > 0
  {
    var n := BlockCount(r.addr, r.len);
    Serves(host.bus, host.chunk, r.check, r.at, ReadCommand(r.addr / BLOCK, n).arg, n, disk)
  }

  /** The transfer of a read succeeds. */
  ghost predicate Completes(host: Host, r: ReadCall)
    requires host.chunk > 0
  {
    Transfer(host.bus, host.chunk, r.check, r.at, BlockCount(r.addr, r.len)).Ok?
  }

  lemma {:induction false} DeliversDisk(host: Host, check: bool, at: nat, addr: nat, len: nat, disk: Disk, d: seq<Byte>)
    requires host.chunk > 0 && len > 0 && ServesRead(host, ReadCall(at, addr, len, check), disk)
    requires Transfer(host.bus, host.chunk, check, at, BlockCount(addr, len)).Ok?
    requires d == Delivered(host.bus, host.chunk, check, at, BlockCount(addr, len))
    ensures addr % BLOCK + len <= |d| && d[addr % BLOCK..addr % BLOCK + len] == DiskBytes(disk, addr % ADDRESSABLE, len)
  {
    var n := BlockCount(addr, len);
    WithinBlocks(addr, len, addr % BLOCK, n);
    var start, arg := Issue(host.bus, at, false).at, ReadCommand(addr / BLOCK, n).arg;
    if check {
      CheckedIsHonest(host.bus, host.chunk, Starts(host.bus, host.chunk, true, start, n), arg, disk);
    }
    ReadsDisk(host.bus, host.chunk, check, at, addr, len, disk, n, start, arg, addr % BLOCK, addr % ADDRESSABLE);
  }

  /** End to end in the caller's memory: a successful read fills the buffer with the card's own bytes, from
      `addr` on taken modulo two tebibytes, and never changes anything else. */
  method ReadCard(host: Host, mem: array<Byte>, buf: nat, addr: nat, len: nat, check: bool, ghost disk: Disk)
    returns (err: int)
    requires host.chunk > 0 && buf + len <= mem.Length
    modifies host, mem
    ensures err == 0 && ServesRead(host, ReadCall(old(host.at), addr, len, check), disk) ==>
            mem[buf..buf + len] == DiskBytes(disk, addr % ADDRESSABLE, len)
    ensures err == 0 <==> Completes(host, ReadCall(old(host.at), addr, len, check))
    ensures SameOutside(mem[..], old(mem[..]), buf, buf + len)
    ensures host.history == old(host.history) + [ReadCall(old(host.at), addr, len, check)]
  {
    ghost var at, d := host.at, [];
    err, d := host.Read(mem, buf, addr, len, check);
    if err == 0 && len > 0 && ServesRead(host, ReadCall(at, addr, len, check), disk) {
      DeliversDisk(host, check, at, addr, len, disk, d);
    }
  }
}
