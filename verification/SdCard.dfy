/** Reading an SD card over SPI (`spi_sdcard.c`): whole blocks into a caller's buffer, the first and last one
    through a swap buffer, with token polling and block checksums. */
module SdCard {
  import Crc16

  type Byte = Crc16.Byte

  type Word = Crc16.Word

  const BLOCK := 512

  /** What the card drives and how the transfers end, by the number of bytes received so far: the received
      byte, and the error codes of receiving, sending and releasing (zero: no error). */
  datatype Bus = Bus(rx: nat -> Byte, rxError: nat -> int, txError: nat -> int, freeError: nat -> int)

  /** The byte position reached, or the code returned. */
  datatype Result = Ok(at: nat) | Error(code: int)

  datatype Command = Command(opcode: nat, arg: nat)

  // ---- what happens on the bus ----

  function Bytes(bus: Bus, at: nat, n: nat): (s: seq<Byte>)
    ensures |s| == n
  {
    seq<Byte>(n, k requires 0 <= k => bus.rx(at + k))
  }

  lemma BytesConcat(bus: Bus, at: nat, m: nat, n: nat)
    ensures Bytes(bus, at, m) + Bytes(bus, at + m, n) == Bytes(bus, at, m + n)
  {
  }

  /** Memory with `data` written at `dst`. */
  function Patch(mem: seq<Byte>, dst: nat, data: seq<Byte>): (r: seq<Byte>)
    requires dst + |data| <= |mem|
    ensures |r| == |mem|
  {
    mem[..dst] + data + mem[dst + |data|..]
  }

  lemma PatchOne(mem: seq<Byte>, dst: nat, data: seq<Byte>, x: Byte)
    requires dst + |data| < |mem|
    ensures Patch(mem, dst, data)[dst + |data| := x] == Patch(mem, dst, data + [x])
  {
  }

  /** Received bytes written after received bytes. */
  lemma PatchMore(bus: Bus, mem: seq<Byte>, before: seq<Byte>, after: seq<Byte>, dst: nat, at: nat, m: nat, n: nat)
    requires dst + m + n <= |mem|
    requires before == Patch(mem, dst, Bytes(bus, at, m))
    requires after == Patch(before, dst + m, Bytes(bus, at + m, n))
    ensures after == Patch(mem, dst, Bytes(bus, at, m + n))
  {
    BytesConcat(bus, at, m, n);
  }

  /** The two memories agree outside `lo..hi`. */
  ghost predicate SameOutside(mem: seq<Byte>, was: seq<Byte>, lo: nat, hi: nat)
  {
    lo <= hi <= |mem| == |was| && mem[..lo] == was[..lo] && mem[hi..] == was[hi..]
  }

  lemma PatchOutside(mem: seq<Byte>, dst: nat, data: seq<Byte>, hi: nat)
    requires dst + |data| <= hi <= |mem|
    ensures SameOutside(Patch(mem, dst, data), mem, dst, hi)
  {
  }

  /** The three polling loops. */
  datatype Wait = Response | Busy | Token

  predicate Waits(w: Wait, b: Byte)
  {
    match w
    case Response => b >= 0x80
    case Busy => b == 0
    case Token => b == 0xFF
  }

  function Limit(w: Wait): nat { if w == Response then 8 else 100000 }

  function TimeoutCode(w: Wait): int
  {
    match w
    case Response => 0x12
    case Busy => 0x13
    case Token => 0x19
  }

  /** Receives bytes while they ask to wait; the counter is tested before the byte. */
  function Poll(bus: Bus, w: Wait, at: nat, timeout: nat): (r: Result)
    requires timeout > 0
    ensures r.Ok? ==> at < r.at
    decreases timeout
  {
    if bus.rxError(at) != 0 then Error(bus.rxError(at))
    else if timeout == 1 then Error(TimeoutCode(w))
    else if Waits(w, bus.rx(at)) then Poll(bus, w, at + 1, timeout - 1)
    else Ok(at + 1)
  }

  /** A read command keeps the card selected; the stop command discards a byte, waits while the card is busy,
      and releases it. */
  function Issue(bus: Bus, at: nat, stop: bool): Result
  {
    if bus.txError(at) != 0 then Error(bus.txError(at))
    else if stop && bus.rxError(at) != 0 then Error(bus.rxError(at))
    else match Poll(bus, Response, if stop then at + 1 else at, Limit(Response))
      case Error(c) => Error(c)
      case Ok(p) =>
        if !stop then Ok(p)
        else match Poll(bus, Busy, p, Limit(Busy))
          case Error(c) => Error(c)
          case Ok(q) => Release(bus, q)
  }

  function Release(bus: Bus, at: nat): Result
  {
    if bus.freeError(at) != 0 then Error(bus.freeError(at)) else Ok(at)
  }

  /** The first error among the chunks of a block that starts at `at`, or zero. */
  function ChunkError(bus: Bus, chunk: nat, at: nat, offs: nat): int
    requires chunk > 0
    decreases BLOCK - offs
  {
    if offs >= BLOCK then 0
    else if bus.rxError(at + offs) != 0 then bus.rxError(at + offs)
    else ChunkError(bus, chunk, at, offs + chunk)
  }

  /** A block's checksum as received after its data. */
  function WireCrc(bus: Bus, at: nat): Word
  {
    Crc16.LittleEndian(bus.rx(at + BLOCK), bus.rx(at + BLOCK + 1))
  }

  function Block(bus: Bus, chunk: nat, check: bool, at: nat): Result
    requires chunk > 0
  {
    match Poll(bus, Token, at, Limit(Token))
    case Error(c) => Error(c)
    case Ok(p) =>
      if bus.rx(p - 1) != 0xFE then Error(0x20) else BlockData(bus, chunk, check, p)
  }

  function BlockData(bus: Bus, chunk: nat, check: bool, p: nat): Result
    requires chunk > 0
  {
    if ChunkError(bus, chunk, p, 0) != 0 then Error(ChunkError(bus, chunk, p, 0))
    else if bus.rxError(p + BLOCK) != 0 then Error(bus.rxError(p + BLOCK))
    else if check && WireCrc(bus, p) != Crc16.Swap(Crc16.State(Bytes(bus, p, BLOCK))) then Error(0x21)
    else Ok(p + BLOCK + 2)
  }

  /** The first `n` blocks from position `at` on. */
  function Blocks(bus: Bus, chunk: nat, check: bool, at: nat, n: nat): Result
    requires chunk > 0
  {
    if n == 0 then Ok(at)
    else match Blocks(bus, chunk, check, at, n - 1)
      case Error(c) => Error(c)
      case Ok(p) => Block(bus, chunk, check, p)
  }

  /** The data of the block whose token is awaited from position `at` on. */
  function Payload(bus: Bus, at: nat): (s: seq<Byte>)
    ensures |s| == BLOCK
  {
    match Poll(bus, Token, at, Limit(Token))
    case Error(_) => Bytes(bus, at, BLOCK)
    case Ok(p) => Bytes(bus, p, BLOCK)
  }

  /** The data of the first `n` blocks. */
  function Data(bus: Bus, chunk: nat, check: bool, at: nat, n: nat): (s: seq<Byte>)
    requires chunk > 0 && Blocks(bus, chunk, check, at, n).Ok?
    ensures |s| == BLOCK * n
  {
    if n == 0 then []
    else Data(bus, chunk, check, at, n - 1) + Payload(bus, Blocks(bus, chunk, check, at, n - 1).at)
  }

  /** A whole read of `n` blocks. */
  function Transfer(bus: Bus, chunk: nat, check: bool, at: nat, n: nat): Result
    requires chunk > 0
  {
    if n == 0 then Ok(at)
    else match Issue(bus, at, false)
      case Error(c) => Error(c)
      case Ok(p) =>
        match Blocks(bus, chunk, check, p, n)
        case Error(c) => Error(c)
        case Ok(q) => if n > 1 then Issue(bus, q, true) else Release(bus, q)
  }

  /** When polling ends well: after fewer than `timeout` bytes, the last of which was the first that did not
      ask to wait. A byte that arrives with the last poll comes too late. */
  lemma {:induction false} PollExact(bus: Bus, w: Wait, at: nat, timeout: nat, p: nat)
    requires timeout > 0
    ensures Poll(bus, w, at, timeout) == Ok(p) <==>
            && at < p < at + timeout
            && (forall k :: at <= k < p ==> bus.rxError(k) == 0)
            && (forall k :: at <= k < p - 1 ==> Waits(w, bus.rx(k)))
            && !Waits(w, bus.rx(p - 1))
    decreases timeout
  {
    if bus.rxError(at) == 0 && timeout > 1 && Waits(w, bus.rx(at)) {
      PollExact(bus, w, at + 1, timeout - 1, p);
    }
  }

  lemma {:induction false} BlocksStop(bus: Bus, chunk: nat, check: bool, at: nat, b: nat, n: nat)
    requires chunk > 0 && b <= n
    ensures Blocks(bus, chunk, check, at, b).Error? ==>
            Blocks(bus, chunk, check, at, n) == Blocks(bus, chunk, check, at, b)
  {
    if b < n {
      BlocksStop(bus, chunk, check, at, b, n - 1);
    }
  }

  /** The part of block `b` of `n` that the caller asked for. */
  function Lo(b: nat, first: nat): nat { if b == 0 then first else 0 }

  function Hi(b: nat, n: nat, last: nat): nat { if b + 1 == n then last else BLOCK }

  /** A transfer of `n` blocks whose wanted part starts and ends inside the first and last one. */
  predicate Shape(n: nat, first: nat, last: nat)
  {
    n > 0 && first < BLOCK && 0 < last <= BLOCK && (n == 1 ==> first < last)
  }

  function Length(n: nat, first: nat, last: nat): nat
    requires Shape(n, first, last)
  {
    BLOCK * (n - 1) + last - first
  }

  /** The wanted part of the data `d` of the first `b` of `n` blocks. */
  function Wanted(d: seq<Byte>, b: nat, n: nat, first: nat, last: nat): (r: seq<Byte>)
    requires Shape(n, first, last) && b <= n && |d| == BLOCK * b
    ensures |r| == if b == 0 then 0 else BLOCK * (b - 1) + Hi(b - 1, n, last) - first
  {
    if b == 0 then [] else d[first..BLOCK * (b - 1) + Hi(b - 1, n, last)]
  }

  lemma WantedStep(d: seq<Byte>, x: seq<Byte>, b: nat, n: nat, first: nat, last: nat)
    requires Shape(n, first, last) && b < n && |d| == BLOCK * b && |x| == BLOCK
    ensures Wanted(d + x, b + 1, n, first, last) == Wanted(d, b, n, first, last) + x[Lo(b, first)..Hi(b, n, last)]
  {
    if b == 0 {
      assert d + x == x;
    }
  }

  /** Memory holds `data` at `at`. */
  ghost predicate Holds(mem: seq<Byte>, at: int, data: seq<Byte>)
  {
    0 <= at <= at + |data| <= |mem| && mem[at..at + |data|] == data
  }

  lemma PatchHolds(mem: seq<Byte>, dst: nat, data: seq<Byte>)
    requires dst + |data| <= |mem|
    ensures Holds(Patch(mem, dst, data), dst, data)
    ensures SameOutside(Patch(mem, dst, data), mem, dst, dst + |data|)
  {
  }

  lemma HoldsMore(
    before: seq<Byte>, after: seq<Byte>, dst: nat, a: seq<Byte>, at: nat, b: seq<Byte>, hi: nat, ab: seq<Byte>)
    requires Holds(before, dst, a) && at == dst + |a| && ab == a + b
    requires Holds(after, at, b) && SameOutside(after, before, at, hi)
    ensures Holds(after, dst, ab)
  {
    assert after[dst..at] == after[..at][dst..] == before[dst..at];
    assert after[dst..at + |b|] == after[dst..at] + after[at..at + |b|];
  }

  /** Unchanged outside a part, hence outside the whole. */
  lemma Wider(after: seq<Byte>, before: seq<Byte>, was: seq<Byte>, lo: int, hi: int, from: nat, to: nat)
    requires 0 <= from <= lo <= hi <= to
    requires SameOutside(after, before, lo, hi) && SameOutside(before, was, from, to)
    ensures SameOutside(after, was, from, to)
  {
    assert after[..from] == after[..lo][..from] == before[..from];
    assert after[to..] == after[hi..][to - hi..] == before[to..];
  }

  /** Where block `b` lies for a buffer at `buf`. */
  function BlockAt(buf: nat, b: nat, first: nat): int
  {
    buf - first + BLOCK * b
  }

  lemma BlockFits(buf: nat, b: nat, n: nat, first: nat, last: nat)
    requires Shape(n, first, last) && b < n
    ensures buf <= BlockAt(buf, b, first) + Lo(b, first) <= BlockAt(buf, b, first) + Hi(b, n, last)
    ensures BlockAt(buf, b, first) + Hi(b, n, last) <= buf + Length(n, first, last)
  {
  }

  /** Storing the wanted part of one more block keeps what was stored and touches nothing but the buffer. */
  lemma StoredMore(
    was: seq<Byte>, before: seq<Byte>, after: seq<Byte>, buf: nat, d: seq<Byte>, x: seq<Byte>, b: nat, n: nat,
    first: nat, last: nat, at: int, end: int)
    requires Shape(n, first, last) && b < n && |d| == BLOCK * b && |x| == BLOCK
    requires at == BlockAt(buf, b, first) + Lo(b, first) && end == BlockAt(buf, b, first) + Hi(b, n, last)
    requires at >= 0 && end >= 0
    requires Holds(before, buf, Wanted(d, b, n, first, last))
    requires SameOutside(before, was, buf, buf + Length(n, first, last))
    requires SameOutside(after, before, at, end)
    ensures SameOutside(after, was, buf, buf + Length(n, first, last))
    ensures Holds(after, at, x[Lo(b, first)..Hi(b, n, last)]) ==>
            Holds(after, buf, Wanted(d + x, b + 1, n, first, last))
  {
    Wider(after, before, was, at, end, buf, buf + Length(n, first, last));
    WantedStep(d, x, b, n, first, last);
    var part := x[Lo(b, first)..Hi(b, n, last)];
    if Holds(after, at, part) {
      HoldsMore(before, after, buf, Wanted(d, b, n, first, last), at, part, end, Wanted(d + x, b + 1, n, first, last));
    }
  }

  /** A block awaited from `at` on ended with `err` at position `p`; its data are `x`. */
  ghost predicate BlockServed(bus: Bus, chunk: nat, check: bool, at: nat, err: int, p: nat, x: seq<Byte>)
    requires chunk > 0
  {
    && Block(bus, chunk, check, at) == (if err == 0 then Ok(p) else Error(err))
    && |x| == BLOCK && (err == 0 ==> x == Payload(bus, at))
  }

  /** The first `b` blocks have been served with data `d`, up to position `p`. */
  ghost predicate Served(bus: Bus, chunk: nat, check: bool, at: nat, b: nat, p: nat, d: seq<Byte>)
    requires chunk > 0
  {
    Blocks(bus, chunk, check, at, b) == Ok(p) && d == Data(bus, chunk, check, at, b) && |d| == BLOCK * b
  }

  lemma ServedStep(
    bus: Bus, chunk: nat, check: bool, at: nat, b: nat, n: nat, p: nat, d: seq<Byte>, x: seq<Byte>, err: int, p': nat)
    requires chunk > 0 && b < n && Served(bus, chunk, check, at, b, p, d)
    requires BlockServed(bus, chunk, check, p, err, p', x)
    ensures err == 0 ==> Served(bus, chunk, check, at, b + 1, p', d + x)
    ensures err != 0 ==> Blocks(bus, chunk, check, at, n) == Error(err)
  {
    BlocksStop(bus, chunk, check, at, b + 1, n);
  }

  // ---- the geometry of a read ----

  /** How many blocks the bytes `addr..addr + len` touch. */
  function BlockCount(addr: nat, len: nat): nat
  {
    if len == 0 then 0 else (len + addr % BLOCK + BLOCK - 1) / BLOCK
  }

  /** The first offset, the last length and the block count describe exactly the asked bytes. */
  lemma Geometry(addr: nat, len: nat, first: nat, last: nat, n: nat)
    requires len > 0 && first == addr % BLOCK && n == (len + first + BLOCK - 1) / BLOCK
    requires last == if (addr + len) % BLOCK == 0 then BLOCK else (addr + len) % BLOCK
    ensures n == BlockCount(addr, len) && Shape(n, first, last) && Length(n, first, last) == len
    ensures BLOCK * (n - 1) + last == first + len
  {
    var q, m := addr / BLOCK, (first + len) / BLOCK;
    assert addr == BLOCK * q + first;
    assert (addr + len) % BLOCK == (first + len) % BLOCK;
    assert first + len == BLOCK * m + (first + len) % BLOCK;
  }

  /** What the blocks hold of the asked bytes is exactly those. */
  lemma WantedIsSlice(mem: seq<Byte>, buf: nat, d: seq<Byte>, n: nat, first: nat, last: nat, len: nat)
    requires Shape(n, first, last) && Length(n, first, last) == len && |d| == BLOCK * n
    requires Holds(mem, buf, Wanted(d, n, n, first, last))
    ensures first + len <= |d| && buf + len <= |mem|
    ensures mem[buf..buf + len] == d[first..first + len]
  {
  }

  /** A single-block or multi-block read; the argument is thirty-two bits wide. */
  function ReadCommand(block: nat, n: nat): Command
  {
    Command(if n > 1 then 0x52 else 0x51, block % 0x1_0000_0000)
  }

  const STOP := Command(0x4C, 0)

  function Commands(block: nat, n: nat): seq<Command>
  {
    [ReadCommand(block, n)] + if n > 1 then [STOP] else []
  }

  /** The data a successful transfer delivered. */
  function Delivered(bus: Bus, chunk: nat, check: bool, at: nat, n: nat): (d: seq<Byte>)
    requires chunk > 0 && Transfer(bus, chunk, check, at, n).Ok?
    ensures |d| == BLOCK * n
  {
    if n == 0 then [] else Data(bus, chunk, check, Issue(bus, at, false).at, n)
  }

  // ---- the driver ----

  /** How much of a block `n` bytes are. */
  function Clip(n: nat): nat { if n < BLOCK then n else BLOCK }

  /** A call of the driver's read: the byte position it began at, and its arguments. */
  datatype ReadCall = ReadCall(at: nat, addr: nat, len: nat, check: bool)

  class Host {
    const bus: Bus
    /** Bytes per receive segment: four times the depth of the receive FIFO. */
    const chunk: nat
    var at: nat
    var sent: seq<Command>
    /** The reads so far. */
    ghost var history: seq<ReadCall>

    constructor (bus: Bus, chunk: nat)
      ensures this.bus == bus && this.chunk == chunk && at == 0 && sent == [] && history == []
    {
      this.bus, this.chunk, at, sent, history := bus, chunk, 0, [], [];
    }

    /** Receives one byte. */
    method ReceiveByte() returns (b: Byte, err: int)
      modifies this`at
      ensures at == old(at) + 1 && b == bus.rx(old(at)) && err == bus.rxError(old(at))
    {
      b, err := bus.rx(at), bus.rxError(at);
      at := at + 1;
    }

    /** Receives `n` bytes into memory. */
    method Receive(mem: array<Byte>, dst: nat, n: nat) returns (err: int)
      requires dst + n <= mem.Length
      modifies this`at, mem
      ensures at == old(at) + n && err == bus.rxError(old(at))
      ensures mem[..] == Patch(old(mem[..]), dst, Bytes(bus, old(at), n))
    {
      err := bus.rxError(at);
      for k := 0 to n
        modifies mem
        invariant mem[..] == Patch(old(mem[..]), dst, Bytes(bus, at, k))
      {
        mem[dst + k] := bus.rx(at + k);
      }
      at := at + n;
    }

    /** One of the polling loops. */
    method PollFor(w: Wait) returns (b: Byte, err: int)
      modifies this`at
      ensures match Poll(bus, w, old(at), Limit(w))
              case Ok(p) => err == 0 && at == p && p > 0 && b == bus.rx(p - 1)
              case Error(c) => err == c != 0
    {
      var timeout := Limit(w);
      while true
        invariant 0 < timeout && Poll(bus, w, at, timeout) == Poll(bus, w, old(at), Limit(w))
        decreases timeout
      {
        b, err := ReceiveByte();
        if err != 0 {
          return;
        }
        timeout := timeout - 1;
        if timeout == 0 {
          err := TimeoutCode(w);
          return;
        }
        if !Waits(w, b) {
          return;
        }
      }
    }

    /** `__spi_sdcard_cmd` for the read commands and the stop command. */
    method SendCommand(cmd: Command, stop: bool) returns (err: int)
      modifies this`at, this`sent
      ensures match Issue(bus, old(at), stop)
              case Ok(p) => err == 0 && at == p
              case Error(c) => err == c != 0
      ensures sent == old(sent) + [cmd]
    {
      sent := sent + [cmd];
      err := bus.txError(at);
      if err != 0 {
        return;
      }
      var b;
      if stop {
        b, err := ReceiveByte();
        if err != 0 {
          return;
        }
      }
      b, err := PollFor(Response);
      if err != 0 {
        return;
      }
      if stop {
        b, err := PollFor(Busy);
        if err != 0 {
          return;
        }
        err := bus.freeError(at);
      }
    }

    /** Receives the next chunk of a block; `was` and `start` are the memory and position before the block. */
    method ReceiveChunk(mem: array<Byte>, dst: nat, got: nat, n: nat, ghost was: seq<Byte>, ghost start: nat)
      returns (err: int)
      requires dst + BLOCK <= mem.Length == |was| && got + n <= BLOCK && at == start + got
      requires mem[..] == Patch(was, dst, Bytes(bus, start, got))
      modifies this`at, mem
      ensures at == start + got + n && err == bus.rxError(start + got)
      ensures mem[..] == Patch(was, dst, Bytes(bus, start, got + n))
      ensures SameOutside(mem[..], was, dst, dst + BLOCK)
    {
      ghost var before := mem[..];
      err := Receive(mem, dst + got, n);
      PatchMore(bus, was, before, mem[..], dst, start, got, n);
      PatchOutside(was, dst, Bytes(bus, start, got + n), dst + BLOCK);
    }

    /** Receives a block's data in chunks. */
    method ReceiveChunks(mem: array<Byte>, dst: nat) returns (err: int)
      requires chunk > 0 && dst + BLOCK <= mem.Length
      modifies this`at, mem
      ensures err == ChunkError(bus, chunk, old(at), 0)
      ensures err == 0 ==> at == old(at) + BLOCK
      ensures err == 0 ==> mem[..] == Patch(old(mem[..]), dst, Bytes(bus, old(at), BLOCK))
      ensures SameOutside(mem[..], old(mem[..]), dst, dst + BLOCK)
    {
      ghost var was, p := mem[..], at;
      assert Patch(was, dst, Bytes(bus, p, 0)) == was;
      var offs := 0;
      err := 0;
      while offs < BLOCK
        modifies this`at, mem
        invariant ChunkError(bus, chunk, p, 0) == ChunkError(bus, chunk, p, offs)
        invariant err == 0 && at == p + Clip(offs)
        invariant mem[..] == Patch(was, dst, Bytes(bus, p, Clip(offs)))
        invariant SameOutside(mem[..], was, dst, dst + BLOCK)
        decreases BLOCK - offs
      {
        var n := if chunk <= BLOCK - offs then chunk else BLOCK - offs;
        err := ReceiveChunk(mem, dst, offs, n, was, p);
        if err != 0 {
          return;
        }
        offs := offs + chunk;
      }
    }

    /** Receives a sixteen-bit word. */
    method ReceiveWord() returns (w: Word, err: int)
      modifies this`at
      ensures at == old(at) + 2 && err == bus.rxError(old(at))
      ensures w == Crc16.LittleEndian(bus.rx(old(at)), bus.rx(old(at) + 1))
    {
      w, err := Crc16.LittleEndian(bus.rx(at), bus.rx(at + 1)), bus.rxError(at);
      at := at + 2;
    }

    /** Receives a block's data and checksum to `dst`. */
    method ReceiveBlock(mem: array<Byte>, dst: nat, check: bool) returns (err: int)
      requires chunk > 0 && dst + BLOCK <= mem.Length
      modifies this`at, mem
      ensures match BlockData(bus, chunk, check, old(at))
              case Ok(p) => err == 0 && at == p && mem[..] == Patch(old(mem[..]), dst, Bytes(bus, old(at), BLOCK))
              case Error(c) => err == c != 0
      ensures SameOutside(mem[..], old(mem[..]), dst, dst + BLOCK)
    {
      err := ReceiveChunks(mem, dst);
      if err != 0 {
        return;
      }
      var crc, expected;
      crc, err := ReceiveWord();
      if err != 0 {
        return;
      }
      assert mem[dst..dst + BLOCK] == mem[..][dst..dst + BLOCK] == Bytes(bus, old(at), BLOCK);
      expected := Crc16.Compute(mem, dst, BLOCK);
      if check && crc != expected {
        err := 0x21;
      }
    }

    /** `memcpy` between different objects. */
    static method CopyBytes(src: array<Byte>, from: nat, dst: array<Byte>, to: nat, n: nat)
      requires src != dst && from + n <= src.Length && to + n <= dst.Length
      modifies dst
      ensures dst[..] == Patch(old(dst[..]), to, src[from..from + n])
    {
      for k := 0 to n
        invariant dst[..] == Patch(old(dst[..]), to, src[from..from + k])
      {
        PatchOne(old(dst[..]), to, src[from..from + k], src[from + k]);
        assert src[from..from + k + 1] == src[from..from + k] + [src[from + k]];
        dst[to + k] := src[from + k];
      }
    }

    /** Waits for the token of the next block. */
    method FindToken(ghost check: bool) returns (err: int)
      requires chunk > 0
      modifies this`at
      ensures Block(bus, chunk, check, old(at)) ==
              if err == 0 then BlockData(bus, chunk, check, at) else Error(err)
      ensures err == 0 ==> Payload(bus, old(at)) == Bytes(bus, at, BLOCK)
    {
      var rx;
      rx, err := PollFor(Token);
      if err != 0 {
        return;
      }
      if rx != 0xFE {
        err := 0x20;
      }
    }

    /** Copies the asked part of a buffered block. */
    static method CopyPart(
      swap: array<Byte>, mem: array<Byte>, dst: int, firstBlock: bool, lastBlock: bool, first: nat, last: nat,
      ghost lo: nat, ghost hi: nat)
      requires swap != mem && swap.Length == BLOCK
      requires firstBlock || lastBlock
      requires lo == (if firstBlock then first else 0) && hi == (if lastBlock then last else BLOCK)
      requires lo <= hi <= BLOCK && 0 <= dst + lo && dst + hi <= mem.Length
      modifies mem
      ensures mem[..] == Patch(old(mem[..]), dst + lo, swap[lo..hi])
    {
      if firstBlock && lastBlock {
        CopyBytes(swap, first, mem, dst + first, last - first);
      } else if firstBlock {
        CopyBytes(swap, first, mem, dst + first, BLOCK - first);
      } else {
        CopyBytes(swap, 0, mem, dst, last);
      }
    }

    /** Receives a block and stores its part `lo..hi`, at `dst` of the memory; `dst` may lie below or the end
        of the block above the buffer when the block goes through the swap buffer. */
    method StoreBlock(
      mem: array<Byte>, swap: array<Byte>, dst: int, firstBlock: bool, lastBlock: bool, first: nat, last: nat,
      ghost lo: nat, ghost hi: nat, check: bool)
      returns (err: int, ghost x: seq<Byte>)
      requires chunk > 0 && swap != mem && swap.Length == BLOCK
      requires lo == (if firstBlock then first else 0) && hi == (if lastBlock then last else BLOCK)
      requires lo <= hi <= BLOCK && 0 <= dst + lo && dst + hi <= mem.Length
      modifies this`at, mem, swap
      ensures x == Bytes(bus, old(at), BLOCK)
      ensures BlockData(bus, chunk, check, old(at)) == if err == 0 then Ok(at) else Error(err)
      ensures err == 0 ==> Holds(mem[..], dst + lo, x[lo..hi])
      ensures SameOutside(mem[..], old(mem[..]), dst + lo, dst + hi)
    {
      x := Bytes(bus, at, BLOCK);
      ghost var was := mem[..];
      if firstBlock || lastBlock {
        err := ReceiveBlock(swap, 0, check);
        if err == 0 {
          assert swap[..] == x;
          CopyPart(swap, mem, dst, firstBlock, lastBlock, first, last, lo, hi);
          PatchHolds(was, dst + lo, x[lo..hi]);
        }
      } else {
        assert x[0..BLOCK] == x;
        err := ReceiveBlock(mem, dst, check);
        PatchHolds(was, dst, x);
      }
    }

    /** Reads block `b` of `n`; the block as a whole would lie at `dst`. */
    method ReadBlock(mem: array<Byte>, swap: array<Byte>, dst: int, b: nat, n: nat, first: nat, last: nat, check: bool)
      returns (err: int, ghost x: seq<Byte>)
      requires chunk > 0 && swap != mem && swap.Length == BLOCK && Shape(n, first, last) && b < n
      requires 0 <= dst + Lo(b, first) && dst + Hi(b, n, last) <= mem.Length
      modifies this`at, mem, swap
      ensures BlockServed(bus, chunk, check, old(at), err, at, x)
      ensures err == 0 ==> Holds(mem[..], dst + Lo(b, first), x[Lo(b, first)..Hi(b, n, last)])
      ensures SameOutside(mem[..], old(mem[..]), dst + Lo(b, first), dst + Hi(b, n, last))
    {
      err := FindToken(check);
      if err != 0 {
        x := Bytes(bus, at, BLOCK);
        return;
      }
      var firstBlock := b == 0 && first != 0;
      var lastBlock := b == n - 1 && last != BLOCK;
      err, x := StoreBlock(mem, swap, dst, firstBlock, lastBlock, first, last, Lo(b, first), Hi(b, n, last), check);
    }

    /** Reads block `b` after the blocks with data `d`, into the buffer at `buf`. */
    method ReadNext(
      mem: array<Byte>, swap: array<Byte>, buf: nat, b: nat, n: nat, first: nat, last: nat, check: bool,
      ghost was: seq<Byte>, ghost d: seq<Byte>)
      returns (err: int, ghost x: seq<Byte>)
      requires chunk > 0 && swap != mem && swap.Length == BLOCK && Shape(n, first, last) && b < n
      requires buf + Length(n, first, last) <= mem.Length && |d| == BLOCK * b
      requires Holds(mem[..], buf, Wanted(d, b, n, first, last))
      requires SameOutside(mem[..], was, buf, buf + Length(n, first, last))
      modifies this`at, mem, swap
      ensures BlockServed(bus, chunk, check, old(at), err, at, x)
      ensures err == 0 ==> Holds(mem[..], buf, Wanted(d + x, b + 1, n, first, last))
      ensures SameOutside(mem[..], was, buf, buf + Length(n, first, last))
    {
      hide Holds, SameOutside, Wanted, Block, Payload;
      ghost var before := mem[..];
      var dst := buf - first + BLOCK * b;
      BlockFits(buf, b, n, first, last);
      err, x := ReadBlock(mem, swap, dst, b, n, first, last, check);
      StoredMore(was, before, mem[..], buf, d, x, b, n, first, last, dst + Lo(b, first), dst + Hi(b, n, last));
    }

    /** The blocks of a read command, into the buffer at `buf`. */
    method ReadAll(
      mem: array<Byte>, swap: array<Byte>, buf: nat, n: nat, first: nat, last: nat, check: bool)
      returns (err: int, ghost d: seq<Byte>)
      requires chunk > 0 && swap != mem && swap.Length == BLOCK && Shape(n, first, last)
      requires buf + Length(n, first, last) <= mem.Length
      modifies this`at, mem, swap
      ensures Blocks(bus, chunk, check, old(at), n) == if err == 0 then Ok(at) else Error(err)
      ensures err == 0 ==> d == Data(bus, chunk, check, old(at), n)
      ensures err == 0 ==> Holds(mem[..], buf, Wanted(d, n, n, first, last))
      ensures SameOutside(mem[..], old(mem[..]), buf, buf + Length(n, first, last))
    {
      ghost var was, start := mem[..], at;
      d, err := [], 0;
      for b := 0 to n
        invariant err == 0 && Served(bus, chunk, check, start, b, at, d)
        invariant Holds(mem[..], buf, Wanted(d, b, n, first, last))
        invariant SameOutside(mem[..], was, buf, buf + Length(n, first, last))
      {
        ghost var x, p := [], at;
        err, x := ReadNext(mem, swap, buf, b, n, first, last, check, was, d);
        ServedStep(bus, chunk, check, start, b, n, p, d, x, err, at);
        if err != 0 {
          return;
        }
        d := d + x;
      }
    }

    /** `__spi_sdcard_read_blocks`: one command, the blocks, and the end of the transfer. The card's block
        address is the lower thirty-two bits of `block`. */
    method ReadBlocks(
      mem: array<Byte>, swap: array<Byte>, buf: nat, block: nat, n: nat, first: nat, last: nat, check: bool)
      returns (err: int, ghost d: seq<Byte>)
      requires chunk > 0 && swap != mem && swap.Length == BLOCK
      requires n > 0 ==> Shape(n, first, last) && buf + Length(n, first, last) <= mem.Length
      modifies this`at, this`sent, mem, swap
      ensures Transfer(bus, chunk, check, old(at), n) == if err == 0 then Ok(at) else Error(err)
      ensures err == 0 ==> d == Delivered(bus, chunk, check, old(at), n)
      ensures n == 0 ==> mem[..] == old(mem[..]) && sent == old(sent)
      ensures n > 0 ==> SameOutside(mem[..], old(mem[..]), buf, buf + Length(n, first, last))
      ensures n > 0 && err == 0 ==> Holds(mem[..], buf, Wanted(d, n, n, first, last)) && sent == old(sent) + Commands(block, n)
    {
      d, err := [], 0;
      if n == 0 {
        return;
      }
      err := SendCommand(ReadCommand(block, n), false);
      if err != 0 {
        return;
      }
      err, d := ReadAll(mem, swap, buf, n, first, last, check);
      if err != 0 {
        return;
      }
      if n > 1 {
        err := SendCommand(STOP, true);
      } else {
        err := bus.freeError(at);
      }
    }

    /** `__spi_sdcard_read`: any address and length. */
    method Read(mem: array<Byte>, buf: nat, addr: nat, len: nat, check: bool) returns (err: int, ghost d: seq<Byte>)
      requires chunk > 0 && buf + len <= mem.Length
      modifies this, mem
      ensures Transfer(bus, chunk, check, old(at), BlockCount(addr, len)) == if err == 0 then Ok(at) else Error(err)
      ensures err == 0 ==> d == Delivered(bus, chunk, check, old(at), BlockCount(addr, len))
      ensures err == 0 && len > 0 ==>
              && addr % BLOCK + len <= |d|
              && mem[buf..buf + len] == d[addr % BLOCK..addr % BLOCK + len]
              && sent == old(sent) + Commands(addr / BLOCK, BlockCount(addr, len))
      ensures SameOutside(mem[..], old(mem[..]), buf, buf + len)
      ensures history == old(history) + [ReadCall(old(at), addr, len, check)]
    {
      history := history + [ReadCall(at, addr, len, check)];
      var swap := new Byte[BLOCK];
      if len == 0 {
        return 0, [];
      }
      var block, first, rest := addr / BLOCK, addr % BLOCK, (addr + len) % BLOCK;
      var last := if rest == 0 then BLOCK else rest;
      var n := (len + first + BLOCK - 1) / BLOCK;
      Geometry(addr, len, first, last, n);
      err, d := ReadBlocks(mem, swap, buf, block, n, first, last, check);
      if err == 0 {
        WantedIsSlice(mem[..], buf, d, n, first, last, len);
        assert mem[..][buf..buf + len] == mem[buf..buf + len];
      }
    }
  }
}
