/** A card that answers as section 7 of the SD Physical Layer Specification describes for the SPI mode is read
    successfully: what the host sends it, and what a complete answer makes the host deliver. */
module SdAnswers {
  import opened SdCard
  import Crc16
  import CrcPoly

  // ---- what is sent ----

  /** A command's first byte is its number with the bits 01 on top. */
  predicate IsCommand(c: Command, number: nat)
  {
    c.opcode == 0x40 + number
  }

  /** One block is asked for by command 17; several by command 18, ended by command 12. The argument is the lower
      thirty-two bits of the block number. */
  lemma CommandsMean(block: nat, n: nat)
    requires n > 0
    ensures var cs := Commands(block, n);
      && |cs| == (if n == 1 then 1 else 2)
      && IsCommand(cs[0], if n == 1 then 17 else 18) && cs[0].arg == block % 0x1_0000_0000
      && (n > 1 ==> IsCommand(cs[1], 12))
  {
  }

  // ---- the three polls ----

  predicate NoError(bus: Bus, from: nat, to: nat)
  {
    forall k :: from <= k < to ==> bus.rxError(k) == 0
  }

  /** A response is the first byte with bit 7 clear, among seven. */
  lemma ResponseFound(bus: Bus, at: nat, p: nat)
    ensures Poll(bus, Response, at, Limit(Response)) == Ok(p) <==>
            && at < p < at + 8 && NoError(bus, at, p)
            && (forall k :: at <= k < p - 1 ==> bus.rx(k) >= 0x80) && bus.rx(p - 1) < 0x80
  {
    PollExact(bus, Response, at, Limit(Response), p);
  }

  /** The card is busy while it sends zeros, for fewer than 100000 bytes. */
  lemma BusyEnds(bus: Bus, at: nat, p: nat)
    ensures Poll(bus, Busy, at, Limit(Busy)) == Ok(p) <==>
            && at < p < at + 100000 && NoError(bus, at, p)
            && (forall k :: at <= k < p - 1 ==> bus.rx(k) == 0) && bus.rx(p - 1) != 0
  {
    PollExact(bus, Busy, at, Limit(Busy), p);
  }

  /** A token is the first byte other than 0xFF, among fewer than 100000. */
  lemma TokenFound(bus: Bus, at: nat, p: nat)
    ensures Poll(bus, Token, at, Limit(Token)) == Ok(p) <==>
            && at < p < at + 100000 && NoError(bus, at, p)
            && (forall k :: at <= k < p - 1 ==> bus.rx(k) == 0xFF) && bus.rx(p - 1) != 0xFF
  {
    PollExact(bus, Token, at, Limit(Token), p);
  }

  /** Without errors on the bus a poll that does not succeed ends with the code of its timeout. */
  lemma {:induction false} PollTimesOut(bus: Bus, w: Wait, at: nat, timeout: nat)
    requires timeout > 0 && NoError(bus, at, at + timeout) && Poll(bus, w, at, timeout).Error?
    ensures Poll(bus, w, at, timeout) ==
            Error(match w case Response => 0x12 case Busy => 0x13 case Token => 0x19)
    decreases timeout
  {
    if timeout > 1 && Waits(w, bus.rx(at)) {
      PollTimesOut(bus, w, at + 1, timeout - 1);
    }
  }

  // ---- a complete answer ----

  ghost predicate ErrorFree(bus: Bus)
  {
    forall k :: bus.rxError(k) == 0 && bus.txError(k) == 0 && bus.freeError(k) == 0
  }

  /** From position `at` on the card sends `gap` bytes 0xFF, the start token 0xFE, the block `d`, and its checksum:
      the remainder of the block's polynomial, highest bit first. */
  ghost predicate SendsBlock(bus: Bus, at: nat, gap: nat, d: seq<Byte>)
  {
    && gap + 1 < 100000 && |d| == BLOCK
    && (forall k :: at <= k < at + gap ==> bus.rx(k) == 0xFF) && bus.rx(at + gap) == 0xFE
    && Bytes(bus, at + gap + 1, BLOCK) == d
    && Crc16.Bits(bus.rx(at + gap + 1 + BLOCK), 8) + Crc16.Bits(bus.rx(at + gap + 2 + BLOCK), 8)
       == CrcPoly.Remainder(Crc16.MessageBits(d) + CrcPoly.Zeros(16))
  }

  /** Where the answer stands after blocks with these gaps. */
  function After(at: nat, gaps: seq<nat>): nat
  {
    if gaps == [] then at else After(at, gaps[..|gaps| - 1]) + gaps[|gaps| - 1] + 3 + BLOCK
  }

  ghost predicate SendsBlocks(bus: Bus, at: nat, gaps: seq<nat>, data: seq<seq<Byte>>)
    requires |gaps| == |data|
  {
    forall b :: 0 <= b < |data| ==> SendsBlock(bus, After(at, gaps[..b]), gaps[b], data[b])
  }

  function Flat(data: seq<seq<Byte>>): seq<Byte>
  {
    if data == [] then [] else Flat(data[..|data| - 1]) + data[|data| - 1]
  }

  /** Without transfer errors, a block that starts with a token other than 0xFE is refused with its own code. */
  lemma BadTokenIsRefused(bus: Bus, chunk: nat, check: bool, at: nat, gap: nat)
    requires chunk > 0 && ErrorFree(bus) && gap + 1 < 100000
    requires (forall k :: at <= k < at + gap ==> bus.rx(k) == 0xFF) && bus.rx(at + gap) !in {0xFE, 0xFF}
    ensures Block(bus, chunk, check, at) == Error(0x20)
  {
    hide Poll, BlockData;
    TokenFound(bus, at, at + gap + 1);
  }

  /** With checking on, a block whose checksum is not the remainder of its polynomial is refused with its own code;
      with checking off it is not looked at. */
  lemma BadChecksumIsRefused(bus: Bus, chunk: nat, check: bool, at: nat, gap: nat)
    requires chunk > 0 && ErrorFree(bus) && gap + 1 < 100000
    requires (forall k :: at <= k < at + gap ==> bus.rx(k) == 0xFF) && bus.rx(at + gap) == 0xFE
    requires var p := at + gap + 1;
      Crc16.Bits(bus.rx(p + BLOCK), 8) + Crc16.Bits(bus.rx(p + BLOCK + 1), 8)
      != CrcPoly.Remainder(Crc16.MessageBits(Bytes(bus, p, BLOCK)) + CrcPoly.Zeros(16))
    ensures Block(bus, chunk, check, at) == if check then Error(0x21) else Ok(at + gap + 3 + BLOCK)
  {
    hide Poll, Bytes, Crc16.Bits, Crc16.State, Crc16.MessageBits, CrcPoly.Remainder;
    var p := at + gap + 1;
    TokenFound(bus, at, p);
    NoChunkError(bus, chunk, p, 0);
    ErrorsAt(bus, p + BLOCK);
    Crc16.CheckMeansRemainder(Bytes(bus, p, BLOCK), bus.rx(p + BLOCK), bus.rx(p + BLOCK + 1));
  }

  /** From position `at` on: `gap` bytes with bit 7 set, and then one without. */
  ghost predicate Responds(bus: Bus, at: nat, gap: nat)
  {
    gap + 1 < 8 && (forall k :: at <= k < at + gap ==> bus.rx(k) >= 0x80) && bus.rx(at + gap) < 0x80
  }

  /** From position `at` on: `gap` zeros, and then something else. */
  ghost predicate StaysBusy(bus: Bus, at: nat, gap: nat)
  {
    gap + 1 < 100000 && (forall k :: at <= k < at + gap ==> bus.rx(k) == 0) && bus.rx(at + gap) != 0
  }

  /** The whole answer to a read: a response, the blocks, and for several blocks a stuff byte, a response and the
      busy signal after the stop command. */
  ghost predicate AnswersRead(
    bus: Bus, at: nat, first: nat, gaps: seq<nat>, data: seq<seq<Byte>>, second: nat, busy: nat)
    requires |gaps| == |data|
  {
    && ErrorFree(bus) && Responds(bus, at, first) && SendsBlocks(bus, at + first + 1, gaps, data)
    && (|data| > 1 ==>
          var q := After(at + first + 1, gaps) + 1;
          Responds(bus, q, second) && StaysBusy(bus, q + second + 1, busy))
  }

  lemma {:induction false} NoChunkError(bus: Bus, chunk: nat, at: nat, offs: nat)
    requires chunk > 0 && ErrorFree(bus)
    ensures ChunkError(bus, chunk, at, offs) == 0
    decreases BLOCK - offs
  {
    if offs < BLOCK {
      NoChunkError(bus, chunk, at, offs + chunk);
    }
  }

  lemma ErrorsAt(bus: Bus, k: nat)
    requires ErrorFree(bus)
    ensures bus.rxError(k) == 0 && bus.txError(k) == 0 && bus.freeError(k) == 0
  {
  }

  lemma ResponsePolled(bus: Bus, at: nat, gap: nat)
    requires ErrorFree(bus) && Responds(bus, at, gap)
    ensures Poll(bus, Response, at, Limit(Response)) == Ok(at + gap + 1)
  {
    hide Poll;
    ResponseFound(bus, at, at + gap + 1);
  }

  lemma BusyPolled(bus: Bus, at: nat, gap: nat)
    requires ErrorFree(bus) && StaysBusy(bus, at, gap)
    ensures Poll(bus, Busy, at, Limit(Busy)) == Ok(at + gap + 1)
  {
    hide Poll;
    BusyEnds(bus, at, at + gap + 1);
  }

  lemma TokenPolled(bus: Bus, at: nat, gap: nat, d: seq<Byte>)
    requires ErrorFree(bus) && SendsBlock(bus, at, gap, d)
    ensures Poll(bus, Token, at, Limit(Token)) == Ok(at + gap + 1) && bus.rx(at + gap) == 0xFE
    ensures Bytes(bus, at + gap + 1, BLOCK) == d
    ensures WireCrc(bus, at + gap + 1) == Crc16.Swap(Crc16.State(d))
  {
    hide Poll, Bytes, Crc16.Bits, Crc16.State, Crc16.MessageBits, CrcPoly.Remainder;
    TokenFound(bus, at, at + gap + 1);
    Crc16.CheckMeansRemainder(d, bus.rx(at + gap + 1 + BLOCK), bus.rx(at + gap + 2 + BLOCK));
  }

  lemma BlockIsRead(bus: Bus, chunk: nat, check: bool, at: nat, gap: nat, d: seq<Byte>)
    requires chunk > 0 && ErrorFree(bus) && SendsBlock(bus, at, gap, d)
    ensures Block(bus, chunk, check, at) == Ok(at + gap + 3 + BLOCK) && Payload(bus, at) == d
  {
    hide Poll, Bytes, Crc16.State, SendsBlock, ErrorFree, ChunkError, WireCrc;
    var p := at + gap + 1;
    TokenPolled(bus, at, gap, d);
    NoChunkError(bus, chunk, p, 0);
    ErrorsAt(bus, p + BLOCK);
  }

  lemma OneMore(bus: Bus, chunk: nat, check: bool, at: nat, n: nat, p: nat, q: nat, d: seq<Byte>, x: seq<Byte>)
    requires chunk > 0 && Blocks(bus, chunk, check, at, n) == Ok(p) && Data(bus, chunk, check, at, n) == d
    requires Block(bus, chunk, check, p) == Ok(q) && Payload(bus, p) == x
    ensures Blocks(bus, chunk, check, at, n + 1) == Ok(q) && Data(bus, chunk, check, at, n + 1) == d + x
  {
    hide Block, Payload;
  }

  lemma Prefixes(at: nat, gaps: seq<nat>, data: seq<seq<Byte>>, n: nat)
    requires 0 < n <= |gaps| == |data|
    ensures After(at, gaps[..n]) == After(at, gaps[..n - 1]) + gaps[n - 1] + 3 + BLOCK
    ensures Flat(data[..n]) == Flat(data[..n - 1]) + data[n - 1]
  {
    assert gaps[..n][..n - 1] == gaps[..n - 1] && data[..n][..n - 1] == data[..n - 1];
  }

  lemma {:induction false} BlocksAreRead(
    bus: Bus, chunk: nat, check: bool, at: nat, gaps: seq<nat>, data: seq<seq<Byte>>, n: nat)
    requires chunk > 0 && ErrorFree(bus) && n <= |gaps| == |data| && SendsBlocks(bus, at, gaps, data)
    ensures Blocks(bus, chunk, check, at, n) == Ok(After(at, gaps[..n]))
    ensures Data(bus, chunk, check, at, n) == Flat(data[..n])
  {
    hide ErrorFree, SendsBlock, Block, Payload;
    if n > 0 {
      var p := After(at, gaps[..n - 1]);
      BlocksAreRead(bus, chunk, check, at, gaps, data, n - 1);
      BlockIsRead(bus, chunk, check, p, gaps[n - 1], data[n - 1]);
      OneMore(bus, chunk, check, at, n - 1, p, p + gaps[n - 1] + 3 + BLOCK, Flat(data[..n - 1]), data[n - 1]);
      Prefixes(at, gaps, data, n);
    }
  }

  lemma StopIsAnswered(bus: Bus, at: nat, second: nat, busy: nat)
    requires ErrorFree(bus) && Responds(bus, at + 1, second) && StaysBusy(bus, at + second + 2, busy)
    ensures Issue(bus, at, true).Ok?
  {
    hide Poll, ErrorFree, Responds, StaysBusy;
    ErrorsAt(bus, at);
    ResponsePolled(bus, at + 1, second);
    BusyPolled(bus, at + second + 2, busy);
    ErrorsAt(bus, at + second + busy + 3);
  }

  lemma RequestIsAnswered(bus: Bus, at: nat, first: nat)
    requires ErrorFree(bus) && Responds(bus, at, first)
    ensures Issue(bus, at, false) == Ok(at + first + 1)
  {
    hide Poll, ErrorFree, Responds;
    ErrorsAt(bus, at);
    ResponsePolled(bus, at, first);
  }

  lemma EndsWell(bus: Bus, chunk: nat, check: bool, at: nat, n: nat, p: nat, q: nat)
    requires chunk > 0 && n > 0 && Issue(bus, at, false) == Ok(p) && Blocks(bus, chunk, check, p, n) == Ok(q)
    requires if n > 1 then Issue(bus, q, true).Ok? else bus.freeError(q) == 0
    ensures Transfer(bus, chunk, check, at, n).Ok?
    ensures Delivered(bus, chunk, check, at, n) == Data(bus, chunk, check, p, n)
  {
    hide Issue, Poll, Block, Payload;
  }

  /** A complete answer is read successfully, checked or not and with chunks of any size, and delivers its blocks. */
  lemma AnswerIsRead(
    bus: Bus, chunk: nat, check: bool, at: nat, first: nat, gaps: seq<nat>, data: seq<seq<Byte>>, second: nat, busy: nat)
    requires chunk > 0 && |gaps| == |data| > 0 && AnswersRead(bus, at, first, gaps, data, second, busy)
    ensures Transfer(bus, chunk, check, at, |data|).Ok?
    ensures Delivered(bus, chunk, check, at, |data|) == Flat(data)
  {
    hide ErrorFree, Responds, StaysBusy, SendsBlocks, Issue, Transfer, Delivered, Block, Payload;
    var p := at + first + 1;
    var q := After(p, gaps);
    RequestIsAnswered(bus, at, first);
    BlocksAreRead(bus, chunk, check, p, gaps, data, |data|);
    assert gaps[..|data|] == gaps && data[..|data|] == data;
    if |data| > 1 {
      StopIsAnswered(bus, q, second, busy);
    } else {
      ErrorsAt(bus, q);
    }
    EndsWell(bus, chunk, check, at, |data|, p, q);
  }

  /** The driver on such a card: any read whose blocks are answered completely succeeds, and fills the buffer with
      the asked bytes of those blocks. */
  method ReadAnswered(
    host: Host, mem: array<Byte>, buf: nat, addr: nat, len: nat, check: bool,
    ghost first: nat, ghost gaps: seq<nat>, ghost data: seq<seq<Byte>>, ghost second: nat, ghost busy: nat)
    returns (err: int)
    requires host.chunk > 0 && buf + len <= mem.Length && len > 0
    requires |gaps| == |data| == BlockCount(addr, len)
    requires |data| > 0 && AnswersRead(host.bus, host.at, first, gaps, data, second, busy)
    modifies host, mem
    ensures err == 0
    ensures addr % BLOCK + len <= |Flat(data)| && mem[buf..buf + len] == Flat(data)[addr % BLOCK..addr % BLOCK + len]
    ensures SameOutside(mem[..], old(mem[..]), buf, buf + len)
    ensures host.sent == old(host.sent) + Commands(addr / BLOCK, |data|)
  {
    AnswerIsRead(host.bus, host.chunk, check, host.at, first, gaps, data, second, busy);
    ghost var d;
    err, d := host.Read(mem, buf, addr, len, check);
  }
}
