/** Flashing a NOR flash over SPI (`spi_s25fs512s.c`): a model of the chip, and the driver that erases,
    programs and reads it. */
module Flash {

  const SECTOR := 0x40000
  const SMALL := 0x1000
  const SMALLS := 0x8000
  const PAGE := 0x100

  /** Where the chip has its eight small sectors, if at all. */
  datatype Overlay = Without | Bottom | Top

  // ---- cells ----

  /** Programming can only clear bits. */
  function Programmed(cells: seq<bv8>, at: nat, data: seq<bv8>): (r: seq<bv8>)
    ensures |r| == |cells|
  {
    seq(|cells|, i requires 0 <= i < |cells| =>
      if at <= i < at + |data| then cells[i] & data[i - at] else cells[i])
  }

  function Erased(cells: seq<bv8>, lo: nat, hi: nat): (r: seq<bv8>)
    ensures |r| == |cells|
  {
    seq(|cells|, i requires 0 <= i < |cells| => if lo <= i < hi then 0xFF else cells[i])
  }

  ghost predicate Blank(cells: seq<bv8>, lo: nat, hi: nat)
  {
    hi <= |cells| && forall k :: lo <= k < hi ==> cells[k] == 0xFF
  }

  /** The two contents agree outside `lo..hi`. */
  ghost predicate SameOutside(cells: seq<bv8>, was: seq<bv8>, lo: nat, hi: nat)
  {
    |cells| == |was| && forall k :: 0 <= k < |cells| && !(lo <= k < hi) ==> cells[k] == was[k]
  }

  /** The contents at `at` are the first `n` bytes of `data`. */
  ghost predicate Written(cells: seq<bv8>, at: nat, data: seq<bv8>, n: nat)
  {
    n <= |data| && at + n <= |cells| && cells[at..at + n] == data[..n]
  }

  lemma KeepsOnes(b: bv8)
    ensures 0xFF & b == b
  {
  }

  /** Programming blank cells writes the data. */
  lemma ProgramsBlank(cells: seq<bv8>, at: nat, data: seq<bv8>)
    requires Blank(cells, at, at + |data|)
    ensures Programmed(cells, at, data)[at..at + |data|] == data
  {
    forall i | 0 <= i < |data| ensures Programmed(cells, at, data)[at + i] == data[i] {
      KeepsOnes(data[i]);
    }
  }

  // ---- the chip ----

  /** The status register: write in progress, write enabled, and the two failure flags. */
  function StatusByte(busy: bool, wel: bool, failed: bv8): bv8
  {
    (if busy then 1 else 0) | (if wel then 2 else 0) | (failed & 0x60)
  }

  lemma StatusBits(busy: bool, wel: bool, failed: bv8)
    ensures (StatusByte(busy, wel, failed) & 1 != 0) == busy
    ensures StatusByte(busy, wel, failed) & 0x60 == failed & 0x60
  {
  }

  class Chip {
    const sectors: nat
    const overlay: Overlay
    /** How many status reads an operation stays in progress, whether it fails, and how a transaction on the
        link ends, by the number of transactions so far. */
    const latency: nat -> nat
    const fails: nat -> bool
    const linkError: nat -> int
    var cells: seq<bv8>
    var wel: bool
    var busy: nat
    var failed: bv8
    var count: nat
    /** Every erase and program so far came with write-enable set and no operation in progress. */
    ghost var clean: bool

    constructor (sectors: nat, overlay: Overlay, cells: seq<bv8>,
                 latency: nat -> nat, fails: nat -> bool, linkError: nat -> int)
      requires |cells| == sectors * SECTOR
      ensures this.sectors == sectors && this.overlay == overlay && this.cells == cells && busy == 0 && clean
      ensures this.latency == latency && this.fails == fails && this.linkError == linkError
    {
      this.sectors, this.overlay, this.cells := sectors, overlay, cells;
      this.latency, this.fails, this.linkError := latency, fails, linkError;
      wel, busy, failed, count, clean := false, 0, 0, 0, true;
    }

    /** Nothing ever fails. */
    ghost predicate Reliable()
      reads this
    {
      (forall k :: linkError(k) == 0) && (forall k :: !fails(k)) && failed & 0x60 == 0
    }

    /** The small sectors occupy `SmallsAt..SmallsAt + SMALLS`, unless the chip has none. */
    function SmallsAt(): (at: nat)
      requires sectors > 0
    {
      if overlay == Top then sectors * SECTOR - SMALLS else 0
    }

    predicate InSmalls(addr: nat)
      requires sectors > 0
    {
      overlay != Without && SmallsAt() <= addr < SmallsAt() + SMALLS
    }

    /** The cells a sector erase at a sector's address clears: all but the small sectors. */
    function EraseFrom(addr: nat): nat
      requires sectors > 0
    {
      if overlay == Bottom && addr == 0 then SMALLS else addr
    }

    function EraseTo(addr: nat): nat
      requires sectors > 0
    {
      if overlay == Top && addr == (sectors - 1) * SECTOR then addr + SECTOR - SMALLS else addr + SECTOR
    }

    /** Opcode 0x06. */
    method WriteEnable() returns (err: int)
      modifies this`wel, this`count
      ensures busy == 0 ==> wel
      ensures busy > 0 ==> wel == old(wel)
      ensures old(Reliable()) ==> Reliable() && err == 0
    {
      err, count := linkError(count), count + 1;
      if busy == 0 {
        wel := true;
      }
    }

    /** Opcode 0x21: a small sector; without effect on other addresses, when busy, or when not enabled. */
    method EraseSmall(addr: nat) returns (err: int)
      requires sectors > 0 && addr % SMALL == 0
      modifies this
      ensures cells == if old(wel) && old(busy) == 0 && InSmalls(addr) && failed & 0x60 == 0
                       then Erased(old(cells), addr, addr + SMALL) else old(cells)
      ensures old(Reliable()) ==> Reliable() && err == 0
      ensures clean == (old(clean) && old(wel) && old(busy) == 0)
    {
      clean := clean && wel && busy == 0;
      err := linkError(count);
      if wel && busy == 0 && InSmalls(addr) {
        failed := if fails(count) then 0x20 else 0;
        if failed & 0x60 == 0 {
          cells := Erased(cells, addr, addr + SMALL);
        }
        wel, busy := false, latency(count);
      }
      count := count + 1;
    }

    /** Opcode 0xDC: a large sector, small sectors in it excepted. */
    method EraseSector(addr: nat) returns (err: int)
      requires sectors > 0 && addr % SECTOR == 0
      modifies this
      ensures cells == if old(wel) && old(busy) == 0 && failed & 0x60 == 0
                       then Erased(old(cells), EraseFrom(addr), EraseTo(addr)) else old(cells)
      ensures old(Reliable()) ==> Reliable() && err == 0
      ensures clean == (old(clean) && old(wel) && old(busy) == 0)
    {
      clean := clean && wel && busy == 0;
      err := linkError(count);
      if wel && busy == 0 {
        failed := if fails(count) then 0x20 else 0;
        if failed & 0x60 == 0 {
          cells := Erased(cells, EraseFrom(addr), EraseTo(addr));
        }
        wel, busy := false, latency(count);
      }
      count := count + 1;
    }

    /** Opcode 0x12: a page. */
    method Program(addr: nat, data: seq<bv8>) returns (err: int)
      requires |data| == PAGE && addr % PAGE == 0
      modifies this
      ensures cells == if old(wel) && old(busy) == 0 && failed & 0x60 == 0
                       then Programmed(old(cells), addr, data) else old(cells)
      ensures old(Reliable()) ==> Reliable() && err == 0
      ensures clean == (old(clean) && old(wel) && old(busy) == 0)
    {
      clean := clean && wel && busy == 0;
      err := linkError(count);
      if wel && busy == 0 {
        failed := if fails(count) then 0x40 else 0;
        if failed & 0x60 == 0 {
          cells := Programmed(cells, addr, data);
        }
        wel, busy := false, latency(count);
      }
      count := count + 1;
    }

    /** Opcode 0x05. */
    method ReadStatus() returns (status: bv8, err: int)
      modifies this`busy, this`count
      ensures status == StatusByte(busy > 0, wel, failed)
      ensures busy == if old(busy) == 0 then 0 else old(busy) - 1
      ensures old(Reliable()) ==> Reliable() && err == 0
    {
      err, count := linkError(count), count + 1;
      if busy > 0 {
        busy := busy - 1;
      }
      status := StatusByte(busy > 0, wel, failed);
    }

    /** A mode command without effect on the cells. */
    method Mode() returns (err: int)
      modifies this`count
      ensures old(Reliable()) ==> Reliable() && err == 0
    {
      err, count := linkError(count), count + 1;
    }

    /** Opcode 0x13: any bytes, wrapping at the end of the chip; nothing drives the line during an operation. */
    method Read(addr: nat, n: nat) returns (data: seq<bv8>, err: int)
      requires |cells| > 0
      modifies this`count
      ensures |data| == n && (busy == 0 ==> data == ReadOut(cells, addr, n))
      ensures old(Reliable()) ==> Reliable() && err == 0
    {
      err, count := linkError(count), count + 1;
      data := if busy == 0 then ReadOut(cells, addr, n) else seq(n, k => 0xFF);
    }
  }

  function CellAt(cells: seq<bv8>, addr: nat): bv8
    requires |cells| > 0
  {
    cells[addr % |cells|]
  }

  function ReadOut(cells: seq<bv8>, addr: nat, n: nat): (data: seq<bv8>)
    requires |cells| > 0
    ensures |data| == n
  {
    seq(n, k requires 0 <= k => CellAt(cells, addr + k))
  }

  lemma ReadOutConcat(cells: seq<bv8>, addr: nat, m: nat, n: nat)
    requires |cells| > 0
    ensures ReadOut(cells, addr, m) + ReadOut(cells, addr + m, n) == ReadOut(cells, addr, m + n)
  {
  }

  // ---- contents ----

  lemma SameTrans(c: seq<bv8>, b: seq<bv8>, a: seq<bv8>, lo: nat, hi: nat, from: nat, to: nat)
    requires from <= lo && hi <= to
    requires SameOutside(c, b, lo, hi) && SameOutside(b, a, from, to)
    ensures SameOutside(c, a, from, to)
  {
  }

  /** A sector is blank once its small sectors, if any, and the rest of it are. */
  lemma SectorBlank(before: seq<bv8>, after: seq<bv8>, addr: nat, from: nat, to: nat)
    requires addr <= from <= to <= addr + SECTOR <= |before| && after == Erased(before, from, to)
    requires Blank(before, addr, from) && Blank(before, to, addr + SECTOR)
    ensures Blank(after, addr, addr + SECTOR) && SameOutside(after, before, addr, addr + SECTOR)
  {
  }

  /** One more page programmed into a blank rest. */
  lemma PageWritten(before: seq<bv8>, after: seq<bv8>, addr: nat, data: seq<bv8>, p: nat)
    requires |data| == SECTOR && p + PAGE <= SECTOR && addr + SECTOR <= |before|
    requires Written(before, addr, data, p) && Blank(before, addr + p, addr + SECTOR)
    requires after == Programmed(before, addr + p, data[p..p + PAGE])
    ensures Written(after, addr, data, p + PAGE) && Blank(after, addr + p + PAGE, addr + SECTOR)
    ensures SameOutside(after, before, addr, addr + SECTOR)
  {
    ProgramsBlank(before, addr + p, data[p..p + PAGE]);
    assert after[addr..addr + p] == before[addr..addr + p];
    assert after[addr..addr + p + PAGE] == after[addr..addr + p] + after[addr + p..addr + p + PAGE];
    assert data[..p + PAGE] == data[..p] + data[p..p + PAGE];
  }

  function Min(a: nat, b: nat): nat { if a < b then a else b }

  lemma Joined(before: seq<bv8>, after: seq<bv8>, at: nat, m: nat, data: seq<bv8>)
    requires at + m + |data| <= |after| && after[at + m..at + m + |data|] == data
    requires SameOutside(after, before, at + m, at + m + |data|)
    ensures after[at..at + m + |data|] == before[at..at + m] + data
  {
    assert after[at..at + m] == before[at..at + m];
  }

  lemma PartOfPart(s: seq<bv8>, at: nat, n: nat, from: nat, len: nat)
    requires at + n <= |s| && from + len <= n
    ensures s[at..at + n][from..from + len] == s[at + from..at + from + len]
  {
    var part, direct := s[at..at + n][from..from + len], s[at + from..at + from + len];
    assert forall k :: 0 <= k < len ==> part[k] == s[at + from + k] == direct[k];
    assert part == direct;
  }

  lemma SectorInRange(sector: nat, s: nat, n: nat, sectors: nat)
    requires s < n && sector + n <= sectors
    ensures (sector + s) * SECTOR % SECTOR == 0 && (sector + s) * SECTOR == sector * SECTOR + s * SECTOR
    ensures s * SECTOR + SECTOR <= n * SECTOR && (sector + s) * SECTOR + SECTOR <= (sector + n) * SECTOR
    ensures (sector + n) * SECTOR <= sectors * SECTOR
  {
  }

  /** One more sector written after the earlier ones. */
  lemma SectorWritten(before: seq<bv8>, after: seq<bv8>, base: nat, data: seq<bv8>, done: nat)
    requires done + SECTOR <= |data| && base + done + SECTOR <= |after|
    requires Written(before, base, data, done)
    requires Written(after, base + done, data[done..done + SECTOR], SECTOR)
    requires SameOutside(after, before, base + done, base + done + SECTOR)
    ensures Written(after, base, data, done + SECTOR)
  {
    assert after[base..base + done] == before[base..base + done];
    assert after[base..base + done + SECTOR] == after[base..base + done] + after[base + done..base + done + SECTOR];
    assert data[..done + SECTOR] == data[..done] + data[done..done + SECTOR];
  }

  /** After a flash, any part of the flashed range reads back as the buffer's bytes. */
  lemma ReadsBack(cells: seq<bv8>, base: nat, data: seq<bv8>, from: nat, len: nat)
    requires Written(cells, base, data, |data|) && from + len <= |data| && |cells| > 0
    ensures ReadOut(cells, base + from, len) == data[from..from + len]
  {
    var out := ReadOut(cells, base + from, len);
    forall k | 0 <= k < len ensures out[k] == data[from + k] {
      InRange(base + from + k, |cells|);
      assert cells[base + from + k] == cells[base..base + |data|][from + k] == data[..|data|][from + k];
      assert out[k] == CellAt(cells, base + from + k);
    }
  }

  lemma InRange(a: nat, n: nat)
    requires a < n
    ensures a % n == a
  {
  }

  /** Where small sectors can be, the driver looks: the first sector has alignment 0, the last one 63. */
  lemma OverlayIsAligned(sectors: nat, addr: nat)
    requires sectors % 64 == 0 && addr % SECTOR == 0
    ensures addr == 0 ==> (addr / SECTOR) % 64 == 0
    ensures sectors > 0 && addr == (sectors - 1) * SECTOR ==> (addr / SECTOR) % 64 == 63
  {
    if sectors > 0 && addr == (sectors - 1) * SECTOR {
      assert addr / SECTOR == sectors - 1;
    }
  }

  // ---- the driver ----

  class Driver {
    const chip: Chip
    const freq: nat
    /** Bytes per receive segment: four times the depth of the receive FIFO. */
    const chunk: nat

    constructor (chip: Chip, freq: nat, chunk: nat)
      ensures this.chip == chip && this.freq == freq && this.chunk == chunk
    {
      this.chip, this.freq, this.chunk := chip, freq, chunk;
    }

    /** Reads the status until nothing is in progress; then its failure flags. */
    method PollWip() returns (err: int)
      modifies chip`busy, chip`count
      ensures err == 0 ==> chip.busy == 0 && chip.failed & 0x60 == 0
      ensures old(chip.Reliable()) ==> chip.Reliable() && err == 0
    {
      var status: bv8 := 1;
      while status & 1 != 0
        invariant status & 1 == 0 ==> chip.busy == 0 && status & 0x60 == chip.failed & 0x60
        decreases chip.busy, status & 1
      {
        status, err := chip.ReadStatus();
        StatusBits(chip.busy > 0, chip.wel, chip.failed);
        if err != 0 {
          return;
        }
      }
      err := (status & 0x60) as int;
    }

    method EraseSmall(addr: nat) returns (err: int)
      requires chip.sectors > 0 && addr % SMALL == 0 && chip.busy == 0
      modifies chip
      ensures err == 0 ==> chip.busy == 0
      ensures err == 0 && chip.InSmalls(addr) ==> chip.cells == Erased(old(chip.cells), addr, addr + SMALL)
      ensures SameOutside(chip.cells, old(chip.cells), addr, addr + SMALL)
      ensures old(chip.Reliable()) ==> chip.Reliable() && err == 0
      ensures old(chip.clean) ==> chip.clean
    {
      err := chip.WriteEnable();
      if err != 0 {
        return;
      }
      err := chip.EraseSmall(addr);
      if err != 0 {
        return;
      }
      err := PollWip();
    }

    /** Erases eight small sectors from `addr` on; without effect where the chip has none. */
    method EraseSmalls(addr: nat) returns (err: int)
      requires chip.sectors > 0 && addr % SMALL == 0 && chip.busy == 0
      requires addr + SMALLS <= |chip.cells|
      modifies chip
      ensures err == 0 ==> chip.busy == 0
      ensures err == 0 && chip.overlay != Without && chip.SmallsAt() == addr ==> Blank(chip.cells, addr, addr + SMALLS)
      ensures SameOutside(chip.cells, old(chip.cells), addr, addr + SMALLS)
      ensures old(chip.Reliable()) ==> chip.Reliable() && err == 0
      ensures old(chip.clean) ==> chip.clean
    {
      ghost var was := chip.cells;
      err := 0;
      for i := 0 to 8
        invariant err == 0 && chip.busy == 0 && (old(chip.Reliable()) ==> chip.Reliable())
        invariant old(chip.clean) ==> chip.clean
        invariant chip.overlay != Without && chip.SmallsAt() == addr ==> Blank(chip.cells, addr, addr + SMALL * i)
        invariant SameOutside(chip.cells, was, addr, addr + SMALLS)
      {
        ghost var before := chip.cells;
        err := EraseSmall(addr + SMALL * i);
        SameTrans(chip.cells, before, was, addr + SMALL * i, addr + SMALL * i + SMALL, addr, addr + SMALLS);
        if err != 0 {
          return;
        }
      }
    }

    method EraseSector(addr: nat) returns (err: int)
      requires chip.sectors > 0 && addr % SECTOR == 0 && chip.busy == 0
      modifies chip
      ensures err == 0 ==> chip.busy == 0
      ensures err == 0 ==> chip.cells == Erased(old(chip.cells), chip.EraseFrom(addr), chip.EraseTo(addr))
      ensures SameOutside(chip.cells, old(chip.cells), addr, addr + SECTOR)
      ensures old(chip.Reliable()) ==> chip.Reliable() && err == 0
      ensures old(chip.clean) ==> chip.clean
    {
      err := chip.WriteEnable();
      if err != 0 {
        return;
      }
      err := chip.EraseSector(addr);
      if err != 0 {
        return;
      }
      err := PollWip();
    }

    method ProgramPage(addr: nat, data: seq<bv8>) returns (err: int)
      requires |data| == PAGE && addr % PAGE == 0 && chip.busy == 0
      modifies chip
      ensures err == 0 ==> chip.busy == 0
      ensures err == 0 ==> chip.cells == Programmed(old(chip.cells), addr, data)
      ensures SameOutside(chip.cells, old(chip.cells), addr, addr + PAGE)
      ensures old(chip.Reliable()) ==> chip.Reliable() && err == 0
      ensures old(chip.clean) ==> chip.clean
    {
      err := chip.WriteEnable();
      if err != 0 {
        return;
      }
      err := chip.Program(addr, data);
      if err != 0 {
        return;
      }
      err := PollWip();
    }

    /** Erases the small sectors of a sector, where the chip may have them. */
    method EraseOverlay(addr: nat) returns (err: int)
      requires chip.sectors % 64 == 0 && addr % SECTOR == 0 && chip.busy == 0
      requires addr + SECTOR <= |chip.cells| == chip.sectors * SECTOR
      modifies chip
      ensures err == 0 ==> chip.busy == 0
      ensures err == 0 ==> Blank(chip.cells, addr, chip.EraseFrom(addr))
                           && Blank(chip.cells, chip.EraseTo(addr), addr + SECTOR)
      ensures SameOutside(chip.cells, old(chip.cells), addr, addr + SECTOR)
      ensures old(chip.Reliable()) ==> chip.Reliable() && err == 0
      ensures old(chip.clean) ==> chip.clean
    {
      ghost var was := chip.cells;
      var alignment := (addr / SECTOR) % 64;
      var erase, addrSmall := true, addr;
      if alignment == 63 {
        addrSmall := addr + SECTOR - SMALLS;
      } else if alignment != 0 {
        erase := false;
      }
      OverlayIsAligned(chip.sectors, addr);
      err := 0;
      if erase {
        err := EraseSmalls(addrSmall);
        SameTrans(chip.cells, was, was, addrSmall, addrSmall + SMALLS, addr, addr + SECTOR);
      }
    }

    /** Makes a whole sector blank: the small sectors first, where the chip may have them. */
    method BlankSector(addr: nat) returns (err: int)
      requires chip.sectors % 64 == 0 && addr % SECTOR == 0 && chip.busy == 0
      requires addr + SECTOR <= |chip.cells| == chip.sectors * SECTOR
      modifies chip
      ensures err == 0 ==> chip.busy == 0 && Blank(chip.cells, addr, addr + SECTOR)
      ensures SameOutside(chip.cells, old(chip.cells), addr, addr + SECTOR)
      ensures old(chip.Reliable()) ==> chip.Reliable() && err == 0
      ensures old(chip.clean) ==> chip.clean
    {
      ghost var was := chip.cells;
      err := EraseOverlay(addr);
      if err != 0 {
        return;
      }
      ghost var before := chip.cells;
      err := EraseSector(addr);
      SameTrans(chip.cells, before, was, addr, addr + SECTOR, addr, addr + SECTOR);
      if err == 0 {
        SectorBlank(before, chip.cells, addr, chip.EraseFrom(addr), chip.EraseTo(addr));
      }
    }

    /** Programs page `p` of the sector at `addr`, whose earlier pages hold their part of `data`. */
    method ProgramNext(addr: nat, p: nat, page: seq<bv8>, ghost data: seq<bv8>, ghost was: seq<bv8>) returns (err: int)
      requires addr % SECTOR == 0 && p % PAGE == 0 && p + PAGE <= SECTOR == |data| && chip.busy == 0
      requires page == data[p..p + PAGE]
      requires Written(chip.cells, addr, data, p) && Blank(chip.cells, addr + p, addr + SECTOR)
      requires SameOutside(chip.cells, was, addr, addr + SECTOR)
      modifies chip
      ensures err == 0 ==> chip.busy == 0 && Written(chip.cells, addr, data, p + PAGE)
      ensures err == 0 ==> Blank(chip.cells, addr + p + PAGE, addr + SECTOR)
      ensures SameOutside(chip.cells, was, addr, addr + SECTOR)
      ensures old(chip.Reliable()) ==> chip.Reliable() && err == 0
      ensures old(chip.clean) ==> chip.clean
    {
      ghost var before := chip.cells;
      err := ProgramPage(addr + p, page);
      SameTrans(chip.cells, before, was, addr + p, addr + p + PAGE, addr, addr + SECTOR);
      if err == 0 {
        PageWritten(before, chip.cells, addr, data, p);
      }
    }

    /** Programs a blank sector page by page. */
    method ProgramSector(buf: array<bv8>, at: nat, addr: nat) returns (err: int)
      requires at + SECTOR <= buf.Length && addr % SECTOR == 0 && chip.busy == 0
      requires Blank(chip.cells, addr, addr + SECTOR)
      modifies chip
      ensures err == 0 ==> chip.busy == 0 && Written(chip.cells, addr, buf[at..at + SECTOR], SECTOR)
      ensures SameOutside(chip.cells, old(chip.cells), addr, addr + SECTOR)
      ensures old(chip.Reliable()) ==> chip.Reliable() && err == 0
      ensures old(chip.clean) ==> chip.clean
    {
      ghost var was, data := chip.cells, buf[at..at + SECTOR];
      var p := 0;
      err := 0;
      while p < SECTOR
        invariant p <= SECTOR && p % PAGE == 0 && err == 0 && chip.busy == 0
        invariant old(chip.Reliable()) ==> chip.Reliable()
        invariant old(chip.clean) ==> chip.clean
        invariant Written(chip.cells, addr, data, p) && Blank(chip.cells, addr + p, addr + SECTOR)
        invariant SameOutside(chip.cells, was, addr, addr + SECTOR)
      {
        err := ProgramNext(addr, p, buf[at + p..at + p + PAGE], data, was);
        if err != 0 {
          return;
        }
        p := p + PAGE;
      }
    }

    /** `__spi_s25fs512s_single_flash_sector`. */
    method FlashSector(buf: array<bv8>, at: nat, addr: nat) returns (err: int)
      requires chip.sectors % 64 == 0 && addr % SECTOR == 0 && chip.busy == 0
      requires at + SECTOR <= buf.Length && addr + SECTOR <= |chip.cells| == chip.sectors * SECTOR
      modifies chip
      ensures err == 0 ==> chip.busy == 0 && Written(chip.cells, addr, buf[at..at + SECTOR], SECTOR)
      ensures SameOutside(chip.cells, old(chip.cells), addr, addr + SECTOR)
      ensures old(chip.Reliable()) ==> chip.Reliable() && err == 0
      ensures old(chip.clean) ==> chip.clean
    {
      err := BlankSector(addr);
      if err != 0 {
        return;
      }
      ghost var was := chip.cells;
      err := ProgramSector(buf, at, addr);
      SameTrans(chip.cells, was, old(chip.cells), addr, addr + SECTOR, addr, addr + SECTOR);
    }

    /** Flashes the sector after `done` bytes of `data` have been written from `base` on. */
    method FlashNext(
      buf: array<bv8>, from: nat, addr: nat, ghost base: nat, ghost done: nat, ghost data: seq<bv8>,
      ghost end: nat, ghost was: seq<bv8>)
      returns (err: int)
      requires chip.sectors % 64 == 0 && addr % SECTOR == 0 && chip.busy == 0
      requires from + SECTOR <= buf.Length && addr + SECTOR <= |chip.cells| == chip.sectors * SECTOR
      requires addr == base + done && addr + SECTOR <= end
      requires done + SECTOR <= |data| && data[done..done + SECTOR] == buf[from..from + SECTOR]
      requires Written(chip.cells, base, data, done) && SameOutside(chip.cells, was, base, end)
      modifies chip
      ensures err == 0 ==> chip.busy == 0 && Written(chip.cells, base, data, done + SECTOR)
      ensures SameOutside(chip.cells, was, base, end)
      ensures old(chip.Reliable()) ==> chip.Reliable() && err == 0
      ensures old(chip.clean) ==> chip.clean
    {
      ghost var before := chip.cells;
      err := FlashSector(buf, from, addr);
      SameTrans(chip.cells, before, was, addr, addr + SECTOR, base, end);
      if err == 0 {
        SectorWritten(before, chip.cells, base, data, done);
      }
    }

    /** `spi_s25fs512s_single_flash`: whole sectors from a buffer. */
    method FlashSectors(buf: array<bv8>, at: nat, sector: nat, n: nat) returns (err: int)
      requires chip.sectors % 64 == 0 && chip.busy == 0
      requires at + n * SECTOR <= buf.Length && sector + n <= chip.sectors && |chip.cells| == chip.sectors * SECTOR
      modifies chip
      ensures freq >= 100_000_000 ==> err == 0x16
      ensures err == 0 ==> chip.busy == 0
      ensures err == 0 ==> Written(chip.cells, sector * SECTOR, buf[at..at + n * SECTOR], n * SECTOR)
      ensures SameOutside(chip.cells, old(chip.cells), sector * SECTOR, (sector + n) * SECTOR)
      ensures old(chip.Reliable()) && freq < 100_000_000 ==> chip.Reliable() && err == 0
      ensures old(chip.clean) ==> chip.clean
    {
      if freq >= 100_000_000 {
        return 0x16;
      }
      err := Prepare();
      if err != 0 {
        return;
      }
      ghost var was, data := chip.cells, buf[..][at..at + n * SECTOR];
      for s := 0 to n
        invariant err == 0 && chip.busy == 0 && (old(chip.Reliable()) ==> chip.Reliable())
        invariant old(chip.clean) ==> chip.clean
        invariant Written(chip.cells, sector * SECTOR, data, s * SECTOR)
        invariant SameOutside(chip.cells, was, sector * SECTOR, (sector + n) * SECTOR)
      {
        SectorInRange(sector, s, n, chip.sectors);
        PartOfPart(buf[..], at, n * SECTOR, s * SECTOR, SECTOR);
        assert buf[..][at + s * SECTOR..at + s * SECTOR + SECTOR] == buf[at + s * SECTOR..at + s * SECTOR + SECTOR];
        err := FlashNext(buf, at + s * SECTOR, (sector + s) * SECTOR, sector * SECTOR, s * SECTOR, data,
                         (sector + n) * SECTOR, was);
        if err != 0 {
          return;
        }
      }
    }

    /** Enters four-byte addressing and configures the chip. */
    method Prepare() returns (err: int)
      requires chip.busy == 0
      modifies chip`wel, chip`busy, chip`count
      ensures err == 0 ==> chip.busy == 0
      ensures old(chip.Reliable()) ==> chip.Reliable() && err == 0
    {
      err := chip.WriteEnable();
      if err != 0 {
        return;
      }
      err := chip.Mode();
      if err != 0 {
        return;
      }
      err := chip.WriteEnable();
      if err != 0 {
        return;
      }
      err := PollWip();
    }

    /** Reads the next chunk of `n` bytes after `offs` bytes. */
    method ReadChunk(buf: array<bv8>, at: nat, addr: nat, offs: nat, n: nat) returns (err: int)
      requires |chip.cells| > 0 && at + offs + n <= buf.Length
      requires chip.busy == 0 ==> buf[at..at + offs] == ReadOut(chip.cells, addr, offs)
      modifies buf, chip`count
      ensures chip.busy == 0 ==> buf[at..at + offs + n] == ReadOut(chip.cells, addr, offs + n)
      ensures SameOutside(buf[..], old(buf[..]), at + offs, at + offs + n)
      ensures old(chip.Reliable()) ==> chip.Reliable() && err == 0
    {
      ghost var before := buf[..];
      var data;
      data, err := chip.Read(addr + offs, n);
      StoreBytes(buf, at + offs, data);
      if chip.busy == 0 {
        ReadOutConcat(chip.cells, addr, offs, n);
        Joined(before, buf[..], at, offs, data);
      }
    }

    /** `spi_s25fs512s_single_read`: any address and length, in chunks. */
    method Read(buf: array<bv8>, at: nat, addr: nat, len: nat) returns (err: int)
      requires chunk > 0 && |chip.cells| > 0 && at + len <= buf.Length
      modifies buf, chip`count
      ensures freq >= 50_000_000 ==> err == 0x15
      ensures err == 0 && chip.busy == 0 ==> buf[at..at + len] == ReadOut(chip.cells, addr, len)
      ensures SameOutside(buf[..], old(buf[..]), at, at + len)
      ensures old(chip.Reliable()) && freq < 50_000_000 ==> chip.Reliable() && err == 0
    {
      if freq >= 50_000_000 {
        return 0x15;
      }
      ghost var was := buf[..];
      var offs := 0;
      err := 0;
      while offs < len
        modifies buf, chip`count
        invariant err == 0
        invariant chip.busy == 0 ==> buf[at..at + Min(offs, len)] == ReadOut(chip.cells, addr, Min(offs, len))
        invariant SameOutside(buf[..], was, at, at + len)
        decreases len - offs
      {
        var n := if chunk <= len - offs then chunk else len - offs;
        ghost var before := buf[..];
        err := ReadChunk(buf, at, addr, offs, n);
        SameTrans(buf[..], before, was, at + offs, at + offs + n, at, at + len);
        if err != 0 {
          return;
        }
        offs := offs + chunk;
      }
    }

    static method StoreBytes(buf: array<bv8>, at: nat, data: seq<bv8>)
      requires at + |data| <= buf.Length
      modifies buf
      ensures buf[at..at + |data|] == data
      ensures SameOutside(buf[..], old(buf[..]), at, at + |data|)
    {
      for j := 0 to |data|
        invariant buf[at..at + j] == data[..j]
        invariant SameOutside(buf[..], old(buf[..]), at, at + j)
      {
        buf[at + j] := data[j];
      }
    }
  }
}
