/** Finding the partition to boot from a GPT disk (`gpt.c`), in sixty-four-bit arithmetic. */
module Gpt {
  import opened Common

  /** The range of a sixty-four-bit word. */
  const WORD := 0x1_0000_0000_0000_0000
  const HALF := 0x1_0000_0000
  const LBA := 0x200

  const SIGNATURE := 0x5452415020494645

  /** A GUID as two words. */
  datatype Guid = Guid(lo: nat, hi: nat)

  function Add(a: nat, b: nat): nat { (a + b) % WORD }

  function Sub(a: nat, b: nat): nat { (a - b) % WORD }

  // ---- the disk's contents ----

  /** A disk as seen by the search: the two sixty-four-bit words at each byte address. */
  type Words = nat -> (nat, nat)

  /** The fields of the header that matter here. */
  datatype Header = Header(lba: nat, count: nat, size: nat)

  function HeaderOf(disk: Words): Header
  {
    var (lba, w) := disk(LBA + 0x48);
    Header(lba, w % HALF, w / HALF)
  }

  /** The address of a partition entry. */
  function EntryAt(h: Header, p: nat): nat
  {
    (LBA * h.lba + p * h.size) % WORD
  }

  function Begin(disk: Words, h: Header, p: nat): nat { disk(Add(EntryAt(h, p), 0x20)).0 }

  function End(disk: Words, h: Header, p: nat): nat { disk(Add(EntryAt(h, p), 0x20)).1 }

  function GuidAt(disk: Words, at: nat): Guid { Guid(disk(at).0, disk(at).1) }

  function TypeGuid(disk: Words, h: Header, p: nat): Guid { GuidAt(disk, EntryAt(h, p)) }

  function PartGuid(disk: Words, h: Header, p: nat): Guid { GuidAt(disk, Add(EntryAt(h, p), 0x10)) }

  predicate Fits(disk: Words, h: Header, p: nat, maxLbas: nat)
  {
    Sub(End(disk, h, p), Begin(disk, h, p)) < maxLbas
  }

  /** Either the partition type or the partition itself is asked for. */
  predicate Matches(disk: Words, h: Header, p: nat, tguid: Option<Guid>, pguid: Option<Guid>)
  {
    tguid == Some(TypeGuid(disk, h, p)) || pguid == Some(PartGuid(disk, h, p))
  }

  predicate Wanted(disk: Words, h: Header, p: nat, maxLbas: nat, tguid: Option<Guid>, pguid: Option<Guid>)
  {
    Fits(disk, h, p, maxLbas) && Matches(disk, h, p, tguid, pguid)
  }

  /** The end of a range, cut off at `maxLbas` blocks. */
  function Clip(begin: nat, end: nat, maxLbas: nat): nat
  {
    var cut := (begin + maxLbas - 1) % WORD;
    if end <= cut then end else cut
  }

  ghost predicate NoneBefore(
    disk: Words, h: Header, n: nat, maxLbas: nat, tguid: Option<Guid>, pguid: Option<Guid>)
  {
    forall p :: 0 <= p < n ==> !Wanted(disk, h, p, maxLbas, tguid, pguid)
  }

  lemma NoneNext(disk: Words, h: Header, n: nat, maxLbas: nat, tguid: Option<Guid>, pguid: Option<Guid>)
    requires NoneBefore(disk, h, n, maxLbas, tguid, pguid) && !Wanted(disk, h, n, maxLbas, tguid, pguid)
    ensures NoneBefore(disk, h, n + 1, maxLbas, tguid, pguid)
  {
  }

  /** The least entry that fits and is asked for; failing that, index -1 and the clipped first entry. */
  ghost predicate IsSearchResult(
    disk: Words, h: Header, begin0: nat, end0: nat, maxLbas: nat, tguid: Option<Guid>, pguid: Option<Guid>,
    index: int, begin: nat, end: nat)
  {
    if index == -1 then
      && NoneBefore(disk, h, h.count, maxLbas, tguid, pguid)
      && begin == (if h.count == 0 then begin0 else Begin(disk, h, 0))
      && end == if h.count == 0 then end0 else Clip(Begin(disk, h, 0), End(disk, h, 0), maxLbas)
    else
      && 0 <= index < h.count && Wanted(disk, h, index, maxLbas, tguid, pguid)
      && NoneBefore(disk, h, index, maxLbas, tguid, pguid)
      && begin == Begin(disk, h, index) && end == End(disk, h, index)
  }

  /** The number of blocks of an inclusive range. */
  function Lbas(begin: nat, end: nat): nat
  {
    (end - begin + 1) % WORD
  }

  /** The range to boot: the raw start of the disk without a GPT, else what the search says. */
  ghost predicate IsBootRange(
    disk: Words, gpt: bool, maxLbas: nat, tguid: Option<Guid>, pguid: Option<Guid>,
    index: int, begin: nat, end: nat)
  {
    if gpt then IsSearchResult(disk, HeaderOf(disk), 0, (maxLbas - 1) % WORD, maxLbas, tguid, pguid, index, begin, end)
    else index == -1 && begin == 0 && end == (maxLbas - 1) % WORD
  }

  // ---- what is loaded ----

  /** No entry fits and is asked for, and the first one, taken instead, ends more than one block before it begins, and the
      cut-off does not wrap around. */
  ghost predicate FallsBackToMalformed(
    disk: Words, gpt: bool, maxLbas: nat, tguid: Option<Guid>, pguid: Option<Guid>)
  {
    var h := HeaderOf(disk);
    && gpt && h.count > 0 && NoneBefore(disk, h, h.count, maxLbas, tguid, pguid)
    && Begin(disk, h, 0) + maxLbas - 1 < WORD && End(disk, h, 0) + 1 < Begin(disk, h, 0)
  }

  lemma ClipBounds(begin: nat, end: nat, maxLbas: nat)
    requires begin < WORD && end < WORD && 0 < maxLbas < WORD
    ensures Lbas(begin, Clip(begin, end, maxLbas)) <= maxLbas <==> !(begin + maxLbas - 1 < WORD && end + 1 < begin)
  {
    if begin + maxLbas - 1 < WORD {
      SmallMod(begin + maxLbas - 1);
      var e := Clip(begin, end, maxLbas);
      if begin <= e + 1 {
        SmallMod(e - begin + 1);
      } else {
        WrapUp(e - begin + 1);
      }
    } else {
      WrapDown(begin + maxLbas - 1);
      var e := Clip(begin, end, maxLbas);
      WrapUp(e - begin + 1);
    }
  }

  lemma SmallMod(a: int)
    requires 0 <= a < WORD
    ensures a % WORD == a
  {
  }

  lemma WrapUp(a: int)
    requires -WORD <= a < 0
    ensures a % WORD == a + WORD
  {
  }

  lemma WrapDown(a: int)
    requires WORD <= a < 2 * WORD
    ensures a % WORD == a - WORD
  {
  }

  lemma FittingBounds(begin: nat, end: nat, maxLbas: nat)
    requires begin < WORD && end < WORD && Sub(end, begin) < maxLbas < WORD
    ensures Lbas(begin, end) <= maxLbas
  {
    if begin <= end {
      SmallMod(end - begin);
      SmallMod(end - begin + 1);
    } else {
      WrapUp(end - begin);
      if end - begin + 1 == 0 { SmallMod(0); } else { WrapUp(end - begin + 1); }
    }
  }

  ghost predicate InRange(disk: Words)
  {
    forall a :: disk(a).0 < WORD && disk(a).1 < WORD
  }

  /** The boot range has at most `maxLbas` blocks, except exactly when the search falls back to a malformed
      first entry. */
  lemma BootIsBounded(
    disk: Words, gpt: bool, maxLbas: nat, tguid: Option<Guid>, pguid: Option<Guid>, index: int, begin: nat, end: nat)
    requires InRange(disk)
    requires 0 < maxLbas < WORD && IsBootRange(disk, gpt, maxLbas, tguid, pguid, index, begin, end)
    ensures Lbas(begin, end) <= maxLbas <==> !FallsBackToMalformed(disk, gpt, maxLbas, tguid, pguid)
  {
    var h := HeaderOf(disk);
    SmallMod(maxLbas - 1);
    SmallMod(maxLbas);
    if gpt && index == -1 && h.count > 0 {
      ClipBounds(Begin(disk, h, 0), End(disk, h, 0), maxLbas);
    } else if gpt && index != -1 {
      FittingBounds(begin, end, maxLbas);
    }
  }

  /** Then the bytes asked for are exactly those blocks, and at most 512 times `maxLbas`. */
  lemma BootLength(begin: nat, end: nat, maxLbas: nat, addr: nat, len: nat)
    requires Lbas(begin, end) <= maxLbas && LBA * maxLbas < WORD && LBA * begin < WORD
    requires addr == (LBA * begin) % WORD && len == (LBA * Lbas(begin, end)) % WORD
    ensures addr == LBA * begin && len == LBA * Lbas(begin, end) <= LBA * maxLbas
  {
    SmallMod(LBA * begin);
    SmallMod(LBA * Lbas(begin, end));
  }

  /** A disk on which the bound fails: one entry, from block 2 to block 0, that nobody asked for. */
  lemma MalformedEntryOverflows()
    ensures exists disk: Words, begin: nat, end: nat ::
              && InRange(disk)
              && IsBootRange(disk, true, 64, None, None, -1, begin, end)
              && Lbas(begin, end) > 64
  {
    var disk: Words := a => if a == LBA + 0x48 then (2, 1 + 128 * HALF)
                            else if a == 2 * LBA + 0x20 then (2, 0) else (0, 0);
    var h := HeaderOf(disk);
    assert h == Header(2, 1, 128);
    assert EntryAt(h, 0) == 2 * LBA;
    assert Begin(disk, h, 0) == 2 && End(disk, h, 0) == 0;
    assert Clip(2, 0, 64) == 0;
    assert IsBootRange(disk, true, 64, None, None, -1, 2, 0);
    WrapUp(0 - 2 + 1);
  }
}
