/** Booting from an SD card: the search and the load of `gpt.c`, all reads going through the driver of
    `spi_sdcard.c`. */
module GptBoot {
  import opened Common
  import opened Gpt
  import opened GptReader
  import SdCard
  import SdTheorems

  /** In every read so far the card served its own blocks, garbled at most by bursts. */
  ghost predicate Trusted(host: SdCard.Host, disk: Disk)
    requires host.chunk > 0
    reads host
  {
    forall k :: 0 <= k < |host.history| ==> SdTheorems.ServesRead(host, host.history[k], disk)
  }

  /** The transfer of the read at place `k` of the log succeeds, and the card holds the signature. */
  ghost predicate HasSignature(host: SdCard.Host, k: nat, disk: Disk)
    requires host.chunk > 0 && k < |host.history|
    reads host
  {
    SdTheorems.Completes(host, host.history[k]) && WordsOf(disk)(LBA).0 == SIGNATURE
  }

  /** Every read from place `from` of the log on has succeeded. */
  ghost predicate Completed(host: SdCard.Host, from: nat)
    requires host.chunk > 0
    reads host
  {
    forall k :: from <= k < |host.history| ==> SdTheorems.Completes(host, host.history[k])
  }

  /** The read of the signature. */
  function SignatureRead(at: nat): SdCard.ReadCall
  {
    SdCard.ReadCall(at, LBA, 8, true)
  }

  /** The card's addresses divide the range of the words. */
  lemma CardOfWord(a: nat)
    ensures CardAddress(a % WORD) == CardAddress(a)
  {
    var q, r := a / WORD, a % WORD;
    var u, v := r / SdTheorems.ADDRESSABLE, r % SdTheorems.ADDRESSABLE;
    assert a == SdTheorems.ADDRESSABLE * (0x80_0000 * q + u) + v;
  }

  /** What is asked for in the well-formed case. */
  lemma AskedFor(
    disk: Disk, gpt: bool, maxLbas: nat, tguid: Option<Guid>, pguid: Option<Guid>,
    index: int, begin: nat, end: nat, addr: nat, len: nat)
    requires 0 < maxLbas && LBA * maxLbas < WORD
    requires IsBootRange(WordsOf(disk), gpt, maxLbas, tguid, pguid, index, begin, end)
    requires addr == (LBA * begin) % WORD && len == (LBA * Lbas(begin, end)) % WORD
    requires !FallsBackToMalformed(WordsOf(disk), gpt, maxLbas, tguid, pguid)
    ensures Lbas(begin, end) <= maxLbas && len == LBA * Lbas(begin, end)
    ensures CardAddress(addr) == CardAddress(LBA * begin)
  {
    WordsInRange(disk);
    BootIsBounded(WordsOf(disk), gpt, maxLbas, tguid, pguid, index, begin, end);
    SmallMod(LBA * Lbas(begin, end));
    CardOfWord(LBA * begin);
  }

  /** The search on the card: the boot range, and what to read for it. */
  method PlanOnCard(
    host: SdCard.Host, maxLbas: nat, tguid: Option<Guid>, pguid: Option<Guid>, ghost disk: Disk)
    returns (err: int, gpt: bool, index: int, begin: nat, end: nat, addr: nat, len: nat)
    requires host.chunk > 0 && 0 < maxLbas && LBA * maxLbas < WORD
    modifies host
    ensures old(host.history) + [SignatureRead(old(host.at))] <= host.history
    ensures Trusted(host, disk) ==> (gpt <==> HasSignature(host, |old(host.history)|, disk))
    ensures err == 0 <==> Completed(host, |old(host.history)| + 1)
    ensures Trusted(host, disk) && err == 0 ==>
            IsBootRange(WordsOf(disk), gpt, maxLbas, tguid, pguid, index, begin, end)
    ensures Trusted(host, disk) && err == 0 && !FallsBackToMalformed(WordsOf(disk), gpt, maxLbas, tguid, pguid) ==>
            && Lbas(begin, end) <= maxLbas && len == LBA * Lbas(begin, end)
            && CardAddress(addr) == CardAddress(LBA * begin)
  {
    hide SdTheorems.Completes, SdTheorems.ServesRead;
    var reader := new Reader.OnCard(host, disk);
    err, gpt, index, begin, end, addr, len := reader.Plan(maxLbas, tguid, pguid);
    assert Trusted(host, disk) ==> reader.Honest();
    if Trusted(host, disk) && err == 0 && !FallsBackToMalformed(WordsOf(disk), gpt, maxLbas, tguid, pguid) {
      AskedFor(disk, gpt, maxLbas, tguid, pguid, index, begin, end, addr, len);
    }
  }

  /** The load of the code, where it fits. */
  method Load(host: SdCard.Host, mem: array<SdCard.Byte>, buf: nat, addr: nat, len: nat, ghost disk: Disk)
    returns (err: int, overrun: bool)
    requires host.chunk > 0 && buf <= mem.Length
    modifies host, mem
    ensures overrun <==> buf + len > mem.Length
    ensures host.history == old(host.history) +
            if overrun then [] else [SdCard.ReadCall(old(host.at), addr, len, true)]
    ensures err == 0 <==> Completed(host, |old(host.history)|)
    ensures Trusted(host, disk) ==> old(Trusted(host, disk))
    ensures Trusted(host, disk) && err == 0 && !overrun ==>
            mem[buf..buf + len] == SdTheorems.DiskBytes(disk, CardAddress(addr), len)
    ensures SdCard.SameOutside(mem[..], old(mem[..]), buf, if overrun then buf else buf + len)
  {
    hide SdTheorems.Completes, SdTheorems.ServesRead;
    err, overrun := 0, buf + len > mem.Length;
    if !overrun {
      ghost var log := host.history;
      err := SdTheorems.ReadCard(host, mem, buf, addr, len, true, disk);
      assert host.history[|log|] == SdCard.ReadCall(old(host.at), addr, len, true);
      assert forall k :: 0 <= k < |log| ==> host.history[k] == log[k];
    }
  }

  /** `gpt_boot_part_else_raw` with the SD driver's checked read, up to the jump to the loaded code. Whatever
      the disk holds: if no read fails and the search does not fall back to a malformed first entry, the code
      buffer holds exactly the blocks of the boot range, at most `maxLbas` of them. In the other case the
      source may write past the buffer, and the method stops with `overrun` instead. */
  method Boot(
    host: SdCard.Host, mem: array<SdCard.Byte>, buf: nat, maxLbas: nat, tguid: Option<Guid>, pguid: Option<Guid>,
    ghost disk: Disk)
    returns (err: int, overrun: bool, gpt: bool, index: int, begin: nat, end: nat)
    requires host.chunk > 0 && 0 < maxLbas && LBA * maxLbas < WORD
    requires buf + LBA * maxLbas <= mem.Length
    modifies host, mem
    ensures old(host.history) + [SignatureRead(old(host.at))] <= host.history
    ensures Trusted(host, disk) ==> (gpt <==> HasSignature(host, |old(host.history)|, disk))
    ensures err == 0 <==> Completed(host, |old(host.history)| + 1)
    ensures Trusted(host, disk) && err == 0 ==>
            IsBootRange(WordsOf(disk), gpt, maxLbas, tguid, pguid, index, begin, end)
    ensures Trusted(host, disk) && err == 0 && !FallsBackToMalformed(WordsOf(disk), gpt, maxLbas, tguid, pguid) ==>
            && !overrun && Lbas(begin, end) <= maxLbas
            && mem[buf..buf + LBA * Lbas(begin, end)]
               == SdTheorems.DiskBytes(disk, CardAddress(LBA * begin), LBA * Lbas(begin, end))
            && SdCard.SameOutside(mem[..], old(mem[..]), buf, buf + LBA * Lbas(begin, end))
    ensures SdCard.SameOutside(mem[..], old(mem[..]), buf, mem.Length)
  {
    hide SdTheorems.Completes, SdTheorems.ServesRead;
    var addr, len;
    overrun := false;
    err, gpt, index, begin, end, addr, len := PlanOnCard(host, maxLbas, tguid, pguid, disk);
    if err == 0 {
      ghost var log := host.history;
      err, overrun := Load(host, mem, buf, addr, len, disk);
      assert forall k :: 0 <= k < |log| ==> host.history[k] == log[k];
    }
  }
}
