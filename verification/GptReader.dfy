/** The partition search of `gpt.c` over a read callback: the SD driver's checked read, or any other storage. */
module GptReader {
  import opened Common
  import opened Gpt
  import SdCard
  import SdTheorems

  type Disk = SdTheorems.Disk

  // ---- a card as the search sees it ----

  /** The `n`-byte little-endian number at an address. */
  function Number(disk: Disk, at: nat, n: nat): nat
    decreases n
  {
    if n == 0 then 0 else disk(at) + 0x100 * Number(disk, at + 1, n - 1)
  }

  function Range(n: nat): nat { if n == 0 then 1 else 0x100 * Range(n - 1) }

  lemma {:induction false} NumberInRange(disk: Disk, at: nat, n: nat)
    ensures Number(disk, at, n) < Range(n)
    decreases n
  {
    if n > 0 {
      NumberInRange(disk, at + 1, n - 1);
    }
  }

  /** Where an address of the search lies on the card. */
  function CardAddress(at: nat): nat
  {
    at % SdTheorems.ADDRESSABLE
  }

  ghost function WordsOf(disk: Disk): Words
  {
    at => (Number(disk, CardAddress(at), 8), Number(disk, CardAddress(at) + 8, 8))
  }

  lemma WordsInRange(disk: Disk)
    ensures InRange(WordsOf(disk))
  {
    assert Range(4) == HALF && Range(8) == WORD;
    forall at ensures WordsOf(disk)(at).0 < WORD && WordsOf(disk)(at).1 < WORD {
      NumberInRange(disk, CardAddress(at), 8);
      NumberInRange(disk, CardAddress(at) + 8, 8);
    }
  }

  /** The word that eight bytes of a buffer hold. */
  function WordAt(s: seq<SdCard.Byte>, n: nat): nat
    requires n <= |s|
  {
    if n == 0 then 0 else s[0] + 0x100 * WordAt(s[1..], n - 1)
  }

  lemma {:induction false} WordOfDisk(disk: Disk, at: nat, n: nat)
    ensures WordAt(SdTheorems.DiskBytes(disk, at, n), n) == Number(disk, at, n)
    decreases n
  {
    if n > 0 {
      assert SdTheorems.DiskBytes(disk, at, n)[1..] == SdTheorems.DiskBytes(disk, at + 1, n - 1);
      WordOfDisk(disk, at + 1, n - 1);
    }
  }

  /** The two words in the bytes of a disk. */
  lemma TwoWords(disk: Disk, at: nat, s: seq<SdCard.Byte>)
    requires s == SdTheorems.DiskBytes(disk, at, 16)
    ensures WordAt(s[..8], 8) == Number(disk, at, 8) && WordAt(s[8..], 8) == Number(disk, at + 8, 8)
  {
    assert s[..8] == SdTheorems.DiskBytes(disk, at, 8);
    assert s[8..] == SdTheorems.DiskBytes(disk, at + 8, 8);
    WordOfDisk(disk, at, 8);
    WordOfDisk(disk, at + 8, 8);
  }

  // ---- the search ----

  /** What the read callback is: some storage that holds the given words, with an error code by the number of
      calls so far; or the SD driver with checking on. */
  datatype Callback = Plain(words: Words, fail: nat -> int) | Card(host: SdCard.Host)

  class Reader {
    const callback: Callback
    var calls: nat
    /** The bytes on the card. */
    ghost const card: Disk

    constructor OnPlain(words: Words, fail: nat -> int)
      ensures callback == Plain(words, fail) && Valid() && calls == 0
    {
      callback, calls, card := Plain(words, fail), 0, _ => 0;
    }

    constructor OnCard(host: SdCard.Host, ghost disk: Disk)
      requires host.chunk > 0
      ensures callback == Card(host) && card == disk && Valid()
    {
      callback, calls, card := Card(host), 0, disk;
    }

    ghost predicate Valid()
    {
      callback.Card? ==> callback.host.chunk > 0
    }

    ghost function Frame(): set<object>
    {
      {this} + if callback.Card? then {callback.host} else {}
    }

    /** The reads made through the SD driver so far. */
    ghost function Log(): seq<SdCard.ReadCall>
      reads Frame()
    {
      if callback.Card? then callback.host.history else []
    }

    /** The position on the bus. */
    ghost function Position(): nat
      reads Frame()
    {
      if callback.Card? then callback.host.at else 0
    }

    /** What one checked read adds to the log. */
    ghost function Call(at: nat, len: nat, position: nat): seq<SdCard.ReadCall>
    {
      if callback.Card? then [SdCard.ReadCall(position, at, len, true)] else []
    }

    /** In all of them the card served its own blocks, garbled at most by bursts. */
    ghost predicate Honest()
      requires Valid()
      reads Frame()
    {
      forall k :: 0 <= k < |Log()| ==> SdTheorems.ServesRead(callback.host, Log()[k], card)
    }

    /** Every read through the driver since there were `from` of them has succeeded. */
    ghost predicate Completed(from: nat)
      requires Valid()
      reads Frame()
    {
      forall k :: from <= k < |Log()| ==> SdTheorems.Completes(callback.host, Log()[k])
    }

    /** What the storage holds. */
    ghost function Contents(): Words
    {
      if callback.Card? then WordsOf(card) else callback.words
    }

    /** No call ever fails. */
    ghost predicate Reliable()
    {
      callback.Plain? && forall k :: callback.fail(k) == 0
    }

    /** The driver's read of sixteen or eight bytes into a buffer. */
    method ReadBytes(host: SdCard.Host, at: nat, n: nat) returns (buf: array<SdCard.Byte>, err: int)
      requires callback == Card(host) && host.chunk > 0 && n > 0
      modifies host
      ensures fresh(buf) && buf.Length == n
      ensures Log() == old(Log()) + [SdCard.ReadCall(old(host.at), at, n, true)]
      ensures err == 0 <==> SdTheorems.Completes(host, SdCard.ReadCall(old(host.at), at, n, true))
      ensures Honest() && err == 0 ==> buf[..] == SdTheorems.DiskBytes(card, CardAddress(at), n)
    {
      buf := new SdCard.Byte[n](_ => 0);
      err := SdTheorems.ReadCard(host, buf, 0, at, n, true, card);
      assert buf[0..n] == buf[..];
      assert Log()[|Log()| - 1] == SdCard.ReadCall(old(host.at), at, n, true);
    }

    /** Two words from the driver. */
    method ReadPair(host: SdCard.Host, at: nat) returns (w0: nat, w1: nat, err: int)
      requires callback == Card(host) && host.chunk > 0
      modifies host
      ensures Log() == old(Log()) + [SdCard.ReadCall(old(host.at), at, 16, true)]
      ensures err == 0 <==> SdTheorems.Completes(host, SdCard.ReadCall(old(host.at), at, 16, true))
      ensures Honest() && err == 0 ==> (w0, w1) == WordsOf(card)(at)
    {
      hide SdTheorems.Completes, SdTheorems.ServesRead;
      var buf;
      buf, err := ReadBytes(host, at, 16);
      var s := buf[..];
      w0, w1 := WordAt(s[..8], 8), WordAt(s[8..], 8);
      if Honest() && err == 0 {
        TwoWords(card, CardAddress(at), s);
      }
    }

    /** A read of two words. */
    method Read(at: nat) returns (w0: nat, w1: nat, err: int)
      requires Valid()
      modifies Frame()
      ensures Log() == old(Log()) + Call(at, 16, old(Position()))
      ensures Honest() && err == 0 ==> (w0, w1) == Contents()(at)
      ensures Reliable() ==> err == 0
      ensures callback.Card? ==> (err == 0 <==> Completed(old(|Log()|)))
    {
      hide SdTheorems.Completes, SdTheorems.ServesRead;
      match callback {
        case Plain(words, fail) =>
          w0, w1, err := words(at).0, words(at).1, fail(calls);
          calls := calls + 1;
        case Card(host) =>
          w0, w1, err := ReadPair(host, at);
          assert Log()[|old(Log())|] == SdCard.ReadCall(old(host.at), at, 16, true);
      }
    }

    /** A read of one word. */
    method ReadWord(at: nat) returns (w: nat, err: int)
      requires Valid()
      modifies Frame()
      ensures Log() == old(Log()) + Call(at, 8, old(Position()))
      ensures Honest() && err == 0 ==> w == Contents()(at).0
      ensures callback.Card? ==> (err == 0 <==> SdTheorems.Completes(callback.host, Log()[|old(Log())|]))
      ensures callback.Plain? ==> err == callback.fail(old(calls)) && w == callback.words(at).0
    {
      hide SdTheorems.Completes, SdTheorems.ServesRead;
      match callback {
        case Plain(words, fail) =>
          w, err := words(at).0, fail(calls);
          calls := calls + 1;
        case Card(host) =>
          var buf;
          buf, err := ReadBytes(host, at, 8);
          w := WordAt(buf[..], 8);
          WordOfDisk(card, CardAddress(at), 8);
      }
    }

    /** Compares an entry's GUID, if one is asked for. */
    method Compare(at: nat, guid: Option<Guid>) returns (equal: bool, err: int)
      requires Valid()
      modifies Frame()
      ensures old(Log()) <= Log()
      ensures Honest() && err == 0 ==> equal == (guid == Some(GuidAt(Contents(), at)))
      ensures Reliable() ==> err == 0
      ensures callback.Card? ==> (err == 0 <==> Completed(old(|Log()|)))
    {
      hide SdTheorems.Completes, SdTheorems.ServesRead;
      equal, err := false, 0;
      if guid.Some? {
        var w0, w1;
        w0, w1, err := Read(at);
        equal := w0 == guid.value.lo && w1 == guid.value.hi;
      }
    }

    /** The two comparisons of an entry. */
    method CompareBoth(at: nat, tguid: Option<Guid>, pguid: Option<Guid>) returns (found: bool, err: int)
      requires Valid()
      modifies Frame()
      ensures old(Log()) <= Log()
      ensures Honest() && err == 0 ==>
              found == (tguid == Some(GuidAt(Contents(), at)) || pguid == Some(GuidAt(Contents(), Add(at, 0x10))))
      ensures Reliable() ==> err == 0
      ensures callback.Card? ==> (err == 0 <==> Completed(old(|Log()|)))
    {
      hide SdTheorems.Completes, SdTheorems.ServesRead;
      found, err := Compare(at, tguid);
      if err != 0 || found {
        return;
      }
      found, err := Compare(Add(at, 0x10), pguid);
    }

    /** One turn of the search: the entry's range, and whether it is the one to boot. */
    method Examine(h: Header, p: nat, maxLbas: nat, tguid: Option<Guid>, pguid: Option<Guid>)
      returns (dimBegin: nat, dimEnd: nat, found: bool, err: int)
      requires Valid()
      modifies Frame()
      ensures old(Log()) <= Log()
      ensures Honest() && err == 0 ==> dimBegin == Begin(Contents(), h, p) && dimEnd == End(Contents(), h, p)
      ensures Honest() && err == 0 ==> found == Wanted(Contents(), h, p, maxLbas, tguid, pguid)
      ensures Reliable() ==> err == 0
      ensures callback.Card? ==> (err == 0 <==> Completed(old(|Log()|)))
    {
      hide SdTheorems.Completes, SdTheorems.ServesRead;
      var at := EntryAt(h, p);
      found := false;
      dimBegin, dimEnd, err := Read(Add(at, 0x20));
      if err != 0 || Sub(dimEnd, dimBegin) >= maxLbas {
        return;
      }
      found, err := CompareBoth(at, tguid, pguid);
    }

    /** The header read. */
    method ReadHeader() returns (h: Header, err: int)
      requires Valid()
      modifies Frame()
      ensures old(Log()) <= Log()
      ensures Honest() && err == 0 ==> h == HeaderOf(Contents())
      ensures Reliable() ==> err == 0
      ensures callback.Card? ==> (err == 0 <==> Completed(old(|Log()|)))
    {
      hide SdTheorems.Completes, SdTheorems.ServesRead;
      var lba, w;
      lba, w, err := Read(LBA + 0x48);
      h := Header(lba, w % HALF, w / HALF);
    }

    /** The search loop. The range given is kept when the table is empty. */
    method Search(h: Header, begin0: nat, end0: nat, maxLbas: nat, tguid: Option<Guid>, pguid: Option<Guid>)
      returns (err: int, index: int, begin: nat, end: nat)
      requires Valid()
      modifies Frame()
      ensures old(Log()) <= Log()
      ensures Reliable() ==> err == 0
      ensures callback.Card? ==> (err == 0 <==> Completed(old(|Log()|)))
      ensures Honest() && err == 0 ==>
              IsSearchResult(Contents(), h, begin0, end0, maxLbas, tguid, pguid, index, begin, end)
    {
      hide SdTheorems.Completes, SdTheorems.ServesRead;
      begin, end, index, err := begin0, end0, -1, 0;
      ghost var disk := Contents();
      ghost var b0, e0 := Begin(disk, h, 0), Clip(Begin(disk, h, 0), End(disk, h, 0), maxLbas);
      for p := 0 to h.count
        invariant err == 0 && index == -1 && old(Log()) <= Log()
        invariant callback.Card? ==> Completed(old(|Log()|))
        invariant Honest() ==> NoneBefore(disk, h, p, maxLbas, tguid, pguid)
        invariant Honest() ==> if p == 0 then begin == begin0 && end == end0 else begin == b0 && end == e0
      {
        var dimBegin, dimEnd, found;
        dimBegin, dimEnd, found, err := Examine(h, p, maxLbas, tguid, pguid);
        if p == 0 {
          begin, end := dimBegin, Clip(dimBegin, dimEnd, maxLbas);
        }
        if err != 0 {
          return;
        }
        if found {
          index, begin, end := p, dimBegin, dimEnd;
          return;
        }
        if Honest() {
          NoneNext(disk, h, p, maxLbas, tguid, pguid);
        }
      }
    }

    /** `gpt_find_partition`. */
    method FindPartition(begin0: nat, end0: nat, maxLbas: nat, tguid: Option<Guid>, pguid: Option<Guid>)
      returns (err: int, index: int, begin: nat, end: nat)
      requires Valid()
      modifies Frame()
      ensures old(Log()) <= Log()
      ensures Reliable() ==> err == 0
      ensures callback.Card? ==> (err == 0 <==> Completed(old(|Log()|)))
      ensures Honest() && err == 0 ==>
              IsSearchResult(Contents(), HeaderOf(Contents()), begin0, end0, maxLbas, tguid, pguid, index, begin, end)
    {
      hide SdTheorems.Completes, SdTheorems.ServesRead;
      begin, end, index := begin0, end0, -1;
      var h;
      h, err := ReadHeader();
      if err != 0 {
        return;
      }
      err, index, begin, end := Search(h, begin0, end0, maxLbas, tguid, pguid);
    }

    /** The read at the given place of the log succeeds, and the card holds the signature. */
    ghost predicate HasSignature(k: nat)
      requires Valid() && callback.Card? && k < |Log()|
      reads Frame()
    {
      SdTheorems.Completes(callback.host, Log()[k]) && Contents()(LBA).0 == SIGNATURE
    }

    /** `gpt_check_signature`; a failed read is no signature. */
    method CheckSignature() returns (gpt: bool)
      requires Valid()
      modifies Frame()
      ensures Log() == old(Log()) + Call(LBA, 8, old(Position()))
      ensures callback.Card? && Honest() ==> (gpt <==> HasSignature(|old(Log())|))
      ensures callback.Plain? ==> gpt == (callback.fail(old(calls)) == 0 && callback.words(LBA).0 == SIGNATURE)
    {
      hide SdTheorems.Completes, SdTheorems.ServesRead;
      var sig, err := ReadWord(LBA);
      gpt := err == 0 && sig == SIGNATURE;
    }

    /** `gpt_boot_part_else_raw` up to the load: the range to boot, and the bytes to read for it. The first read
        is the signature's, and its failure is the only one that does not end the boot. */
    method Plan(maxLbas: nat, tguid: Option<Guid>, pguid: Option<Guid>)
      returns (err: int, gpt: bool, index: int, begin: nat, end: nat, addr: nat, len: nat)
      requires Valid()
      modifies Frame()
      ensures old(Log()) + Call(LBA, 8, old(Position())) <= Log()
      ensures callback.Card? && Honest() ==> (gpt <==> HasSignature(|old(Log())|))
      ensures callback.Plain? ==> gpt == (callback.fail(old(calls)) == 0 && callback.words(LBA).0 == SIGNATURE)
      ensures !gpt ==> Log() == old(Log()) + Call(LBA, 8, old(Position()))
      ensures Honest() && err == 0 ==> IsBootRange(Contents(), gpt, maxLbas, tguid, pguid, index, begin, end)
      ensures addr == (LBA * begin) % WORD && len == (LBA * Lbas(begin, end)) % WORD
      ensures Reliable() ==> err == 0
      ensures callback.Card? ==> (err == 0 <==> Completed(|old(Log())| + 1))
    {
      hide SdTheorems.Completes, SdTheorems.ServesRead;
      begin, end, index, err := 0, (maxLbas - 1) % WORD, -1, 0;
      gpt := CheckSignature();
      if gpt {
        err, index, begin, end := FindPartition(begin, end, maxLbas, tguid, pguid);
      }
      addr := (LBA * begin) % WORD;
      len := (LBA * ((end - begin + 1) % WORD)) % WORD;
    }
  }
}
