/** The partition search on a table in the layout of section 5.3 of the UEFI Specification: what the bytes of an
    encoded header and of encoded entries mean for its result. */
module GptTable {
  import opened Common
  import opened Gpt
  import opened GptReader
  import GptBoot
  import SdCard
  import SdTheorems

  type Byte = SdCard.Byte

  // ---- the layout ----

  /** Little-endian bytes of a number. */
  function Le(v: nat, n: nat): (s: seq<Byte>)
    ensures |s| == n
  {
    if n == 0 then [] else [v % 0x100] + Le(v / 0x100, n - 1)
  }

  /** A partition entry: the GUIDs of its type and of itself, its first and its last block. */
  datatype Entry = Entry(kind: seq<Byte>, unique: seq<Byte>, first: nat, last: nat)

  predicate ValidEntry(e: Entry)
  {
    |e.kind| == 16 && |e.unique| == 16 && e.first < WORD && e.last < WORD
  }

  /** Bytes 0 to 47 of an entry. */
  function EntryBytes(e: Entry): (s: seq<Byte>)
    requires ValidEntry(e)
    ensures |s| == 48
  {
    e.kind + e.unique + Le(e.first, 8) + Le(e.last, 8)
  }

  /** Bytes 0x48 to 0x57 of the header: the block of the table, the number and the size of its entries. */
  function HeaderBytes(table: nat, count: nat, size: nat): (s: seq<Byte>)
    ensures |s| == 16
  {
    Le(table, 8) + Le(count, 4) + Le(size, 4)
  }

  /** Where entry `p` lies. */
  function Place(table: nat, size: nat, p: nat): nat
  {
    0x200 * table + p * size
  }

  /** The disk holds this table; it lies below the end of the addressable range. */
  ghost predicate HasTable(disk: Disk, table: nat, size: nat, entries: seq<Entry>)
  {
    && table < WORD && size < HALF && |entries| < HALF
    && SdTheorems.DiskBytes(disk, 0x200 + 0x48, 16) == HeaderBytes(table, |entries|, size)
    && forall p :: 0 <= p < |entries| ==>
         && ValidEntry(entries[p])
         && Place(table, size, p) + 48 <= SdTheorems.ADDRESSABLE
         && SdTheorems.DiskBytes(disk, Place(table, size, p), 48) == EntryBytes(entries[p])
  }

  // ---- what the search must find ----

  /** The entry spans at most `maxLbas` blocks (in 64-bit arithmetic) and has a requested GUID. */
  predicate Good(e: Entry, maxLbas: nat, kind: Option<seq<Byte>>, unique: Option<seq<Byte>>)
  {
    (e.last - e.first) % WORD < maxLbas && (kind == Some(e.kind) || unique == Some(e.unique))
  }

  ghost predicate NoneGood(
    entries: seq<Entry>, n: nat, maxLbas: nat, kind: Option<seq<Byte>>, unique: Option<seq<Byte>>)
    requires n <= |entries|
  {
    forall p :: 0 <= p < n ==> !Good(entries[p], maxLbas, kind, unique)
  }

  /** The least good entry of the list; without one, index -1 and the first entry cut off, if there is any. */
  ghost predicate Answers(
    entries: seq<Entry>, begin0: nat, end0: nat, maxLbas: nat,
    kind: Option<seq<Byte>>, unique: Option<seq<Byte>>, index: int, begin: nat, end: nat)
  {
    if index == -1 then
      && NoneGood(entries, |entries|, maxLbas, kind, unique)
      && begin == (if entries == [] then begin0 else entries[0].first)
      && end == (if entries == [] then end0
                 else var cut := (entries[0].first + maxLbas - 1) % WORD;
                   if entries[0].last <= cut then entries[0].last else cut)
    else
      && 0 <= index < |entries| && Good(entries[index], maxLbas, kind, unique)
      && NoneGood(entries, index, maxLbas, kind, unique)
      && begin == entries[index].first && end == entries[index].last
  }

  /** A GUID's bytes as the two words that the callers pass. */
  function WordsOfGuid(b: seq<Byte>): Guid
    requires |b| == 16
  {
    Guid(WordAt(b[..8], 8), WordAt(b[8..], 8))
  }

  function Asked(b: Option<seq<Byte>>): Option<Guid>
    requires b.Some? ==> |b.value| == 16
  {
    match b
    case None => None
    case Some(g) => Some(WordsOfGuid(g))
  }

  // ---- numbers in bytes ----

  lemma {:induction false} LeValue(v: nat, n: nat)
    requires v < Range(n)
    ensures WordAt(Le(v, n), n) == v
  {
    if n > 0 {
      LeValue(v / 0x100, n - 1);
    }
  }

  /** Different bytes are different numbers. */
  lemma {:induction false} WordInjective(s: seq<Byte>, t: seq<Byte>, n: nat)
    requires |s| == |t| == n && WordAt(s, n) == WordAt(t, n)
    ensures s == t
  {
    if n > 0 {
      WordInjective(s[1..], t[1..], n - 1);
      assert s == [s[0]] + s[1..] && t == [t[0]] + t[1..];
    }
  }

  lemma SameGuid(a: seq<Byte>, b: seq<Byte>)
    requires |a| == |b| == 16
    ensures WordsOfGuid(a) == WordsOfGuid(b) <==> a == b
  {
    if WordsOfGuid(a) == WordsOfGuid(b) {
      WordInjective(a[..8], b[..8], 8);
      WordInjective(a[8..], b[8..], 8);
      assert a == a[..8] + a[8..] && b == b[..8] + b[8..];
    }
  }

  lemma Times(a: nat, x: nat)
    ensures 0x100 * (a * x) == (0x100 * a) * x
  {
  }

  /** Two numbers next to each other. */
  lemma {:induction false} WordConcat(s: seq<Byte>, t: seq<Byte>, m: nat, n: nat)
    requires |s| == m && |t| == n
    ensures WordAt(s + t, m + n) == WordAt(s, m) + Range(m) * WordAt(t, n)
  {
    if m == 0 {
      assert s + t == t;
    } else {
      WordConcat(s[1..], t, m - 1, n);
      Times(Range(m - 1), WordAt(t, n));
      assert (s + t)[1..] == s[1..] + t && (s + t)[0] == s[0];
    }
  }

  // ---- what the search reads ----

  /** The two words in sixteen bytes of the card. */
  lemma WordsAt(disk: Disk, at: nat, s: seq<Byte>)
    requires at < SdTheorems.ADDRESSABLE && s == SdTheorems.DiskBytes(disk, at, 16)
    ensures WordsOf(disk)(at) == (WordAt(s[..8], 8), WordAt(s[8..], 8))
  {
    assert CardAddress(at) == at;
    TwoWords(disk, at, s);
  }

  /** The header fields. */
  lemma HeaderMeans(disk: Disk, table: nat, size: nat, entries: seq<Entry>)
    requires HasTable(disk, table, size, entries)
    ensures HeaderOf(WordsOf(disk)) == Header(table, |entries|, size)
  {
    var count, s := |entries|, HeaderBytes(table, |entries|, size);
    WordsAt(disk, LBA + 0x48, s);
    assert s[..8] == Le(table, 8) && s[8..] == Le(count, 4) + Le(size, 4);
    HeaderWords(table, count, size);
  }

  lemma HeaderWords(table: nat, count: nat, size: nat)
    requires table < WORD && count < HALF && size < HALF
    ensures WordAt(Le(table, 8), 8) == table
    ensures var w := WordAt(Le(count, 4) + Le(size, 4), 8); w % HALF == count && w / HALF == size
  {
    RangeOfWord();
    assert Range(4) == HALF;
    LeValue(table, 8);
    LeValue(count, 4);
    LeValue(size, 4);
    WordConcat(Le(count, 4), Le(size, 4), 4, 4);
    hide Le, WordAt, Range;
    TwoHalves(count, size);
  }

  lemma TwoHalves(a: nat, b: nat)
    requires a < HALF && b < HALF
    ensures (a + HALF * b) % HALF == a && (a + HALF * b) / HALF == b
  {
  }

  /** Addresses near an entry do not wrap. */
  lemma NearEntry(table: nat, size: nat, count: nat, p: nat)
    requires Place(table, size, p) + 48 <= SdTheorems.ADDRESSABLE
    ensures var at := EntryAt(Header(table, count, size), p);
            at == Place(table, size, p) && Add(at, 0x10) == at + 0x10 && Add(at, 0x20) == at + 0x20
  {
    SmallMod(Place(table, size, p));
    SmallMod(Place(table, size, p) + 0x10);
    SmallMod(Place(table, size, p) + 0x20);
  }

  lemma EntryParts(e: Entry)
    requires ValidEntry(e)
    ensures var s := EntryBytes(e);
            s[0..16] == e.kind && s[16..32] == e.unique && s[32..48] == Le(e.first, 8) + Le(e.last, 8)
  {
  }

  /** The words of an encoded entry. */
  lemma EntryWords(disk: Disk, at: nat, e: Entry)
    requires ValidEntry(e) && at + 48 <= SdTheorems.ADDRESSABLE
    requires SdTheorems.DiskBytes(disk, at, 48) == EntryBytes(e)
    ensures WordsOf(disk)(at) == (WordsOfGuid(e.kind).lo, WordsOfGuid(e.kind).hi)
    ensures WordsOf(disk)(at + 0x10) == (WordsOfGuid(e.unique).lo, WordsOfGuid(e.unique).hi)
    ensures WordsOf(disk)(at + 0x20) == (e.first, e.last)
  {
    hide WordAt, Le, WordsOf, CardAddress;
    EntryParts(e);
    SdTheorems.DiskSlice(disk, at, 48, 0, 16);
    SdTheorems.DiskSlice(disk, at, 48, 16, 16);
    SdTheorems.DiskSlice(disk, at, 48, 32, 16);
    var range := Le(e.first, 8) + Le(e.last, 8);
    WordsAt(disk, at, e.kind);
    WordsAt(disk, at + 0x10, e.unique);
    WordsAt(disk, at + 0x20, range);
    assert range[..8] == Le(e.first, 8) && range[8..] == Le(e.last, 8);
    RangeOfWord();
    LeValue(e.first, 8);
    LeValue(e.last, 8);
  }

  lemma RangeOfWord()
    ensures Range(8) == WORD
  {
    assert Range(4) == HALF;
  }

  /** An entry is wanted by the search exactly if it is good. */
  lemma WantedIsGood(
    disk: Disk, table: nat, size: nat, entries: seq<Entry>, p: nat, maxLbas: nat,
    kind: Option<seq<Byte>>, unique: Option<seq<Byte>>)
    requires HasTable(disk, table, size, entries) && p < |entries|
    requires (kind.Some? ==> |kind.value| == 16) && (unique.Some? ==> |unique.value| == 16)
    ensures var h, e := Header(table, |entries|, size), entries[p];
      && Begin(WordsOf(disk), h, p) == e.first && End(WordsOf(disk), h, p) == e.last
      && (Wanted(WordsOf(disk), h, p, maxLbas, Asked(kind), Asked(unique)) <==> Good(e, maxLbas, kind, unique))
  {
    hide WordAt, WordsOf, SdTheorems.DiskBytes;
    var e := entries[p];
    NearEntry(table, size, |entries|, p);
    EntryWords(disk, Place(table, size, p), e);
    if kind.Some? { SameGuid(kind.value, e.kind); }
    if unique.Some? { SameGuid(unique.value, e.unique); }
  }

  lemma NoneMeans(
    disk: Disk, table: nat, size: nat, entries: seq<Entry>, n: nat, maxLbas: nat,
    kind: Option<seq<Byte>>, unique: Option<seq<Byte>>)
    requires HasTable(disk, table, size, entries) && n <= |entries|
    requires (kind.Some? ==> |kind.value| == 16) && (unique.Some? ==> |unique.value| == 16)
    requires NoneBefore(WordsOf(disk), Header(table, |entries|, size), n, maxLbas, Asked(kind), Asked(unique))
    ensures NoneGood(entries, n, maxLbas, kind, unique)
  {
    hide WordsOf, HasTable, Good, Wanted;
    forall p | 0 <= p < n ensures !Good(entries[p], maxLbas, kind, unique) {
      WantedIsGood(disk, table, size, entries, p, maxLbas, kind, unique);
    }
  }

  /** The search's result, in terms of the list of entries. */
  lemma SearchAnswers(
    disk: Disk, table: nat, size: nat, entries: seq<Entry>, begin0: nat, end0: nat, maxLbas: nat,
    kind: Option<seq<Byte>>, unique: Option<seq<Byte>>, index: int, begin: nat, end: nat)
    requires HasTable(disk, table, size, entries)
    requires (kind.Some? ==> |kind.value| == 16) && (unique.Some? ==> |unique.value| == 16)
    requires IsSearchResult(WordsOf(disk), HeaderOf(WordsOf(disk)), begin0, end0, maxLbas, Asked(kind), Asked(unique),
                            index, begin, end)
    ensures Answers(entries, begin0, end0, maxLbas, kind, unique, index, begin, end)
  {
    hide WordsOf, HasTable, Good, Wanted, Begin, End, NoneBefore, NoneGood;
    HeaderMeans(disk, table, size, entries);
    NoneMeans(disk, table, size, entries, if index == -1 then |entries| else index, maxLbas, kind, unique);
    if index != -1 {
      WantedIsGood(disk, table, size, entries, index, maxLbas, kind, unique);
    } else if entries != [] {
      WantedIsGood(disk, table, size, entries, 0, maxLbas, kind, unique);
    }
  }

  /** The signature: the eight characters "EFI PART". */
  const EFI_PART: seq<Byte> := [0x45, 0x46, 0x49, 0x20, 0x50, 0x41, 0x52, 0x54]

  lemma SignatureMeans(disk: Disk)
    ensures WordsOf(disk)(LBA).0 == SIGNATURE <==> SdTheorems.DiskBytes(disk, 0x200, 8) == EFI_PART
  {
    var s := SdTheorems.DiskBytes(disk, 0x200, 8);
    WordOfDisk(disk, 0x200, 8);
    EfiPartWord();
    if WordsOf(disk)(LBA).0 == SIGNATURE {
      WordInjective(s, EFI_PART, 8);
    }
  }

  lemma EfiPartWord()
    ensures WordAt(EFI_PART, 8) == SIGNATURE
  {
    assert WordAt([], 0) == 0;
    hide WordAt;
    WordCons(0x54, [], 0);
    WordCons(0x52, [0x54], 1);
    WordCons(0x41, [0x52, 0x54], 2);
    WordCons(0x50, [0x41, 0x52, 0x54], 3);
    WordCons(0x20, [0x50, 0x41, 0x52, 0x54], 4);
    WordCons(0x49, [0x20, 0x50, 0x41, 0x52, 0x54], 5);
    WordCons(0x46, [0x49, 0x20, 0x50, 0x41, 0x52, 0x54], 6);
    WordCons(0x45, [0x46, 0x49, 0x20, 0x50, 0x41, 0x52, 0x54], 7);
    assert EFI_PART == [0x45] + [0x46, 0x49, 0x20, 0x50, 0x41, 0x52, 0x54];
  }

  lemma WordCons(x: Byte, s: seq<Byte>, n: nat)
    requires |s| == n
    ensures WordAt([x] + s, n + 1) == x + 0x100 * WordAt(s, n)
  {
    assert ([x] + s)[1..] == s;
  }

  // ---- the driver on such a card ----

  /** `gpt_find_partition` on a card with this table. */
  method Find(
    reader: Reader, begin0: nat, end0: nat, maxLbas: nat, kind: Option<seq<Byte>>, unique: Option<seq<Byte>>,
    ghost table: nat, ghost size: nat, ghost entries: seq<Entry>)
    returns (err: int, index: int, begin: nat, end: nat)
    requires reader.Valid() && reader.callback.Card? && HasTable(reader.card, table, size, entries)
    requires (kind.Some? ==> |kind.value| == 16) && (unique.Some? ==> |unique.value| == 16)
    modifies reader.Frame()
    ensures err == 0 <==> reader.Completed(old(|reader.Log()|))
    ensures reader.Honest() && err == 0 ==> Answers(entries, begin0, end0, maxLbas, kind, unique, index, begin, end)
  {
    err, index, begin, end := reader.FindPartition(begin0, end0, maxLbas, Asked(kind), Asked(unique));
    if reader.Honest() && err == 0 {
      SearchAnswers(reader.card, table, size, entries, begin0, end0, maxLbas, kind, unique, index, begin, end);
    }
  }

  /** The entry that was found is no fallback, and its blocks are those from its first to its last one. */
  lemma FoundIsNoFallback(
    words: Words, maxLbas: nat, kind: Option<Guid>, unique: Option<Guid>, index: int, begin: nat, end: nat)
    requires IsBootRange(words, true, maxLbas, kind, unique, index, begin, end) && index != -1
    ensures !FallsBackToMalformed(words, true, maxLbas, kind, unique)
    ensures begin <= end < WORD ==> Lbas(begin, end) == end - begin + 1 || (begin == 0 && end == WORD - 1)
  {
    if begin <= end < WORD && end - begin + 1 < WORD { SmallMod(end - begin + 1); }
  }

  /** Booting from a card with a signature and this table: whatever partition is found, the code buffer holds its
      blocks, from the first to the last. */
  method Boot(
    host: SdCard.Host, mem: array<Byte>, buf: nat, maxLbas: nat, kind: Option<seq<Byte>>, unique: Option<seq<Byte>>,
    ghost disk: Disk, ghost table: nat, ghost size: nat, ghost entries: seq<Entry>)
    returns (err: int, overrun: bool, index: int, begin: nat, end: nat)
    requires host.chunk > 0 && 0 < maxLbas && LBA * maxLbas < WORD && buf + LBA * maxLbas <= mem.Length
    requires HasTable(disk, table, size, entries) && SdTheorems.DiskBytes(disk, 0x200, 8) == EFI_PART
    requires (kind.Some? ==> |kind.value| == 16) && (unique.Some? ==> |unique.value| == 16)
    modifies host, mem
    ensures old(host.history) < host.history
    ensures err == 0 <==> GptBoot.Completed(host, |old(host.history)| + 1)
    ensures GptBoot.Trusted(host, disk) && GptBoot.Completed(host, |old(host.history)|) ==>
            Answers(entries, 0, (maxLbas - 1) % WORD, maxLbas, kind, unique, index, begin, end)
    ensures GptBoot.Trusted(host, disk) && GptBoot.Completed(host, |old(host.history)|)
            && index != -1 && begin <= end && end - begin + 1 < WORD ==>
            && !overrun && end - begin + 1 <= maxLbas
            && mem[buf..buf + LBA * (end - begin + 1)]
               == SdTheorems.DiskBytes(disk, CardAddress(LBA * begin), LBA * (end - begin + 1))
  {
    hide WordsOf, SdTheorems.Completes, SdTheorems.ServesRead, HasTable, Answers, IsSearchResult, Asked;
    var gpt;
    err, overrun, gpt, index, begin, end := GptBoot.Boot(host, mem, buf, maxLbas, Asked(kind), Asked(unique), disk);
    SignatureMeans(disk);
    if GptBoot.Trusted(host, disk) && GptBoot.Completed(host, |old(host.history)|) {
      assert GptBoot.HasSignature(host, |old(host.history)|, disk);
      SearchAnswers(disk, table, size, entries, 0, (maxLbas - 1) % WORD, maxLbas, kind, unique, index, begin, end);
      if index != -1 {
        FoundIsNoFallback(WordsOf(disk), maxLbas, Asked(kind), Asked(unique), index, begin, end);
        FoundInRange(disk, table, size, entries, maxLbas, kind, unique, index, begin, end);
      }
    }
  }

  lemma FoundInRange(
    disk: Disk, table: nat, size: nat, entries: seq<Entry>, maxLbas: nat,
    kind: Option<seq<Byte>>, unique: Option<seq<Byte>>, index: int, begin: nat, end: nat)
    requires HasTable(disk, table, size, entries) && index != -1
    requires Answers(entries, 0, (maxLbas - 1) % WORD, maxLbas, kind, unique, index, begin, end)
    ensures begin < WORD && end < WORD
  {
    assert ValidEntry(entries[index]);
  }
}
