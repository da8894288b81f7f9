/** The CRC16 of SD data blocks (`spi_sdcard.c`): the table-driven computation is the remainder of the message
    polynomial, and finds every burst of up to sixteen bits. Words are numbers below 2^16. */
module Crc16 {
  import opened Common
  import P = CrcPoly
  import T = CrcTable

  type Byte = x: nat | x < 0x100

  type Word = x: nat | x < 0x10000

  /** Bitwise exclusive or. */
  function Xor(a: nat, b: nat): nat
    decreases a + b
  {
    if a == 0 && b == 0 then 0 else 2 * Xor(a / 2, b / 2) + if a % 2 != b % 2 then 1 else 0
  }

  // ---- the computation of the source ----

  type Table = Byte -> Word

  const LOOKUP: Table := x => T.Lookup(x)

  /** The table index for one data byte. */
  function Index(s: Word, b: Byte): Byte
  {
    Xor(b, s / 0x100) % 0x100
  }

  /** The update of the state by one data byte. */
  function Step(table: Table, s: Word, b: Byte): Word
  {
    Xor(table(Index(s, b)), s * 0x100) % 0x10000
  }

  /** The state after a message. */
  function StateBy(table: Table, m: seq<Byte>): Word
  {
    if m == [] then 0 else Step(table, StateBy(table, m[..|m| - 1]), m[|m| - 1])
  }

  function State(m: seq<Byte>): Word
  {
    StateBy(LOOKUP, m)
  }

  /** The two bytes of a word exchanged. */
  function Swap(s: Word): Word
  {
    s % 0x100 * 0x100 + s / 0x100
  }

  /** `__spi_sdcard_crc16`. */
  method Compute(data: array<Byte>, at: nat, len: nat) returns (crc: Word)
    requires at + len <= data.Length
    ensures crc == Swap(State(data[at..at + len]))
  {
    var state := Run(LOOKUP, data[at..at + len]);
    crc := Swap(state);
  }

  method Run(table: Table, m: seq<Byte>) returns (state: Word)
    ensures state == StateBy(table, m)
  {
    state := 0;
    for i := 0 to |m|
      invariant state == StateBy(table, m[..i])
    {
      state := Advance(table, state, m[i], m[..i], m[..i + 1]);
    }
    assert m[..|m|] == m;
  }

  /** One turn of the loop, after the message `m`. */
  method Advance(table: Table, state: Word, b: Byte, ghost m: seq<Byte>, ghost m': seq<Byte>) returns (next: Word)
    requires state == StateBy(table, m) && m' == m + [b]
    ensures next == StateBy(table, m')
  {
    assert m'[..|m|] == m;
    next := Xor(table(Index(state, b)), state * 0x100) % 0x10000;
  }

  // ---- numbers as bit strings ----

  /** The `k` lowest bits, most significant first. */
  function Bits(n: nat, k: nat): (r: P.Bits)
    ensures |r| == k
  {
    if k == 0 then [] else Bits(n / 2, k - 1) + [n % 2 == 1]
  }

  /** `n` without its `k` lowest bits. */
  function Down(n: nat, k: nat): nat
    decreases k
  {
    if k == 0 then n else Down(n / 2, k - 1)
  }

  lemma {:induction false} XorBits(a: nat, b: nat, k: nat)
    ensures Bits(Xor(a, b), k) == P.Xor(Bits(a, k), Bits(b, k))
    decreases k
  {
    if k > 0 {
      XorBits(a / 2, b / 2, k - 1);
      assert Xor(a, b) / 2 == Xor(a / 2, b / 2) && (Xor(a, b) % 2 == 1) == (a % 2 != b % 2);
    }
  }

  /** Higher bits do not matter. */
  lemma {:induction false} BitsPlus(n: nat, m: nat, k: nat)
    ensures Bits(n + m * Pow2(k), k) == Bits(n, k)
    decreases k
  {
    if k > 0 {
      var p := m * Pow2(k - 1);
      assert m * Pow2(k) == 2 * p;
      assert (n + 2 * p) / 2 == n / 2 + p && (n + 2 * p) % 2 == n % 2;
      BitsPlus(n / 2, m, k - 1);
    }
  }

  lemma Powers()
    ensures Pow2(5) == 0x20 && Pow2(8) == 0x100 && Pow2(12) == 0x1000 && Pow2(16) == 0x10000
  {
    assert Pow2(4) == 0x10;
    assert Pow2(8) == 0x100;
    assert Pow2(12) == 0x1000;
  }

  lemma DownFour(n: nat, k: nat)
    ensures Down(n, k + 4) == Down(n / 0x10, k)
  {
    assert Down(n, k + 4) == Down(n / 2, k + 3) == Down(n / 2 / 2, k + 2) == Down(n / 2 / 2 / 2, k + 1);
    assert n / 2 / 2 / 2 / 2 == n / 0x10;
  }

  lemma Down5(n: nat)
    ensures Down(n, 5) == n / 0x20
  {
    DownFour(n, 1);
    assert Down(n / 0x10, 1) == n / 0x10 / 2;
  }

  lemma Down8(n: nat)
    ensures Down(n, 8) == n / 0x100
  {
    DownFour(n, 4);
    DownFour(n / 0x10, 0);
  }

  lemma Down12(n: nat)
    ensures Down(n, 12) == n / 0x1000
  {
    DownFour(n, 8);
    Down8(n / 0x10);
  }

  lemma Down15(n: nat)
    ensures Down(n, 15) == n / 0x8000
  {
    DownFour(n, 11);
    DownFour(n / 0x10, 7);
    DownFour(n / 0x10 / 0x10, 3);
    var m := n / 0x10 / 0x10 / 0x10;
    assert Down(m, 3) == m / 2 / 2 / 2;
    assert m / 2 / 2 / 2 == n / 0x8000;
  }

  lemma {:induction false} BitsSplit(n: nat, k: nat, j: nat)
    ensures Bits(n, k + j) == Bits(Down(n, j), k) + Bits(n, j)
    decreases j
  {
    if j > 0 {
      BitsSplit(n / 2, k, j - 1);
    }
  }

  lemma {:induction false} BitsUp(n: nat, k: nat, j: nat)
    ensures Bits(n * Pow2(j), k + j) == Bits(n, k) + P.Zeros(j)
    decreases j
  {
    if j > 0 {
      var p := n * Pow2(j - 1);
      assert n * Pow2(j) == 2 * p;
      BitsUp(n, k, j - 1);
      assert Bits(2 * p, k + j) == Bits(p, k + j - 1) + [false];
      assert P.Zeros(j - 1) + [false] == P.Zeros(j);
    }
  }

  lemma {:induction false} BitsInjective(a: nat, b: nat, k: nat)
    requires a < Pow2(k) && b < Pow2(k) && Bits(a, k) == Bits(b, k)
    ensures a == b
    decreases k
  {
    if k > 0 {
      assert Bits(a, k)[..k - 1] == Bits(a / 2, k - 1) && Bits(b, k)[..k - 1] == Bits(b / 2, k - 1);
      assert Bits(a, k)[k - 1] == (a % 2 == 1) && Bits(b, k)[k - 1] == (b % 2 == 1);
      BitsInjective(a / 2, b / 2, k - 1);
    }
  }

  lemma {:induction false} ZeroBits(k: nat)
    ensures Bits(0, k) == P.Zeros(k)
  {
    if k > 0 {
      ZeroBits(k - 1);
    }
  }

  // ---- the entries of the table ----

  lemma {:induction false} FlipBits(n: nat, j: nat, k: nat, n': nat)
    requires j < k
    requires if Down(n, j) % 2 == 0 then n' == n + Pow2(j) else n == n' + Pow2(j)
    ensures Bits(n', k) == Bits(n, k)[k - 1 - j := !Bits(n, k)[k - 1 - j]]
    decreases j
  {
    if j == 0 {
      assert n' / 2 == n / 2 && n' % 2 != n % 2;
    } else {
      FlipBits(n / 2, j - 1, k - 1, n' / 2);
    }
  }

  /** A number that differs by one power of two, up or down. */
  predicate Flipped(n: nat, a: nat, p: nat, bit: nat)
  {
    if bit % 2 == 0 then a == n + p else n == a + p
  }

  lemma {:induction false} Flip12(n: nat, a: nat)
    requires Flipped(n, a, 0x1000, n / 0x1000)
    ensures Bits(a, 16) == Bits(n, 16)[3 := !Bits(n, 16)[3]]
  {
    Powers();
    Down12(n);
    FlipBits(n, 12, 16, a);
  }

  lemma Flip5(n: nat, a: nat)
    requires Flipped(n, a, 0x20, n / 0x20)
    ensures Bits(a, 16) == Bits(n, 16)[10 := !Bits(n, 16)[10]]
  {
    Powers();
    Down5(n);
    FlipBits(n, 5, 16, a);
  }

  lemma Flip0(n: nat, a: nat)
    requires Flipped(n, a, 1, n)
    ensures Bits(a, 16) == Bits(n, 16)[15 := !Bits(n, 16)[15]]
  {
    FlipBits(n, 0, 16, a);
  }

  lemma LowerPlaceKept(n: nat)
    ensures (n + 0x1000) / 0x20 % 2 == n / 0x20 % 2
  {
    assert (n + 0x1000) / 0x20 == n / 0x20 + 0x80;
  }

  lemma FlipParts(n: nat) returns (a: nat, b: nat)
    ensures Flipped(n, a, 0x1000, n / 0x1000) && Flipped(a, b, 0x20, a / 0x20) && Flipped(b, T.FlipPoly(n), 1, b)
  {
    a := if n / 0x1000 % 2 == 0 then n + 0x1000 else n - 0x1000;
    b := if n / 0x20 % 2 == 0 then a + 0x20 else a - 0x20;
    LowerPlaceKept(if a < n then a else n);
  }

  lemma FlipPolyBits(n: nat)
    ensures Bits(T.FlipPoly(n), 16) == P.AddPoly(Bits(n, 16))
  {
    var a, b := FlipParts(n);
    Flip12(n, a);
    Flip5(a, b);
    Flip0(b, T.FlipPoly(n));
    ThreeFlips(Bits(n, 16), Bits(a, 16), Bits(b, 16), Bits(T.FlipPoly(n), 16));
  }

  lemma ThreeFlips(n: P.Bits, a: P.Bits, b: P.Bits, c: P.Bits)
    requires |n| == 16 && a == n[3 := !n[3]] && b == a[10 := !a[10]] && c == b[15 := !b[15]]
    ensures c == P.AddPoly(n)
  {
  }

  lemma BitsTail(n: nat)
    ensures Bits(n, 16)[1..] == Bits(n, 15)
    ensures Bits(n, 16)[0] == (n / 0x8000 % 2 == 1)
  {
    BitsSplit(n, 1, 15);
    Down15(n);
    assert Bits(Down(n, 15), 1) == [n / 0x8000 % 2 == 1];
  }

  lemma Doubled(n: nat, k: nat)
    ensures Bits(2 * n, k + 1) == Bits(n, k) + [false]
  {
  }

  lemma ShiftBits(n: Word)
    ensures Bits(T.Shift(n), 16) == P.Feed(Bits(n, 16), false)
  {
    BitsTail(n);
    Doubled(n, 15);
    TopBit(n);
    if n >= 0x8000 {
      ShiftOverflows(n);
    }
  }

  lemma TopBit(n: Word)
    ensures (n / 0x8000 % 2 == 1) == (n >= 0x8000)
  {
  }

  lemma {:induction false} ShiftOverflows(n: Word)
    requires n >= 0x8000
    ensures Bits(T.Shift(n), 16) == P.AddPoly(Bits(2 * n, 16))
  {
    Powers();
    BitsPlus(2 * n - 0x10000, 1, 16);
    FlipPolyBits(2 * n - 0x10000);
  }

  /** Each entry of the table follows from that of half its index. */
  ghost predicate HoldsEntries(table: Table)
  {
    table(0) == 0 && forall x: Byte :: x > 0 ==> table(x) == T.Entry(table(x / 2), x % 2 == 1)
  }

  lemma {:induction false} LookupHoldsEntries()
    ensures HoldsEntries(LOOKUP)
  {
    forall x: Byte | x > 0 ensures LOOKUP(x) == T.Entry(LOOKUP(x / 2), x % 2 == 1) {
      T.LookupStep(x);
    }
  }

  lemma EntryBits(t: Word, odd: bool)
    ensures Bits(T.Entry(t, odd), 16) ==
            if odd then P.AddPoly(P.Feed(Bits(t, 16), false)) else P.Feed(Bits(t, 16), false)
  {
    ShiftBits(t);
    if odd { FlipPolyBits(T.Shift(t)); }
  }

  /** An entry is what eight shifts make of its index in the top byte. */
  lemma {:induction false} TableBits(table: Table, x: Byte)
    requires HoldsEntries(table)
    ensures Bits(table(x), 16) == P.FeedAll(Bits(x, 8) + P.Zeros(8), P.Zeros(8))
    decreases x
  {
    if x == 0 {
      ZeroBits(16);
      ZeroBits(8);
      P.ShiftOut(P.Zeros(8), 8);
      assert P.Zeros(8) + P.Zeros(8) == P.Zeros(16);
    } else {
      TableBits(table, x / 2);
      EntryBits(table(x / 2), x % 2 == 1);
      HalfByte(x);
      P.DoubleIndex(Bits(x / 2, 7), x % 2 == 1);
    }
  }

  lemma {:induction false} HalfByte(x: Byte)
    ensures Bits(x, 8) == Bits(x / 2, 7) + [x % 2 == 1]
    ensures Bits(x / 2, 8) == [false] + Bits(x / 2, 7)
  {
    BitsSplit(x / 2, 1, 7);
    assert Down(x / 2, 7) == Down(x, 8);
    Down8(x);
    assert Bits(0, 1) == [false];
  }

  // ---- the computation is bit-serial ----

  function MessageBits(m: seq<Byte>): (bits: P.Bits)
    ensures |bits| == 8 * |m|
  {
    if m == [] then [] else MessageBits(m[..|m| - 1]) + Bits(m[|m| - 1], 8)
  }

  lemma IndexBits(s: Word, b: Byte)
    ensures Bits(Index(s, b), 8) == P.Xor(Bits(s, 16)[..8], Bits(b, 8))
  {
    var x := Xor(b, s / 0x100);
    Powers();
    assert x == x % 0x100 + x / 0x100 * Pow2(8);
    BitsPlus(x % 0x100, x / 0x100, 8);
    XorBits(b, s / 0x100, 8);
    BitsSplit(s, 8, 8);
    Down8(s);
    assert Bits(s, 16)[..8] == Bits(s / 0x100, 8);
  }

  lemma StepBits(table: Table, s: Word, b: Byte, x: Byte)
    requires x == Index(s, b)
    ensures Bits(Step(table, s, b), 16) == P.Xor(Bits(table(x), 16), Bits(s, 16)[8..] + P.Zeros(8))
  {
    var y := Xor(table(x), s * 0x100);
    Powers();
    assert y == y % 0x10000 + y / 0x10000 * Pow2(16);
    BitsPlus(y % 0x10000, y / 0x10000, 16);
    XorBits(table(x), s * 0x100, 16);
    BitsUp(s, 8, 8);
    BitsSplit(s, 8, 8);
    assert Bits(s, 16)[8..] == Bits(s, 8);
  }

  /** One table step feeds the register with the eight bits of the byte. */
  lemma {:induction false} StepFeeds(table: Table, s: Word, b: Byte)
    requires HoldsEntries(table)
    ensures Bits(Step(table, s, b), 16) == P.FeedAll(Bits(s, 16), Bits(b, 8))
  {
    var x := Index(s, b);
    StepBits(table, s, b, x);
    TableBits(table, x);
    IndexBits(s, b);
    P.ByteEnters(Bits(s, 16), Bits(b, 8));
  }

  lemma {:induction false} StateFeeds(table: Table, m: seq<Byte>)
    requires HoldsEntries(table)
    ensures Bits(StateBy(table, m), 16) == P.FeedAll(P.Zeros(16), MessageBits(m))
  {
    if m == [] {
      ZeroBits(16);
    } else {
      StateFeeds(table, m[..|m| - 1]);
      StepFeeds(table, StateBy(table, m[..|m| - 1]), m[|m| - 1]);
      P.FeedConcat(P.Zeros(16), MessageBits(m[..|m| - 1]), Bits(m[|m| - 1], 8));
    }
  }

  /** The CRC of a message is the remainder of the message polynomial times x^16 (section 4.5 of the SD
      Physical Layer Specification). */
  lemma {:induction false} CrcIsRemainder(m: seq<Byte>)
    ensures Bits(State(m), 16) == P.Remainder(MessageBits(m) + P.Zeros(16))
  {
    LookupHoldsEntries();
    StateFeeds(LOOKUP, m);
    P.RegisterDivides(MessageBits(m));
  }

  // ---- the comparison with the card's checksum ----

  /** A word read into memory as two bytes, low address first. */
  function LittleEndian(b0: Byte, b1: Byte): Word
  {
    b0 + 0x100 * b1
  }

  /** The comparison with the byte-swapped result succeeds exactly when the two bytes that followed the
      message are its remainder, high byte first. */
  lemma {:induction false} CheckMeansRemainder(m: seq<Byte>, b0: Byte, b1: Byte)
    ensures LittleEndian(b0, b1) == Swap(State(m)) <==>
            Bits(b0, 8) + Bits(b1, 8) == P.Remainder(MessageBits(m) + P.Zeros(16))
  {
    CrcIsRemainder(m);
    SwapBits(State(m), b0, b1);
  }

  lemma {:induction false} SwapBits(s: Word, b0: Byte, b1: Byte)
    ensures LittleEndian(b0, b1) == Swap(s) <==> Bits(b0, 8) + Bits(b1, 8) == Bits(s, 16)
  {
    var h, l := s / 0x100, s % 0x100;
    assert LittleEndian(b0, b1) == Swap(s) <==> b0 == h && b1 == l;
    TwoBytes(s, h, l);
    TwoBytesInjective(b0, b1, h, l);
  }

  lemma TwoBytes(s: Word, h: Byte, l: Byte)
    requires s == 0x100 * h + l
    ensures Bits(s, 16) == Bits(h, 8) + Bits(l, 8)
  {
    Powers();
    Down8(s);
    BitsSplit(s, 8, 8);
    BitsPlus(l, h, 8);
  }

  lemma TwoBytesInjective(a: Byte, b: Byte, c: Byte, d: Byte)
    ensures Bits(a, 8) + Bits(b, 8) == Bits(c, 8) + Bits(d, 8) <==> a == c && b == d
  {
    if Bits(a, 8) + Bits(b, 8) == Bits(c, 8) + Bits(d, 8) {
      assert (Bits(a, 8) + Bits(b, 8))[..8] == Bits(a, 8) && (Bits(c, 8) + Bits(d, 8))[..8] == Bits(c, 8);
      assert (Bits(a, 8) + Bits(b, 8))[8..] == Bits(b, 8) && (Bits(c, 8) + Bits(d, 8))[8..] == Bits(d, 8);
      Powers();
      BitsInjective(a, c, 8);
      BitsInjective(b, d, 8);
    }
  }

  // ---- error detection ----

  /** Burst detection: two different messages of equal length that differ only inside a window of sixteen
      bits never share a CRC. */
  lemma {:induction false} BurstDetected(m: seq<Byte>, n: seq<Byte>, p: nat)
    requires |m| == |n| && m != n && P.DifferInWindow(MessageBits(m), MessageBits(n), p)
    ensures State(m) != State(n) && Swap(State(m)) != Swap(State(n))
  {
    if MessageBits(m) == MessageBits(n) {
      MessageBitsInjective(m, n);
    }
    LookupHoldsEntries();
    StateFeeds(LOOKUP, m);
    StateFeeds(LOOKUP, n);
    P.BurstSeparates(P.Zeros(16), MessageBits(m), MessageBits(n), p);
    SwapInjective(State(m), State(n));
  }

  lemma SwapInjective(s: Word, t: Word)
    ensures Swap(s) == Swap(t) <==> s == t
  {
    SwapTwice(s);
    SwapTwice(t);
  }

  lemma SwapTwice(s: Word)
    ensures Swap(Swap(s)) == s
  {
    assert Swap(s) / 0x100 == s % 0x100 && Swap(s) % 0x100 == s / 0x100;
  }

  lemma {:induction false} MessageBitsInjective(m: seq<Byte>, n: seq<Byte>)
    requires |m| == |n| && MessageBits(m) == MessageBits(n)
    ensures m == n
  {
    if m != [] {
      var k := |m| - 1;
      assert MessageBits(m)[..8 * k] == MessageBits(m[..k]) && MessageBits(n)[..8 * k] == MessageBits(n[..k]);
      assert MessageBits(m)[8 * k..] == Bits(m[k], 8) && MessageBits(n)[8 * k..] == Bits(n[k], 8);
      MessageBitsInjective(m[..k], n[..k]);
      Powers();
      BitsInjective(m[k], n[k], 8);
      assert m == m[..k] + [m[k]] && n == n[..k] + [n[k]];
    }
  }
}
