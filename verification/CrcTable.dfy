/** The CRC16 lookup table (`spi_sdcard.c`), 8 entries a row, and how each entry follows from the entry of half
    its index. Words are numbers below 2^16. */
module CrcTable {

  /** Inverts the places of x^12, x^5 and 1. */
  function FlipPoly(n: nat): nat
  {
    var a := if n / 0x1000 % 2 == 0 then n + 0x1000 else n - 0x1000;
    var b := if n / 0x20 % 2 == 0 then a + 0x20 else a - 0x20;
    if n % 2 == 0 then b + 1 else b - 1
  }

  /** One shift of a word, reducing by the polynomial when a one leaves at the top. */
  function Shift(n: nat): nat
    requires n < 0x10000
  {
    if n < 0x8000 then 2 * n else FlipPoly(2 * n - 0x10000)
  }

  /** The entry of index `2 * x` or `2 * x + 1` from that of index `x`. */
  function Entry(t: nat, odd: bool): nat
    requires t < 0x10000
  {
    if odd then FlipPoly(Shift(t)) else Shift(t)
  }

  function Row00(l: nat): (r: nat)
    requires l < 8
    ensures r < 0x10000
  {
    if l == 0 then 0x0000 else if l == 1 then 0x1021 else if l == 2 then 0x2042 else if l == 3 then 0x3063 else
    if l == 4 then 0x4084 else if l == 5 then 0x50a5 else if l == 6 then 0x60c6 else 0x70e7
  }

  function Row01(l: nat): (r: nat)
    requires l < 8
    ensures r < 0x10000
  {
    if l == 0 then 0x8108 else if l == 1 then 0x9129 else if l == 2 then 0xa14a else if l == 3 then 0xb16b else
    if l == 4 then 0xc18c else if l == 5 then 0xd1ad else if l == 6 then 0xe1ce else 0xf1ef
  }

  function Row02(l: nat): (r: nat)
    requires l < 8
    ensures r < 0x10000
  {
    if l == 0 then 0x1231 else if l == 1 then 0x0210 else if l == 2 then 0x3273 else if l == 3 then 0x2252 else
    if l == 4 then 0x52b5 else if l == 5 then 0x4294 else if l == 6 then 0x72f7 else 0x62d6
  }

  function Row03(l: nat): (r: nat)
    requires l < 8
    ensures r < 0x10000
  {
    if l == 0 then 0x9339 else if l == 1 then 0x8318 else if l == 2 then 0xb37b else if l == 3 then 0xa35a else
    if l == 4 then 0xd3bd else if l == 5 then 0xc39c else if l == 6 then 0xf3ff else 0xe3de
  }

  function Row04(l: nat): (r: nat)
    requires l < 8
    ensures r < 0x10000
  {
    if l == 0 then 0x2462 else if l == 1 then 0x3443 else if l == 2 then 0x0420 else if l == 3 then 0x1401 else
    if l == 4 then 0x64e6 else if l == 5 then 0x74c7 else if l == 6 then 0x44a4 else 0x5485
  }

  function Row05(l: nat): (r: nat)
    requires l < 8
    ensures r < 0x10000
  {
    if l == 0 then 0xa56a else if l == 1 then 0xb54b else if l == 2 then 0x8528 else if l == 3 then 0x9509 else
    if l == 4 then 0xe5ee else if l == 5 then 0xf5cf else if l == 6 then 0xc5ac else 0xd58d
  }

  function Row06(l: nat): (r: nat)
    requires l < 8
    ensures r < 0x10000
  {
    if l == 0 then 0x3653 else if l == 1 then 0x2672 else if l == 2 then 0x1611 else if l == 3 then 0x0630 else
    if l == 4 then 0x76d7 else if l == 5 then 0x66f6 else if l == 6 then 0x5695 else 0x46b4
  }

  function Row07(l: nat): (r: nat)
    requires l < 8
    ensures r < 0x10000
  {
    if l == 0 then 0xb75b else if l == 1 then 0xa77a else if l == 2 then 0x9719 else if l == 3 then 0x8738 else
    if l == 4 then 0xf7df else if l == 5 then 0xe7fe else if l == 6 then 0xd79d else 0xc7bc
  }

  function Row08(l: nat): (r: nat)
    requires l < 8
    ensures r < 0x10000
  {
    if l == 0 then 0x48c4 else if l == 1 then 0x58e5 else if l == 2 then 0x6886 else if l == 3 then 0x78a7 else
    if l == 4 then 0x0840 else if l == 5 then 0x1861 else if l == 6 then 0x2802 else 0x3823
  }

  function Row09(l: nat): (r: nat)
    requires l < 8
    ensures r < 0x10000
  {
    if l == 0 then 0xc9cc else if l == 1 then 0xd9ed else if l == 2 then 0xe98e else if l == 3 then 0xf9af else
    if l == 4 then 0x8948 else if l == 5 then 0x9969 else if l == 6 then 0xa90a else 0xb92b
  }

  function Row0A(l: nat): (r: nat)
    requires l < 8
    ensures r < 0x10000
  {
    if l == 0 then 0x5af5 else if l == 1 then 0x4ad4 else if l == 2 then 0x7ab7 else if l == 3 then 0x6a96 else
    if l == 4 then 0x1a71 else if l == 5 then 0x0a50 else if l == 6 then 0x3a33 else 0x2a12
  }

  function Row0B(l: nat): (r: nat)
    requires l < 8
    ensures r < 0x10000
  {
    if l == 0 then 0xdbfd else if l == 1 then 0xcbdc else if l == 2 then 0xfbbf else if l == 3 then 0xeb9e else
    if l == 4 then 0x9b79 else if l == 5 then 0x8b58 else if l == 6 then 0xbb3b else 0xab1a
  }

  function Row0C(l: nat): (r: nat)
    requires l < 8
    ensures r < 0x10000
  {
    if l == 0 then 0x6ca6 else if l == 1 then 0x7c87 else if l == 2 then 0x4ce4 else if l == 3 then 0x5cc5 else
    if l == 4 then 0x2c22 else if l == 5 then 0x3c03 else if l == 6 then 0x0c60 else 0x1c41
  }

  function Row0D(l: nat): (r: nat)
    requires l < 8
    ensures r < 0x10000
  {
    if l == 0 then 0xedae else if l == 1 then 0xfd8f else if l == 2 then 0xcdec else if l == 3 then 0xddcd else
    if l == 4 then 0xad2a else if l == 5 then 0xbd0b else if l == 6 then 0x8d68 else 0x9d49
  }

  function Row0E(l: nat): (r: nat)
    requires l < 8
    ensures r < 0x10000
  {
    if l == 0 then 0x7e97 else if l == 1 then 0x6eb6 else if l == 2 then 0x5ed5 else if l == 3 then 0x4ef4 else
    if l == 4 then 0x3e13 else if l == 5 then 0x2e32 else if l == 6 then 0x1e51 else 0x0e70
  }

  function Row0F(l: nat): (r: nat)
    requires l < 8
    ensures r < 0x10000
  {
    if l == 0 then 0xff9f else if l == 1 then 0xefbe else if l == 2 then 0xdfdd else if l == 3 then 0xcffc else
    if l == 4 then 0xbf1b else if l == 5 then 0xaf3a else if l == 6 then 0x9f59 else 0x8f78
  }

  function Row10(l: nat): (r: nat)
    requires l < 8
    ensures r < 0x10000
  {
    if l == 0 then 0x9188 else if l == 1 then 0x81a9 else if l == 2 then 0xb1ca else if l == 3 then 0xa1eb else
    if l == 4 then 0xd10c else if l == 5 then 0xc12d else if l == 6 then 0xf14e else 0xe16f
  }

  function Row11(l: nat): (r: nat)
    requires l < 8
    ensures r < 0x10000
  {
    if l == 0 then 0x1080 else if l == 1 then 0x00a1 else if l == 2 then 0x30c2 else if l == 3 then 0x20e3 else
    if l == 4 then 0x5004 else if l == 5 then 0x4025 else if l == 6 then 0x7046 else 0x6067
  }

  function Row12(l: nat): (r: nat)
    requires l < 8
    ensures r < 0x10000
  {
    if l == 0 then 0x83b9 else if l == 1 then 0x9398 else if l == 2 then 0xa3fb else if l == 3 then 0xb3da else
    if l == 4 then 0xc33d else if l == 5 then 0xd31c else if l == 6 then 0xe37f else 0xf35e
  }

  function Row13(l: nat): (r: nat)
    requires l < 8
    ensures r < 0x10000
  {
    if l == 0 then 0x02b1 else if l == 1 then 0x1290 else if l == 2 then 0x22f3 else if l == 3 then 0x32d2 else
    if l == 4 then 0x4235 else if l == 5 then 0x5214 else if l == 6 then 0x6277 else 0x7256
  }

  function Row14(l: nat): (r: nat)
    requires l < 8
    ensures r < 0x10000
  {
    if l == 0 then 0xb5ea else if l == 1 then 0xa5cb else if l == 2 then 0x95a8 else if l == 3 then 0x8589 else
    if l == 4 then 0xf56e else if l == 5 then 0xe54f else if l == 6 then 0xd52c else 0xc50d
  }

  function Row15(l: nat): (r: nat)
    requires l < 8
    ensures r < 0x10000
  {
    if l == 0 then 0x34e2 else if l == 1 then 0x24c3 else if l == 2 then 0x14a0 else if l == 3 then 0x0481 else
    if l == 4 then 0x7466 else if l == 5 then 0x6447 else if l == 6 then 0x5424 else 0x4405
  }

  function Row16(l: nat): (r: nat)
    requires l < 8
    ensures r < 0x10000
  {
    if l == 0 then 0xa7db else if l == 1 then 0xb7fa else if l == 2 then 0x8799 else if l == 3 then 0x97b8 else
    if l == 4 then 0xe75f else if l == 5 then 0xf77e else if l == 6 then 0xc71d else 0xd73c
  }

  function Row17(l: nat): (r: nat)
    requires l < 8
    ensures r < 0x10000
  {
    if l == 0 then 0x26d3 else if l == 1 then 0x36f2 else if l == 2 then 0x0691 else if l == 3 then 0x16b0 else
    if l == 4 then 0x6657 else if l == 5 then 0x7676 else if l == 6 then 0x4615 else 0x5634
  }

  function Row18(l: nat): (r: nat)
    requires l < 8
    ensures r < 0x10000
  {
    if l == 0 then 0xd94c else if l == 1 then 0xc96d else if l == 2 then 0xf90e else if l == 3 then 0xe92f else
    if l == 4 then 0x99c8 else if l == 5 then 0x89e9 else if l == 6 then 0xb98a else 0xa9ab
  }

  function Row19(l: nat): (r: nat)
    requires l < 8
    ensures r < 0x10000
  {
    if l == 0 then 0x5844 else if l == 1 then 0x4865 else if l == 2 then 0x7806 else if l == 3 then 0x6827 else
    if l == 4 then 0x18c0 else if l == 5 then 0x08e1 else if l == 6 then 0x3882 else 0x28a3
  }

  function Row1A(l: nat): (r: nat)
    requires l < 8
    ensures r < 0x10000
  {
    if l == 0 then 0xcb7d else if l == 1 then 0xdb5c else if l == 2 then 0xeb3f else if l == 3 then 0xfb1e else
    if l == 4 then 0x8bf9 else if l == 5 then 0x9bd8 else if l == 6 then 0xabbb else 0xbb9a
  }

  function Row1B(l: nat): (r: nat)
    requires l < 8
    ensures r < 0x10000
  {
    if l == 0 then 0x4a75 else if l == 1 then 0x5a54 else if l == 2 then 0x6a37 else if l == 3 then 0x7a16 else
    if l == 4 then 0x0af1 else if l == 5 then 0x1ad0 else if l == 6 then 0x2ab3 else 0x3a92
  }

  function Row1C(l: nat): (r: nat)
    requires l < 8
    ensures r < 0x10000
  {
    if l == 0 then 0xfd2e else if l == 1 then 0xed0f else if l == 2 then 0xdd6c else if l == 3 then 0xcd4d else
    if l == 4 then 0xbdaa else if l == 5 then 0xad8b else if l == 6 then 0x9de8 else 0x8dc9
  }

  function Row1D(l: nat): (r: nat)
    requires l < 8
    ensures r < 0x10000
  {
    if l == 0 then 0x7c26 else if l == 1 then 0x6c07 else if l == 2 then 0x5c64 else if l == 3 then 0x4c45 else
    if l == 4 then 0x3ca2 else if l == 5 then 0x2c83 else if l == 6 then 0x1ce0 else 0x0cc1
  }

  function Row1E(l: nat): (r: nat)
    requires l < 8
    ensures r < 0x10000
  {
    if l == 0 then 0xef1f else if l == 1 then 0xff3e else if l == 2 then 0xcf5d else if l == 3 then 0xdf7c else
    if l == 4 then 0xaf9b else if l == 5 then 0xbfba else if l == 6 then 0x8fd9 else 0x9ff8
  }

  function Row1F(l: nat): (r: nat)
    requires l < 8
    ensures r < 0x10000
  {
    if l == 0 then 0x6e17 else if l == 1 then 0x7e36 else if l == 2 then 0x4e55 else if l == 3 then 0x5e74 else
    if l == 4 then 0x2e93 else if l == 5 then 0x3eb2 else if l == 6 then 0x0ed1 else 0x1ef0
  }

  lemma Row00Step(l: nat)
    requires 0 < l < 8
    ensures Row00(l) == Entry(Row00(l / 2), l % 2 == 1)
  {
  }

  lemma Row01Step(l: nat)
    requires l < 8
    ensures Row01(l) == Entry(Row00(4 + l / 2), l % 2 == 1)
  {
  }

  lemma Row02Step(l: nat)
    requires l < 8
    ensures Row02(l) == Entry(Row01(l / 2), l % 2 == 1)
  {
  }

  lemma Row03Step(l: nat)
    requires l < 8
    ensures Row03(l) == Entry(Row01(4 + l / 2), l % 2 == 1)
  {
  }

  lemma Row04Step(l: nat)
    requires l < 8
    ensures Row04(l) == Entry(Row02(l / 2), l % 2 == 1)
  {
  }

  lemma Row05Step(l: nat)
    requires l < 8
    ensures Row05(l) == Entry(Row02(4 + l / 2), l % 2 == 1)
  {
  }

  lemma Row06Step(l: nat)
    requires l < 8
    ensures Row06(l) == Entry(Row03(l / 2), l % 2 == 1)
  {
  }

  lemma Row07Step(l: nat)
    requires l < 8
    ensures Row07(l) == Entry(Row03(4 + l / 2), l % 2 == 1)
  {
  }

  lemma Row08Step(l: nat)
    requires l < 8
    ensures Row08(l) == Entry(Row04(l / 2), l % 2 == 1)
  {
  }

  lemma Row09Step(l: nat)
    requires l < 8
    ensures Row09(l) == Entry(Row04(4 + l / 2), l % 2 == 1)
  {
  }

  lemma Row0AStep(l: nat)
    requires l < 8
    ensures Row0A(l) == Entry(Row05(l / 2), l % 2 == 1)
  {
  }

  lemma Row0BStep(l: nat)
    requires l < 8
    ensures Row0B(l) == Entry(Row05(4 + l / 2), l % 2 == 1)
  {
  }

  lemma Row0CStep(l: nat)
    requires l < 8
    ensures Row0C(l) == Entry(Row06(l / 2), l % 2 == 1)
  {
  }

  lemma Row0DStep(l: nat)
    requires l < 8
    ensures Row0D(l) == Entry(Row06(4 + l / 2), l % 2 == 1)
  {
  }

  lemma Row0EStep(l: nat)
    requires l < 8
    ensures Row0E(l) == Entry(Row07(l / 2), l % 2 == 1)
  {
  }

  lemma Row0FStep(l: nat)
    requires l < 8
    ensures Row0F(l) == Entry(Row07(4 + l / 2), l % 2 == 1)
  {
  }

  lemma Row10Step(l: nat)
    requires l < 8
    ensures Row10(l) == Entry(Row08(l / 2), l % 2 == 1)
  {
  }

  lemma Row11Step(l: nat)
    requires l < 8
    ensures Row11(l) == Entry(Row08(4 + l / 2), l % 2 == 1)
  {
  }

  lemma Row12Step(l: nat)
    requires l < 8
    ensures Row12(l) == Entry(Row09(l / 2), l % 2 == 1)
  {
  }

  lemma Row13Step(l: nat)
    requires l < 8
    ensures Row13(l) == Entry(Row09(4 + l / 2), l % 2 == 1)
  {
  }

  lemma Row14Step(l: nat)
    requires l < 8
    ensures Row14(l) == Entry(Row0A(l / 2), l % 2 == 1)
  {
  }

  lemma Row15Step(l: nat)
    requires l < 8
    ensures Row15(l) == Entry(Row0A(4 + l / 2), l % 2 == 1)
  {
  }

  lemma Row16Step(l: nat)
    requires l < 8
    ensures Row16(l) == Entry(Row0B(l / 2), l % 2 == 1)
  {
  }

  lemma Row17Step(l: nat)
    requires l < 8
    ensures Row17(l) == Entry(Row0B(4 + l / 2), l % 2 == 1)
  {
  }

  lemma Row18Step(l: nat)
    requires l < 8
    ensures Row18(l) == Entry(Row0C(l / 2), l % 2 == 1)
  {
  }

  lemma Row19Step(l: nat)
    requires l < 8
    ensures Row19(l) == Entry(Row0C(4 + l / 2), l % 2 == 1)
  {
  }

  lemma Row1AStep(l: nat)
    requires l < 8
    ensures Row1A(l) == Entry(Row0D(l / 2), l % 2 == 1)
  {
  }

  lemma Row1BStep(l: nat)
    requires l < 8
    ensures Row1B(l) == Entry(Row0D(4 + l / 2), l % 2 == 1)
  {
  }

  lemma Row1CStep(l: nat)
    requires l < 8
    ensures Row1C(l) == Entry(Row0E(l / 2), l % 2 == 1)
  {
  }

  lemma Row1DStep(l: nat)
    requires l < 8
    ensures Row1D(l) == Entry(Row0E(4 + l / 2), l % 2 == 1)
  {
  }

  lemma Row1EStep(l: nat)
    requires l < 8
    ensures Row1E(l) == Entry(Row0F(l / 2), l % 2 == 1)
  {
  }

  lemma Row1FStep(l: nat)
    requires l < 8
    ensures Row1F(l) == Entry(Row0F(4 + l / 2), l % 2 == 1)
  {
  }

  /** The table by row and column. */
  function LowHalf(h: nat, l: nat): (r: nat)
    requires 0 <= h < 16 && l < 8
    ensures r < 0x10000
  {
    if h == 0 then Row00(l) else if h == 1 then Row01(l) else if h == 2 then Row02(l) else if h == 3 then Row03(l) else
    if h == 4 then Row04(l) else if h == 5 then Row05(l) else if h == 6 then Row06(l) else if h == 7 then Row07(l) else
    if h == 8 then Row08(l) else if h == 9 then Row09(l) else if h == 10 then Row0A(l) else if h == 11 then Row0B(l) else
    if h == 12 then Row0C(l) else if h == 13 then Row0D(l) else if h == 14 then Row0E(l) else Row0F(l)
  }

  /** Its second half. */
  function HighHalf(h: nat, l: nat): (r: nat)
    requires 16 <= h < 32 && l < 8
    ensures r < 0x10000
  {
    if h == 16 then Row10(l) else if h == 17 then Row11(l) else if h == 18 then Row12(l) else if h == 19 then Row13(l) else
    if h == 20 then Row14(l) else if h == 21 then Row15(l) else if h == 22 then Row16(l) else if h == 23 then Row17(l) else
    if h == 24 then Row18(l) else if h == 25 then Row19(l) else if h == 26 then Row1A(l) else if h == 27 then Row1B(l) else
    if h == 28 then Row1C(l) else if h == 29 then Row1D(l) else if h == 30 then Row1E(l) else Row1F(l)
  }

  lemma LowHalfStep(h: nat, l: nat)
    requires 0 <= h < 16 && l < 8 && (h > 0 || l > 0)
    ensures LowHalf(h, l) == Entry(LowHalf(h / 2, 4 * (h % 2) + l / 2), l % 2 == 1)
  {
    if h == 0 { Row00Step(l); } else if h == 1 { Row01Step(l); } else if h == 2 { Row02Step(l); } else if h == 3 { Row03Step(l); } else
    if h == 4 { Row04Step(l); } else if h == 5 { Row05Step(l); } else if h == 6 { Row06Step(l); } else if h == 7 { Row07Step(l); } else
    if h == 8 { Row08Step(l); } else if h == 9 { Row09Step(l); } else if h == 10 { Row0AStep(l); } else if h == 11 { Row0BStep(l); } else
    if h == 12 { Row0CStep(l); } else if h == 13 { Row0DStep(l); } else if h == 14 { Row0EStep(l); } else { Row0FStep(l); }
  }

  lemma HighHalfStep(h: nat, l: nat)
    requires 16 <= h < 32 && l < 8
    ensures HighHalf(h, l) == Entry(LowHalf(h / 2, 4 * (h % 2) + l / 2), l % 2 == 1)
  {
    if h == 16 { Row10Step(l); } else if h == 17 { Row11Step(l); } else if h == 18 { Row12Step(l); } else if h == 19 { Row13Step(l); } else
    if h == 20 { Row14Step(l); } else if h == 21 { Row15Step(l); } else if h == 22 { Row16Step(l); } else if h == 23 { Row17Step(l); } else
    if h == 24 { Row18Step(l); } else if h == 25 { Row19Step(l); } else if h == 26 { Row1AStep(l); } else if h == 27 { Row1BStep(l); } else
    if h == 28 { Row1CStep(l); } else if h == 29 { Row1DStep(l); } else if h == 30 { Row1EStep(l); } else { Row1FStep(l); }
  }

  function Table(h: nat, l: nat): (r: nat)
    requires h < 32 && l < 8
    ensures r < 0x10000
  {
    if h < 16 then LowHalf(h, l) else HighHalf(h, l)
  }

  lemma TableStep(h: nat, l: nat)
    requires h < 32 && l < 8 && (h > 0 || l > 0)
    ensures Table(h, l) == Entry(Table(h / 2, 4 * (h % 2) + l / 2), l % 2 == 1)
  {
    if h < 16 { LowHalfStep(h, l); } else { HighHalfStep(h, l); }
  }

  /** The lookup table. */
  function Lookup(x: nat): (r: nat)
    requires x < 0x100
    ensures r < 0x10000
  {
    Table(x / 8, x % 8)
  }

  lemma HalfIndex(x: nat, h: nat, l: nat)
    requires x < 0x100 && h == x / 8 && l == x % 8
    ensures (x / 2) / 8 == h / 2 && (x / 2) % 8 == 4 * (h % 2) + l / 2 && x % 2 == l % 2
  {
  }

  /** Every entry follows from that of half its index. */
  lemma LookupStep(x: nat)
    requires 0 < x < 0x100
    ensures Lookup(x) == Entry(Lookup(x / 2), x % 2 == 1)
  {
    HalfIndex(x, x / 8, x % 8);
    TableStep(x / 8, x % 8);
  }
}
