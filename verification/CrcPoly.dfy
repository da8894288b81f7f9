/** Polynomials over the two-element field, as coefficient strings from the highest power down: long division
    by x^16 + x^12 + x^5 + 1, and the bit-serial register that computes its remainder. */
module CrcPoly {

  type Bits = seq<bool>

  function Zeros(n: nat): (z: Bits)
    ensures |z| == n
  {
    seq(n, i => false)
  }

  function Xor(a: Bits, b: Bits): (r: Bits)
    requires |a| == |b|
    ensures |r| == |a|
  {
    seq(|a|, i requires 0 <= i < |a| => a[i] != b[i])
  }

  /** Adds the divisor below its leading term: the coefficients of x^12, x^5 and 1 among the first sixteen. */
  function AddPoly(t: Bits): (r: Bits)
    requires |t| >= 16
    ensures |r| == |t|
  {
    seq(|t|, i requires 0 <= i < |t| => t[i] != (i == 3 || i == 10 || i == 15))
  }

  /** Long division: the remainder of a polynomial. */
  function Remainder(p: Bits): (r: Bits)
    requires |p| >= 16
    ensures |r| == 16
    decreases |p|
  {
    if |p| == 16 then p
    else if p[0] then Remainder(AddPoly(p[1..]))
    else Remainder(p[1..])
  }

  /** One message bit enters the register. */
  function Feed(r: Bits, x: bool): (r': Bits)
    requires |r| == 16
    ensures |r'| == 16
  {
    if r[0] != x then AddPoly(r[1..] + [false]) else r[1..] + [false]
  }

  function FeedAll(r: Bits, bits: Bits): (r': Bits)
    requires |r| == 16
    ensures |r'| == 16
    decreases |bits|
  {
    if bits == [] then r else FeedAll(Feed(r, bits[0]), bits[1..])
  }

  lemma FeedAt(r: Bits, x: bool, i: nat)
    requires |r| == 16 && i < 16
    ensures Feed(r, x)[i] == ((i < 15 && r[i + 1]) != ((r[0] != x) && (i == 3 || i == 10 || i == 15)))
  {
  }

  lemma {:induction false} FeedConcat(r: Bits, a: Bits, b: Bits)
    requires |r| == 16
    ensures FeedAll(r, a + b) == FeedAll(FeedAll(r, a), b)
    decreases |a|
  {
    if a == [] {
      assert a + b == b;
    } else {
      assert (a + b)[1..] == a[1..] + b;
      FeedConcat(Feed(r, a[0]), a[1..], b);
    }
  }

  // ---- the register divides ----

  /** The message times x^16, with the register added at its high end. */
  function Mix(r: Bits, bits: Bits): (p: Bits)
    requires |r| == 16
    ensures |p| == |bits| + 16
  {
    Xor(bits + Zeros(16), r + Zeros(|bits|))
  }

  lemma MixStep(r: Bits, bits: Bits)
    requires |r| == 16 && bits != []
    ensures var p := Mix(r, bits);
      Mix(Feed(r, bits[0]), bits[1..]) == if p[0] then AddPoly(p[1..]) else p[1..]
  {
    var p, q := Mix(r, bits), Mix(Feed(r, bits[0]), bits[1..]);
    var want := if p[0] then AddPoly(p[1..]) else p[1..];
    forall i | 0 <= i < |q| ensures q[i] == want[i] {
      if i < 16 { FeedAt(r, bits[0], i); }
    }
  }

  /** Feeding a message into a register leaves the remainder of the message times x^16 plus the register. */
  lemma {:induction false} MixRemainder(r: Bits, bits: Bits)
    requires |r| == 16
    ensures Remainder(Mix(r, bits)) == FeedAll(r, bits)
    decreases |bits|
  {
    if bits == [] {
      assert Mix(r, bits) == r;
    } else {
      MixStep(r, bits);
      MixRemainder(Feed(r, bits[0]), bits[1..]);
    }
  }

  lemma RegisterDivides(bits: Bits)
    ensures FeedAll(Zeros(16), bits) == Remainder(bits + Zeros(16))
  {
    MixRemainder(Zeros(16), bits);
    assert Mix(Zeros(16), bits) == bits + Zeros(16);
  }

  // ---- linearity ----

  lemma FeedLinear(r: Bits, s: Bits, x: bool, y: bool)
    requires |r| == 16 && |s| == 16
    ensures Feed(Xor(r, s), x != y) == Xor(Feed(r, x), Feed(s, y))
  {
    forall i | 0 <= i < 16 ensures Feed(Xor(r, s), x != y)[i] == Xor(Feed(r, x), Feed(s, y))[i] {
      FeedAt(Xor(r, s), x != y, i);
      FeedAt(r, x, i);
      FeedAt(s, y, i);
    }
  }

  lemma {:induction false} FeedAllLinear(r: Bits, s: Bits, a: Bits, b: Bits)
    requires |r| == 16 && |s| == 16 && |a| == |b|
    ensures FeedAll(Xor(r, s), Xor(a, b)) == Xor(FeedAll(r, a), FeedAll(s, b))
    decreases |a|
  {
    if a != [] {
      FeedLinear(r, s, a[0], b[0]);
      assert Xor(a, b)[1..] == Xor(a[1..], b[1..]);
      FeedAllLinear(Feed(r, a[0]), Feed(s, b[0]), a[1..], b[1..]);
    }
  }

  // ---- eight bits at once ----

  /** A register with zeros at its top shifts without feedback. */
  lemma {:induction false} ShiftOut(t: Bits, k: nat)
    requires |t| + k == 16
    ensures FeedAll(Zeros(k) + t, Zeros(k)) == t + Zeros(k)
    decreases k
  {
    if k == 0 {
      assert Zeros(0) + t == t == t + Zeros(0);
    } else {
      var r := Zeros(k) + t;
      assert Zeros(k)[1..] == Zeros(k - 1);
      assert Feed(r, false) == Zeros(k - 1) + (t + [false]);
      ShiftOut(t + [false], k - 1);
      assert (t + [false]) + Zeros(k - 1) == t + Zeros(k);
    }
  }

  /** Message bits equal to the register's top bits cancel them. */
  lemma {:induction false} Cancel(bits: Bits)
    requires |bits| <= 16
    ensures FeedAll(bits + Zeros(16 - |bits|), bits) == Zeros(16)
    decreases |bits|
  {
    if bits == [] {
      assert bits + Zeros(16) == Zeros(16);
    } else {
      var r := bits + Zeros(16 - |bits|);
      assert Feed(r, bits[0]) == bits[1..] + Zeros(17 - |bits|);
      Cancel(bits[1..]);
    }
  }

  /** Eight bits enter: added to the top half, which is reduced, while the bottom half moves up. */
  lemma {:induction false} ByteEnters(r: Bits, bits: Bits)
    requires |r| == 16 && |bits| == 8
    ensures FeedAll(r, bits) == Xor(FeedAll(Xor(r[..8], bits) + Zeros(8), Zeros(8)), r[8..] + Zeros(8))
  {
    var h, l, z := r[..8], r[8..], Zeros(8);
    TopEnters(h, bits);
    ShiftOut(l, 8);
    FeedAllLinear(h + z, z + l, bits, z);
    assert Xor(h + z, z + l) == r && Xor(bits, z) == bits;
  }

  lemma {:induction false} TopEnters(h: Bits, bits: Bits)
    requires |h| == |bits| == 8
    ensures FeedAll(h + Zeros(8), bits) == FeedAll(Xor(h, bits) + Zeros(8), Zeros(8))
  {
    var z := Zeros(8);
    Cancel(bits);
    FeedAllLinear(h + z, bits + z, bits, bits);
    assert Xor(h + z, bits + z) == Xor(h, bits) + z && Xor(bits, bits) == z;
    assert Xor(FeedAll(h + z, bits), Zeros(16)) == FeedAll(h + z, bits);
  }

  /** The register after eight shifts of `bits + [odd]` in the top byte, from that of `[false] + bits`. */
  lemma DoubleIndex(bits: Bits, odd: bool)
    requires |bits| == 7
    ensures var half := FeedAll([false] + bits + Zeros(8), Zeros(8));
      FeedAll(bits + [odd] + Zeros(8), Zeros(8)) == if odd then AddPoly(Feed(half, false)) else Feed(half, false)
  {
    var r := [false] + bits + Zeros(8);
    var even := bits + [false] + Zeros(8);
    assert Feed(r, false) == even;
    assert [false] + Zeros(8) == Zeros(8) + [false];
    FeedConcat(r, [false], Zeros(8));
    FeedConcat(r, Zeros(8), [false]);
    FeedOne(r, false);
    FeedOne(FeedAll(r, Zeros(8)), false);
    if odd {
      AddOdd(bits);
    }
  }

  lemma FeedOne(r: Bits, x: bool)
    requires |r| == 16
    ensures FeedAll(r, [x]) == Feed(r, x)
  {
    assert [x][1..] == [];
  }

  /** A single one in the lowest place of the top byte becomes the polynomial after eight shifts. */
  lemma OneShifts()
    ensures FeedAll(Zeros(7) + ([true] + Zeros(8)), Zeros(8)) == AddPoly(Zeros(16))
  {
    var one, top := Zeros(7) + ([true] + Zeros(8)), [true] + Zeros(15);
    ShiftOut([true] + Zeros(8), 7);
    assert ([true] + Zeros(8)) + Zeros(7) == top;
    assert Zeros(8) == Zeros(7) + [false];
    FeedConcat(one, Zeros(7), [false]);
    FeedOne(top, false);
    assert top[1..] + [false] == Zeros(16);
  }

  lemma XorLast(bits: Bits, even: Bits, one: Bits)
    requires |bits| == 7 && even == bits + [false] + Zeros(8) && one == Zeros(7) + ([true] + Zeros(8))
    ensures Xor(even, one) == bits + [true] + Zeros(8) && Xor(Zeros(8), Zeros(8)) == Zeros(8)
  {
    assert Xor(even, one) == bits + [true] + Zeros(8);
    assert Xor(Zeros(8), Zeros(8)) == Zeros(8);
  }

  /** A one in the lowest place of the top byte adds the polynomial after eight shifts. */
  lemma AddOdd(bits: Bits)
    requires |bits| == 7
    ensures FeedAll(bits + [true] + Zeros(8), Zeros(8)) == AddPoly(FeedAll(bits + [false] + Zeros(8), Zeros(8)))
  {
    var even, one := bits + [false] + Zeros(8), Zeros(7) + ([true] + Zeros(8));
    FeedAllLinear(even, one, Zeros(8), Zeros(8));
    XorLast(bits, even, one);
    OneShifts();
    XorPoly(FeedAll(even, Zeros(8)));
  }

  lemma XorPoly(w: Bits)
    requires |w| == 16
    ensures Xor(w, AddPoly(Zeros(16))) == AddPoly(w)
  {
  }

  // ---- error detection ----

  lemma FeedInjective(r: Bits, s: Bits, x: bool)
    requires |r| == 16 && |s| == 16 && r != s
    ensures Feed(r, x) != Feed(s, x)
  {
    var j :| 0 <= j < 16 && r[j] != s[j];
    FeedAt(r, x, 15);
    FeedAt(s, x, 15);
    if j > 0 {
      FeedAt(r, x, j - 1);
      FeedAt(s, x, j - 1);
    }
  }

  lemma {:induction false} FeedAllInjective(r: Bits, s: Bits, bits: Bits)
    requires |r| == 16 && |s| == 16 && r != s
    ensures FeedAll(r, bits) != FeedAll(s, bits)
    decreases |bits|
  {
    if bits != [] {
      FeedInjective(r, s, bits[0]);
      FeedAllInjective(Feed(r, bits[0]), Feed(s, bits[0]), bits[1..]);
    }
  }

  /** The registers differ within their `k` lowest places. */
  ghost predicate Apart(r: Bits, s: Bits, k: nat)
    requires |r| == 16 && |s| == 16
  {
    exists j :: 0 <= j < 16 && 16 - k <= j && r[j] != s[j]
  }

  /** Registers that differ within the `k` lowest places differ within the next one after any two bits. */
  lemma ApartStep(r: Bits, s: Bits, x: bool, y: bool, k: nat)
    requires |r| == 16 && |s| == 16 && k < 16 && Apart(r, s, k)
    ensures Apart(Feed(r, x), Feed(s, y), k + 1)
  {
    var j :| 0 <= j < 16 && 16 - k <= j && r[j] != s[j];
    FeedAt(r, x, j - 1);
    FeedAt(s, y, j - 1);
    FeedAt(r, x, 15);
    FeedAt(s, y, 15);
    assert Feed(r, x)[j - 1] != Feed(s, y)[j - 1] || Feed(r, x)[15] != Feed(s, y)[15];
  }

  lemma {:induction false} StayApart(r: Bits, s: Bits, a: Bits, b: Bits, k: nat)
    requires |r| == 16 && |s| == 16 && |a| == |b| && k + |a| <= 16 && Apart(r, s, k)
    ensures FeedAll(r, a) != FeedAll(s, b)
    decreases |a|
  {
    if a != [] {
      ApartStep(r, s, a[0], b[0], k);
      StayApart(Feed(r, a[0]), Feed(s, b[0]), a[1..], b[1..], k + 1);
    }
  }

  /** Different strings of at most sixteen bits drive the register to different states. */
  lemma {:induction false} WindowSeparates(r: Bits, a: Bits, b: Bits)
    requires |r| == 16 && |a| == |b| <= 16 && a != b
    ensures FeedAll(r, a) != FeedAll(r, b)
    decreases |a|
  {
    if a[0] == b[0] {
      assert a == [a[0]] + a[1..] && b == [b[0]] + b[1..];
      WindowSeparates(Feed(r, a[0]), a[1..], b[1..]);
    } else {
      FeedAt(r, a[0], 15);
      FeedAt(r, b[0], 15);
      StayApart(Feed(r, a[0]), Feed(r, b[0]), a[1..], b[1..], 1);
    }
  }

  /** Strings that differ only in the sixteen bits from bit `p` on. */
  ghost predicate DifferInWindow(a: Bits, b: Bits, p: nat)
    requires |a| == |b|
  {
    forall k :: 0 <= k < |a| && !(p <= k < p + 16) ==> a[k] == b[k]
  }

  lemma {:induction false} FeedThree(r: Bits, a: Bits, b: Bits, c: Bits)
    requires |r| == 16
    ensures FeedAll(r, a + b + c) == FeedAll(FeedAll(FeedAll(r, a), b), c)
  {
    FeedConcat(r, a + b, c);
    FeedConcat(r, a, b);
  }

  lemma {:induction false} BurstInMiddle(r: Bits, a: Bits, e: Bits, f: Bits, c: Bits)
    requires |r| == 16 && |e| == |f| <= 16 && e != f
    ensures FeedAll(r, a + e + c) != FeedAll(r, a + f + c)
  {
    FeedThree(r, a, e, c);
    FeedThree(r, a, f, c);
    WindowSeparates(FeedAll(r, a), e, f);
    FeedAllInjective(FeedAll(FeedAll(r, a), e), FeedAll(FeedAll(r, a), f), c);
  }

  lemma Split(a: Bits, p: nat, q: nat)
    requires p <= q <= |a|
    ensures a == a[..p] + a[p..q] + a[q..]
  {
  }

  /** Two different strings that differ only inside a window of sixteen bits have different remainders. */
  lemma {:induction false} BurstSeparates(r: Bits, a: Bits, b: Bits, p: nat)
    requires |r| == 16 && |a| == |b| && a != b && DifferInWindow(a, b, p)
    ensures FeedAll(r, a) != FeedAll(r, b)
  {
    var lo := if p <= |a| then p else |a|;
    var hi := if p + 16 <= |a| then p + 16 else |a|;
    Split(a, lo, hi);
    Split(b, lo, hi);
    assert a[..lo] == b[..lo] && a[hi..] == b[hi..];
    BurstInMiddle(r, a[..lo], a[lo..hi], b[lo..hi], a[hi..]);
  }
}
