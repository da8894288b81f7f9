/** The PMP registers of the CSR file (`csr_regfile`): writes, locks, legal values, and the regions the
    entries match (`pmp_entry`). */
module Pmp {
  import opened Common

  const ENTRIES := 64

  datatype Mode = Off | Tor | Na4 | Napot

  datatype Cfg = Cfg(locked: bool, reserved: nat, mode: Mode, x: bool, w: bool, r: bool)

  const CLEAR := Cfg(false, 0, Off, false, false, false)

  /** The configured parameters: `addrRange` is two to the power of the address width. */
  datatype Params = Params(xlen64: bool, entries: nat, readOnly: seq<bool>, napotEn: bool, addrRange: nat)

  predicate ValidParams(c: Params)
  {
    c.entries <= ENTRIES && |c.readOnly| == ENTRIES && c.addrRange > 0
  }

  datatype Regs = Regs(cfg: seq<Cfg>, addr: seq<nat>)

  predicate ValidRegs(c: Params, q: Regs)
  {
    |q.cfg| == ENTRIES && |q.addr| == ENTRIES
  }

  /** A CSR write to the PMP registers, or anything else. The bytes of a configuration register are given by
      field; `above` is what reading past the last entry yields when the last address is written. */
  datatype Write = WriteCfg(k: nat, bytes: seq<Cfg>) | WriteAddr(k: nat, value: nat, above: bool) | Other

  function BytesPerReg(c: Params): nat { if c.xlen64 then 8 else 4 }

  predicate ValidWrite(c: Params, w: Write)
  {
    match w
    case WriteCfg(k, bytes) => k < 16 && |bytes| == BytesPerReg(c)
    case WriteAddr(k, _, _) => k < ENTRIES
    case Other => true
  }

  /** Odd configuration registers do not exist with sixty-four-bit registers. */
  predicate AccessException(c: Params, w: Write)
  {
    w.WriteCfg? && c.xlen64 && w.k % 2 == 1
  }

  // ---- one write, entry by entry ----

  /** The configuration the write asks for. */
  function AskedCfg(c: Params, q: Regs, w: Write, i: nat): Cfg
    requires ValidRegs(c, q) && ValidWrite(c, w) && i < ENTRIES
  {
    if w.WriteCfg? && !AccessException(c, w) && 4 * w.k <= i < 4 * w.k + BytesPerReg(c) && !q.cfg[i].locked
    then w.bytes[i - 4 * w.k] else q.cfg[i]
  }

  /** The entry above is locked and uses the address as its lower bound. */
  predicate BelowLockedTor(q: Regs, w: Write, i: nat)
    requires |q.cfg| == ENTRIES && i < ENTRIES
  {
    if i + 1 < ENTRIES then q.cfg[i + 1].locked && q.cfg[i + 1].mode == Tor else w.WriteAddr? && w.above
  }

  function AskedAddr(c: Params, q: Regs, w: Write, i: nat): nat
    requires ValidRegs(c, q) && ValidParams(c) && i < ENTRIES
  {
    if w.WriteAddr? && w.k == i && !q.cfg[i].locked && !BelowLockedTor(q, w, i) then w.value % c.addrRange else q.addr[i]
  }

  /** What of an asked configuration is legal; the rest keeps its old value. */
  function Legalized(c: Params, old': Cfg, asked: Cfg): Cfg
  {
    var mode := if (!c.napotEn && asked.mode == Napot) || asked.mode == Na4 then old'.mode else asked.mode;
    var keep := asked.w && !asked.r;
    Cfg(asked.locked, 0, mode,
        if keep then old'.x else asked.x, if keep then old'.w else asked.w, if keep then old'.r else asked.r)
  }

  function NextCfg(c: Params, q: Regs, w: Write, i: nat): Cfg
    requires ValidParams(c) && ValidRegs(c, q) && ValidWrite(c, w) && i < ENTRIES
  {
    if i >= c.entries then CLEAR
    else if c.readOnly[i] then q.cfg[i]
    else Legalized(c, q.cfg[i], AskedCfg(c, q, w, i))
  }

  function NextAddr(c: Params, q: Regs, w: Write, i: nat): nat
    requires ValidParams(c) && ValidRegs(c, q) && i < ENTRIES
  {
    if i >= c.entries then 0 else if c.readOnly[i] then q.addr[i] else AskedAddr(c, q, w, i)
  }

  function Step(c: Params, q: Regs, w: Write): (q': Regs)
    requires ValidParams(c) && ValidRegs(c, q) && ValidWrite(c, w)
    ensures ValidRegs(c, q')
  {
    Regs(seq(ENTRIES, i requires 0 <= i < ENTRIES => NextCfg(c, q, w, i)),
         seq(ENTRIES, i requires 0 <= i < ENTRIES => NextAddr(c, q, w, i)))
  }

  class PmpFile {
    const c: Params
    var q: Regs

    constructor (c: Params, rstCfg: seq<Cfg>, rstAddr: seq<nat>)
      requires ValidParams(c) && |rstCfg| == |rstAddr| == ENTRIES
      ensures this.c == c && q == ResetOf(c, rstCfg, rstAddr)
    {
      this.c, q := c, ResetOf(c, rstCfg, rstAddr);
    }

    /** The CSR write process. */
    method WriteProcess(w: Write) returns (cfgD: seq<Cfg>, addrD: seq<nat>)
      requires ValidParams(c) && ValidRegs(c, q) && ValidWrite(c, w)
      ensures |cfgD| == |addrD| == ENTRIES
      ensures forall i :: 0 <= i < ENTRIES ==> cfgD[i] == AskedCfg(c, q, w, i)
      ensures forall i :: 0 <= i < ENTRIES ==> addrD[i] == AskedAddr(c, q, w, i)
    {
      cfgD, addrD := q.cfg, q.addr;
      match w {
        case WriteCfg(k, bytes) =>
          if !(c.xlen64 && k % 2 == 1) {
            for i := 0 to BytesPerReg(c)
              invariant |cfgD| == ENTRIES
              invariant forall j :: 0 <= j < ENTRIES ==>
                cfgD[j] == if 4 * k <= j < 4 * k + i && !q.cfg[j].locked then bytes[j - 4 * k] else q.cfg[j]
            {
              if !q.cfg[k * 4 + i].locked {
                cfgD := cfgD[k * 4 + i := bytes[i]];
              }
            }
          }
        case WriteAddr(k, value, above) =>
          var torAbove := if k + 1 < ENTRIES then q.cfg[k + 1].locked && q.cfg[k + 1].mode == Tor else above;
          if !q.cfg[k].locked && !torAbove {
            addrD := addrD[k := value % c.addrRange];
          }
        case Other =>
      }
    }

    /** The configuration the register of one entry takes: default, then the legal-value overrides. */
    method Legalize(old': Cfg, asked: Cfg) returns (next: Cfg)
      ensures next == Legalized(c, old', asked)
    {
      next := asked.(reserved := 0);
      if (!c.napotEn && asked.mode == Napot) || asked.mode == Na4 {
        next := next.(mode := old'.mode);
      }
      if !asked.r && asked.w {
        next := next.(x := old'.x, w := old'.w, r := old'.r);
      }
    }

    /** One clock cycle. */
    method Tick(w: Write)
      requires ValidParams(c) && ValidRegs(c, q) && ValidWrite(c, w)
      modifies this
      ensures q == Step(c, old(q), w)
    {
      var cfgD, addrD := WriteProcess(w);
      var cfgNext, addrNext := [], [];
      for i := 0 to ENTRIES
        invariant q == old(q) && |cfgNext| == |addrNext| == i
        invariant forall j :: 0 <= j < i ==> cfgNext[j] == NextCfg(c, q, w, j)
        invariant forall j :: 0 <= j < i ==> addrNext[j] == NextAddr(c, q, w, j)
      {
        var cfg, addr := CLEAR, 0;
        if i < c.entries {
          if !c.readOnly[i] {
            cfg := Legalize(q.cfg[i], cfgD[i]);
            addr := addrD[i];
          } else {
            cfg, addr := q.cfg[i], q.addr[i];
          }
        }
        cfgNext, addrNext := cfgNext + [cfg], addrNext + [addr];
      }
      q := Regs(cfgNext, addrNext);
    }
  }

  function ResetOf(c: Params, rstCfg: seq<Cfg>, rstAddr: seq<nat>): (q: Regs)
    requires ValidParams(c) && |rstCfg| == |rstAddr| == ENTRIES
    ensures ValidRegs(c, q)
  {
    Regs(seq(ENTRIES, i requires 0 <= i < ENTRIES => if i < c.entries then rstCfg[i] else CLEAR),
         seq(ENTRIES, i requires 0 <= i < ENTRIES => if i < c.entries then rstAddr[i] % c.addrRange else 0))
  }

  // ---- runs ----

  ghost predicate IsRun(c: Params, ws: seq<Write>, qs: seq<Regs>)
  {
    && ValidParams(c) && |qs| == |ws| + 1 && ValidRegs(c, qs[0])
    && (forall t :: 0 <= t < |ws| ==> ValidWrite(c, ws[t]))
    && (forall t :: 0 <= t < |ws| ==> ValidRegs(c, qs[t]) && qs[t + 1] == Step(c, qs[t], ws[t]))
  }

  /** The byte addresses an entry matches, in units of four bytes. */
  datatype Region = Nothing | Interval(lo: int, hi: int)

  function TrailingOnes(n: nat): nat
  {
    if n % 2 == 0 then 0 else 1 + TrailingOnes(n / 2)
  }

  function RegionOf(q: Regs, i: nat): Region
    requires |q.cfg| == |q.addr| == ENTRIES && i < ENTRIES
  {
    match q.cfg[i].mode
    case Off => Nothing
    case Na4 => Nothing
    case Tor => Interval(if i == 0 then 0 else q.addr[i - 1], q.addr[i])
    case Napot =>
      var size := Pow2(TrailingOnes(q.addr[i]) + 1);
      Interval(q.addr[i] / size * size, q.addr[i] / size * size + size)
  }

  /** How the matching logic compares a byte address with an entry: NA4 is not supported and never matches. */
  predicate EntryMatches(mode: Mode, prev: nat, addr: nat, b: nat)
  {
    match mode
    case Tor => 4 * prev <= b < 4 * addr
    case Napot => var size := Pow2(TrailingOnes(addr) + 3); b / size == 4 * addr / size
    case _ => false
  }

  predicate InRegion(a: nat, r: Region)
  {
    r.Interval? && r.lo <= a < r.hi
  }

  lemma SameQuotient(a: nat, b: nat, size: nat)
    requires size > 0
    ensures a / size == b / size <==> b / size * size <= a < b / size * size + size
  {
    var q, r := a / size, a % size;
    assert a == q * size + r;
    if q < b / size { assert (q + 1) * size <= b / size * size; }
    if q > b / size { assert (b / size + 1) * size <= q * size; }
  }

  lemma QuotientOfQuotient(b: nat, s: nat)
    requires s > 0
    ensures b / (4 * s) == b / 4 / s
  {
    var q, r := b / 4 / s, b / 4 % s;
    assert b == 4 * (b / 4) + b % 4 && b / 4 == q * s + r;
    assert b == q * (4 * s) + (4 * r + b % 4);
    QuotientIs(b, 4 * s, q, 4 * r + b % 4);
  }

  lemma QuotientScaled(b: nat, s: nat)
    requires s > 0
    ensures 4 * b / (4 * s) == b / s
  {
    var q, r := b / s, b % s;
    assert b == q * s + r;
    assert 4 * b == q * (4 * s) + 4 * r;
    QuotientIs(4 * b, 4 * s, q, 4 * r);
  }

  lemma MultipleIsFar(e: int, d: int)
    requires d >= 0
    ensures e >= 1 ==> e * d >= d
    ensures e <= -1 ==> e * d <= -d
  {
    if e >= 1 {
      assert (e - 1) * d >= 0;
    } else if e <= -1 {
      assert (-1 - e) * d >= 0;
    }
  }

  lemma QuotientIs(a: nat, d: nat, q: nat, r: nat)
    requires r < d && a == q * d + r
    ensures a / d == q
  {
    var e := a / d - q;
    assert a == a / d * d + a % d;
    assert e * d == r - a % d;
    MultipleIsFar(e, d);
  }

  /** The region of an entry is exactly what it matches. */
  lemma MatchesRegion(q: Regs, i: nat, b: nat)
    requires |q.cfg| == |q.addr| == ENTRIES && i < ENTRIES
    ensures EntryMatches(q.cfg[i].mode, if i == 0 then 0 else q.addr[i - 1], q.addr[i], b)
            <==> InRegion(b / 4, RegionOf(q, i))
  {
    if q.cfg[i].mode == Napot {
      var s := Pow2(TrailingOnes(q.addr[i]) + 1);
      assert Pow2(TrailingOnes(q.addr[i]) + 3) == 4 * s;
      QuotientOfQuotient(b, s);
      QuotientScaled(q.addr[i], s);
      SameQuotient(b / 4, q.addr[i], s);
    }
  }

  /** The NAPOT encoding of section 3.7.1 of the RISC-V Privileged Architecture: a zero and `k` ones below it mean the
      aligned region of `2^(k+1)` units, that is `2^(k+3)` bytes, at number `y`. */
  lemma {:induction false} NapotEncoding(y: nat, k: nat)
    ensures TrailingOnes(y * Pow2(k + 1) + Pow2(k) - 1) == k
    ensures (y * Pow2(k + 1) + Pow2(k) - 1) / Pow2(k + 1) == y
  {
    QuotientIs(y * Pow2(k + 1) + Pow2(k) - 1, Pow2(k + 1), y, Pow2(k) - 1);
    if k == 0 {
      assert y * Pow2(1) == 2 * y;
    } else {
      NapotEncoding(y, k - 1);
      Doubled(y, Pow2(k));
      OnesOfOdd(y * Pow2(k) + Pow2(k - 1) - 1);
    }
  }

  /** So an entry with such an address protects exactly that region; one with k = 0 eight bytes. */
  lemma NapotRegion(q: Regs, i: nat, y: nat, k: nat, b: nat)
    requires |q.cfg| == |q.addr| == ENTRIES && i < ENTRIES && q.cfg[i].mode == Napot
    requires q.addr[i] == y * Pow2(k + 1) + Pow2(k) - 1
    ensures InRegion(b / 4, RegionOf(q, i)) <==> y * Pow2(k + 3) <= b < (y + 1) * Pow2(k + 3)
  {
    NapotEncoding(y, k);
    assert Pow2(k + 3) == 4 * Pow2(k + 1);
    Quarters(y, Pow2(k + 1), b);
  }

  lemma Quarters(y: nat, s: nat, b: nat)
    ensures y * s <= b / 4 < y * s + s <==> y * (4 * s) <= b < (y + 1) * (4 * s)
  {
    var l := y * s;
    assert y * (4 * s) == 4 * l && (y + 1) * (4 * s) == 4 * l + 4 * s;
  }

  lemma Doubled(y: nat, p: nat)
    ensures y * (2 * p) == 2 * (y * p)
  {
  }

  lemma OnesOfOdd(n: nat)
    ensures TrailingOnes(2 * n + 1) == 1 + TrailingOnes(n)
  {
  }

  /** What a lock protects: everything but the reserved bits. */
  predicate SameRule(a: Cfg, b: Cfg)
  {
    a.(reserved := 0) == b.(reserved := 0)
  }

  lemma LockStep(c: Params, q: Regs, w: Write, i: nat)
    requires ValidParams(c) && ValidRegs(c, q) && ValidWrite(c, w)
    requires i < c.entries && q.cfg[i].locked
    ensures SameRule(NextCfg(c, q, w, i), q.cfg[i]) && NextAddr(c, q, w, i) == q.addr[i]
    ensures q.cfg[i].mode == Tor && i > 0 ==> NextAddr(c, q, w, i - 1) == q.addr[i - 1]
  {
  }

  /** Over every run, a locked entry keeps its lock, mode, permissions and address, and with them the region
      it matches, down to the lower bound that a locked TOR entry takes from the entry below. */
  lemma {:induction false} LockHolds(c: Params, ws: seq<Write>, qs: seq<Regs>, t: nat, u: nat, i: nat)
    requires IsRun(c, ws, qs) && t <= u <= |ws| && i < c.entries && ValidRegs(c, qs[t])
    requires qs[t].cfg[i].locked
    ensures ValidRegs(c, qs[u]) && qs[u].cfg[i].locked && SameRule(qs[u].cfg[i], qs[t].cfg[i])
    ensures qs[u].addr[i] == qs[t].addr[i]
    ensures qs[t].cfg[i].mode == Tor && i > 0 ==> qs[u].addr[i - 1] == qs[t].addr[i - 1]
    ensures RegionOf(qs[u], i) == RegionOf(qs[t], i)
    decreases u
  {
    if t < u {
      LockHolds(c, ws, qs, t, u - 1, i);
      LockStep(c, qs[u - 1], ws[u - 1], i);
    }
  }

  /** An entry's value that may be kept: no NA4, no write without read, NAPOT only where supported. */
  predicate LegalCfg(c: Params, a: Cfg)
  {
    a.mode != Na4 && (a.w ==> a.r) && (a.mode == Napot ==> c.napotEn)
  }

  ghost predicate AllLegal(c: Params, q: Regs)
  {
    forall i :: 0 <= i < |q.cfg| ==> LegalCfg(c, q.cfg[i])
  }

  /** From legal reset values, no write sequence makes an entry illegal. */
  lemma {:induction false} StaysLegal(c: Params, ws: seq<Write>, qs: seq<Regs>, t: nat)
    requires IsRun(c, ws, qs) && t <= |ws| && AllLegal(c, qs[0])
    ensures ValidRegs(c, qs[t]) && AllLegal(c, qs[t])
  {
    if t > 0 {
      StaysLegal(c, ws, qs, t - 1);
      var q, w := qs[t - 1], ws[t - 1];
      forall i | 0 <= i < ENTRIES ensures LegalCfg(c, NextCfg(c, q, w, i)) {
        assert LegalCfg(c, q.cfg[i]);
      }
    }
  }

  /** An address write reaches the entry of its number and no other, and no configuration. */
  lemma AddressWrite(c: Params, q: Regs, k: nat, value: nat, above: bool, i: nat)
    requires ValidParams(c) && ValidRegs(c, q) && AllLegal(c, q) && k < ENTRIES && i < c.entries
    ensures var q' := Step(c, q, WriteAddr(k, value, above));
      && SameRule(q'.cfg[i], q.cfg[i])
      && (i != k ==> q'.addr[i] == q.addr[i])
      && (i == k && i + 1 < ENTRIES ==>
            q'.addr[i] == if c.readOnly[i] || q.cfg[i].locked || (q.cfg[i + 1].locked && q.cfg[i + 1].mode == Tor)
                          then q.addr[i] else value % c.addrRange)
  {
  }

  /** A configuration write reaches the entries of its register, byte by byte, and no other, and no address. Each
      byte is taken field by field where it is legal. */
  lemma ConfigWrite(c: Params, q: Regs, k: nat, bytes: seq<Cfg>, i: nat)
    requires ValidParams(c) && ValidRegs(c, q) && AllLegal(c, q) && i < c.entries
    requires k < 16 && |bytes| == BytesPerReg(c)
    ensures var q' := Step(c, q, WriteCfg(k, bytes));
      && q'.addr[i] == q.addr[i] && (c.readOnly[i] || q'.cfg[i].reserved == 0)
      && if !c.readOnly[i] && !q.cfg[i].locked && 4 * k <= i < 4 * k + BytesPerReg(c) && !(c.xlen64 && k % 2 == 1) then
           var b := bytes[i - 4 * k];
           && q'.cfg[i].locked == b.locked
           && q'.cfg[i].mode == (if b.mode == Na4 || (b.mode == Napot && !c.napotEn) then q.cfg[i].mode else b.mode)
           && (if b.w && !b.r then q'.cfg[i].r == q.cfg[i].r && q'.cfg[i].w == q.cfg[i].w && q'.cfg[i].x == q.cfg[i].x
               else q'.cfg[i].r == b.r && q'.cfg[i].w == b.w && q'.cfg[i].x == b.x)
         else SameRule(q'.cfg[i], q.cfg[i])
  {
    assert LegalCfg(c, q.cfg[i]);
  }

  /** Some write can move the address of a writable entry if and only if neither its own lock nor the lock of
      a TOR entry above forbids it; above the last entry there is none. */
  lemma AddressMovableExactly(c: Params, q: Regs, i: nat, value: nat)
    requires ValidParams(c) && ValidRegs(c, q) && i < c.entries && !c.readOnly[i]
    requires value < c.addrRange && value != q.addr[i]
    ensures (exists w :: ValidWrite(c, w) && Step(c, q, w).addr[i] == value)
            <==> !q.cfg[i].locked && (i + 1 < ENTRIES ==> !(q.cfg[i + 1].locked && q.cfg[i + 1].mode == Tor))
  {
    if !q.cfg[i].locked && (i + 1 < ENTRIES ==> !(q.cfg[i + 1].locked && q.cfg[i + 1].mode == Tor)) {
      var w := WriteAddr(i, value, false);
      assert value % c.addrRange == value;
      assert ValidWrite(c, w) && Step(c, q, w).addr[i] == value;
    }
  }

  /** The region of a locked TOR entry would move with the address below it: the one-step rule that protects
      that address is needed, as configuration writes below a locked entry stay possible. */
  lemma ConfigBelowStaysWritable(c: Params, q: Regs, i: nat, asked: Cfg)
    requires ValidParams(c) && ValidRegs(c, q) && i < c.entries && !c.readOnly[i] && !q.cfg[i].locked
    requires LegalCfg(c, asked) && asked.reserved == 0 && !asked.locked
    ensures exists w :: ValidWrite(c, w) && Step(c, q, w).cfg[i] == asked
  {
    var k := if c.xlen64 then i / 8 * 2 else i / 4;
    var bytes := seq(BytesPerReg(c), j => if 4 * k + j == i then asked else CLEAR);
    var w := WriteCfg(k, bytes);
    assert 4 * k <= i < 4 * k + BytesPerReg(c);
    assert bytes[i - 4 * k] == asked;
    assert ValidWrite(c, w) && Step(c, q, w).cfg[i] == asked;
  }
}
