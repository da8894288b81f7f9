/** The address-map generators of the SoC (`cheshire_pkg`): crossbar inputs, crossbar outputs and rules, and the
    register demultiplexer's outputs and rules, for every configuration. */
module AddressMap {
  import opened Common

  /** Table size and range of an index. */
  const MAX_RULES := 64

  datatype Region = Region(start: nat, end: nat)

  datatype Rule = Rule(idx: nat, at: Region)

  const NO_RULE := Rule(0, Region(0, 0))

  /** A rule for an external port, by its number among the external ports. */
  datatype ExtRule = ExtRule(idx: nat, at: Region)

  datatype Cfg = Cfg(
    numCores: nat, ara: bool, dma: bool, serialLink: bool, vga: bool, usb: bool,
    bootrom: bool, uart: bool, i2c: bool, spiHost: bool, gpio: bool, irqRouter: bool, axiRt: bool, clic: bool,
    busErr: bool, llcNotBypass: bool, llcOutConnect: bool,
    llcSetAssoc: nat, llcNumLines: nat, llcNumBlocks: nat, axiDataWidth: nat,
    llcOut: Region, slinkOut: Region,
    axiExtNumMst: nat, axiExtNumSlv: nat, axiExt: seq<ExtRule>, regExtNumSlv: nat, regExt: seq<ExtRule>)

  /** The widths of the configuration's own fields. */
  predicate ValidCfg(c: Cfg)
  {
    && c.numCores < 32
    && c.axiExtNumMst < 16 && c.axiExtNumSlv < 16 && |c.axiExt| < 16 && c.regExtNumSlv < 16 && |c.regExt| < 16
    && (forall k :: 0 <= k < |c.axiExt| ==> c.axiExt[k].idx < 0x100)
    && (forall k :: 0 <= k < |c.regExt| ==> c.regExt[k].idx < 0x100)
  }

  /** `get_llc_size`, in thirty-two-bit arithmetic. */
  function LlcSize(c: Cfg): nat
  {
    (c.llcSetAssoc * c.llcNumLines * c.llcNumBlocks * c.axiDataWidth) % 0x1_0000_0000 / 8
  }

  /** It is the number of bytes if the number of bits fits thirty-two bits, and only then. */
  lemma LlcSizeExact(c: Cfg)
    requires c.axiDataWidth % 8 == 0
    ensures var bits := c.llcSetAssoc * c.llcNumLines * c.llcNumBlocks * c.axiDataWidth;
      8 * LlcSize(c) == bits <==> bits < 0x1_0000_0000
  {
    var lines := c.llcSetAssoc * c.llcNumLines * c.llcNumBlocks;
    var bits, w := lines * c.axiDataWidth, c.axiDataWidth / 8;
    assert c.axiDataWidth == 8 * w;
    assert bits == 8 * (lines * w) by { assert lines * (8 * w) == 8 * (lines * w); }
  }

  function Index(i: nat): nat { i % MAX_RULES }

  lemma SmallIndex(i: nat)
    requires i < MAX_RULES
    ensures Index(i) == i
  {
  }

  /** Assignment to a table entry; past the end it has no effect. */
  function Put(table: seq<Rule>, r: nat, rule: Rule): (t: seq<Rule>)
    ensures |t| == |table|
  {
    if r < |table| then table[r := rule] else table
  }

  // ---- crossbar inputs ----

  datatype AxiIn = AxiIn(
    cores: seq<nat>, dbg: nat, ara: nat, dma: nat, slink: nat, vga: nat, usb: nat, extBase: nat, numIn: nat)

  function If(b: bool, x: nat): seq<nat> { if b then [x] else [] }

  /** The indices of the connected internal ports, in order. */
  function Connected(c: Cfg, a: AxiIn): seq<nat>
    requires c.numCores <= |a.cores|
  {
    a.cores[..c.numCores] + [a.dbg] + If(c.ara, a.ara) + If(c.dma, a.dma) + If(c.serialLink, a.slink)
    + If(c.vga, a.vga) + If(c.usb, a.usb)
  }

  function Counting(n: nat): (s: seq<nat>)
    ensures |s| == n
  {
    seq(n, i => i)
  }

  lemma CountingSnoc(n: nat)
    ensures Counting(n) + [n] == Counting(n + 1)
  {
  }

  /** One optional port: the next index, if the port is there. */
  method NextPort(there: bool, i: nat, ghost list: seq<nat>) returns (i': nat, port: nat, ghost list': seq<nat>)
    requires i + 1 < MAX_RULES && list == Counting(i + 1)
    ensures i' == (if there then i + 1 else i) && list' == list + If(there, port) && list' == Counting(i' + 1)
  {
    i', port := i, 0;
    if there {
      i' := i + 1;
      port := Index(i');
      CountingSnoc(i');
    }
    list' := list + If(there, port);
  }

  /** The harts' ports. */
  method Cores(c: Cfg) returns (cores: seq<nat>, i: nat)
    requires ValidCfg(c)
    ensures i == c.numCores && |cores| == 32 && cores[..i] == Counting(i)
  {
    cores, i := seq(32, j => 0), 0;
    while i < c.numCores
      invariant i <= c.numCores && |cores| == 32 && cores[..i] == Counting(i)
    {
      cores := cores[i := Index(i)];
      CountingSnoc(i);
      i := i + 1;
    }
  }

  /** The optional ports after the debug port's. */
  method OptionalPorts(c: Cfg, n: nat, ghost base: seq<nat>)
    returns (i: nat, ara: nat, dma: nat, slink: nat, vga: nat, usb: nat)
    requires n < 32 && base == Counting(n + 1)
    ensures n <= i <= n + 5
    ensures base + If(c.ara, ara) + If(c.dma, dma) + If(c.serialLink, slink) + If(c.vga, vga) + If(c.usb, usb)
            == Counting(i + 1)
  {
    i := n;
    ghost var list := base;
    i, ara, list := NextPort(c.ara, i, list);
    i, dma, list := NextPort(c.dma, i, list);
    i, slink, list := NextPort(c.serialLink, i, list);
    i, vga, list := NextPort(c.vga, i, list);
    i, usb, list := NextPort(c.usb, i, list);
  }

  /** `gen_axi_in`: the connected ports get the indices 0, 1, 2, ... without gap or repetition, and the
      external ones follow. */
  method GenAxiIn(c: Cfg) returns (a: AxiIn)
    requires ValidCfg(c)
    ensures |a.cores| == 32 && Connected(c, a) == Counting(a.extBase)
    ensures a.numIn == a.extBase + c.axiExtNumMst < MAX_RULES
  {
    var cores, n := Cores(c);
    var dbg := Index(n);
    SmallIndex(n);
    CountingSnoc(n);
    var i, ara, dma, slink, vga, usb := OptionalPorts(c, n, cores[..n] + [dbg]);
    i := i + 1;
    SmallIndex(i);
    SmallIndex(i + c.axiExtNumMst);
    a := AxiIn(cores, dbg, ara, dma, slink, vga, usb, Index(i), Index(i + c.axiExtNumMst));
  }

  // ---- register outputs ----

  /** The devices behind the register demultiplexer. */
  datatype Dev =
    | Clint | Plic | Regs | Bootrom | Llc | Uart | I2c | SpiHost | Gpio | Slink | Vga | Usb | IrqRouter | AxiRt
    | Clic(core: nat) | BusErr(unit: nat)

  function RegionOf(d: Dev): Region
  {
    match d
    case Clint => Region(0x0204_0000, 0x0208_0000)
    case Plic => Region(0x0400_0000, 0x0800_0000)
    case Regs => Region(0x0300_0000, 0x0300_1000)
    case Bootrom => Region(0x0200_0000, 0x0204_0000)
    case Llc => Region(0x0300_1000, 0x0300_2000)
    case Uart => Region(0x0300_2000, 0x0300_3000)
    case I2c => Region(0x0300_3000, 0x0300_4000)
    case SpiHost => Region(0x0300_4000, 0x0300_5000)
    case Gpio => Region(0x0300_5000, 0x0300_6000)
    case Slink => Region(0x0300_6000, 0x0300_7000)
    case Vga => Region(0x0300_7000, 0x0300_8000)
    case Usb => Region(0x0300_8000, 0x0300_9000)
    case IrqRouter => Region(0x0208_0000, 0x020C_0000)
    case AxiRt => Region(0x020C_0000, 0x0210_0000)
    case Clic(j) => Region(0x0800_0000 + j * 0x40000, 0x0800_0000 + (j + 1) * 0x40000)
    case BusErr(j) => Region(0x0300_9000 + j * 0x40, 0x0300_9000 + (j + 1) * 0x40)
  }

  /** The order in which the generator allocates. */
  function Rank(d: Dev): nat
  {
    match d
    case Clint => 0 case Plic => 1 case Regs => 2 case Bootrom => 3 case Llc => 4 case Uart => 5 case I2c => 6
    case SpiHost => 7 case Gpio => 8 case Slink => 9 case Vga => 10 case Usb => 11 case IrqRouter => 12
    case AxiRt => 13 case Clic(j) => 14 + j case BusErr(j) => 64 + j
  }

  predicate Enabled(c: Cfg, d: Dev)
  {
    match d
    case Clint => true case Plic => true case Regs => true
    case Bootrom => c.bootrom case Llc => c.llcNotBypass case Uart => c.uart case I2c => c.i2c
    case SpiHost => c.spiHost case Gpio => c.gpio case Slink => c.serialLink case Vga => c.vga case Usb => c.usb
    case IrqRouter => c.irqRouter case AxiRt => c.axiRt
    case Clic(j) => c.clic && j < c.numCores
    case BusErr(j) => c.busErr && j < 2 + c.numCores
  }

  /** Devices in order of rank, all below `n`. */
  ghost predicate Ranked(devs: seq<Dev>, n: nat)
  {
    && (forall p :: 0 <= p < |devs| ==> Rank(devs[p]) < n)
    && (forall p, q :: 0 <= p < q < |devs| ==> Rank(devs[p]) < Rank(devs[q]))
  }

  lemma RankInjective(d: Dev, e: Dev)
    requires Rank(d) == Rank(e) && IsDev(d) && IsDev(e)
    ensures d == e
  {
  }

  /** Hart numbers stay below thirty-two. */
  predicate IsDev(d: Dev)
  {
    d.Clic? ==> d.core < 32
  }

  /** The devices are those the configuration has among the ranks below `n`. */
  ghost predicate Complete(c: Cfg, devs: seq<Dev>, n: nat)
  {
    && Ranked(devs, n)
    && (forall d :: d in devs ==> IsDev(d))
    && (forall d :: Rank(d) < n && IsDev(d) ==> (d in devs <==> Enabled(c, d)))
  }

  /** The numbers of devices the configuration has, in the groups in which they are allocated. */
  function Memories(c: Cfg): nat { Bit(c.bootrom) + Bit(c.llcNotBypass) + Bit(c.uart) }

  function Buses(c: Cfg): nat { Bit(c.i2c) + Bit(c.spiHost) + Bit(c.gpio) + Bit(c.serialLink) }

  function Others(c: Cfg): nat { Bit(c.vga) + Bit(c.usb) + Bit(c.irqRouter) + Bit(c.axiRt) }

  function DevCount(c: Cfg): nat
  {
    3 + Memories(c) + Buses(c) + Others(c)
    + (if c.clic then c.numCores else 0) + (if c.busErr then 2 + c.numCores else 0)
  }

  /** The port fields of the bus error units are an array of 32 entries; assignments past it have no effect. */
  predicate HasField(d: Dev)
  {
    d.BusErr? ==> d.unit < 32
  }

  /** The port of a device is recorded in its field, if it has one. */
  predicate Recorded(ports: map<Dev, nat>, d: Dev, port: nat)
  {
    if HasField(d) then d in ports && ports[d] == port else d !in ports
  }

  // ---- the allocation ----

  /** The generator's variables: the last port, the last rule, the table and the ports. */
  datatype Alloc = Alloc(i: nat, r: nat, table: seq<Rule>, ports: map<Dev, nat>)

  /** Port 0 is the error port; the devices have the ports and table entries in order. */
  ghost predicate Allocated(devs: seq<Dev>, a: Alloc)
  {
    && a.i == |devs| == a.r + 1 && |a.table| == MAX_RULES
    && (forall p :: 0 <= p < |devs| && p < MAX_RULES ==> a.table[p] == Rule(Index(p + 1), RegionOf(devs[p])))
    && (forall p :: 0 <= p < |devs| ==> Recorded(a.ports, devs[p], Index(p + 1)))
    && (forall d :: d in a.ports ==> HasField(d))
  }

  /** One turn of the allocation: the next port and the next rule. */
  method Add(d: Dev, a: Alloc, ghost devs: seq<Dev>) returns (a': Alloc, ghost devs': seq<Dev>)
    requires Allocated(devs, a) && Ranked(devs, Rank(d))
    ensures devs' == devs + [d] && Ranked(devs', Rank(d) + 1) && Allocated(devs', a')
  {
    var i, r := a.i + 1, a.r + 1;
    a' := Alloc(i, r, Put(a.table, r, Rule(Index(i), RegionOf(d))),
                if HasField(d) then a.ports[d := Index(i)] else a.ports);
    devs' := devs + [d];
  }

  /** One optional device. */
  method AddIf(c: Cfg, d: Dev, there: bool, a: Alloc, ghost devs: seq<Dev>, ghost n: nat)
    returns (a': Alloc, ghost devs': seq<Dev>)
    requires Allocated(devs, a) && Complete(c, devs, n) && n == Rank(d) && IsDev(d) && there == Enabled(c, d)
    ensures Allocated(devs', a') && Complete(c, devs', n + 1)
    ensures |devs'| == |devs| + Bit(there)
  {
    a', devs' := a, devs;
    if there {
      a', devs' := Add(d, a, devs);
    }
    forall e | Rank(e) < n + 1 && IsDev(e) ensures e in devs' <==> Enabled(c, e) {
      if Rank(e) == Rank(d) { RankInjective(d, e); }
    }
  }

  /** No device has a rank from `n` up to `m`, or none of them is there. */
  lemma Skip(c: Cfg, devs: seq<Dev>, n: nat, m: nat)
    requires Complete(c, devs, n) && n <= m
    requires forall d :: n <= Rank(d) < m && IsDev(d) ==> !Enabled(c, d)
    ensures Complete(c, devs, m)
  {
    assert forall d :: d in devs ==> Rank(d) < n;
  }

  lemma FixedComplete(c: Cfg)
    ensures Complete(c, [Clint, Plic, Regs], 3)
  {
  }

  /** The devices that are always there. */
  method AddFixed(c: Cfg) returns (a: Alloc, ghost devs: seq<Dev>)
    ensures Allocated(devs, a) && Complete(c, devs, 3) && |devs| == 3
  {
    var table := seq(MAX_RULES, p => NO_RULE);
    table := table[0 := Rule(1, RegionOf(Clint))][1 := Rule(2, RegionOf(Plic))][2 := Rule(3, RegionOf(Regs))];
    a, devs := Alloc(3, 2, table, map[Clint := 1, Plic := 2, Regs := 3]), [Clint, Plic, Regs];
    FixedComplete(c);
  }

  /** The boot ROM, the LLC's registers and the UART. */
  method AddMemories(c: Cfg, a: Alloc, ghost devs: seq<Dev>) returns (a': Alloc, ghost devs': seq<Dev>)
    requires Allocated(devs, a) && Complete(c, devs, 3)
    ensures Allocated(devs', a') && Complete(c, devs', 6) && |devs'| == |devs| + Memories(c)
  {
    hide Complete, Allocated;
    a', devs' := AddIf(c, Bootrom, c.bootrom, a, devs, 3);
    a', devs' := AddIf(c, Llc, c.llcNotBypass, a', devs', 4);
    a', devs' := AddIf(c, Uart, c.uart, a', devs', 5);
  }

  /** The I2C host, the SPI host, the GPIOs and the serial link. */
  method AddBuses(c: Cfg, a: Alloc, ghost devs: seq<Dev>) returns (a': Alloc, ghost devs': seq<Dev>)
    requires Allocated(devs, a) && Complete(c, devs, 6)
    ensures Allocated(devs', a') && Complete(c, devs', 10) && |devs'| == |devs| + Buses(c)
  {
    hide Complete, Allocated;
    a', devs' := AddIf(c, I2c, c.i2c, a, devs, 6);
    a', devs' := AddIf(c, SpiHost, c.spiHost, a', devs', 7);
    a', devs' := AddIf(c, Gpio, c.gpio, a', devs', 8);
    a', devs' := AddIf(c, Slink, c.serialLink, a', devs', 9);
  }

  /** The VGA and USB hosts, the interrupt router and the bus regulation. */
  method AddOthers(c: Cfg, a: Alloc, ghost devs: seq<Dev>) returns (a': Alloc, ghost devs': seq<Dev>)
    requires Allocated(devs, a) && Complete(c, devs, 10)
    ensures Allocated(devs', a') && Complete(c, devs', 14) && |devs'| == |devs| + Others(c)
  {
    hide Complete, Allocated;
    a', devs' := AddIf(c, Vga, c.vga, a, devs, 10);
    a', devs' := AddIf(c, Usb, c.usb, a', devs', 11);
    a', devs' := AddIf(c, IrqRouter, c.irqRouter, a', devs', 12);
    a', devs' := AddIf(c, AxiRt, c.axiRt, a', devs', 13);
  }

  /** The devices outside the two hart loops. */
  method AddSingles(c: Cfg) returns (a: Alloc, ghost devs: seq<Dev>)
    ensures Allocated(devs, a) && Complete(c, devs, 14) && |devs| == 3 + Memories(c) + Buses(c) + Others(c)
  {
    a, devs := AddFixed(c);
    a, devs := AddMemories(c, a, devs);
    a, devs := AddBuses(c, a, devs);
    a, devs := AddOthers(c, a, devs);
  }

  /** The interrupt controllers of the harts. */
  method AddClics(c: Cfg, a: Alloc, ghost devs: seq<Dev>) returns (a': Alloc, ghost devs': seq<Dev>)
    requires ValidCfg(c) && Allocated(devs, a) && Complete(c, devs, 14)
    ensures Allocated(devs', a') && Complete(c, devs', 64)
    ensures |devs'| == |devs| + if c.clic then c.numCores else 0
  {
    a', devs' := a, devs;
    if c.clic {
      for j := 0 to c.numCores
        invariant Allocated(devs', a') && Complete(c, devs', 14 + j) && |devs'| == |devs| + j
      {
        a', devs' := AddIf(c, Clic(j), true, a', devs', 14 + j);
      }
      Skip(c, devs', 14 + c.numCores, 64);
    } else {
      Skip(c, devs', 14, 64);
    }
  }

  /** The bus error units: two, and one for each hart. */
  method AddBusErrs(c: Cfg, a: Alloc, ghost devs: seq<Dev>) returns (a': Alloc, ghost devs': seq<Dev>)
    requires ValidCfg(c) && Allocated(devs, a) && Complete(c, devs, 64)
    ensures Allocated(devs', a') && Complete(c, devs', 98)
    ensures |devs'| == |devs| + if c.busErr then 2 + c.numCores else 0
  {
    a', devs' := a, devs;
    if c.busErr {
      for j := 0 to 2 + c.numCores
        invariant Allocated(devs', a') && Complete(c, devs', 64 + j) && |devs'| == |devs| + j
      {
        a', devs' := AddIf(c, BusErr(j), true, a', devs', 64 + j);
      }
      Skip(c, devs', 66 + c.numCores, 98);
    } else {
      Skip(c, devs', 64, 98);
    }
  }

  datatype RegOut = RegOut(ports: map<Dev, nat>, extBase: nat, numOut: nat, numRules: nat, table: seq<Rule>)

  /** The external rule `k` as it enters the table. */
  function RegExtRule(c: Cfg, extBase: nat, k: nat): Rule
    requires k < |c.regExt|
  {
    Rule(Index(extBase + c.regExt[k].idx), c.regExt[k].at)
  }

  /** The devices have ports 1, 2, 3, ... in order of their rules; then the external rules follow, as far as the
      table reaches. */
  ghost predicate Tabled(c: Cfg, o: RegOut, devs: seq<Dev>)
  {
    && |o.table| == MAX_RULES
    && (forall p :: 0 <= p < |devs| && p < MAX_RULES ==> o.table[p] == Rule(Index(p + 1), RegionOf(devs[p])))
    && (forall p :: 0 <= p < |devs| ==> Recorded(o.ports, devs[p], Index(p + 1)))
    && o.extBase == Index(|devs| + 1) && o.numOut == Index(|devs| + 1 + c.regExtNumSlv)
    && o.numRules == Index(|devs| + |c.regExt|)
    && (forall k :: 0 <= k < |c.regExt| && |devs| + k < MAX_RULES ==>
          o.table[|devs| + k] == RegExtRule(c, o.extBase, k))
  }

  /** What the generator promises: exactly the enabled devices, each once, in their order. */
  ghost predicate IsRegOut(c: Cfg, o: RegOut, devs: seq<Dev>)
  {
    Complete(c, devs, 98) && |devs| == DevCount(c) && Tabled(c, o, devs)
  }

  // ---- the generator's promise determines the list ----

  ghost predicate SameDevs(a: seq<Dev>, b: seq<Dev>)
  {
    forall d :: d in a <==> d in b
  }

  lemma Front(a: seq<Dev>, n: nat)
    requires Ranked(a, n) && a != []
    ensures Ranked(a[..|a| - 1], n)
    ensures forall d :: d in a[..|a| - 1] <==> d in a && d != a[|a| - 1]
  {
    var front := a[..|a| - 1];
    forall d | d in a && d != a[|a| - 1] ensures d in front {
      var p :| 0 <= p < |a| && a[p] == d;
      assert front[p] == d;
    }
  }

  lemma SameLast(a: seq<Dev>, b: seq<Dev>, n: nat)
    requires Ranked(a, n) && Ranked(b, n) && SameDevs(a, b) && a != [] && b != []
    ensures Rank(a[|a| - 1]) <= Rank(b[|b| - 1])
  {
    assert a[|a| - 1] in b;
  }

  lemma HasFirst(b: seq<Dev>)
    ensures b == [] || b[0] in b
  {
  }

  /** Equal sets in order of rank are equal lists. */
  lemma {:induction false} SameOrder(a: seq<Dev>, b: seq<Dev>, n: nat)
    requires Ranked(a, n) && Ranked(b, n) && SameDevs(a, b) && forall d :: d in a ==> IsDev(d)
    ensures a == b
    decreases |a|
  {
    if a == [] {
      HasFirst(b);
    } else {
      assert a[|a| - 1] in b && b[|b| - 1] in a;
      SameLast(a, b, n);
      SameLast(b, a, n);
      RankInjective(a[|a| - 1], b[|b| - 1]);
      Front(a, n);
      Front(b, n);
      var front, front' := a[..|a| - 1], b[..|b| - 1];
      forall d ensures d in front <==> d in front' {
        assert d in front <==> d in a && d != a[|a| - 1];
        assert d in front' <==> d in b && d != b[|b| - 1];
      }
      SameOrder(a[..|a| - 1], b[..|b| - 1], n);
    }
  }

  /** The list of devices is determined by the configuration, and with it every port and every rule. */
  lemma DevsAreDetermined(c: Cfg, a: seq<Dev>, b: seq<Dev>, n: nat)
    requires Complete(c, a, n) && Complete(c, b, n)
    ensures a == b
  {
    assert SameDevs(a, b);
    SameOrder(a, b, n);
  }

  /** All devices. */
  method AddAll(c: Cfg) returns (a: Alloc, ghost devs: seq<Dev>)
    requires ValidCfg(c)
    ensures Allocated(devs, a) && Complete(c, devs, 98) && |devs| == DevCount(c)
  {
    a, devs := AddSingles(c);
    a, devs := AddClics(c, a, devs);
    a, devs := AddBusErrs(c, a, devs);
  }

  /** `gen_reg_out`. */
  method GenRegOut(c: Cfg) returns (o: RegOut)
    requires ValidCfg(c)
    ensures exists devs :: IsRegOut(c, o, devs)
  {
    var a;
    ghost var devs;
    a, devs := AddAll(c);
    o := Finish(c, a, devs);
    assert IsRegOut(c, o, devs);
  }

  /** The counts and the external rules. */
  method Finish(c: Cfg, a: Alloc, ghost devs: seq<Dev>) returns (o: RegOut)
    requires Allocated(devs, a) && devs != []
    ensures Tabled(c, o, devs)
  {
    var extBase, numOut := Index(a.i + 1), Index(a.i + 1 + c.regExtNumSlv);
    var numRules := Index(a.r + 1 + |c.regExt|);
    var table := AppendExt(c, a.table, a.r + 1, extBase);
    o := RegOut(a.ports, extBase, numOut, numRules, table);
  }

  /** The external rules at the end of the table. */
  method AppendExt(c: Cfg, before: seq<Rule>, n: nat, extBase: nat) returns (table: seq<Rule>)
    requires |before| == MAX_RULES
    ensures |table| == MAX_RULES
    ensures forall p :: 0 <= p < n && p < MAX_RULES ==> table[p] == before[p]
    ensures forall k :: 0 <= k < |c.regExt| && n + k < MAX_RULES ==> table[n + k] == RegExtRule(c, extBase, k)
  {
    table := before;
    for k := 0 to |c.regExt|
      invariant |table| == MAX_RULES
      invariant forall p :: 0 <= p < n && p < MAX_RULES ==> table[p] == before[p]
      invariant forall j :: 0 <= j < k && n + j < MAX_RULES ==> table[n + j] == RegExtRule(c, extBase, j)
    {
      table := Put(table, n + k, RegExtRule(c, extBase, k));
    }
  }

  // ---- crossbar outputs ----

  /** What the crossbar's rules lead to: the two halves of the scratchpad, the external ports, and the external
      register regions among them. */
  datatype Dst = DbgD | RegD | LlcD | SpmD | SpmUncachedD | DmaD | SlinkD | ExtD(k: nat) | ExtRegD(k: nat)

  predicate IsDst(c: Cfg, d: Dst)
  {
    (d.ExtD? ==> d.k < |c.axiExt|) && (d.ExtRegD? ==> d.k < |c.regExt|)
  }

  predicate Mapped(c: Cfg, d: Dst)
  {
    match d
    case DbgD => true case RegD => true case LlcD => c.llcOutConnect
    case SpmD => c.llcNotBypass case SpmUncachedD => c.llcNotBypass
    case DmaD => c.dma case SlinkD => c.serialLink
    case ExtD(_) => true case ExtRegD(_) => true
  }

  function AxiRegion(c: Cfg, d: Dst): Region
    requires IsDst(c, d)
  {
    match d
    case DbgD => Region(0, 0x40000)
    case RegD => Region(0x0200_0000, 0x0C00_0000)
    case LlcD => c.llcOut
    case SpmD => Region(0x1000_0000, 0x1000_0000 + LlcSize(c))
    case SpmUncachedD => Region(0x1400_0000, 0x1400_0000 + LlcSize(c))
    case DmaD => Region(0x0100_0000, 0x0100_1000)
    case SlinkD => c.slinkOut
    case ExtD(k) => c.axiExt[k].at
    case ExtRegD(k) => c.regExt[k].at
  }

  /** The crossbar's output ports: enabled ones are numbered in order, the scratchpad shares the LLC's. */
  datatype AxiPorts = AxiPorts(llc: nat, spm: nat, dma: nat, slink: nat, extBase: nat)

  function PortsOf(c: Cfg): AxiPorts
  {
    var last := 1 + Bit(c.llcOutConnect);
    AxiPorts(
      if c.llcOutConnect then 2 else 0, if c.llcNotBypass then last else 0,
      if c.dma then last + 1 else 0, if c.serialLink then last + Bit(c.dma) + 1 else 0,
      last + Bit(c.dma) + Bit(c.serialLink) + 1)
  }

  /** The enabled ports are the numbers below the first external one, without gap or repetition. */
  lemma PortsAreDistinct(c: Cfg)
    ensures var o := PortsOf(c);
      && [0, 1] + If(c.llcOutConnect, o.llc) + If(c.dma, o.dma) + If(c.serialLink, o.slink) == Counting(o.extBase)
      && (c.llcNotBypass ==> o.spm == if c.llcOutConnect then o.llc else 1)
  {
  }

  function PortOf(c: Cfg, d: Dst): nat
    requires IsDst(c, d)
  {
    match d
    case DbgD => 0 case RegD => 1 case LlcD => PortsOf(c).llc
    case SpmD => PortsOf(c).spm case SpmUncachedD => PortsOf(c).spm
    case DmaD => PortsOf(c).dma case SlinkD => PortsOf(c).slink
    case ExtD(k) => Index(PortsOf(c).extBase + c.axiExt[k].idx) case ExtRegD(_) => 1
  }

  function AxiRule(c: Cfg, d: Dst): Rule
    requires IsDst(c, d)
  {
    Rule(PortOf(c, d), AxiRegion(c, d))
  }

  function ExtDsts(n: nat): (ds: seq<Dst>)
    ensures |ds| == n
  {
    if n == 0 then [] else ExtDsts(n - 1) + [ExtD(n - 1)]
  }

  function ExtRegDsts(n: nat): (ds: seq<Dst>)
    ensures |ds| == n
  {
    if n == 0 then [] else ExtRegDsts(n - 1) + [ExtRegD(n - 1)]
  }

  function OneIf(there: bool, d: Dst): seq<Dst> { if there then [d] else [] }

  /** The destinations in the order of their rules. */
  function Dsts(c: Cfg): seq<Dst>
  {
    [DbgD, RegD] + OneIf(c.llcOutConnect, LlcD) + OneIf(c.llcNotBypass, SpmD) + OneIf(c.llcNotBypass, SpmUncachedD)
    + OneIf(c.dma, DmaD) + OneIf(c.serialLink, SlinkD) + ExtDsts(|c.axiExt|) + ExtRegDsts(|c.regExt|)
  }

  /** The table holds the rules of the given destinations from its start on. */
  ghost predicate Stored(c: Cfg, table: seq<Rule>, ds: seq<Dst>)
  {
    && |ds| <= |table| == MAX_RULES
    && forall p :: 0 <= p < |ds| ==> IsDst(c, ds[p]) && table[p] == AxiRule(c, ds[p])
  }

  /** One optional rule; `r` is the last one used. */
  method AddRule(c: Cfg, there: bool, d: Dst, idx: nat, table: seq<Rule>, r: nat, ghost ds: seq<Dst>)
    returns (table': seq<Rule>, r': nat, ghost ds': seq<Dst>)
    requires Stored(c, table, ds) && r + 1 == |ds| < MAX_RULES && IsDst(c, d)
    requires there ==> idx == PortOf(c, d)
    ensures ds' == ds + OneIf(there, d) && Stored(c, table', ds') && r' + 1 == |ds'|
  {
    table', r', ds' := table, r, ds + OneIf(there, d);
    if there {
      r' := r + 1;
      table' := Put(table, r', Rule(idx, AxiRegion(c, d)));
    }
  }

  datatype AxiOut = AxiOut(ports: AxiPorts, numOut: nat, numRules: nat, table: seq<Rule>)

  /** `gen_axi_out`. */
  method GenAxiOut(c: Cfg) returns (o: AxiOut)
    requires ValidCfg(c)
    ensures o.ports == PortsOf(c) && o.numOut == o.ports.extBase + c.axiExtNumSlv < MAX_RULES
    ensures o.numRules == |Dsts(c)| < MAX_RULES && Stored(c, o.table, Dsts(c))
  {
    var i, r, table;
    ghost var ds;
    var ports;
    ports, i, r, table, ds := AxiInternal(c);
    i := i + 1;
    var numOut, numRules := Index(i + c.axiExtNumSlv), Index(r + 1 + |c.axiExt| + |c.regExt|);
    SmallIndex(i + c.axiExtNumSlv);
    SmallIndex(r + 1 + |c.axiExt| + |c.regExt|);
    table := AppendExternal(c, ports.extBase, table, r, ds);
    o := AxiOut(ports, numOut, numRules, table);
  }

  /** The internal ports and rules. */
  method AxiInternal(c: Cfg) returns (ports: AxiPorts, i: nat, r: nat, table: seq<Rule>, ghost ds: seq<Dst>)
    requires ValidCfg(c)
    ensures ports == PortsOf(c) && i + 1 == ports.extBase <= 5
    ensures Stored(c, table, ds) && r + 1 == |ds| <= 7
    ensures ds == [DbgD, RegD] + OneIf(c.llcOutConnect, LlcD) + OneIf(c.llcNotBypass, SpmD)
                  + OneIf(c.llcNotBypass, SpmUncachedD) + OneIf(c.dma, DmaD) + OneIf(c.serialLink, SlinkD)
  {
    table := seq(MAX_RULES, p => NO_RULE);
    table := table[0 := Rule(0, AxiRegion(c, DbgD))][1 := Rule(1, AxiRegion(c, RegD))];
    i, r, ds := 1, 1, [DbgD, RegD];
    var llc, spm, dma, slink := 0, 0, 0, 0;
    if c.llcOutConnect { i := i + 1; llc := i; }
    table, r, ds := AddRule(c, c.llcOutConnect, LlcD, i, table, r, ds);
    if c.llcNotBypass { spm := i; }
    table, r, ds := AddRule(c, c.llcNotBypass, SpmD, i, table, r, ds);
    table, r, ds := AddRule(c, c.llcNotBypass, SpmUncachedD, i, table, r, ds);
    if c.dma { i := i + 1; dma := i; }
    table, r, ds := AddRule(c, c.dma, DmaD, i, table, r, ds);
    if c.serialLink { i := i + 1; slink := i; }
    table, r, ds := AddRule(c, c.serialLink, SlinkD, i, table, r, ds);
    ports := AxiPorts(llc, spm, dma, slink, i + 1);
  }

  /** The external rules: first the crossbar's own, then those of the register demultiplexer. */
  method AppendExternal(c: Cfg, extBase: nat, before: seq<Rule>, last: nat, ghost ds: seq<Dst>) returns (table: seq<Rule>)
    requires ValidCfg(c) && extBase == PortsOf(c).extBase && Stored(c, before, ds) && last + 1 == |ds| <= 7
    ensures Stored(c, table, ds + ExtDsts(|c.axiExt|) + ExtRegDsts(|c.regExt|))
  {
    table := before;
    var r := last;
    ghost var all := ds;
    assert ds + [] == ds;
    for k := 0 to |c.axiExt|
      invariant all == ds + ExtDsts(k) && Stored(c, table, all) && r + 1 == |all|
    {
      table, r, all := AddRule(c, true, ExtD(k), Index(extBase + c.axiExt[k].idx), table, r, all);
      assert ds + (ExtDsts(k) + [ExtD(k)]) == ds + ExtDsts(k) + [ExtD(k)];
    }
    ghost var base := all;
    assert base + [] == base;
    for k := 0 to |c.regExt|
      invariant all == base + ExtRegDsts(k) && Stored(c, table, all) && r + 1 == |all|
    {
      table, r, all := AddRule(c, true, ExtRegD(k), 1, table, r, all);
      assert base + (ExtRegDsts(k) + [ExtRegD(k)]) == base + ExtRegDsts(k) + [ExtRegD(k)];
    }
  }
}
