/** The documented memory map: blocks of devices of one size, at fixed places. What the generated maps make of the
    addresses in it, for every configuration. */
module MemoryMap {
  import opened AddressMap
  import opened AddressRouting
  import opened Common

  /** A line of the table: where a device is, how large it is, and whether the configuration has it. */
  datatype Line = Line(dev: Dev, start: nat, size: nat, there: bool)

  const K4 := 0x1000
  const K256 := 0x4_0000
  const M64 := 0x400_0000

  /** A block of the table: its devices lie one behind the other. */
  datatype Block = Block(start: nat, size: nat, devs: seq<(Dev, bool)>)

  function LargePeripherals(c: Cfg): Block
  {
    Block(0x0200_0000, K256, [(Bootrom, c.bootrom), (Clint, true), (IrqRouter, c.irqRouter), (AxiRt, c.axiRt)])
  }

  function SmallPeripherals(c: Cfg): Block
  {
    Block(0x0300_0000, K4, [(Regs, true), (Llc, c.llcNotBypass), (Uart, c.uart), (I2c, c.i2c), (SpiHost, c.spiHost),
                            (Gpio, c.gpio), (Slink, c.serialLink), (Vga, c.vga), (Usb, c.usb)])
  }

  const CONTROLLER := Block(0x0400_0000, M64, [(Plic, true)])

  function Clics(c: Cfg): Block
  {
    Block(0x0800_0000, K256, seq(32, j requires 0 <= j < 32 => (Clic(j), c.clic && j < c.numCores)))
  }

  /** The bus error units are the tenth small peripheral; each has sixty-four bytes of its page. */
  function BusErrs(c: Cfg): Block
  {
    Block(0x0300_0000 + 9 * K4, 64, seq(34, j requires 0 <= j < 34 => (BusErr(j), c.busErr && j < 2 + c.numCores)))
  }

  function BlockAt(c: Cfg, b: nat): Block
    requires b < 5
  {
    match b
    case 0 => LargePeripherals(c)
    case 1 => SmallPeripherals(c)
    case 2 => BusErrs(c)
    case 3 => CONTROLLER
    case _ => Clics(c)
  }

  predicate IsLine(c: Cfg, b: nat, k: nat)
  {
    b < 5 && k < |BlockAt(c, b).devs|
  }

  function LineAt(c: Cfg, b: nat, k: nat): Line
    requires IsLine(c, b, k)
  {
    var at := BlockAt(c, b);
    Line(at.devs[k].0, at.start + k * at.size, at.size, at.devs[k].1)
  }

  predicate Means(c: Cfg, l: Line)
  {
    InRange(l.dev) && RegionOf(l.dev) == Region(l.start, l.start + l.size) && Enabled(c, l.dev) == l.there
  }

  lemma LargeLine(c: Cfg, k: nat)
    requires IsLine(c, 0, k)
    ensures Means(c, LineAt(c, 0, k))
  {
    assert k == 0 || k == 1 || k == 2 || k == 3;
  }

  lemma SmallLineLow(c: Cfg, k: nat)
    requires IsLine(c, 1, k) && k < 5
    ensures Means(c, LineAt(c, 1, k))
  {
    assert k == 0 || k == 1 || k == 2 || k == 3 || k == 4;
  }

  lemma SmallLineHigh(c: Cfg, k: nat)
    requires IsLine(c, 1, k) && k >= 5
    ensures Means(c, LineAt(c, 1, k))
  {
    assert k == 5 || k == 6 || k == 7 || k == 8;
  }

  lemma BusErrLine(c: Cfg, k: nat)
    requires IsLine(c, 2, k)
    ensures Means(c, LineAt(c, 2, k))
  {
    assert LineAt(c, 2, k) == Line(BusErr(k), 0x0300_9000 + k * 64, 64, c.busErr && k < 2 + c.numCores);
  }

  lemma ControllerLine(c: Cfg, k: nat)
    requires IsLine(c, 3, k)
    ensures Means(c, LineAt(c, 3, k))
  {
    assert k == 0;
  }

  lemma ClicLine(c: Cfg, k: nat)
    requires IsLine(c, 4, k)
    ensures Means(c, LineAt(c, 4, k))
  {
    assert LineAt(c, 4, k) == Line(Clic(k), 0x0800_0000 + k * K256, K256, c.clic && k < c.numCores);
  }

  /** The maps' regions and the configuration's flags are those of the table. */
  lemma LineMeans(c: Cfg, b: nat, k: nat)
    requires IsLine(c, b, k)
    ensures Means(c, LineAt(c, b, k))
  {
    hide Means;
    match b {
      case 0 => LargeLine(c, k);
      case 1 => if k < 5 { SmallLineLow(c, k); } else { SmallLineHigh(c, k); }
      case 2 => BusErrLine(c, k);
      case 3 => ControllerLine(c, k);
      case _ => ClicLine(c, k);
    }
  }

  /** Every device has a line. */
  lemma DeviceHasLine(c: Cfg, d: Dev) returns (b: nat, k: nat)
    requires InRange(d)
    ensures IsLine(c, b, k) && LineAt(c, b, k).dev == d
  {
    match d {
      case Bootrom => b, k := 0, 0;
      case Clint => b, k := 0, 1;
      case IrqRouter => b, k := 0, 2;
      case AxiRt => b, k := 0, 3;
      case Regs => b, k := 1, 0;
      case Llc => b, k := 1, 1;
      case Uart => b, k := 1, 2;
      case I2c => b, k := 1, 3;
      case SpiHost => b, k := 1, 4;
      case Gpio => b, k := 1, 5;
      case Slink => b, k := 1, 6;
      case Vga => b, k := 1, 7;
      case Usb => b, k := 1, 8;
      case BusErr(j) => b, k := 2, j;
      case Plic => b, k := 3, 0;
      case Clic(j) => b, k := 4, j;
    }
  }

  /** Every address of a line whose device the configuration has passes the crossbar to the register demultiplexer
      and is decoded to that device's own output; past the thirty-second bus error unit there is no port field. */
  lemma DeviceIsReached(c: Cfg, axi: AxiOut, reg: RegOut, devs: seq<Dev>, b: nat, k: nat, addr: nat)
    requires ValidCfg(c) && ValidRegions(c) && IsAxiOut(c, axi) && IsRegOut(c, reg, devs)
    requires RuleCount(c) < MAX_RULES && PortCount(c) < MAX_RULES
    requires IsLine(c, b, k)
    requires var l := LineAt(c, b, k); l.there && l.start <= addr < l.start + l.size
    ensures Decode(axi.table, axi.numRules, addr) == Some(1) && 1 < axi.numOut
    ensures var d := LineAt(c, b, k).dev;
      (d.BusErr? ==> d.unit < 32) ==>
        d in reg.ports && 0 < reg.ports[d] < reg.numOut && Decode(reg.table, reg.numRules, addr) == Some(reg.ports[d])
  {
    hide DevCount, LlcSize, AxiRegion, PortsOf, IsLine, LineAt;
    LineMeans(c, b, k);
    PeripheralIsReached(c, axi, reg, devs, LineAt(c, b, k).dev, addr);
  }

  /** No rule of the demultiplexer matches an address of the internal window outside the devices the configuration
      has; the demultiplexer sends it to its error output. */
  lemma {:induction false} RestIsError(c: Cfg, reg: RegOut, devs: seq<Dev>, addr: nat, n: nat)
    requires ValidCfg(c) && ValidRegions(c) && IsRegOut(c, reg, devs) && RuleCount(c) < MAX_RULES
    requires 0x0200_0000 <= addr < 0x0C00_0000 && n <= reg.numRules
    requires forall b, k :: IsLine(c, b, k) && LineAt(c, b, k).there ==>
               !(LineAt(c, b, k).start <= addr < LineAt(c, b, k).start + LineAt(c, b, k).size)
    ensures Decode(reg.table, n, addr) == None
  {
    hide DevCount, LlcSize, AxiRegion, PortsOf, IsLine, LineAt, RegionOf, Enabled;
    SmallIndex(RuleCount(c));
    if n > 0 {
      RestIsError(c, reg, devs, addr, n - 1);
      if n <= |devs| {
        DevsInRange(c, devs, n - 1);
        var b, k := DeviceHasLine(c, devs[n - 1]);
        LineMeans(c, b, k);
      } else {
        assert reg.table[|devs| + (n - 1 - |devs|)] == RegExtRule(c, reg.extBase, n - 1 - |devs|);
        ExtOutsideWindow(c, n - 1 - |devs|);
      }
    }
  }

  /** The crossbar's own lines: the debug module, the register window, the DMA's registers and the two views of the
      scratchpad, each of which the documentation gives 64 MiB. */
  lemma CrossbarLines(c: Cfg, axi: AxiOut, addr: nat)
    requires ValidCfg(c) && ValidRegions(c) && IsAxiOut(c, axi)
    ensures addr < K256 ==> Decode(axi.table, axi.numRules, addr) == Some(0)
    ensures 0x0200_0000 <= addr < 0x0800_0000 + M64 ==> Decode(axi.table, axi.numRules, addr) == Some(1)
    ensures c.dma && 0x0100_0000 <= addr < 0x0100_0000 + K4 ==>
            Decode(axi.table, axi.numRules, addr) == Some(axi.ports.dma)
    ensures c.llcNotBypass && (0x1000_0000 <= addr < 0x1000_0000 + LlcSize(c)
                               || 0x1400_0000 <= addr < 0x1400_0000 + LlcSize(c)) ==>
            Decode(axi.table, axi.numRules, addr) == Some(axi.ports.llc)
            && addr < if addr < 0x1400_0000 then 0x1000_0000 + M64 else 0x1400_0000 + M64
  {
    hide LlcSize;
    if addr < K256 { CrossbarRoutes(c, axi, DbgD, addr); }
    if 0x0200_0000 <= addr < 0x0C00_0000 { CrossbarRoutes(c, axi, RegD, addr); }
    if c.dma && 0x0100_0000 <= addr < 0x0100_1000 { CrossbarRoutes(c, axi, DmaD, addr); }
    if c.llcNotBypass && 0x1000_0000 <= addr < 0x1000_0000 + LlcSize(c) { CrossbarRoutes(c, axi, SpmD, addr); }
    if c.llcNotBypass && 0x1400_0000 <= addr < 0x1400_0000 + LlcSize(c) { CrossbarRoutes(c, axi, SpmUncachedD, addr); }
  }
}
