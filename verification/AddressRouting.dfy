/** Where the generated address maps lead: no two rules overlap, and every address of a register peripheral,
    internal or external, passes the crossbar to the register demultiplexer and there reaches its own port. */
module AddressRouting {
  import opened AddressMap
  import opened Common

  predicate Disjoint(a: Region, b: Region)
  {
    a.end <= b.start || b.end <= a.start
  }

  predicate In(addr: nat, a: Region)
  {
    a.start <= addr < a.end
  }

  /** The address decoder: of several matching rules the last one wins. */
  function Decode(table: seq<Rule>, n: nat, addr: nat): Option<nat>
    requires n <= |table|
  {
    if n == 0 then None
    else if In(addr, table[n - 1].at) then Some(table[n - 1].idx)
    else Decode(table, n - 1, addr)
  }

  lemma {:induction false} DecodeFinds(table: seq<Rule>, n: nat, addr: nat, p: nat)
    requires p < n <= |table| && In(addr, table[p].at)
    requires forall q :: 0 <= q < n && In(addr, table[q].at) ==> table[q].idx == table[p].idx
    ensures Decode(table, n, addr) == Some(table[p].idx)
  {
    if !In(addr, table[n - 1].at) {
      DecodeFinds(table, n - 1, addr, p);
    }
  }

  // ---- the register devices ----

  predicate InRange(d: Dev)
  {
    IsDev(d) && (d.BusErr? ==> d.unit < 34)
  }

  lemma DevsDisjoint(d: Dev, e: Dev)
    requires InRange(d) && InRange(e) && d != e
    ensures Disjoint(RegionOf(d), RegionOf(e))
  {
  }

  const REG_WINDOW := Region(0x0200_0000, 0x0C00_0000)

  lemma DevInWindow(d: Dev)
    requires InRange(d)
    ensures REG_WINDOW.start <= RegionOf(d).start < RegionOf(d).end <= REG_WINDOW.end
  {
  }

  // ---- the crossbar ----

  /** A destination whose region the configuration gives. */
  predicate Given(d: Dst)
  {
    d.LlcD? || d.SlinkD? || d.ExtD? || d.ExtRegD?
  }

  /** The regions given are disjoint from each other and from the internal ones, the scratchpad is at most
      64 MiB, and an LLC is connected. */
  ghost predicate ValidRegions(c: Cfg)
  {
    && LlcSize(c) <= 0x0400_0000 && (c.llcNotBypass ==> c.llcOutConnect)
    && forall d, e :: IsDst(c, d) && IsDst(c, e) && Mapped(c, d) && Mapped(c, e) && d != e && Given(d) ==>
         Disjoint(AxiRegion(c, d), AxiRegion(c, e))
  }

  lemma DstsDisjoint(c: Cfg, d: Dst, e: Dst)
    requires ValidRegions(c) && IsDst(c, d) && IsDst(c, e) && Mapped(c, d) && Mapped(c, e) && d != e
    ensures Disjoint(AxiRegion(c, d), AxiRegion(c, e))
  {
    if Given(e) {
      assert Disjoint(AxiRegion(c, e), AxiRegion(c, d));
    }
  }

  lemma {:induction false} ExtAt(n: nat, k: nat)
    requires k < n
    ensures ExtDsts(n)[k] == ExtD(k) && ExtRegDsts(n)[k] == ExtRegD(k)
  {
    if k < n - 1 {
      ExtAt(n - 1, k);
    }
  }

  /** Every mapped destination has a rule. */
  lemma HasRule(c: Cfg, d: Dst) returns (p: nat)
    requires IsDst(c, d) && Mapped(c, d)
    ensures p < |Dsts(c)| && Dsts(c)[p] == d
  {
    if d.ExtD? {
      ExtAt(|c.axiExt|, d.k);
      p := |Dsts(c)| - |c.regExt| - |c.axiExt| + d.k;
    } else if d.ExtRegD? {
      ExtAt(|c.regExt|, d.k);
      p := |Dsts(c)| - |c.regExt| + d.k;
    } else {
      var inner := [DbgD, RegD] + OneIf(c.llcOutConnect, LlcD) + OneIf(c.llcNotBypass, SpmD)
                   + OneIf(c.llcNotBypass, SpmUncachedD) + OneIf(c.dma, DmaD) + OneIf(c.serialLink, SlinkD);
      assert d in inner;
      p :| 0 <= p < |inner| && inner[p] == d;
    }
  }

  /** Every rule has a mapped destination. */
  lemma RuleIsMapped(c: Cfg, p: nat)
    requires p < |Dsts(c)|
    ensures IsDst(c, Dsts(c)[p]) && Mapped(c, Dsts(c)[p])
  {
    var n := |Dsts(c)| - |c.regExt|;
    if p >= n {
      ExtAt(|c.regExt|, p - n);
    } else if p >= n - |c.axiExt| {
      ExtAt(|c.axiExt|, p - (n - |c.axiExt|));
    } else {
      var inner := [DbgD, RegD] + OneIf(c.llcOutConnect, LlcD) + OneIf(c.llcNotBypass, SpmD)
                   + OneIf(c.llcNotBypass, SpmUncachedD) + OneIf(c.dma, DmaD) + OneIf(c.serialLink, SlinkD);
      assert Dsts(c)[p] == inner[p] && inner[p] in inner;
    }
  }

  /** What the generator promises about the crossbar. */
  ghost predicate IsAxiOut(c: Cfg, o: AxiOut)
  {
    && o.ports == PortsOf(c) && o.numOut == o.ports.extBase + c.axiExtNumSlv
    && o.numRules == |Dsts(c)| && Stored(c, o.table, Dsts(c))
  }

  /** The crossbar sends every mapped address to the port of its destination. */
  lemma CrossbarRoutes(c: Cfg, o: AxiOut, d: Dst, addr: nat)
    requires IsAxiOut(c, o) && ValidRegions(c) && IsDst(c, d) && Mapped(c, d) && In(addr, AxiRegion(c, d))
    ensures Decode(o.table, o.numRules, addr) == Some(PortOf(c, d))
  {
    var p := HasRule(c, d);
    forall q | 0 <= q < o.numRules && In(addr, o.table[q].at) ensures o.table[q].idx == PortOf(c, d) {
      RuleIsMapped(c, q);
      if Dsts(c)[q] != d {
        DstsDisjoint(c, d, Dsts(c)[q]);
      }
    }
    DecodeFinds(o.table, o.numRules, addr, p);
  }

  // ---- the register demultiplexer ----

  /** The true number of rules. */
  function RuleCount(c: Cfg): nat { DevCount(c) + |c.regExt| }

  /** The true number of output ports, the error port included. */
  function PortCount(c: Cfg): nat { DevCount(c) + 1 + c.regExtNumSlv }

  lemma DevsInRange(c: Cfg, devs: seq<Dev>, p: nat)
    requires ValidCfg(c) && Complete(c, devs, 98) && p < |devs|
    ensures InRange(devs[p]) && Enabled(c, devs[p])
  {
    assert devs[p] in devs;
  }

  /** A given register region is clear of the window of the internal ones. */
  lemma ExtOutsideWindow(c: Cfg, k: nat)
    requires ValidRegions(c) && k < |c.regExt|
    ensures Disjoint(c.regExt[k].at, REG_WINDOW)
  {
    assert Disjoint(AxiRegion(c, ExtRegD(k)), AxiRegion(c, RegD));
  }

  lemma HasPosition(c: Cfg, devs: seq<Dev>, d: Dev) returns (p: nat)
    requires Complete(c, devs, 98) && Enabled(c, d) && InRange(d)
    ensures p < |devs| && devs[p] == d
  {
    assert d in devs;
    p :| 0 <= p < |devs| && devs[p] == d;
  }

  /** Only a device's own rule matches its addresses. */
  lemma {:induction false} OnlyItsRule(c: Cfg, o: RegOut, devs: seq<Dev>, p: nat, addr: nat, q: nat)
    requires ValidCfg(c) && ValidRegions(c) && IsRegOut(c, o, devs) && p < |devs|
    requires q < RuleCount(c) <= MAX_RULES && In(addr, RegionOf(devs[p])) && In(addr, o.table[q].at)
    ensures q == p
  {
    hide DevCount, Enabled, LlcSize, RegionOf, AxiRegion;
    DevsInRange(c, devs, p);
    if q < |devs| {
      DevsInRange(c, devs, q);
      if devs[q] != devs[p] { DevsDisjoint(devs[p], devs[q]); }
    } else {
      assert o.table[|devs| + (q - |devs|)] == RegExtRule(c, o.extBase, q - |devs|);
      ExtOutsideWindow(c, q - |devs|);
      DevInWindow(devs[p]);
    }
  }

  /** The demultiplexer sends every address of an enabled device to that device's port. */
  lemma RegRoutes(c: Cfg, o: RegOut, devs: seq<Dev>, d: Dev, addr: nat)
    requires ValidCfg(c) && ValidRegions(c) && IsRegOut(c, o, devs) && RuleCount(c) < MAX_RULES
    requires Enabled(c, d) && InRange(d) && In(addr, RegionOf(d))
    ensures d in o.ports <==> HasField(d)
    ensures HasField(d) ==> Decode(o.table, o.numRules, addr) == Some(o.ports[d])
  {
    SmallIndex(RuleCount(c));
    var p := HasPosition(c, devs, d);
    forall q | 0 <= q < o.numRules && In(addr, o.table[q].at) ensures q == p {
      OnlyItsRule(c, o, devs, p, addr, q);
    }
    DecodeFinds(o.table, o.numRules, addr, p);
  }

  /** And every address of an external region to that region's port. */
  lemma RegExtRoutes(c: Cfg, o: RegOut, devs: seq<Dev>, k: nat, addr: nat)
    requires ValidCfg(c) && ValidRegions(c) && IsRegOut(c, o, devs) && RuleCount(c) < MAX_RULES
    requires k < |c.regExt| && In(addr, c.regExt[k].at)
    ensures Decode(o.table, o.numRules, addr) == Some(Index(o.extBase + c.regExt[k].idx))
  {
    SmallIndex(RuleCount(c));
    var p := |devs| + k;
    assert o.table[p] == RegExtRule(c, o.extBase, k);
    forall q | 0 <= q < o.numRules && In(addr, o.table[q].at) ensures o.table[q].idx == o.table[p].idx {
      if q < |devs| {
        DevsInRange(c, devs, q);
        ExtOutsideWindow(c, k);
        DevInWindow(devs[q]);
      } else {
        var j := q - |devs|;
        assert o.table[|devs| + j] == RegExtRule(c, o.extBase, j);
        if j != k {
          DstsDisjoint(c, ExtRegD(k), ExtRegD(j));
        }
      }
    }
    DecodeFinds(o.table, o.numRules, addr, p);
  }

  // ---- both together ----

  /** A device's port is one of the outputs, and not the error port. */
  predicate HasOutput(o: RegOut, d: Dev)
  {
    d in o.ports && 0 < o.ports[d] < o.numOut
  }

  /** With fewer than 64 ports, every recorded device port is an output of the demultiplexer. */
  lemma DeviceHasOutput(c: Cfg, o: RegOut, devs: seq<Dev>, d: Dev)
    requires ValidCfg(c) && IsRegOut(c, o, devs) && PortCount(c) < MAX_RULES
    requires Enabled(c, d) && InRange(d) && HasField(d)
    ensures HasOutput(o, d)
  {
    var p := HasPosition(c, devs, d);
    SmallIndex(p + 1);
    SmallIndex(PortCount(c));
  }

  /** An external port is an output if and only if its number is below the number of external outputs. */
  lemma ExternalHasOutput(c: Cfg, o: RegOut, devs: seq<Dev>, k: nat)
    requires IsRegOut(c, o, devs) && PortCount(c) < MAX_RULES && k < |c.regExt|
    ensures o.extBase + c.regExt[k].idx < o.numOut <==> c.regExt[k].idx < c.regExtNumSlv
    ensures c.regExt[k].idx < c.regExtNumSlv ==> Index(o.extBase + c.regExt[k].idx) == o.extBase + c.regExt[k].idx
  {
    SmallIndex(DevCount(c) + 1);
    SmallIndex(PortCount(c));
    if c.regExt[k].idx < c.regExtNumSlv { SmallIndex(o.extBase + c.regExt[k].idx); }
  }

  /** Every address of an enabled internal peripheral passes the crossbar to the register demultiplexer (its
      output 1) and is decoded to the peripheral's own port, which is one of the outputs. */
  lemma PeripheralIsReached(c: Cfg, axi: AxiOut, reg: RegOut, devs: seq<Dev>, d: Dev, addr: nat)
    requires ValidCfg(c) && ValidRegions(c) && IsAxiOut(c, axi) && IsRegOut(c, reg, devs)
    requires RuleCount(c) < MAX_RULES && Enabled(c, d) && InRange(d) && In(addr, RegionOf(d))
    ensures Decode(axi.table, axi.numRules, addr) == Some(1) && 1 < axi.numOut
    ensures d in reg.ports <==> HasField(d)
    ensures HasField(d) ==> Decode(reg.table, reg.numRules, addr) == Some(reg.ports[d])
    ensures HasField(d) && PortCount(c) < MAX_RULES ==> HasOutput(reg, d)
  {
    DevInWindow(d);
    CrossbarRoutes(c, axi, RegD, addr);
    RegRoutes(c, reg, devs, d, addr);
    if HasField(d) && PortCount(c) < MAX_RULES { DeviceHasOutput(c, reg, devs, d); }
  }

  /** So does every address of an external register region. */
  lemma ExternalIsReached(c: Cfg, axi: AxiOut, reg: RegOut, devs: seq<Dev>, k: nat, addr: nat)
    requires ValidCfg(c) && ValidRegions(c) && IsAxiOut(c, axi) && IsRegOut(c, reg, devs)
    requires RuleCount(c) < MAX_RULES && k < |c.regExt| && In(addr, c.regExt[k].at)
    ensures Decode(axi.table, axi.numRules, addr) == Some(1) && 1 < axi.numOut
    ensures Decode(reg.table, reg.numRules, addr) == Some(Index(reg.extBase + c.regExt[k].idx))
    ensures PortCount(c) < MAX_RULES && c.regExt[k].idx < c.regExtNumSlv ==>
            Decode(reg.table, reg.numRules, addr) == Some(reg.extBase + c.regExt[k].idx)
            && reg.extBase + c.regExt[k].idx < reg.numOut
  {
    CrossbarRoutes(c, axi, ExtRegD(k), addr);
    RegExtRoutes(c, reg, devs, k, addr);
    if PortCount(c) < MAX_RULES { ExternalHasOutput(c, reg, devs, k); }
  }

  // ---- sizes ----

  /** All rules fit the table if the external ones and twice the harts are at most 48; the six-bit rule count
      is the number of rules exactly if they are fewer than 64, and zero for 64. */
  lemma RulesFit(c: Cfg, o: RegOut, devs: seq<Dev>)
    requires ValidCfg(c) && IsRegOut(c, o, devs)
    ensures 2 * c.numCores + |c.regExt| <= 48 ==> RuleCount(c) <= MAX_RULES
    ensures o.numRules == RuleCount(c) <==> RuleCount(c) < MAX_RULES
    ensures RuleCount(c) == MAX_RULES ==> o.numRules == 0
  {
    if RuleCount(c) < MAX_RULES { SmallIndex(RuleCount(c)); }
  }

  /** A full table reports no rule at all, so nothing behind it is reached. */
  lemma FullTableIsDead(c: Cfg, o: RegOut, devs: seq<Dev>, addr: nat)
    requires IsRegOut(c, o, devs) && RuleCount(c) == MAX_RULES
    ensures Decode(o.table, o.numRules, addr) == None
  {
  }

  /** A configuration with every feature, seventeen harts and fourteen external regions. */
  const FULL := Cfg(
    17, true, true, true, true, true,
    true, true, true, true, true, true, true, true,
    true, true, true,
    8, 256, 8, 64,
    Region(0x8000_0000, 0x1_0000_0000), Region(0x1_0000_0000, 0x2_0000_0000),
    0, 0, [], 14, FullRegions(14))

  function FullRegions(n: nat): (rules: seq<ExtRule>)
    ensures |rules| == n
    ensures forall k :: 0 <= k < n ==>
              rules[k] == ExtRule(k, Region(0x2000_0000 + 0x1000 * k, 0x2000_1000 + 0x1000 * k))
  {
    seq(n, k requires 0 <= k => ExtRule(k, Region(0x2000_0000 + 0x1000 * k, 0x2000_1000 + 0x1000 * k)))
  }

  /** It is valid, keeps the bound of 48, and has exactly 64 rules: none of its register peripherals can be
      reached. */
  lemma FullIsDead(o: RegOut, devs: seq<Dev>, addr: nat)
    requires IsRegOut(FULL, o, devs)
    ensures ValidCfg(FULL) && ValidRegions(FULL) && 2 * FULL.numCores + |FULL.regExt| == 48
    ensures RuleCount(FULL) == MAX_RULES && Decode(o.table, o.numRules, addr) == None
  {
    forall d, e | IsDst(FULL, d) && IsDst(FULL, e) && Mapped(FULL, d) && Mapped(FULL, e) && d != e && Given(d)
      ensures Disjoint(AxiRegion(FULL, d), AxiRegion(FULL, e))
    {
    }
    FullTableIsDead(FULL, o, devs, addr);
  }

  // ---- exactly when everything is reached ----

  /** The demultiplexer sends address `addr` to port `port`. */
  predicate Sends(o: RegOut, addr: nat, port: nat)
  {
    o.numRules <= |o.table| && Decode(o.table, o.numRules, addr) == Some(port)
  }

  ghost predicate DevsRouted(c: Cfg, o: RegOut)
  {
    forall d: Dev, addr: nat :: Enabled(c, d) && InRange(d) && In(addr, RegionOf(d)) ==>
      d in o.ports && Sends(o, addr, o.ports[d])
  }

  ghost predicate ExtsRouted(c: Cfg, o: RegOut)
  {
    forall k: nat, addr: nat :: k < |c.regExt| && In(addr, c.regExt[k].at) ==>
      Sends(o, addr, Index(o.extBase + c.regExt[k].idx))
  }

  /** Every address of every enabled device and of every external region is sent to its port. */
  ghost predicate AllRouted(c: Cfg, o: RegOut)
  {
    DevsRouted(c, o) && ExtsRouted(c, o)
  }

  lemma {:induction false} DecodeMisses(table: seq<Rule>, n: nat, addr: nat)
    requires n <= |table| && forall q :: 0 <= q < n ==> !In(addr, table[q].at)
    ensures Decode(table, n, addr) == None
  {
    if n > 0 {
      DecodeMisses(table, n - 1, addr);
    }
  }

  lemma ReportedRules(c: Cfg, o: RegOut, devs: seq<Dev>)
    requires ValidCfg(c) && IsRegOut(c, o, devs) && RuleCount(c) >= MAX_RULES
    ensures o.numRules == RuleCount(c) - MAX_RULES < |devs| && o.numRules < MAX_RULES
  {
  }

  lemma EarlierRuleMisses(c: Cfg, o: RegOut, devs: seq<Dev>, p: nat, q: nat)
    requires ValidCfg(c) && IsRegOut(c, o, devs) && q < p < |devs| && p < MAX_RULES
    ensures !In(RegionOf(devs[p]).start, o.table[q].at)
  {
    DevsInRange(c, devs, p);
    DevsInRange(c, devs, q);
    DevsDisjoint(devs[q], devs[p]);
    DevInWindow(devs[p]);
  }

  /** With 64 rules or more, the first device behind the reported ones is not reached. */
  lemma SomeDeviceIsLost(c: Cfg, o: RegOut, devs: seq<Dev>) returns (d: Dev, addr: nat)
    requires ValidCfg(c) && IsRegOut(c, o, devs) && RuleCount(c) >= MAX_RULES
    ensures Enabled(c, d) && InRange(d) && In(addr, RegionOf(d)) && o.numRules <= MAX_RULES
    ensures Decode(o.table, o.numRules, addr) == None
  {
    ReportedRules(c, o, devs);
    var p := o.numRules;
    DevsInRange(c, devs, p);
    DevInWindow(devs[p]);
    d, addr := devs[p], RegionOf(devs[p]).start;
    forall q | 0 <= q < p ensures !In(addr, o.table[q].at) {
      EarlierRuleMisses(c, o, devs, p, q);
    }
    DecodeMisses(o.table, p, addr);
  }

  /** Every enabled device has a field for its port; of the bus error units the 33rd has none. */
  predicate AllHaveFields(c: Cfg)
  {
    c.busErr ==> c.numCores < 31
  }

  lemma AllDevicesRouted(c: Cfg, o: RegOut, devs: seq<Dev>)
    requires ValidCfg(c) && ValidRegions(c) && IsRegOut(c, o, devs) && RuleCount(c) < MAX_RULES && AllHaveFields(c)
    ensures AllRouted(c, o)
  {
    SmallIndex(RuleCount(c));
    forall d: Dev, addr: nat | Enabled(c, d) && InRange(d) && In(addr, RegionOf(d))
      ensures d in o.ports && Sends(o, addr, o.ports[d])
    {
      RegRoutes(c, o, devs, d, addr);
    }
    forall k: nat, addr: nat | k < |c.regExt| && In(addr, c.regExt[k].at)
      ensures Sends(o, addr, Index(o.extBase + c.regExt[k].idx))
    {
      RegExtRoutes(c, o, devs, k, addr);
    }
  }

  lemma LastUnitIsLost(c: Cfg, o: RegOut, devs: seq<Dev>)
    requires ValidCfg(c) && IsRegOut(c, o, devs) && !AllHaveFields(c)
    ensures Enabled(c, BusErr(32)) && InRange(BusErr(32)) && BusErr(32) !in o.ports
    ensures In(RegionOf(BusErr(32)).start, RegionOf(BusErr(32)))
  {
    var p := HasPosition(c, devs, BusErr(32));
    DevInWindow(BusErr(32));
  }

  /** The decoder sends everything to its port if and only if the configuration has fewer than 64 register rules
      and not the 33rd bus error unit. */
  lemma RoutingExactly(c: Cfg, o: RegOut, devs: seq<Dev>)
    requires ValidCfg(c) && ValidRegions(c) && IsRegOut(c, o, devs)
    ensures AllRouted(c, o) <==> RuleCount(c) < MAX_RULES && AllHaveFields(c)
  {
    if RuleCount(c) >= MAX_RULES {
      var d, addr := SomeDeviceIsLost(c, o, devs);
      assert !(d in o.ports && Sends(o, addr, o.ports[d]));
    } else if !AllHaveFields(c) {
      LastUnitIsLost(c, o, devs);
    } else {
      AllDevicesRouted(c, o, devs);
    }
  }

  /** The ports the decoder selects are outputs of the demultiplexer, which has `numOut` of them. */
  ghost predicate PortsExist(c: Cfg, o: RegOut)
  {
    && (forall d :: Enabled(c, d) && InRange(d) ==> HasOutput(o, d))
    && (forall k :: 0 <= k < |c.regExt| ==> o.extBase + c.regExt[k].idx < o.numOut)
  }

  predicate ExternalsInRange(c: Cfg)
  {
    forall k :: 0 <= k < |c.regExt| ==> c.regExt[k].idx < c.regExtNumSlv
  }

  lemma AllPortsExist(c: Cfg, o: RegOut, devs: seq<Dev>)
    requires ValidCfg(c) && IsRegOut(c, o, devs) && AllHaveFields(c) && PortCount(c) < MAX_RULES
    ensures PortsExist(c, o) <==> ExternalsInRange(c)
  {
    forall d | Enabled(c, d) && InRange(d) ensures HasOutput(o, d) {
      DeviceHasOutput(c, o, devs, d);
    }
    forall k | 0 <= k < |c.regExt|
      ensures o.extBase + c.regExt[k].idx < o.numOut <==> c.regExt[k].idx < c.regExtNumSlv
    {
      ExternalHasOutput(c, o, devs, k);
    }
  }

  /** With 64 ports or more but room for the devices, the truncated number of outputs leaves the last device out. */
  lemma LastDeviceHasNoOutput(c: Cfg, o: RegOut, devs: seq<Dev>)
    requires ValidCfg(c) && IsRegOut(c, o, devs) && RuleCount(c) < MAX_RULES <= PortCount(c)
    ensures !PortsExist(c, o)
  {
    var p := |devs| - 1;
    DevsInRange(c, devs, p);
    SmallIndex(DevCount(c));
    WrappedIndex(PortCount(c));
    assert !HasOutput(o, devs[p]);
  }

  lemma WrappedIndex(i: nat)
    requires MAX_RULES <= i < 2 * MAX_RULES
    ensures Index(i) == i - MAX_RULES
  {
  }

  /** Everything is reached (decoded to its port, and the port exists) if and only if the configuration has fewer
      than 64 register rules and fewer than 64 ports, not the 33rd bus error unit, and no external region with a
      port number past the external outputs. */
  lemma ReachedExactly(c: Cfg, o: RegOut, devs: seq<Dev>)
    requires ValidCfg(c) && ValidRegions(c) && IsRegOut(c, o, devs)
    ensures AllRouted(c, o) && PortsExist(c, o) <==>
            && DevCount(c) + |c.regExt| < MAX_RULES && DevCount(c) + 1 + c.regExtNumSlv < MAX_RULES
            && (c.busErr ==> c.numCores < 31) && ExternalsInRange(c)
  {
    RoutingExactly(c, o, devs);
    if RuleCount(c) < MAX_RULES && AllHaveFields(c) {
      if PortCount(c) < MAX_RULES {
        AllPortsExist(c, o, devs);
      } else {
        LastDeviceHasNoOutput(c, o, devs);
      }
    }
  }

  /** Sixteen harts, every feature and fifteen external regions: 63 rules and 64 ports. */
  const MANY := FULL.(numCores := 16, regExtNumSlv := 15, regExt := FullRegions(15))

  /** Everything is decoded to its port, but the number of outputs reads zero. */
  lemma ManyHasNoOutputs(o: RegOut, devs: seq<Dev>)
    requires IsRegOut(MANY, o, devs)
    ensures ValidCfg(MANY) && ValidRegions(MANY) && 2 * MANY.numCores + |MANY.regExt| == 47
    ensures AllRouted(MANY, o) && o.numOut == 0
    ensures forall d :: !HasOutput(o, d)
  {
    forall d, e | IsDst(MANY, d) && IsDst(MANY, e) && Mapped(MANY, d) && Mapped(MANY, e) && d != e && Given(d)
      ensures Disjoint(AxiRegion(MANY, d), AxiRegion(MANY, e))
    {
    }
    AllDevicesRouted(MANY, o, devs);
    WrappedIndex(PortCount(MANY));
  }

  /** Thirty-one harts with bus error units but no CLIC: 47 rules, and a unit without a port field. */
  const LARGE := FULL.(numCores := 31, clic := false, regExtNumSlv := 0, regExt := [])

  lemma LargeLosesAUnit(o: RegOut, devs: seq<Dev>)
    requires IsRegOut(LARGE, o, devs)
    ensures ValidCfg(LARGE) && RuleCount(LARGE) == 47
    ensures Enabled(LARGE, BusErr(32)) && BusErr(32) !in o.ports && !AllRouted(LARGE, o)
  {
    LastUnitIsLost(LARGE, o, devs);
  }

  /** All recorded ports are those of one device only, and none is the error port. */
  ghost predicate PortsDistinct(c: Cfg, o: RegOut)
  {
    forall d, e :: Enabled(c, d) && InRange(d) && Enabled(c, e) && InRange(e) && d in o.ports && e in o.ports ==>
      o.ports[d] != 0 && (d != e ==> o.ports[d] != o.ports[e])
  }

  /** With fewer than 64 devices their ports are distinct, and below the external ones if all port numbers have
      six bits. */
  lemma RegPortsDistinct(c: Cfg, o: RegOut, devs: seq<Dev>, d: Dev, e: Dev)
    requires ValidCfg(c) && IsRegOut(c, o, devs) && InRange(d) && InRange(e) && Enabled(c, d) && Enabled(c, e)
    ensures d in o.ports <==> HasField(d)
    ensures DevCount(c) < MAX_RULES && HasField(d) && HasField(e) ==>
            o.ports[d] != 0 && (d != e ==> o.ports[d] != o.ports[e])
    ensures PortCount(c) < MAX_RULES ==>
            (HasField(d) ==> o.ports[d] < o.extBase) && o.numOut == o.extBase + c.regExtNumSlv
  {
    hide DevCount, RegionOf, Enabled;
    var p := HasPosition(c, devs, d);
    var q := HasPosition(c, devs, e);
    if DevCount(c) < MAX_RULES {
      SmallIndex(p + 1);
      SmallIndex(q + 1);
    }
    if PortCount(c) < MAX_RULES {
      SmallIndex(|devs| + 1);
      SmallIndex(PortCount(c));
    }
  }

  lemma LargeCount(c: Cfg)
    requires ValidCfg(c) && !AllHaveFields(c)
    ensures DevCount(c) != MAX_RULES
  {
  }

  lemma LastUnitIsLast(c: Cfg, devs: seq<Dev>, p: nat)
    requires ValidCfg(c) && Complete(c, devs, 98) && p < |devs| && !HasField(devs[p])
    ensures !AllHaveFields(c) && p == |devs| - 1
  {
    hide DevCount;
    DevsInRange(c, devs, p);
    if p < |devs| - 1 {
      DevsInRange(c, devs, p + 1);
    }
  }

  /** The 64th device, if there is one, is not the unit without a field: that one comes last, and then there are
      not exactly 64. */
  lemma The64thHasAField(c: Cfg, devs: seq<Dev>)
    requires ValidCfg(c) && Complete(c, devs, 98) && |devs| == DevCount(c) >= MAX_RULES
    ensures HasField(devs[63])
  {
    hide DevCount;
    if !HasField(devs[63]) {
      LastUnitIsLast(c, devs, 63);
      LargeCount(c);
    }
  }

  /** The ports are distinct, and none is the error port, if and only if there are fewer than 64 devices. */
  lemma DistinctExactly(c: Cfg, o: RegOut, devs: seq<Dev>)
    requires ValidCfg(c) && IsRegOut(c, o, devs)
    ensures PortsDistinct(c, o) <==> DevCount(c) < MAX_RULES
  {
    if DevCount(c) < MAX_RULES {
      forall d, e | Enabled(c, d) && InRange(d) && Enabled(c, e) && InRange(e) && d in o.ports && e in o.ports
        ensures o.ports[d] != 0 && (d != e ==> o.ports[d] != o.ports[e])
      {
        RegPortsDistinct(c, o, devs, d, e);
      }
    } else {
      The64thHasAField(c, devs);
      DevsInRange(c, devs, 63);
      WrappedIndex(64);
      assert o.ports[devs[63]] == 0;
    }
  }

  /** The crossbar's ports are outputs, external ones if and only if their number is below the number of external
      outputs. */
  lemma CrossbarPortsExist(c: Cfg, o: AxiOut, d: Dst)
    requires ValidCfg(c) && IsAxiOut(c, o) && IsDst(c, d) && Mapped(c, d)
    ensures !d.ExtD? ==> PortOf(c, d) < o.ports.extBase <= o.numOut
    ensures d.ExtD? ==> (o.ports.extBase + c.axiExt[d.k].idx < o.numOut <==> c.axiExt[d.k].idx < c.axiExtNumSlv)
    ensures d.ExtD? && c.axiExt[d.k].idx < c.axiExtNumSlv ==> PortOf(c, d) == o.ports.extBase + c.axiExt[d.k].idx
  {
    if d.ExtD? && c.axiExt[d.k].idx < c.axiExtNumSlv {
      SmallIndex(o.ports.extBase + c.axiExt[d.k].idx);
    }
  }

  // ---- no two rules overlap ----

  /** Without an LLC output the scratchpad's rules lead to the register demultiplexer. */
  lemma ScratchpadNeedsLlc(c: Cfg)
    requires c.llcNotBypass
    ensures PortOf(c, SpmD) == PortOf(c, SpmUncachedD)
    ensures PortOf(c, SpmD) == PortOf(c, RegD) <==> !c.llcOutConnect
    ensures c.llcOutConnect ==> PortOf(c, SpmD) == PortOf(c, LlcD)
  {
  }

  lemma RegRulesDisjoint(c: Cfg, o: RegOut, devs: seq<Dev>, p: nat, q: nat)
    requires ValidCfg(c) && ValidRegions(c) && IsRegOut(c, o, devs)
    requires p < q < RuleCount(c) <= MAX_RULES
    ensures Disjoint(o.table[p].at, o.table[q].at)
  {
    hide DevCount, Enabled, LlcSize, RegionOf;
    var n := |devs|;
    if q < n {
      DevsInRange(c, devs, p);
      DevsInRange(c, devs, q);
      assert Rank(devs[p]) < Rank(devs[q]);
      DevsDisjoint(devs[p], devs[q]);
    } else {
      assert o.table[n + (q - n)] == RegExtRule(c, o.extBase, q - n);
      if p < n {
        DevsInRange(c, devs, p);
        DevInWindow(devs[p]);
        ExtOutsideWindow(c, q - n);
      } else {
        assert o.table[n + (p - n)] == RegExtRule(c, o.extBase, p - n);
        DstsDisjoint(c, ExtRegD(p - n), ExtRegD(q - n));
      }
    }
  }

  function DstRank(c: Cfg, d: Dst): nat
  {
    match d
    case DbgD => 0 case RegD => 1 case LlcD => 2 case SpmD => 3 case SpmUncachedD => 4 case DmaD => 5
    case SlinkD => 6 case ExtD(k) => 7 + k case ExtRegD(k) => 7 + |c.axiExt| + k
  }

  ghost predicate InOrder(c: Cfg, ds: seq<Dst>, lo: nat, hi: nat)
  {
    && (forall p :: 0 <= p < |ds| ==> lo <= DstRank(c, ds[p]) < hi)
    && (forall p, q :: 0 <= p < q < |ds| ==> DstRank(c, ds[p]) < DstRank(c, ds[q]))
  }

  lemma InOrderConcat(c: Cfg, s: seq<Dst>, t: seq<Dst>, lo: nat, mid: nat, hi: nat)
    requires InOrder(c, s, lo, mid) && InOrder(c, t, mid, hi) && lo <= mid <= hi
    ensures InOrder(c, s + t, lo, hi)
  {
  }

  lemma {:induction false} ExtInOrder(c: Cfg, n: nat)
    ensures n <= |c.axiExt| ==> InOrder(c, ExtDsts(n), 7, 7 + |c.axiExt|)
    ensures n <= |c.regExt| ==> InOrder(c, ExtRegDsts(n), 7 + |c.axiExt|, 7 + |c.axiExt| + |c.regExt|)
  {
    forall k | 0 <= k < n ensures ExtDsts(n)[k] == ExtD(k) && ExtRegDsts(n)[k] == ExtRegD(k) {
      ExtAt(n, k);
    }
  }

  lemma InOrderOne(c: Cfg, s: seq<Dst>, there: bool, d: Dst, n: nat)
    requires InOrder(c, s, 0, n) && DstRank(c, d) == n
    ensures InOrder(c, s + OneIf(there, d), 0, n + 1)
  {
    InOrderConcat(c, s, OneIf(there, d), 0, n, n + 1);
  }

  /** No destination has two rules: the ranks increase with the rules. */
  lemma DstsInOrder(c: Cfg)
    ensures InOrder(c, Dsts(c), 0, 7 + |c.axiExt| + |c.regExt|)
  {
    var s0 := [DbgD, RegD];
    var s1 := s0 + OneIf(c.llcOutConnect, LlcD);
    var s2 := s1 + OneIf(c.llcNotBypass, SpmD);
    var s3 := s2 + OneIf(c.llcNotBypass, SpmUncachedD);
    var s4 := s3 + OneIf(c.dma, DmaD);
    InOrderOne(c, s0, c.llcOutConnect, LlcD, 2);
    InOrderOne(c, s1, c.llcNotBypass, SpmD, 3);
    InOrderOne(c, s2, c.llcNotBypass, SpmUncachedD, 4);
    InOrderOne(c, s3, c.dma, DmaD, 5);
    InOrderOne(c, s4, c.serialLink, SlinkD, 6);
    ExtsInOrder(c, s4 + OneIf(c.serialLink, SlinkD));
  }

  lemma ExtsInOrder(c: Cfg, s: seq<Dst>)
    requires InOrder(c, s, 0, 7)
    ensures InOrder(c, s + ExtDsts(|c.axiExt|) + ExtRegDsts(|c.regExt|), 0, 7 + |c.axiExt| + |c.regExt|)
  {
    var n := 7 + |c.axiExt|;
    ExtInOrder(c, |c.axiExt|);
    ExtInOrder(c, |c.regExt|);
    InOrderConcat(c, s, ExtDsts(|c.axiExt|), 0, 7, n);
    InOrderConcat(c, s + ExtDsts(|c.axiExt|), ExtRegDsts(|c.regExt|), 0, n, n + |c.regExt|);
  }

  lemma AxiRulesDisjoint(c: Cfg, o: AxiOut, p: nat, q: nat)
    requires ValidRegions(c) && IsAxiOut(c, o) && p < q < o.numRules
    ensures Disjoint(o.table[p].at, o.table[q].at)
  {
    DstsInOrder(c);
    RuleIsMapped(c, p);
    RuleIsMapped(c, q);
    DstsDisjoint(c, Dsts(c)[p], Dsts(c)[q]);
  }
}
