/** The core controller (`controller`) and the commit stage (`commit_stage`): pipeline flushes, and the
    fence.t micro-reset with its drain, pad and reset counters. */
module FenceT {

  const PC_RANGE := 0x1_0000_0000_0000_0000
  const PAD_RANGE := 0x1_0000_0000

  datatype Config = Config(dcacheFlushOnFence: bool, writeBack: bool, rva: bool, rvs: bool, rvh: bool, debugEn: bool)

  // ---- commit stage ----

  datatype Fu = Csr | Store | Simple | OtherFu

  datatype Op = OpFenceT | OpFenceI | OpFence | OpSfenceVma | OpHfenceVvma | OpHfenceGvma | OpAmo | OpOther

  /** A commit port. `Simple` stands for the units whose instructions the second port may retire. */
  datatype Port = Port(valid: bool, exValid: bool, drop: bool, fu: Fu, op: Op, pc: nat)

  datatype CommitIn = CommitIn(
    p0: Port, p1: Port, flushDcache: bool, csrException: bool, lsuReady: bool,
    noStPending: bool, amoAck: bool, singleStep: bool)

  datatype FencesOut = FencesOut(t: bool, i: bool, data: bool, sfence: bool, hfenceV: bool, hfenceG: bool)

  datatype CommitOut = CommitOut(
    ack0: bool, ack1: bool, we0: bool, we1: bool, lsu: bool, csr: bool, amoValid: bool,
    fences: FencesOut, flushCommit: bool, exception: bool)

  /** The first port holds an instruction that may retire. */
  predicate Retirable(i: CommitIn, halt: bool)
  {
    i.p0.valid && !halt && !i.p0.exValid
  }

  predicate IsAmo(cfg: Config, i: CommitIn)
  {
    cfg.rva && i.p0.op == OpAmo
  }

  predicate FenceILike(cfg: Config, i: CommitIn)
  {
    !i.p0.drop && (i.p0.op == OpFenceI || (i.flushDcache && cfg.writeBack && i.p0.fu != Store))
  }

  /** Which condition decides the acknowledge of the first port; of several the last one in the source
      wins. */
  predicate Ack0(cfg: Config, i: CommitIn, halt: bool)
  {
    if i.p0.valid && !halt && i.p0.exValid then i.p0.drop
    else if !Retirable(i, halt) then false
    else if IsAmo(cfg, i) then i.amoAck
    else if !i.p0.drop && i.p0.op == OpFence then i.noStPending
    else if FenceILike(cfg, i) then i.noStPending
    else if !i.p0.drop && cfg.rvh && i.p0.op in {OpHfenceVvma, OpHfenceGvma} then i.noStPending
    else if !i.p0.drop && cfg.rvs && i.p0.op == OpSfenceVma then i.noStPending
    else if i.p0.op == OpFenceT then i.noStPending
    else if i.p0.fu == Csr then i.p0.drop || !i.csrException
    else i.p0.fu == Store ==> i.lsuReady
  }

  predicate Ack1(cfg: Config, i: CommitIn, halt: bool)
  {
    && Ack0(cfg, i, halt)
    && i.p1.valid && !i.p1.exValid && i.p1.fu == Simple
    && i.p0.fu != Csr && i.p0.op != OpFenceT && !IsAmo(cfg, i)
    && !i.flushDcache && !i.singleStep && !halt
  }

  function Fences(cfg: Config, i: CommitIn, halt: bool): FencesOut
  {
    var kept := Retirable(i, halt) && !i.p0.drop && i.noStPending;
    FencesOut(
      t := Retirable(i, halt) && i.p0.op == OpFenceT && i.noStPending,
      i := Retirable(i, halt) && FenceILike(cfg, i) && i.noStPending,
      data := kept && i.p0.op == OpFence,
      sfence := kept && cfg.rvs && i.p0.op == OpSfenceVma,
      hfenceV := kept && cfg.rvh && i.p0.op == OpHfenceVvma,
      hfenceG := kept && cfg.rvh && i.p0.op == OpHfenceGvma)
  }

  predicate Writes0(cfg: Config, i: CommitIn, halt: bool)
  {
    && Retirable(i, halt)
    && if IsAmo(cfg, i) then i.amoAck else !i.p0.drop && !(i.p0.fu == Csr && i.csrException)
  }

  predicate StoreRetires(cfg: Config, i: CommitIn, halt: bool)
  {
    Retirable(i, halt) && i.p0.fu == Store && !IsAmo(cfg, i) && i.lsuReady
  }

  predicate CsrRetires(i: CommitIn, halt: bool)
  {
    Retirable(i, halt) && !i.p0.drop && i.p0.fu == Csr && !i.csrException
  }

  predicate Raises(i: CommitIn, halt: bool)
  {
    i.p0.valid && !i.p0.drop && (i.csrException || i.p0.exValid) && !halt
  }

  function Commit(cfg: Config, i: CommitIn, halt: bool): CommitOut
  {
    CommitOut(
      Ack0(cfg, i, halt), Ack1(cfg, i, halt), Writes0(cfg, i, halt), Ack1(cfg, i, halt) && !i.p1.drop,
      StoreRetires(cfg, i, halt), CsrRetires(i, halt), Retirable(i, halt) && IsAmo(cfg, i),
      Fences(cfg, i, halt), Retirable(i, halt) && IsAmo(cfg, i) && i.amoAck, Raises(i, halt))
  }

  /** The acknowledge and the side effects of the first port: defaults first, then overrides from top to
      bottom. */
  method FirstPort(cfg: Config, i: CommitIn, halt: bool)
    returns (ack0: bool, we0: bool, lsu: bool, csr: bool, amoValid: bool, flushCommit: bool)
    ensures ack0 == Ack0(cfg, i, halt)
    ensures we0 == Writes0(cfg, i, halt)
    ensures lsu == StoreRetires(cfg, i, halt) && csr == CsrRetires(i, halt)
    ensures amoValid == (Retirable(i, halt) && IsAmo(cfg, i)) && flushCommit == (amoValid && i.amoAck)
  {
    ack0, we0, lsu, csr, amoValid, flushCommit := false, false, false, false, false, false;
    if i.p0.valid && !halt {
      if i.p0.exValid {
        if i.p0.drop { ack0 := true; }
      } else {
        ack0 := true;
        if !i.p0.drop { we0 := true; }
        if i.p0.fu == Store && !IsAmo(cfg, i) {
          if i.lsuReady { lsu := true; } else { ack0 := false; }
        }
        if i.p0.fu == Csr && !i.p0.drop {
          if !i.csrException { csr := true; } else { ack0, we0 := false, false; }
        }
        if i.p0.op == OpFenceT { ack0 := i.noStPending; }
        if cfg.rvs && i.p0.op == OpSfenceVma && !i.p0.drop { ack0 := i.noStPending; }
        if cfg.rvh && i.p0.op == OpHfenceVvma && !i.p0.drop { ack0 := i.noStPending; }
        if cfg.rvh && i.p0.op == OpHfenceGvma && !i.p0.drop { ack0 := i.noStPending; }
        if i.p0.op == OpFenceI || (i.flushDcache && cfg.writeBack && i.p0.fu != Store) {
          if !i.p0.drop { ack0 := i.noStPending; }
        }
        if i.p0.op == OpFence && !i.p0.drop { ack0 := i.noStPending; }
        if IsAmo(cfg, i) { ack0, flushCommit, amoValid, we0 := i.amoAck, i.amoAck, true, i.amoAck; }
      }
    }
  }

  /** The fence outputs of the first port. */
  method FirstPortFences(cfg: Config, i: CommitIn, halt: bool) returns (f: FencesOut)
    ensures f == Fences(cfg, i, halt)
  {
    var t, fi, data, sfence, hfenceV, hfenceG := false, false, false, false, false, false;
    if i.p0.valid && !halt && !i.p0.exValid {
      if i.p0.op == OpFenceT { t := i.noStPending; }
      if cfg.rvs && i.p0.op == OpSfenceVma && !i.p0.drop { sfence := i.noStPending; }
      if cfg.rvh && i.p0.op == OpHfenceVvma && !i.p0.drop { hfenceV := i.noStPending; }
      if cfg.rvh && i.p0.op == OpHfenceGvma && !i.p0.drop { hfenceG := i.noStPending; }
      if i.p0.op == OpFenceI || (i.flushDcache && cfg.writeBack && i.p0.fu != Store) {
        if !i.p0.drop { fi := i.noStPending; }
      }
      if i.p0.op == OpFence && !i.p0.drop { data := i.noStPending; }
    }
    f := FencesOut(t, fi, data, sfence, hfenceV, hfenceG);
  }

  /** The blocks `commit` and `exception_handling`. */
  method CommitStage(cfg: Config, i: CommitIn, halt: bool) returns (o: CommitOut)
    ensures o == Commit(cfg, i, halt)
  {
    var ack0, we0, lsu, csr, amoValid, flushCommit := FirstPort(cfg, i, halt);
    var fences := FirstPortFences(cfg, i, halt);
    var ack1, we1, exception := false, false, false;
    if && ack0 && i.p1.valid && !halt && i.p0.fu != Csr && i.p0.op != OpFenceT
       && !i.flushDcache && !IsAmo(cfg, i) && !i.singleStep {
      if !i.p1.exValid && i.p1.fu == Simple {
        ack1 := true;
        if !i.p1.drop { we1 := true; }
      }
    }
    if i.p0.valid && !i.p0.drop {
      if i.csrException { exception := true; }
      if i.p0.exValid { exception := true; }
    }
    if halt { exception := false; }
    o := CommitOut(ack0, ack1, we0, we1, lsu, csr, amoValid, fences, flushCommit, exception);
  }

  // ---- controller ----

  datatype Phase = Idle | FlushDcache | DrainReqs | Pad | RstUarch

  datatype Priv = U | S | M

  datatype Regs = Regs(
    phase: Phase, rstCnt: nat, drain: nat, pad: nat,
    fenceActive: bool, fenceIActive: bool, flushDcache: bool,
    rstAddr: nat, timeIrq: bool, priv: Priv, cacheInit: (bool, bool, bool))

  /** The inputs of core and SoC in one cycle; those that come from the commit stage are computed. */
  datatype In = In(
    commit: CommitIn,
    haltCsr: bool, haltAcc: bool, flushAck: bool, cacheBusy: bool,
    padValue: nat, srcSel: bool, timeIrq: bool, priv: Priv,
    mispredict: bool, v: bool, flushCsr: bool, flushAcc: bool, eret: bool, setDebugPc: bool)

  datatype Flush = Flush(
    setPc: bool, flushIf: bool, flushUnissued: bool, flushId: bool, flushEx: bool,
    dcache: bool, icache: bool, tlb: bool, tlbVvma: bool, tlbGvma: bool, bp: bool)

  function Reset(bootAddr: nat): Regs
  {
    Regs(Idle, 0, 0, 0, false, false, false, bootAddr, false, M, (false, false, false))
  }

  predicate Halt(cfg: Config, r: Regs, i: In)
  {
    i.haltCsr || i.haltAcc || (cfg.dcacheFlushOnFence && r.fenceActive) || r.phase != Idle
  }

  /** The commit stage under the controller's halt. The flush input is the controller's register. */
  function Committed(cfg: Config, r: Regs, i: In): CommitOut
  {
    Commit(cfg, i.commit.(flushDcache := r.flushDcache), Halt(cfg, r, i))
  }

  predicate LoadPad(r: Regs, i: In)
  {
    if i.srcSel then r.priv == U && i.priv != U else i.timeIrq && !r.timeIrq
  }

  /** What makes the controller redirect the pipeline to the commit PC. */
  predicate Redirect(cfg: Config, c: CommitOut, i: In)
  {
    || c.fences.data || c.fences.i
    || (cfg.rvs && c.fences.sfence) || (cfg.rvh && (c.fences.hfenceV || c.fences.hfenceG))
    || i.flushCsr || i.flushAcc || (cfg.rva && c.flushCommit)
  }

  predicate Trap(cfg: Config, c: CommitOut, i: In)
  {
    c.exception || i.eret || (cfg.debugEn && i.setDebugPc)
  }

  predicate DcacheFlush(cfg: Config, r: Regs, c: CommitOut, i: In)
  {
    c.fences.t || (cfg.dcacheFlushOnFence && (c.fences.data || c.fences.i || (r.fenceActive && !i.flushAck)))
  }

  function FlushOf(cfg: Config, r: Regs, c: CommitOut, i: In): Flush
  {
    var trap := Trap(cfg, c, i);
    var redirect := Redirect(cfg, c, i);
    Flush(
      setPc := redirect && !trap,
      flushIf := i.mispredict || redirect || trap,
      flushUnissued := i.mispredict || redirect || trap,
      flushId := redirect || trap,
      flushEx := redirect || trap,
      dcache := DcacheFlush(cfg, r, c, i),
      icache := c.fences.i || c.fences.t,
      tlb := cfg.rvs && c.fences.sfence && !(cfg.rvh && i.v),
      tlbVvma := (cfg.rvs && c.fences.sfence && cfg.rvh && i.v) || (cfg.rvh && c.fences.hfenceV),
      tlbGvma := cfg.rvh && c.fences.hfenceG,
      bp := trap)
  }

  /** A flush of the execute stage always flushes the unissued instructions too. */
  lemma FlushExImpliesUnissued(cfg: Config, r: Regs, c: CommitOut, i: In)
    ensures var f := FlushOf(cfg, r, c, i);
      && (f.flushEx ==> f.flushUnissued && f.flushIf && f.flushId)
      && (f.flushUnissued && !f.flushEx ==> i.mispredict)
  {
  }

  function FenceActiveNext(cfg: Config, r: Regs, c: CommitOut, i: In): bool
  {
    if c.fences.t then true
    else if cfg.dcacheFlushOnFence && r.fenceActive && i.flushAck then false
    else r.fenceActive || (cfg.dcacheFlushOnFence && (c.fences.data || c.fences.i))
  }

  function FenceIActiveNext(cfg: Config, r: Regs, c: CommitOut, i: In): bool
  {
    if cfg.dcacheFlushOnFence && r.fenceIActive && i.flushAck then false
    else r.fenceIActive || (cfg.dcacheFlushOnFence && c.fences.i)
  }

  function PhaseNext(r: Regs, c: CommitOut, i: In): Phase
  {
    match r.phase
    case Idle => if c.fences.t then FlushDcache else Idle
    case FlushDcache => if i.flushAck then DrainReqs else FlushDcache
    case DrainReqs => if r.drain == 15 then Pad else DrainReqs
    case Pad => if r.pad == 0 then RstUarch else Pad
    case RstUarch => if r.rstCnt == 15 then Idle else RstUarch
  }

  function RstCntNext(r: Regs): nat
  {
    if r.phase != RstUarch then r.rstCnt else if r.rstCnt == 15 then 0 else r.rstCnt + 1
  }

  function DrainNext(r: Regs, i: In): nat
  {
    if i.cacheBusy then 0 else if r.drain == 15 then 15 else r.drain + 1
  }

  function PadNext(r: Regs, i: In): nat
  {
    if LoadPad(r, i) then i.padValue else if r.pad == 0 then 0 else r.pad - 1
  }

  function RstAddrNext(r: Regs, c: CommitOut, i: In): nat
  {
    if c.fences.t then (i.commit.p0.pc + 4) % PC_RANGE else r.rstAddr
  }

  /** The reported time already spent of the padding interval, in the cycle that leaves the draining
      state; 32-bit subtraction. */
  function Ceil(r: Regs, i: In): nat
  {
    if r.phase == DrainReqs && r.drain == 15 && r.pad != 0 then (i.padValue - r.pad) % PAD_RANGE else 0
  }

  function StepOn(cfg: Config, r: Regs, c: CommitOut, i: In): Regs
  {
    Regs(PhaseNext(r, c, i), RstCntNext(r), DrainNext(r, i), PadNext(r, i),
         FenceActiveNext(cfg, r, c, i), FenceIActiveNext(cfg, r, c, i), DcacheFlush(cfg, r, c, i),
         RstAddrNext(r, c, i), i.timeIrq, i.priv, (r.phase == RstUarch, r.cacheInit.0, r.cacheInit.1))
  }

  function Step(cfg: Config, r: Regs, i: In): Regs
  {
    StepOn(cfg, r, Committed(cfg, r, i), i)
  }

  class Controller {
    const cfg: Config
    var r: Regs

    constructor (cfg: Config, bootAddr: nat)
      ensures this.cfg == cfg && r == Reset(bootAddr)
    {
      this.cfg := cfg;
      r := Reset(bootAddr);
    }

    /** The pipeline outputs of the block `flush_ctrl`: defaults first, then overrides from top to bottom. */
    method PipelineFlush(c: CommitOut, i: In)
      returns (setPc: bool, flushIf: bool, flushUnissued: bool, flushId: bool, flushEx: bool, bp: bool)
      ensures bp == Trap(cfg, c, i)
      ensures flushEx == flushId == (Redirect(cfg, c, i) || Trap(cfg, c, i))
      ensures flushIf == flushUnissued == (i.mispredict || flushEx)
      ensures setPc == (flushEx && !bp)
    {
      setPc, flushIf, flushUnissued, flushId, flushEx, bp := false, false, false, false, false, false;
      if i.mispredict { flushUnissued, flushIf := true, true; }
      if c.fences.data { setPc, flushIf, flushUnissued, flushId, flushEx := true, true, true, true, true; }
      if c.fences.i { setPc, flushIf, flushUnissued, flushId, flushEx := true, true, true, true, true; }
      if cfg.rvs && c.fences.sfence { setPc, flushIf, flushUnissued, flushId, flushEx := true, true, true, true, true; }
      if cfg.rvh && c.fences.hfenceV { setPc, flushIf, flushUnissued, flushId, flushEx := true, true, true, true, true; }
      if cfg.rvh && c.fences.hfenceG { setPc, flushIf, flushUnissued, flushId, flushEx := true, true, true, true, true; }
      if i.flushCsr || i.flushAcc {
        setPc, flushIf, flushUnissued, flushId, flushEx := true, true, true, true, true;
      } else if cfg.rva && c.flushCommit {
        setPc, flushIf, flushUnissued, flushId, flushEx := true, true, true, true, true;
      }
      if c.exception || i.eret || (cfg.debugEn && i.setDebugPc) {
        setPc, flushIf, flushUnissued, flushId, flushEx, bp := false, true, true, true, true, true;
      }
    }

    /** The cache outputs of the block `flush_ctrl` and the next values of its registers. */
    method CacheFlush(c: CommitOut, i: In)
      returns (dcache: bool, icache: bool, fenceActiveD: bool, fenceIActiveD: bool, rstAddrD: nat)
      ensures dcache == DcacheFlush(cfg, r, c, i)
      ensures icache == (c.fences.i || c.fences.t)
      ensures fenceActiveD == FenceActiveNext(cfg, r, c, i)
      ensures fenceIActiveD == FenceIActiveNext(cfg, r, c, i)
      ensures rstAddrD == RstAddrNext(r, c, i)
    {
      dcache, icache := false, false;
      fenceActiveD, fenceIActiveD, rstAddrD := r.fenceActive, r.fenceIActive, r.rstAddr;
      if c.fences.data {
        if cfg.dcacheFlushOnFence { dcache, fenceActiveD := true, true; }
      }
      if c.fences.i {
        icache := true;
        if cfg.dcacheFlushOnFence { dcache, fenceActiveD, fenceIActiveD := true, true, true; }
      }
      if cfg.dcacheFlushOnFence {
        if i.flushAck && r.fenceIActive { fenceIActiveD := false; }
        if i.flushAck && r.fenceActive { fenceActiveD := false; } else if r.fenceActive { dcache := true; }
      }
      if c.fences.t {
        icache, dcache, fenceActiveD := true, true, true;
        rstAddrD := (i.commit.p0.pc + 4) % PC_RANGE;
      }
    }

    /** The block `fence_t_fsm` and its two outputs. */
    method FenceTFsm(c: CommitOut, i: In)
      returns (phaseD: Phase, rstCntD: nat, rstUarch: bool, ceil: nat)
      ensures phaseD == PhaseNext(r, c, i)
      ensures rstCntD == RstCntNext(r)
      ensures rstUarch == (r.phase == RstUarch)
      ensures ceil == Ceil(r, i)
    {
      phaseD, rstCntD, rstUarch, ceil := r.phase, r.rstCnt, false, 0;
      match r.phase {
        case Idle =>
          if c.fences.t { phaseD := FlushDcache; }
        case FlushDcache =>
          if i.flushAck { phaseD := DrainReqs; }
        case DrainReqs =>
          if r.drain == 15 {
            phaseD := Pad;
            ceil := if r.pad == 0 then 0 else (i.padValue - r.pad) % PAD_RANGE;
          }
        case Pad =>
          if r.pad == 0 { phaseD := RstUarch; }
        case RstUarch =>
          rstUarch := true;
          if r.rstCnt == 15 {
            rstCntD, phaseD := 0, Idle;
          } else {
            rstCntD := r.rstCnt + 1;
          }
      }
    }

    /** The block `flush_ctrl`. */
    method FlushCtrl(c: CommitOut, i: In)
      returns (f: Flush, fenceActiveD: bool, fenceIActiveD: bool, rstAddrD: nat)
      ensures f == FlushOf(cfg, r, c, i)
      ensures fenceActiveD == FenceActiveNext(cfg, r, c, i)
      ensures fenceIActiveD == FenceIActiveNext(cfg, r, c, i)
      ensures rstAddrD == RstAddrNext(r, c, i)
    {
      var setPc, flushIf, flushUnissued, flushId, flushEx, bp := PipelineFlush(c, i);
      var dcache, icache;
      dcache, icache, fenceActiveD, fenceIActiveD, rstAddrD := CacheFlush(c, i);
      var tlb := cfg.rvs && c.fences.sfence && !(cfg.rvh && i.v);
      var tlbVvma := (cfg.rvs && c.fences.sfence && cfg.rvh && i.v) || (cfg.rvh && c.fences.hfenceV);
      f := Flush(setPc, flushIf, flushUnissued, flushId, flushEx, dcache, icache,
                 tlb, tlbVvma, cfg.rvh && c.fences.hfenceG, bp);
    }

    /** The drain counter (clear before count) and the pad counter (load before count). */
    method Counters(i: In) returns (drainD: nat, padD: nat)
      ensures drainD == DrainNext(r, i) && padD == PadNext(r, i)
    {
      drainD, padD := r.drain, r.pad;
      if i.cacheBusy { drainD := 0; } else if r.drain != 15 { drainD := r.drain + 1; }
      if LoadPad(r, i) { padD := i.padValue; } else if r.pad != 0 { padD := r.pad - 1; }
    }

    /** One clock cycle of controller and commit stage. */
    method Tick(i: In) returns (c: CommitOut, f: Flush, rstUarch: bool, ceil: nat)
      modifies this
      ensures c == Committed(cfg, old(r), i)
      ensures f == FlushOf(cfg, old(r), c, i)
      ensures r == StepOn(cfg, old(r), c, i)
      ensures rstUarch == (old(r).phase == RstUarch)
      ensures ceil == Ceil(old(r), i)
    {
      var halt := i.haltCsr || i.haltAcc || (cfg.dcacheFlushOnFence && r.fenceActive) || r.phase != Idle;
      c := CommitStage(cfg, i.commit.(flushDcache := r.flushDcache), halt);
      f, rstUarch, ceil := TickOn(c, i, StepOn(cfg, r, c, i));
    }

    /** The registers of the controller, given what the commit stage does in this cycle. */
    method TickOn(c: CommitOut, i: In, ghost want: Regs) returns (f: Flush, rstUarch: bool, ceil: nat)
      requires want == StepOn(cfg, r, c, i)
      modifies this
      ensures r == want
      ensures f == FlushOf(cfg, old(r), c, i)
      ensures rstUarch == (old(r).phase == RstUarch)
      ensures ceil == Ceil(old(r), i)
    {
      var fenceActiveD, fenceIActiveD, rstAddrD;
      f, fenceActiveD, fenceIActiveD, rstAddrD := FlushCtrl(c, i);
      var phaseD, rstCntD;
      phaseD, rstCntD, rstUarch, ceil := FenceTFsm(c, i);
      var drainD, padD := Counters(i);
      r := Regs(phaseD, rstCntD, drainD, padD, fenceActiveD, fenceIActiveD, f.dcache, rstAddrD,
                i.timeIrq, i.priv, (rstUarch, r.cacheInit.0, r.cacheInit.1));
    }
  }
}
