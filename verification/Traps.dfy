/** The privilege stack of the CSR file (`csr_regfile`), hypervisor and CLIC off: CSR writes, trap entry, debug
    entry and returns, in the order in which the source overrides its next values. */
module Traps {

  /** Supervisor and user mode, and debug mode, are present. */
  datatype Params = Params(rvs: bool, rvu: bool, debugEn: bool)

  predicate ValidParams(c: Params) { c.rvs ==> c.rvu }

  datatype Priv = U | S | HS | M

  function Rank(p: Priv): nat { match p case U => 0 case S => 1 case HS => 2 case M => 3 }

  /** A level the configuration has. */
  predicate LegalPriv(c: Params, p: Priv)
  {
    p == M || (p == S && c.rvs) || (p == U && c.rvu)
  }

  /** The machine, supervisor and debug parts: interrupt enable, its saved value, the saved level and the
      saved PC. */
  datatype Machine = Machine(ie: bool, pie: bool, pp: Priv, epc: nat)

  datatype Supervisor = Supervisor(ie: bool, pie: bool, pp: bool, epc: nat)

  datatype Debug = Debug(on: bool, prv: Priv, pc: nat)

  datatype Regs = Regs(priv: Priv, m: Machine, s: Supervisor, d: Debug)

  const RESET := Regs(M, Machine(false, false, U, 0), Supervisor(false, false, false, 0), Debug(false, M, 0))

  datatype Write =
    | NoWrite
    | Mstatus(mie: bool, mpie: bool, mpp: Priv, sie: bool, spie: bool, spp: bool)
    | Sstatus(sie: bool, spie: bool, spp: bool)
    | Mepc(v: nat) | Sepc(v: nat) | Dcsr(prv: Priv) | Dpc(v: nat)

  datatype Cause = DebugRequest | Breakpoint | OtherCause

  /** An exception or interrupt; `deleg` is what the delegation registers say about its cause. */
  datatype Event = NoEvent | Event(cause: Cause, deleg: bool, pc: nat)

  /** One cycle: a write, an event, the returns, and whether a breakpoint or a single step enters debug mode. */
  datatype In = In(
    w: Write, ex: Event, mret: bool, sret: bool, dret: bool, ebreakEnters: bool, steps: bool, stepPc: nat)

  // ---- the overrides, in order ----

  /** The level in force: debug mode acts as machine mode. */
  function PrivNow(c: Params, q: Regs): Priv { if c.debugEn && q.d.on then M else q.priv }

  function Even(v: nat): nat { v - v % 2 }

  predicate MppKept(c: Params, mpp: Priv)
  {
    mpp == HS || (!c.rvs && mpp == S) || (!c.rvu && mpp == U)
  }

  function WrittenM(c: Params, m: Machine, w: Write): Machine
  {
    var d :=
      match w
      case Mstatus(mie, mpie, mpp, _, _, _) => Machine(mie, mpie, if MppKept(c, mpp) then m.pp else mpp, m.epc)
      case Mepc(v) => m.(epc := Even(v))
      case _ => m;
    if c.rvu then d else d.(pp := M)
  }

  function WrittenS(c: Params, s: Supervisor, w: Write): Supervisor
  {
    match w
    case Mstatus(_, _, _, sie, spie, spp) => Supervisor(c.rvs && sie, c.rvs && spie, c.rvs && spp, s.epc)
    case Sstatus(sie, spie, spp) => if c.rvs then Supervisor(sie, spie, spp, s.epc) else s
    case Sepc(v) => if c.rvs then s.(epc := Even(v)) else s
    case _ => s
  }

  function WrittenD(c: Params, d: Debug, w: Write): Debug
  {
    match w
    case Dcsr(prv) => if c.debugEn then d.(prv := prv) else d
    case Dpc(v) => if c.debugEn then d.(pc := v) else d
    case _ => d
  }

  predicate TrapTaken(c: Params, q: Regs, ex: Event)
  {
    ex.Event? && (c.debugEn ==> !q.d.on && ex.cause != DebugRequest)
  }

  /** Delegated traps go to supervisor mode, unless the hart is in machine mode. */
  predicate ToSupervisor(c: Params, q: Regs, ex: Event)
  {
    TrapTaken(c, q, ex) && c.rvs && ex.deleg && PrivNow(c, q) != M
  }

  predicate ToMachine(c: Params, q: Regs, ex: Event)
  {
    TrapTaken(c, q, ex) && !ToSupervisor(c, q, ex)
  }

  function DebugNext(c: Params, q: Regs, i: In): Debug
  {
    var d := WrittenD(c, q.d, i.w);
    if !c.debugEn then d
    else if q.d.on then if i.dret then d.(on := false) else d
    else
      Debug(
        !i.dret && (i.steps || (i.ex.Event? && (i.ex.cause == DebugRequest || (i.ex.cause == Breakpoint && i.ebreakEnters)))),
        PrivNow(c, q),
        if i.steps then i.stepPc else if i.ex.Event? && i.ex.cause != OtherCause then i.ex.pc else d.pc)
  }

  function MachineNext(c: Params, q: Regs, i: In): Machine
  {
    var m := WrittenM(c, q.m, i.w);
    var t := if ToMachine(c, q, i.ex) then Machine(false, q.m.ie, q.priv, i.ex.pc) else m;
    if i.mret then Machine(q.m.pie, true, if c.rvu then U else M, t.epc) else t
  }

  function SupervisorNext(c: Params, q: Regs, i: In): Supervisor
  {
    var s := WrittenS(c, q.s, i.w);
    var t := if ToSupervisor(c, q, i.ex) then Supervisor(false, q.s.ie, q.priv == S || q.priv == M, i.ex.pc) else s;
    if c.rvs && i.sret then Supervisor(q.s.pie, true, false, t.epc) else t
  }

  function PrivNext(c: Params, q: Regs, i: In): Priv
  {
    if c.debugEn && i.dret then q.d.prv
    else if c.rvs && i.sret then if q.s.pp then S else U
    else if i.mret then q.m.pp
    else if ToSupervisor(c, q, i.ex) then S
    else if ToMachine(c, q, i.ex) then M
    else q.priv
  }

  function Step(c: Params, q: Regs, i: In): Regs
  {
    Regs(PrivNext(c, q, i), MachineNext(c, q, i), SupervisorNext(c, q, i), DebugNext(c, q, i))
  }

  /** The address a return continues at. */
  function ReturnPc(c: Params, q: Regs, i: In): nat
  {
    if c.debugEn && i.dret then q.d.pc else if c.rvs && i.sret then q.s.epc else q.m.epc
  }

  class CsrFile {
    const c: Params
    var q: Regs

    constructor (c: Params)
      ensures this.c == c && q == RESET
    {
      this.c, q := c, RESET;
    }

    /** The CSR write. */
    method WriteCsr(w: Write) returns (m: Machine, s: Supervisor, d: Debug)
      ensures m == WrittenM(c, q.m, w) && s == WrittenS(c, q.s, w) && d == WrittenD(c, q.d, w)
    {
      m, s, d := q.m, q.s, q.d;
      match w {
        case NoWrite =>
        case Mstatus(mie, mpie, mpp, sie, spie, spp) =>
          m, s := Machine(mie, mpie, mpp, m.epc), Supervisor(sie, spie, spp, s.epc);
          if !c.rvs {
            s := Supervisor(false, false, false, s.epc);
          }
          if mpp == HS || (!c.rvs && mpp == S) || (!c.rvu && mpp == U) {
            m := m.(pp := q.m.pp);
          }
        case Sstatus(sie, spie, spp) =>
          if c.rvs {
            s := Supervisor(sie, spie, spp, s.epc);
          }
        case Mepc(v) => m := m.(epc := Even(v));
        case Sepc(v) => if c.rvs { s := s.(epc := Even(v)); }
        case Dcsr(prv) => if c.debugEn { d := d.(prv := prv); }
        case Dpc(v) => if c.debugEn { d := d.(pc := v); }
      }
      if !c.rvu {
        m := m.(pp := M);
      }
    }

    /** The trap entry, which overrides the write. */
    method EnterTrap(ex: Event, m0: Machine, s0: Supervisor) returns (priv: Priv, m: Machine, s: Supervisor)
      ensures m == if ToMachine(c, q, ex) then Machine(false, q.m.ie, q.priv, ex.pc) else m0
      ensures s == if ToSupervisor(c, q, ex) then Supervisor(false, q.s.ie, q.priv == S || q.priv == M, ex.pc) else s0
      ensures priv == if ToSupervisor(c, q, ex) then S else if ToMachine(c, q, ex) then M else q.priv
    {
      priv, m, s := q.priv, m0, s0;
      if ex.Event? && ((c.debugEn && !q.d.on && ex.cause != DebugRequest) || !c.debugEn) {
        var to := M;
        if c.rvs {
          if ex.deleg {
            to := if PrivNow(c, q) == M then M else S;
          }
        }
        if c.rvs && to == S {
          s := Supervisor(false, q.s.ie, q.priv == S || q.priv == M, ex.pc);
        } else {
          m := Machine(false, q.m.ie, q.priv, ex.pc);
        }
        priv := to;
      }
    }

    /** The debug entry and the return from debug mode. */
    method DebugMode(i: In, d0: Debug) returns (d: Debug)
      requires d0 == WrittenD(c, q.d, i.w)
      ensures d == DebugNext(c, q, i)
    {
      d := d0;
      if c.debugEn && !q.d.on {
        d := d.(prv := PrivNow(c, q));
        if i.ex.Event? && i.ex.cause == Breakpoint {
          d := d.(on := i.ebreakEnters, pc := i.ex.pc);
        }
        if i.ex.Event? && i.ex.cause == DebugRequest {
          d := d.(on := true, pc := i.ex.pc);
        }
        if i.steps {
          d := d.(on := true, pc := i.stepPc);
        }
      }
      if c.debugEn && i.dret {
        d := d.(on := false);
      }
    }

    /** The returns, which override everything. */
    method Return(i: In, priv0: Priv, m0: Machine, s0: Supervisor) returns (priv: Priv, m: Machine, s: Supervisor)
      ensures m == if i.mret then Machine(q.m.pie, true, if c.rvu then U else M, m0.epc) else m0
      ensures s == if c.rvs && i.sret then Supervisor(q.s.pie, true, false, s0.epc) else s0
      ensures priv == if c.debugEn && i.dret then q.d.prv else if c.rvs && i.sret then (if q.s.pp then S else U)
                      else if i.mret then q.m.pp else priv0
    {
      priv, m, s := priv0, m0, s0;
      if i.mret {
        m, priv := Machine(q.m.pie, true, M, m.epc), q.m.pp;
        if c.rvu {
          m := m.(pp := U);
        }
      }
      if c.rvs && i.sret {
        s, priv := Supervisor(q.s.pie, true, false, s.epc), if q.s.pp then S else U;
      }
      if c.debugEn && i.dret {
        priv := q.d.prv;
      }
    }

    /** One clock cycle. */
    method Tick(i: In) returns (epc: nat)
      modifies this
      ensures q == Step(c, old(q), i)
      ensures epc == ReturnPc(c, old(q), i)
    {
      epc := if c.debugEn && i.dret then q.d.pc else if c.rvs && i.sret then q.s.epc else q.m.epc;
      var m, s, d := WriteCsr(i.w);
      var priv;
      priv, m, s := EnterTrap(i.ex, m, s);
      d := DebugMode(i, d);
      priv, m, s := Return(i, priv, m, s);
      q := Regs(priv, m, s, d);
    }
  }
}
