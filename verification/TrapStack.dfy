/** What the privilege stack keeps: legal levels in every cycle, no trap to a lower level, and every context
    restored by well-nested handlers. */
module TrapStack {
  import opened Traps

  // ---- legal levels ----

  /** The levels in the registers exist in the configuration; without supervisor mode its fields are zero. */
  predicate LegalRegs(c: Params, q: Regs)
  {
    && LegalPriv(c, q.priv) && LegalPriv(c, q.m.pp) && LegalPriv(c, q.d.prv)
    && (!c.rvs ==> !q.s.ie && !q.s.pie && !q.s.pp)
  }

  /** No write leaves a level in `dcsr.prv` that the hart does not have; outside debug mode no write does. */
  predicate LegalDebugger(c: Params, q: Regs, i: In)
  {
    !(c.debugEn && q.d.on && i.w.Dcsr? && !LegalPriv(c, i.w.prv))
  }

  /** Legal but for `mpp` without user mode, which every cycle sets anew. */
  predicate NearlyLegal(c: Params, q: Regs)
  {
    && LegalPriv(c, q.priv) && LegalPriv(c, q.d.prv) && (c.rvu ==> LegalPriv(c, q.m.pp))
    && (!c.rvs ==> !q.s.ie && !q.s.pie && !q.s.pp)
  }

  /** One cycle with any combination of write, event and returns keeps the levels legal. */
  lemma LegalStep(c: Params, q: Regs, i: In)
    requires ValidParams(c) && LegalDebugger(c, q, i)
    requires NearlyLegal(c, q) && (i.mret ==> LegalPriv(c, q.m.pp))
    ensures LegalRegs(c, Step(c, q, i))
  {
    assert LegalPriv(c, PrivNext(c, q, i));
    assert LegalPriv(c, MachineNext(c, q, i).pp);
    assert LegalPriv(c, DebugNext(c, q, i).prv);
  }

  ghost predicate IsRun(c: Params, ins: seq<In>, qs: seq<Regs>)
  {
    && ValidParams(c) && |qs| == |ins| + 1
    && (forall t :: 0 <= t < |ins| ==> qs[t + 1] == Step(c, qs[t], ins[t]))
    && (forall t :: 0 <= t < |ins| ==> LegalDebugger(c, qs[t], ins[t]))
  }

  lemma {:induction false} AlwaysLegal(c: Params, ins: seq<In>, qs: seq<Regs>, t: nat)
    requires IsRun(c, ins, qs) && t <= |ins| && LegalRegs(c, qs[0])
    ensures LegalRegs(c, qs[t])
  {
    if t > 0 {
      AlwaysLegal(c, ins, qs, t - 1);
      LegalStep(c, qs[t - 1], ins[t - 1]);
    }
  }

  /** The reset value is legal exactly where user mode exists; elsewhere one cycle without `mret` makes it
      so. */
  lemma ResetIsLegal(c: Params, i: In)
    requires ValidParams(c) && LegalDebugger(c, RESET, i)
    ensures LegalRegs(c, RESET) <==> c.rvu
    ensures !i.mret ==> LegalRegs(c, Step(c, RESET, i))
  {
    if !i.mret {
      LegalStep(c, RESET, i);
    }
  }

  /** The only way to lose a legal level: `dcsr.prv` takes any value, and the debugger writes one that the hart
      does not have. Nothing else in a cycle, in any combination, does it. */
  lemma LegalExactly(c: Params, q: Regs, i: In)
    requires ValidParams(c) && LegalRegs(c, q)
    ensures LegalRegs(c, Step(c, q, i)) <==> !(c.debugEn && q.d.on && i.w.Dcsr? && !LegalPriv(c, i.w.prv))
  {
    if LegalDebugger(c, q, i) {
      LegalStep(c, q, i);
    }
  }

  /** A trap never lowers the privilege level. */
  lemma TrapsNeverLower(c: Params, q: Regs, i: In)
    requires ValidParams(c) && LegalRegs(c, q)
    requires TrapTaken(c, q, i.ex) && !i.mret && !i.sret && !i.dret
    ensures Rank(Step(c, q, i).priv) >= Rank(q.priv)
    ensures Step(c, q, i).priv in {S, M}
  {
  }

  // ---- single events ----

  const IDLE := In(NoWrite, NoEvent, false, false, false, false, false, 0)

  function Writes(w: Write): In { IDLE.(w := w) }

  function TrapAt(deleg: bool, pc: nat): In { IDLE.(ex := Event(OtherCause, deleg, pc)) }

  /** The return from the given level. */
  function Returns(p: Priv): In { if p == M then IDLE.(mret := true) else IDLE.(sret := true) }

  /** Outside debug mode, with legal levels. */
  predicate Running(c: Params, q: Regs)
  {
    ValidParams(c) && LegalRegs(c, q) && !q.d.on
  }

  /** Where a trap goes, whatever else happens in the cycle but a return: to supervisor mode if it is delegated
      and comes from below machine mode. */
  lemma TrapTarget(c: Params, q: Regs, i: In)
    requires Running(c, q) && i.ex.Event? && (c.debugEn ==> i.ex.cause != DebugRequest)
    requires !i.mret && !i.sret && !i.dret
    ensures var q' := Step(c, q, i);
      if c.rvs && i.ex.deleg && q.priv in {U, S} then
        && q'.priv == S && !q'.s.ie && q'.s.pie == q.s.ie && q'.s.pp == (q.priv == S) && q'.s.epc == i.ex.pc
      else
        && q'.priv == M && !q'.m.ie && q'.m.pie == q.m.ie && q'.m.pp == q.priv && q'.m.epc == i.ex.pc
  {
  }

  /** The level is the least one that the configuration has. */
  ghost predicate LeastLevel(c: Params, p: Priv)
  {
    LegalPriv(c, p) && forall o :: LegalPriv(c, o) ==> Rank(p) <= Rank(o)
  }

  /** A return restores level and enable, sets xPIE, and leaves the least level in xPP (section 3.1.6.1 of the
      RISC-V Privileged Architecture); nothing else changes. */
  lemma ReturnLeaves(c: Params, q: Regs, p: Priv)
    requires Running(c, q) && p in {S, M} && (p == S ==> c.rvs)
    ensures var q' := Step(c, q, Returns(p));
      if p == M then
        && q'.priv == q.m.pp && q'.m.ie == q.m.pie && q'.m.pie && LeastLevel(c, q'.m.pp) && q'.m.epc == q.m.epc
        && q'.s == q.s && ReturnPc(c, q, Returns(p)) == q.m.epc
      else
        && q'.priv == (if q.s.pp then S else U) && q'.s.ie == q.s.pie && q'.s.pie && !q'.s.pp && q'.s.epc == q.s.epc
        && q'.m == q.m && ReturnPc(c, q, Returns(p)) == q.s.epc
  {
    if p == M {
      var pp := Step(c, q, Returns(p)).m.pp;
      forall o | LegalPriv(c, o) ensures Rank(pp) <= Rank(o) {
      }
    }
  }

  /** What a write leaves in the registers: the values written, but for levels the hart does not have, the lowest
      bit of a PC, and supervisor fields of a hart without supervisor mode. */
  lemma WritesReadBack(c: Params, q: Regs, w: Write)
    requires Running(c, q)
    ensures var q' := Step(c, q, Writes(w));
      match w
      case NoWrite => q'.m == q.m && q'.s == q.s
      case Mstatus(mie, mpie, mpp, sie, spie, spp) =>
        && q'.m == Machine(mie, mpie, if LegalPriv(c, mpp) then mpp else q.m.pp, q.m.epc)
        && q'.s == if c.rvs then Supervisor(sie, spie, spp, q.s.epc) else q.s
      case Sstatus(sie, spie, spp) => q'.m == q.m && q'.s == if c.rvs then Supervisor(sie, spie, spp, q.s.epc) else q.s
      case Mepc(v) => q'.m == q.m.(epc := if v % 2 == 0 then v else v - 1) && q'.s == q.s
      case Sepc(v) => q'.m == q.m && (c.rvs ==> q'.s == q.s.(epc := if v % 2 == 0 then v else v - 1))
      case Dcsr(_) => q'.m == q.m && q'.s == q.s
      case Dpc(v) => q'.m == q.m && q'.s == q.s && (c.debugEn ==> q'.d.pc == v)
    ensures Step(c, q, Writes(w)).priv == q.priv
  {
  }

  // ---- handlers ----

  /** The hart: its registers and its program counter. */
  datatype Hart = Hart(q: Regs, pc: nat)

  /** What runs: instructions that change no status, a change of the own interrupt enable, any values written to
      all the saved fields of the own level, or a trap with its whole handler. */
  datatype Item =
    | Compute(pc: nat)
    | SetIe(ie: bool)
    | WriteOwn(ie: bool, pie: bool, pp: Priv, epc: nat)
    | Handler(deleg: bool, vector: nat, body: seq<Item>)

  predicate EvenItem(item: Item)
    decreases item
  {
    match item
    case Compute(pc) => pc % 2 == 0
    case SetIe(_) => true
    case WriteOwn(_, _, _, _) => true
    case Handler(_, vector, body) => vector % 2 == 0 && EvenItems(body)
  }

  predicate EvenItems(items: seq<Item>)
    decreases items
  {
    items == [] || (EvenItem(items[0]) && EvenItems(items[1..]))
  }

  /** Sets the interrupt enable of the current level. */
  function SetOwnIe(c: Params, q: Regs, ie: bool): Regs
  {
    match q.priv
    case M => Step(c, q, Writes(Mstatus(ie, q.m.pie, q.m.pp, q.s.ie, q.s.pie, q.s.pp)))
    case S => Step(c, q, Writes(Sstatus(ie, q.s.pie, q.s.pp)))
    case _ => q
  }

  /** Writes the interrupt enable and the saved context of the current level: in supervisor mode the saved level
      is one bit. */
  function SetOwn(c: Params, q: Regs, ie: bool, pie: bool, pp: Priv, epc: nat): Regs
  {
    match q.priv
    case M =>
      var q1 := Step(c, q, Writes(Mepc(epc)));
      Step(c, q1, Writes(Mstatus(ie, pie, pp, q1.s.ie, q1.s.pie, q1.s.pp)))
    case S => Step(c, Step(c, q, Writes(Sepc(epc))), Writes(Sstatus(ie, pie, pp != U)))
    case _ => q
  }

  /** The handler writes back what it saved on entry, and returns. */
  function Leave(c: Params, saved: Regs, q: Regs): Hart
  {
    if saved.priv == M then
      var q1 := Step(c, q, Writes(Mepc(saved.m.epc)));
      var q2 := Step(c, q1, Writes(Mstatus(q1.m.ie, saved.m.pie, saved.m.pp, q1.s.ie, q1.s.pie, q1.s.pp)));
      Hart(Step(c, q2, Returns(M)), ReturnPc(c, q2, Returns(M)))
    else
      var q1 := Step(c, q, Writes(Sepc(saved.s.epc)));
      var q2 := Step(c, q1, Writes(Sstatus(q1.s.ie, saved.s.pie, saved.s.pp)));
      Hart(Step(c, q2, Returns(S)), ReturnPc(c, q2, Returns(S)))
  }

  function Run(c: Params, h: Hart, item: Item): Hart
    decreases item
  {
    match item
    case Compute(pc) => h.(pc := pc)
    case SetIe(ie) => h.(q := SetOwnIe(c, h.q, ie))
    case WriteOwn(ie, pie, pp, epc) => h.(q := SetOwn(c, h.q, ie, pie, pp, epc))
    case Handler(deleg, vector, body) =>
      var entered := Step(c, h.q, TrapAt(deleg, h.pc));
      Leave(c, entered, RunAll(c, Hart(entered, vector), body).q)
  }

  function RunAll(c: Params, h: Hart, items: seq<Item>): Hart
    decreases items
  {
    if items == [] then h else RunAll(c, Run(c, h, items[0]), items[1..])
  }

  /** What no item changes: the level, the interrupt enables of higher levels, and in machine mode the whole
      supervisor context. */
  predicate Keeps(c: Params, h: Hart, h': Hart)
  {
    && Running(c, h'.q) && h'.pc % 2 == 0 && h'.q.priv == h.q.priv
    && (h.q.priv != M ==> h'.q.m.ie == h.q.m.ie)
    && (h.q.priv == U ==> h'.q.s.ie == h.q.s.ie)
    && (h.q.priv == M ==> h'.q.s == h.q.s)
  }

  /** What a handler restores exactly. */
  predicate SameContext(h: Hart, h': Hart)
  {
    h'.q.priv == h.q.priv && h'.q.m.ie == h.q.m.ie && h'.q.s.ie == h.q.s.ie && h'.pc == h.pc
  }

  /** The saved context a trap leaves in its target level. */
  predicate Saves(h: Hart, e: Regs)
  {
    if e.priv == M then e.m.pie == h.q.m.ie && e.m.pp == h.q.priv && e.m.epc == h.pc && e.s == h.q.s
    else
      && e.priv == S && h.q.priv in {U, S}
      && e.s.pie == h.q.s.ie && e.s.pp == (h.q.priv == S) && e.s.epc == h.pc && e.m.ie == h.q.m.ie
  }

  lemma Enters(c: Params, h: Hart, deleg: bool)
    requires Running(c, h.q)
    ensures Running(c, Step(c, h.q, TrapAt(deleg, h.pc))) && Saves(h, Step(c, h.q, TrapAt(deleg, h.pc)))
  {
    LegalStep(c, h.q, TrapAt(deleg, h.pc));
  }

  /** Restoring the saved context and returning, after any body that kept the level and the rest of what the
      handler may not change. */
  lemma Leaves(c: Params, h: Hart, saved: Regs, q: Regs)
    requires Running(c, h.q) && Running(c, saved) && Running(c, q) && h.pc % 2 == 0
    requires Saves(h, saved) && q.priv == saved.priv
    requires if q.priv == M then q.s == h.q.s else q.m.ie == h.q.m.ie
    ensures SameContext(h, Leave(c, saved, q)) && Keeps(c, h, Leave(c, saved, q))
  {
    if saved.priv == M {
      LeavesMachine(c, h, saved, q);
    } else {
      LeavesSupervisor(c, h, saved, q);
    }
  }

  lemma LeavesMachine(c: Params, h: Hart, saved: Regs, q: Regs)
    requires Running(c, h.q) && Running(c, saved) && Running(c, q) && h.pc % 2 == 0
    requires Saves(h, saved) && q.priv == saved.priv == M && q.s == h.q.s
    ensures SameContext(h, Leave(c, saved, q)) && Keeps(c, h, Leave(c, saved, q))
  {
    var i1 := Writes(Mepc(saved.m.epc));
    var q1 := Step(c, q, i1);
    LegalStep(c, q, i1);
    var i2 := Writes(Mstatus(q1.m.ie, saved.m.pie, saved.m.pp, q1.s.ie, q1.s.pie, q1.s.pp));
    var q2 := Step(c, q1, i2);
    LegalStep(c, q1, i2);
    assert q2.m.pie == h.q.m.ie && q2.m.pp == h.q.priv && q2.m.epc == h.pc && q2.s == h.q.s;
    LegalStep(c, q2, Returns(M));
  }

  lemma LeavesSupervisor(c: Params, h: Hart, saved: Regs, q: Regs)
    requires Running(c, h.q) && Running(c, saved) && Running(c, q) && h.pc % 2 == 0
    requires Saves(h, saved) && q.priv == saved.priv != M && q.m.ie == h.q.m.ie
    ensures SameContext(h, Leave(c, saved, q)) && Keeps(c, h, Leave(c, saved, q))
  {
    var i1 := Writes(Sepc(saved.s.epc));
    var q1 := Step(c, q, i1);
    LegalStep(c, q, i1);
    var i2 := Writes(Sstatus(q1.s.ie, saved.s.pie, saved.s.pp));
    var q2 := Step(c, q1, i2);
    LegalStep(c, q1, i2);
    assert q2.s.pie == h.q.s.ie && q2.s.pp == (h.q.priv == S) && q2.s.epc == h.pc && q2.m.ie == h.q.m.ie;
    LegalStep(c, q2, Returns(S));
  }

  lemma SetsOwn(c: Params, h: Hart, ie: bool)
    requires Running(c, h.q) && h.pc % 2 == 0
    ensures Keeps(c, h, h.(q := SetOwnIe(c, h.q, ie)))
  {
    LegalStep(c, h.q, Writes(Mstatus(ie, h.q.m.pie, h.q.m.pp, h.q.s.ie, h.q.s.pie, h.q.s.pp)));
    LegalStep(c, h.q, Writes(Sstatus(ie, h.q.s.pie, h.q.s.pp)));
  }

  lemma WritesOwn(c: Params, h: Hart, ie: bool, pie: bool, pp: Priv, epc: nat)
    requires Running(c, h.q) && h.pc % 2 == 0
    ensures Keeps(c, h, h.(q := SetOwn(c, h.q, ie, pie, pp, epc)))
  {
    var i1 := Writes(if h.q.priv == M then Mepc(epc) else Sepc(epc));
    var q1 := Step(c, h.q, i1);
    LegalStep(c, h.q, i1);
    LegalStep(c, q1, Writes(Mstatus(ie, pie, pp, q1.s.ie, q1.s.pie, q1.s.pp)));
    LegalStep(c, q1, Writes(Sstatus(ie, pie, pp != U)));
  }

  lemma KeepsTrans(c: Params, h: Hart, h1: Hart, h2: Hart)
    requires Keeps(c, h, h1) && Keeps(c, h1, h2)
    ensures Keeps(c, h, h2)
  {
  }

  /** The stack law: whatever the handler writes to its own level and whatever traps inside, a handler that
      restores what it saved leaves privilege, interrupt enables and program counter as the trap found them. */
  lemma {:induction false} HandlerRestores(c: Params, h: Hart, item: Item)
    requires Running(c, h.q) && h.pc % 2 == 0 && EvenItem(item)
    ensures Keeps(c, h, Run(c, h, item))
    ensures item.Handler? ==> SameContext(h, Run(c, h, item))
    decreases item
  {
    match item
    case Compute(_) =>
    case SetIe(ie) => SetsOwn(c, h, ie);
    case WriteOwn(ie, pie, pp, epc) => WritesOwn(c, h, ie, pie, pp, epc);
    case Handler(deleg, vector, body) =>
      var entered := Step(c, h.q, TrapAt(deleg, h.pc));
      Enters(c, h, deleg);
      BodyKeeps(c, Hart(entered, vector), body);
      Leaves(c, h, entered, RunAll(c, Hart(entered, vector), body).q);
  }

  lemma {:induction false} BodyKeeps(c: Params, h: Hart, items: seq<Item>)
    requires Running(c, h.q) && h.pc % 2 == 0 && EvenItems(items)
    ensures Keeps(c, h, RunAll(c, h, items))
    decreases items
  {
    if items != [] {
      HandlerRestores(c, h, items[0]);
      BodyKeeps(c, Run(c, h, items[0]), items[1..]);
      KeepsTrans(c, h, Run(c, h, items[0]), RunAll(c, h, items));
    }
  }

  // ---- any body ----

  /** A machine-mode handler that writes back both contexts, and returns. */
  function LeaveAll(c: Params, saved: Regs, q: Regs): Hart
  {
    var q1 := Step(c, Step(c, q, Writes(Sepc(saved.s.epc))), Writes(Mepc(saved.m.epc)));
    var q2 := Step(c, q1, Writes(Mstatus(q1.m.ie, saved.m.pie, saved.m.pp, saved.s.ie, saved.s.pie, saved.s.pp)));
    Hart(Step(c, q2, Returns(M)), ReturnPc(c, q2, Returns(M)))
  }

  /** Whatever its body did to the registers, as long as it is back in machine mode with legal levels: a
      machine-mode handler that restores both contexts leaves privilege, enables, PC and the whole supervisor
      context as the trap found them. */
  lemma RestoresBoth(c: Params, h: Hart, saved: Regs, q: Regs)
    requires Running(c, h.q) && Running(c, saved) && Running(c, q) && h.pc % 2 == 0
    requires Saves(h, saved) && q.priv == saved.priv == M
    requires h.q.s.epc % 2 == 0 && (!c.rvs ==> q.s.epc == h.q.s.epc)
    ensures SameContext(h, LeaveAll(c, saved, q)) && LeaveAll(c, saved, q).q.s == h.q.s
    ensures Running(c, LeaveAll(c, saved, q).q)
  {
    var i0, i1 := Writes(Sepc(saved.s.epc)), Writes(Mepc(saved.m.epc));
    var q0 := Step(c, q, i0);
    LegalStep(c, q, i0);
    var q1 := Step(c, q0, i1);
    LegalStep(c, q0, i1);
    var i2 := Writes(Mstatus(q1.m.ie, saved.m.pie, saved.m.pp, saved.s.ie, saved.s.pie, saved.s.pp));
    var q2 := Step(c, q1, i2);
    LegalStep(c, q1, i2);
    assert q2.m.pie == h.q.m.ie && q2.m.pp == h.q.priv && q2.m.epc == h.pc && q2.s == h.q.s;
    LegalStep(c, q2, Returns(M));
  }

  // ---- debug mode ----

  /** Entering debug mode by request or by single step, and leaving it without writes, changes nothing. */
  lemma DebugRoundTrip(c: Params, q: Regs, pc: nat, stepped: bool)
    requires Running(c, q) && c.debugEn
    ensures var i := if stepped then IDLE.(steps := true, stepPc := pc)
                     else IDLE.(ex := Event(DebugRequest, false, pc));
      var entered := Step(c, q, i);
      var left := Step(c, entered, IDLE.(dret := true));
      && entered.d.on && PrivNow(c, entered) == M
      && ReturnPc(c, entered, IDLE.(dret := true)) == pc
      && left.priv == q.priv && left.m == q.m && left.s == q.s && !left.d.on
  {
  }

  /** The debugger decides where the hart resumes: after writes to `dcsr.prv` and `dpc`, the return goes to that
      level and that PC, and the other registers are as the debugger found them. */
  lemma DebuggerResumes(c: Params, q: Regs, prv: Priv, pc: nat)
    requires Running(c, q) && c.debugEn
    ensures var entered := Step(c, q, IDLE.(ex := Event(DebugRequest, false, 0)));
      var written := Step(c, Step(c, entered, Writes(Dcsr(prv))), Writes(Dpc(pc)));
      var left := Step(c, written, IDLE.(dret := true));
      && ReturnPc(c, written, IDLE.(dret := true)) == pc
      && left.priv == prv && left.m == q.m && left.s == q.s && !left.d.on
  {
  }

  /** Nothing else enters debug mode: not without a step when there is no event, an ordinary one, or a breakpoint
      that is not meant for the debugger. */
  lemma DebugIsEnteredExactly(c: Params, q: Regs, i: In)
    requires Running(c, q) && !i.dret
    ensures Step(c, q, i).d.on <==>
            c.debugEn && (i.steps || (i.ex.Event? && (i.ex.cause == DebugRequest
                                                      || (i.ex.cause == Breakpoint && i.ebreakEnters))))
    ensures !Step(c, q, i).d.on && !(i.w.Dpc? && c.debugEn) && !(i.ex.Event? && i.ex.cause != OtherCause) ==>
            Step(c, q, i).d.pc == q.d.pc
  {
  }

  /** Entering it by a breakpoint runs the trap entry too: the saved context of the target level is lost. */
  lemma BreakpointTraps(c: Params, q: Regs, deleg: bool, pc: nat)
    requires Running(c, q) && c.debugEn
    ensures var i := IDLE.(ex := Event(Breakpoint, deleg, pc), ebreakEnters := true);
      var entered := Step(c, q, i);
      var left := Step(c, entered, IDLE.(dret := true));
      && entered.d.on && left.priv == q.priv
      && (if c.rvs && deleg && q.priv != M then left.s.epc == pc && !left.s.ie
          else left.m.epc == pc && !left.m.ie && left.m.pp == q.priv)
  {
  }
}
