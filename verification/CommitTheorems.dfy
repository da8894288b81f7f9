/** What the commit stage and the controller do with an instruction that is ready to retire, by its kind, in terms
    of the inputs. */
module CommitTheorems {
  import opened FenceT

  /** An instruction is at the first port that nothing keeps from retiring. */
  predicate Offered(i: CommitIn, halt: bool)
  {
    i.p0.valid && !halt && !i.p0.exValid
  }

  /** While a write-back cache is flushed, everything but a store waits for the pending stores as a fence.i does. */
  predicate Waits(cfg: Config, i: CommitIn)
  {
    i.flushDcache && cfg.writeBack && i.p0.fu != Store && !i.p0.drop && !i.noStPending
  }

  // ---- the first port, by kind of instruction ----

  /** An instruction without side effects retires and writes its register unless it is dropped; during the flush
      of a write-back cache it writes but waits. */
  lemma SimpleRetires(cfg: Config, i: CommitIn, halt: bool)
    requires i.p0.fu in {Simple, OtherFu} && i.p0.op == OpOther
    ensures var o := Commit(cfg, i, halt);
      && (o.ack0 <==> i.p0.valid && !halt && if i.p0.exValid then i.p0.drop else !Waits(cfg, i))
      && (o.we0 <==> Offered(i, halt) && !i.p0.drop)
      && !o.lsu && !o.csr && !o.amoValid && !o.flushCommit
      && (o.ack0 && !i.p0.drop ==> o.we0)
      && (o.we0 && !o.ack0 <==> Offered(i, halt) && Waits(cfg, i))
  {
  }

  /** A store goes to the store buffer exactly when it retires, once; a dropped one too. */
  lemma StoreRetires(cfg: Config, i: CommitIn, halt: bool)
    requires i.p0.fu == Store && i.p0.op == OpOther
    ensures var o := Commit(cfg, i, halt);
      && (o.lsu <==> Offered(i, halt) && i.lsuReady)
      && (o.ack0 <==> o.lsu || (i.p0.valid && !halt && i.p0.exValid && i.p0.drop))
      && (o.we0 <==> Offered(i, halt) && !i.p0.drop)
      && !o.csr && !o.amoValid && !o.flushCommit
  {
  }

  /** A CSR instruction writes the CSR and its register exactly when it is not dropped and the CSR file takes it;
      then it retires, unless it waits. */
  lemma CsrRetires(cfg: Config, i: CommitIn, halt: bool)
    requires i.p0.fu == Csr && i.p0.op == OpOther
    ensures var o := Commit(cfg, i, halt);
      && (o.csr <==> Offered(i, halt) && !i.p0.drop && !i.csrException)
      && o.we0 == o.csr
      && (o.csr ==> (o.ack0 <==> !Waits(cfg, i)))
      && (Offered(i, halt) && !(i.flushDcache && cfg.writeBack) ==> (o.ack0 <==> i.p0.drop || o.csr))
      && !o.lsu && !o.amoValid && !o.flushCommit
  {
  }

  /** An AMO retires, writes its register and flushes the pipeline exactly when the cache has answered. */
  lemma AmoRetires(cfg: Config, i: CommitIn, halt: bool)
    requires cfg.rva && i.p0.op == OpAmo && Offered(i, halt)
    ensures var o := Commit(cfg, i, halt);
      && o.amoValid && !o.lsu
      && o.ack0 == i.amoAck && o.we0 == i.amoAck && o.flushCommit == i.amoAck
  {
  }

  /** A fence that is kept retires exactly when no store is pending, and raises its own fence then and no other;
      fence.t does not look at the drop flag. */
  lemma FenceRetires(cfg: Config, i: CommitIn, halt: bool)
    requires i.p0.op in {OpFence, OpFenceI, OpFenceT, OpSfenceVma, OpHfenceVvma, OpHfenceGvma}
    requires i.p0.op == OpSfenceVma ==> cfg.rvs
    requires i.p0.op in {OpHfenceVvma, OpHfenceGvma} ==> cfg.rvh
    requires Offered(i, halt) && !i.p0.drop && !i.flushDcache && i.p0.fu != Store
    ensures var o := Commit(cfg, i, halt);
      && (o.ack0 <==> i.noStPending)
      && (o.fences.data <==> o.ack0 && i.p0.op == OpFence)
      && (o.fences.i <==> o.ack0 && i.p0.op == OpFenceI)
      && (o.fences.t <==> o.ack0 && i.p0.op == OpFenceT)
      && (o.fences.sfence <==> o.ack0 && i.p0.op == OpSfenceVma)
      && (o.fences.hfenceV <==> o.ack0 && i.p0.op == OpHfenceVvma)
      && (o.fences.hfenceG <==> o.ack0 && i.p0.op == OpHfenceGvma)
  {
  }

  /** Other instructions raise no fence, but for the fence.i of the flush of a write-back cache. */
  lemma NoOtherFence(cfg: Config, i: CommitIn, halt: bool)
    requires i.p0.op in {OpOther, OpAmo}
    ensures var f := Commit(cfg, i, halt).fences;
      && !f.data && !f.t && !f.sfence && !f.hfenceV && !f.hfenceG
      && (f.i <==> Offered(i, halt) && !i.p0.drop && i.noStPending && i.flushDcache && cfg.writeBack && i.p0.fu != Store)
  {
  }

  /** A faulting instruction raises its exception and does not retire; dropped, it retires without. */
  lemma FaultsAreRaised(cfg: Config, i: CommitIn, halt: bool)
    requires i.p0.exValid
    ensures var o := Commit(cfg, i, halt);
      && (o.exception <==> i.p0.valid && !halt && !i.p0.drop)
      && (o.ack0 <==> i.p0.valid && !halt && i.p0.drop)
      && !o.we0 && !o.lsu && !o.csr && !o.amoValid
      && o.fences == FencesOut(false, false, false, false, false, false)
  {
  }

  /** Without a fault an exception comes from the CSR file only. */
  lemma CsrExceptionIsRaised(cfg: Config, i: CommitIn, halt: bool)
    requires !i.p0.exValid
    ensures Commit(cfg, i, halt).exception <==> i.p0.valid && !halt && !i.p0.drop && i.csrException
  {
  }

  // ---- the second port ----

  /** The second port retires exactly with the first one: a simple instruction without a fault, behind one that is
      neither a CSR instruction, a fence.t nor an AMO, outside cache flushes and single steps. It writes its
      register unless it is dropped. */
  lemma SecondPort(cfg: Config, i: CommitIn, halt: bool)
    ensures var o := Commit(cfg, i, halt);
      && (o.ack1 <==> && o.ack0 && i.p1.valid && !i.p1.exValid && i.p1.fu == Simple
                      && i.p0.fu != Csr && i.p0.op != OpFenceT && !(cfg.rva && i.p0.op == OpAmo)
                      && !i.flushDcache && !i.singleStep)
      && (o.we1 <==> o.ack1 && !i.p1.drop)
  {
  }

  // ---- under the controller ----

  /** Nothing outside asks for a halt, and no fence is under way. */
  predicate Unhalted(cfg: Config, r: Regs, i: In)
  {
    !i.haltCsr && !i.haltAcc && r.phase == Idle && !(cfg.dcacheFlushOnFence && r.fenceActive)
  }

  /** Then two ordinary instructions retire together, write their registers and disturb nothing. */
  lemma OrdinaryPair(cfg: Config, r: Regs, i: In)
    requires Unhalted(cfg, r, i) && !r.flushDcache && !i.commit.singleStep && !i.commit.csrException
    requires i.commit.p0.valid && !i.commit.p0.exValid && !i.commit.p0.drop
    requires i.commit.p1.valid && !i.commit.p1.exValid && !i.commit.p1.drop
    requires i.commit.p0.fu == Simple && i.commit.p0.op == OpOther && i.commit.p1.fu == Simple
    ensures var c := Committed(cfg, r, i);
      && c.ack0 && c.ack1 && c.we0 && c.we1 && !c.exception
      && c.fences == FencesOut(false, false, false, false, false, false)
  {
  }

  /** Retiring such an instruction flushes nothing by itself: each flush then has its cause in the inputs. */
  lemma OrdinaryFlushesNothing(cfg: Config, r: Regs, i: In)
    requires i.commit.p0.op == OpOther && !r.flushDcache && !i.commit.p0.exValid && !i.commit.csrException
    requires !i.eret && !i.setDebugPc && !i.flushCsr && !i.flushAcc
    ensures var f := FlushOf(cfg, r, Committed(cfg, r, i), i);
      && !f.setPc && !f.flushId && !f.flushEx && !f.icache && !f.tlb && !f.tlbVvma && !f.tlbGvma && !f.bp
      && f.flushIf == f.flushUnissued == i.mispredict
      && (f.dcache <==> cfg.dcacheFlushOnFence && r.fenceActive && !i.flushAck)
  {
  }

  /** An instruction at the first port that retires and makes the pipeline start over. */
  predicate Restarts(cfg: Config, i: CommitIn)
  {
    match i.p0.op
    case OpFence => i.noStPending
    case OpFenceI => i.noStPending
    case OpSfenceVma => cfg.rvs && i.noStPending
    case OpHfenceVvma => cfg.rvh && i.noStPending
    case OpHfenceGvma => cfg.rvh && i.noStPending
    case OpAmo => cfg.rva && i.amoAck
    case OpFenceT => false
    case OpOther => false
  }

  /** A retiring fence or AMO restarts the whole pipeline from the commit PC in the same cycle, and so does
      nothing else that is kept; fence.t does not. Traps and returns take the PC over. */
  lemma RestartsExactly(cfg: Config, r: Regs, i: In)
    requires Unhalted(cfg, r, i) && !r.flushDcache && !i.flushCsr && !i.flushAcc && !i.eret && !i.setDebugPc
    requires i.commit.p0.valid && !i.commit.p0.exValid && !i.commit.p0.drop && !i.commit.csrException
    ensures var f, restarts := FlushOf(cfg, r, Committed(cfg, r, i), i), Restarts(cfg, i.commit);
      && f.setPc == restarts && f.flushEx == restarts && f.flushId == restarts
      && f.flushUnissued == f.flushIf == (restarts || i.mispredict) && !f.bp
      && (f.icache <==> i.commit.p0.op in {OpFenceI, OpFenceT} && i.commit.noStPending)
      && (f.tlbGvma <==> i.commit.p0.op == OpHfenceGvma && restarts)
      && (f.tlb <==> i.commit.p0.op == OpSfenceVma && restarts && !(cfg.rvh && i.v))
      && (f.tlbVvma <==> restarts && (i.commit.p0.op == OpHfenceVvma || (i.commit.p0.op == OpSfenceVma && cfg.rvh && i.v)))
      && (f.dcache <==> i.commit.noStPending && (i.commit.p0.op == OpFenceT
                        || (cfg.dcacheFlushOnFence && i.commit.p0.op in {OpFence, OpFenceI})))
  {
  }

  /** A trap, a return or a debug entry flushes the whole pipeline and the branch prediction, and takes the PC. */
  lemma TrapsFlush(cfg: Config, r: Regs, i: In)
    requires Committed(cfg, r, i).exception || i.eret || (cfg.debugEn && i.setDebugPc)
    ensures var f := FlushOf(cfg, r, Committed(cfg, r, i), i);
      !f.setPc && f.flushIf && f.flushUnissued && f.flushId && f.flushEx && f.bp
  {
  }

  /** A side effect of a CSR or of the accelerator restarts the pipeline from the commit PC, unless trapped. */
  lemma SideEffectsRestart(cfg: Config, r: Regs, i: In)
    requires (i.flushCsr || i.flushAcc) && !Committed(cfg, r, i).exception && !i.eret && !i.setDebugPc
    ensures var f := FlushOf(cfg, r, Committed(cfg, r, i), i);
      f.setPc && f.flushIf && f.flushUnissued && f.flushId && f.flushEx && !f.bp
  {
  }
}
