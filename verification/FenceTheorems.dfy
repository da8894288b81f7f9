/** Runs of controller and commit stage: what fence.t guarantees between its acceptance and its return, and
    when the micro-reset happens. */
module FenceTheorems {
  import opened FenceT

  ghost predicate IsRun(cfg: Config, bootAddr: nat, ins: seq<In>, ws: seq<Regs>)
  {
    && |ws| == |ins| + 1
    && ws[0] == Reset(bootAddr)
    && forall t :: 0 <= t < |ins| ==> ws[t + 1] == Step(cfg, ws[t], ins[t])
  }

  /** What the commit stage does in cycle `t` of a run. */
  ghost function At(cfg: Config, ins: seq<In>, ws: seq<Regs>, t: nat): CommitOut
    requires |ws| == |ins| + 1 && t < |ins|
  {
    Committed(cfg, ws[t], ins[t])
  }

  /** Cycle `t` accepts a fence.t. */
  ghost predicate Accepts(cfg: Config, ins: seq<In>, ws: seq<Regs>, t: nat)
    requires |ws| == |ins| + 1 && t < |ins|
  {
    ws[t].phase == Idle && At(cfg, ins, ws, t).fences.t
  }

  /** Nothing retires, nothing reaches the memories or the CSRs, no fence starts, no exception is taken. */
  ghost predicate Quiet(c: CommitOut)
  {
    c == CommitOut(false, false, false, false, false, false, false,
                   FencesOut(false, false, false, false, false, false), false, false)
  }

  /** The first cycle of the stretch of equal phases that ends in cycle `t`. */
  ghost function Entered(ws: seq<Regs>, t: nat): (k: nat)
    requires t < |ws|
    ensures k <= t && (k == 0 || ws[k - 1].phase != ws[t].phase)
    ensures forall j :: k <= j <= t ==> ws[j].phase == ws[t].phase
  {
    if t == 0 || ws[t - 1].phase != ws[t].phase then t else Entered(ws, t - 1)
  }

  // ---- the halt ----

  lemma HaltSilences(cfg: Config, i: CommitIn, halt: bool)
    requires halt
    ensures Quiet(Commit(cfg, i, halt))
  {
  }

  /** Outside the idle phase nothing commits and no exception is taken. */
  lemma BusyIsQuiet(cfg: Config, r: Regs, i: In)
    requires r.phase != Idle
    ensures Quiet(Committed(cfg, r, i))
  {
    HaltSilences(cfg, i.commit.(flushDcache := r.flushDcache), Halt(cfg, r, i));
  }

  /** The accepting cycle retires the fence.t itself and nothing else. An exception is raised beside it if and
      only if the CSR file reports one and the instruction is not dropped. */
  lemma AcceptRetiresOnlyFenceT(cfg: Config, ins: seq<In>, ws: seq<Regs>, t: nat)
    requires |ws| == |ins| + 1 && t < |ins|
    requires Accepts(cfg, ins, ws, t)
    ensures At(cfg, ins, ws, t).ack0 && !At(cfg, ins, ws, t).ack1
    ensures ins[t].commit.noStPending && ins[t].commit.p0.op == OpFenceT
    ensures At(cfg, ins, ws, t).exception <==> ins[t].commit.csrException && !ins[t].commit.p0.drop
  {
  }

  // ---- counters ----

  /** How many cycles before cycle `t` the cache has been idle without a break. */
  ghost function IdleFor(ins: seq<In>, t: nat): (n: nat)
    requires t <= |ins|
    ensures n <= t && (forall k :: t - n <= k < t ==> !ins[k].cacheBusy)
    ensures n < t ==> ins[t - n - 1].cacheBusy
  {
    if t == 0 || ins[t - 1].cacheBusy then 0 else IdleFor(ins, t - 1) + 1
  }

  /** The drain counter is the length of the idle stretch, cut off at fifteen. */
  lemma {:induction false} DrainCounts(cfg: Config, bootAddr: nat, ins: seq<In>, ws: seq<Regs>, t: nat)
    requires IsRun(cfg, bootAddr, ins, ws) && t <= |ins|
    ensures ws[t].drain == if IdleFor(ins, t) < 15 then IdleFor(ins, t) else 15
  {
    if t > 0 {
      DrainCounts(cfg, bootAddr, ins, ws, t - 1);
      assert ws[t] == Step(cfg, ws[t - 1], ins[t - 1]);
    }
  }

  lemma {:induction false} ResetCounts(cfg: Config, bootAddr: nat, ins: seq<In>, ws: seq<Regs>, t: nat)
    requires IsRun(cfg, bootAddr, ins, ws) && t <= |ins|
    ensures ws[t].rstCnt == if ws[t].phase == RstUarch then t - Entered(ws, t) else 0
    ensures ws[t].rstCnt <= 15
  {
    if t > 0 {
      ResetCounts(cfg, bootAddr, ins, ws, t - 1);
      assert ws[t] == Step(cfg, ws[t - 1], ins[t - 1]);
    }
  }

  // ---- history ----

  /** The cycle before a phase was entered was the one the previous phase ended in. */
  lemma {:induction false} PhaseEnds(cfg: Config, bootAddr: nat, ins: seq<In>, ws: seq<Regs>, t: nat) returns (k: nat)
    requires IsRun(cfg, bootAddr, ins, ws) && t <= |ins| && ws[t].phase != Idle
    ensures k == Entered(ws, t) - 1
    ensures ws[t].phase == FlushDcache ==> Accepts(cfg, ins, ws, k)
    ensures ws[t].phase == DrainReqs ==> ws[k].phase == FlushDcache && ins[k].flushAck
    ensures ws[t].phase == Pad ==> ws[k].phase == DrainReqs && ws[k].drain == 15
    ensures ws[t].phase == RstUarch ==> ws[k].phase == Pad && ws[k].pad == 0
  {
    k := Entered(ws, t) - 1;
    assert ws[k + 1].phase == ws[t].phase;
    assert ws[k + 1] == Step(cfg, ws[k], ins[k]);
  }

  /** The restart address does not move while a fence.t is under way. */
  lemma {:induction false} RestartKept(
    cfg: Config, bootAddr: nat, ins: seq<In>, ws: seq<Regs>, t0: nat, t: nat)
    requires IsRun(cfg, bootAddr, ins, ws) && t0 < t <= |ins|
    requires Accepts(cfg, ins, ws, t0)
    requires forall k :: t0 < k <= t ==> ws[k].phase != Idle
    ensures ws[t].rstAddr == (ins[t0].commit.p0.pc + 4) % PC_RANGE
  {
    assert ws[t] == Step(cfg, ws[t - 1], ins[t - 1]);
    if t - 1 > t0 {
      RestartKept(cfg, bootAddr, ins, ws, t0, t - 1);
      BusyIsQuiet(cfg, ws[t - 1], ins[t - 1]);
    }
  }

  /** Safety of fence.t: whenever the micro-reset is asserted, there was one accepting cycle `t0`; since then
      nothing committed and no exception was taken; the flush was acknowledged in `ta`; the draining
      ended in `td`, after fifteen idle cycles; the padding had run out in `tp`; the reset has been
      asserted ever since, for at most sixteen cycles; and the restart address is the instruction after
      the fence.t. */
  lemma ResetHistory(cfg: Config, bootAddr: nat, ins: seq<In>, ws: seq<Regs>, t: nat)
    returns (t0: nat, ta: nat, td: nat, tp: nat)
    requires IsRun(cfg, bootAddr, ins, ws) && t < |ins| && ws[t].phase == RstUarch
    ensures t0 < ta < td < tp < t <= tp + 16
    ensures Accepts(cfg, ins, ws, t0)
    ensures ws[ta].phase == FlushDcache && ins[ta].flushAck
    ensures ws[td].phase == DrainReqs && td >= 15 && forall k :: td - 15 <= k < td ==> !ins[k].cacheBusy
    ensures ws[tp].phase == Pad && ws[tp].pad == 0
    ensures forall k :: tp < k <= t ==> ws[k].phase == RstUarch
    ensures forall k :: t0 < k <= t ==> Quiet(At(cfg, ins, ws, k))
    ensures ws[t].rstAddr == (ins[t0].commit.p0.pc + 4) % PC_RANGE
  {
    hide Step, IdleFor;
    ResetCounts(cfg, bootAddr, ins, ws, t);
    tp := PhaseEnds(cfg, bootAddr, ins, ws, t);
    td := PhaseEnds(cfg, bootAddr, ins, ws, tp);
    DrainCounts(cfg, bootAddr, ins, ws, td);
    ta := PhaseEnds(cfg, bootAddr, ins, ws, td);
    t0 := PhaseEnds(cfg, bootAddr, ins, ws, ta);
    assert forall k :: t0 < k <= t ==> ws[k].phase != Idle;
    forall k | t0 < k <= t ensures Quiet(At(cfg, ins, ws, k)) {
      BusyIsQuiet(cfg, ws[k], ins[k]);
    }
    RestartKept(cfg, bootAddr, ins, ws, t0, t);
  }

  /** The reset lasts exactly sixteen cycles. */
  lemma ResetLasts(cfg: Config, bootAddr: nat, ins: seq<In>, ws: seq<Regs>, tp: nat)
    requires IsRun(cfg, bootAddr, ins, ws) && tp + 17 <= |ins|
    requires ws[tp].phase == Pad && ws[tp].pad == 0
    ensures forall k :: tp < k <= tp + 16 ==> ws[k].phase == RstUarch
    ensures ws[tp + 17].phase == Idle
  {
    ResetRuns(cfg, bootAddr, ins, ws, tp, 16);
    assert ws[tp + 17] == Step(cfg, ws[tp + 16], ins[tp + 16]);
  }

  lemma {:induction false} ResetRuns(cfg: Config, bootAddr: nat, ins: seq<In>, ws: seq<Regs>, tp: nat, n: nat)
    requires IsRun(cfg, bootAddr, ins, ws) && tp + n <= |ins|
    requires ws[tp].phase == Pad && ws[tp].pad == 0 && 1 <= n <= 16
    ensures forall k :: tp < k <= tp + n ==> ws[k].phase == RstUarch
    ensures ws[tp + n].rstCnt == n - 1
  {
    assert ws[tp + n] == Step(cfg, ws[tp + n - 1], ins[tp + n - 1]);
    if n == 1 {
      ResetCounts(cfg, bootAddr, ins, ws, tp);
    } else {
      ResetRuns(cfg, bootAddr, ins, ws, tp, n - 1);
    }
  }

  // ---- timing ----

  /** The pad counter is loaded with `p` in cycle `t0` and not again before cycle `end`. */
  ghost predicate LoadedOnce(ins: seq<In>, ws: seq<Regs>, t0: nat, p: nat, end: nat)
    requires |ws| == |ins| + 1 && end <= |ins|
  {
    && t0 < end && LoadPad(ws[t0], ins[t0]) && ins[t0].padValue == p
    && forall k :: t0 < k < end ==> !LoadPad(ws[k], ins[k])
  }

  lemma {:induction false} PadCountsDown(
    cfg: Config, bootAddr: nat, ins: seq<In>, ws: seq<Regs>, t0: nat, p: nat, t: nat)
    requires IsRun(cfg, bootAddr, ins, ws) && t <= |ins|
    requires LoadedOnce(ins, ws, t0, p, t)
    ensures ws[t].pad == if t - t0 - 1 < p then p - (t - t0 - 1) else 0
  {
    assert ws[t] == Step(cfg, ws[t - 1], ins[t - 1]);
    if t > t0 + 1 {
      PadCountsDown(cfg, bootAddr, ins, ws, t0, p, t - 1);
    }
  }

  ghost function Max(a: nat, b: nat): nat { if a < b then b else a }

  lemma {:induction false} PadWaits(
    cfg: Config, bootAddr: nat, ins: seq<In>, ws: seq<Regs>, t0: nat, p: nat, td: nat, t: nat)
    requires IsRun(cfg, bootAddr, ins, ws) && t0 <= td < t <= |ins|
    requires ws[td].phase == DrainReqs && ws[td].drain == 15
    requires t <= Max(t0 + p, td) + 1
    requires LoadedOnce(ins, ws, t0, p, t)
    ensures ws[t].phase == Pad
  {
    assert ws[t] == Step(cfg, ws[t - 1], ins[t - 1]);
    if t > td + 1 {
      PadWaits(cfg, bootAddr, ins, ws, t0, p, td, t - 1);
      PadCountsDown(cfg, bootAddr, ins, ws, t0, p, t - 1);
    }
  }

  /** Timing of fence.t: with one load of the pad counter in cycle `t0` and the draining over in cycle `td`,
      the reset is asserted from exactly cycle `max(t0 + p, td) + 2` for sixteen cycles. */
  lemma ResetTime(cfg: Config, bootAddr: nat, ins: seq<In>, ws: seq<Regs>, t0: nat, p: nat, td: nat)
    requires IsRun(cfg, bootAddr, ins, ws) && t0 <= td && Max(t0 + p, td) + 18 <= |ins|
    requires ws[td].phase == DrainReqs && ws[td].drain == 15
    requires LoadedOnce(ins, ws, t0, p, Max(t0 + p, td) + 1)
    ensures forall k :: td < k < Max(t0 + p, td) + 2 ==> ws[k].phase == Pad
    ensures forall k :: Max(t0 + p, td) + 2 <= k < Max(t0 + p, td) + 18 ==> ws[k].phase == RstUarch
    ensures ws[Max(t0 + p, td) + 18].phase == Idle
  {
    var tp := Max(t0 + p, td) + 1;
    forall k | td < k <= tp ensures ws[k].phase == Pad {
      PadWaits(cfg, bootAddr, ins, ws, t0, p, td, k);
    }
    PadCountsDown(cfg, bootAddr, ins, ws, t0, p, tp);
    ResetLasts(cfg, bootAddr, ins, ws, tp);
  }

  /** Two runs with the same load of the pad counter but any other difference: when both have drained by
      cycle `t0 + p`, both assert the reset in the same cycles; when the second drains later, it shows. */
  lemma ResetTimeIsIndependent(
    cfg: Config, bootAddr: nat, insA: seq<In>, wsA: seq<Regs>, tdA: nat,
    insB: seq<In>, wsB: seq<Regs>, tdB: nat, t0: nat, p: nat)
    requires IsRun(cfg, bootAddr, insA, wsA) && t0 <= tdA && Max(t0 + p, tdA) + 18 <= |insA|
    requires IsRun(cfg, bootAddr, insB, wsB) && t0 <= tdB && Max(t0 + p, tdB) + 18 <= |insB|
    requires wsA[tdA].phase == DrainReqs && wsA[tdA].drain == 15
    requires wsB[tdB].phase == DrainReqs && wsB[tdB].drain == 15
    requires LoadedOnce(insA, wsA, t0, p, Max(t0 + p, tdA) + 1)
    requires LoadedOnce(insB, wsB, t0, p, Max(t0 + p, tdB) + 1)
    requires tdA <= t0 + p
    ensures wsA[t0 + p + 1].phase == Pad && wsA[t0 + p + 18].phase == Idle
    ensures forall k :: t0 + p + 2 <= k < t0 + p + 18 ==> wsA[k].phase == RstUarch
    ensures t0 + p < tdB < t0 + p + 17 ==> wsA[tdB + 1].phase == RstUarch && wsB[tdB + 1].phase == Pad
    ensures tdB <= t0 + p ==> forall k :: t0 + p + 1 <= k <= t0 + p + 18 ==> wsA[k].phase == wsB[k].phase
  {
    ResetTime(cfg, bootAddr, insA, wsA, t0, p, tdA);
    ResetTime(cfg, bootAddr, insB, wsB, t0, p, tdB);
  }

  /** What software reads as the ceiling of the fence: the cycles between the load of the pad counter and
      the end of the draining, provided the interval had not run out and the CSR was not changed. */
  lemma CeilingIsElapsedTime(
    cfg: Config, bootAddr: nat, ins: seq<In>, ws: seq<Regs>, t0: nat, p: nat, td: nat)
    requires IsRun(cfg, bootAddr, ins, ws) && t0 < td < |ins|
    requires ws[td].phase == DrainReqs && ws[td].drain == 15
    requires LoadedOnce(ins, ws, t0, p, td) && ins[td].padValue == p < PAD_RANGE
    ensures Ceil(ws[td], ins[td]) == if td <= t0 + p then td - t0 - 1 else 0
  {
    PadCountsDown(cfg, bootAddr, ins, ws, t0, p, td);
  }

  // ---- the flush request ----

  /** With `DcacheFlushOnFence` a fence is active exactly while fence.t waits for its flush. */
  lemma {:induction false} OneFlushAtATime(cfg: Config, bootAddr: nat, ins: seq<In>, ws: seq<Regs>, t: nat)
    requires IsRun(cfg, bootAddr, ins, ws) && t <= |ins|
    requires cfg.dcacheFlushOnFence && ws[t].phase != Idle
    ensures ws[t].fenceActive <==> ws[t].phase == FlushDcache
  {
    if t > 0 {
      assert ws[t] == Step(cfg, ws[t - 1], ins[t - 1]);
      if ws[t - 1].phase != Idle {
        OneFlushAtATime(cfg, bootAddr, ins, ws, t - 1);
        BusyIsQuiet(cfg, ws[t - 1], ins[t - 1]);
      }
    }
  }

  /** Cycle `t` accepts a fence that flushes the data cache. */
  ghost predicate StartsFlush(cfg: Config, ins: seq<In>, ws: seq<Regs>, t: nat)
    requires |ws| == |ins| + 1 && t < |ins|
  {
    var f := At(cfg, ins, ws, t).fences;
    f.data || f.i || f.t
  }

  /** Such a fence was accepted before cycle `t` and has met no acknowledge since. */
  ghost predicate FlushAwaited(cfg: Config, ins: seq<In>, ws: seq<Regs>, t: nat)
    requires |ws| == |ins| + 1 && t <= |ins|
  {
    exists s :: 0 <= s < t && StartsFlush(cfg, ins, ws, s) && forall k :: s < k < t ==> !ins[k].flushAck
  }

  lemma AwaitedStep(cfg: Config, ins: seq<In>, ws: seq<Regs>, t: nat)
    requires |ws| == |ins| + 1 && 0 < t <= |ins|
    ensures FlushAwaited(cfg, ins, ws, t) <==>
            StartsFlush(cfg, ins, ws, t - 1) || (FlushAwaited(cfg, ins, ws, t - 1) && !ins[t - 1].flushAck)
  {
    hide StartsFlush;
    if FlushAwaited(cfg, ins, ws, t - 1) && !ins[t - 1].flushAck {
      var s :| 0 <= s < t - 1 && StartsFlush(cfg, ins, ws, s) && forall k :: s < k < t - 1 ==> !ins[k].flushAck;
      assert forall k :: s < k < t ==> !ins[k].flushAck;
    }
  }

  lemma ActiveStep(cfg: Config, ins: seq<In>, ws: seq<Regs>, t: nat)
    requires |ws| == |ins| + 1 && t < |ins| && ws[t + 1] == Step(cfg, ws[t], ins[t])
    requires cfg.dcacheFlushOnFence && ws[t].flushDcache == ws[t].fenceActive
    ensures ws[t + 1].fenceActive <==> StartsFlush(cfg, ins, ws, t) || (ws[t].fenceActive && !ins[t].flushAck)
    ensures ws[t + 1].flushDcache == ws[t + 1].fenceActive
  {
    if ws[t].fenceActive {
      HaltSilences(cfg, ins[t].commit.(flushDcache := ws[t].flushDcache), Halt(cfg, ws[t], ins[t]));
    }
  }

  /** With `DcacheFlushOnFence` a fence is active, halts commit and requests the flush exactly from its acceptance
      until the acknowledge, and no longer. */
  lemma {:induction false} FenceHolds(cfg: Config, bootAddr: nat, ins: seq<In>, ws: seq<Regs>, t: nat)
    requires IsRun(cfg, bootAddr, ins, ws) && t <= |ins| && cfg.dcacheFlushOnFence
    ensures ws[t].fenceActive <==> FlushAwaited(cfg, ins, ws, t)
    ensures ws[t].flushDcache == ws[t].fenceActive
  {
    hide StartsFlush, Step;
    if t > 0 {
      FenceHolds(cfg, bootAddr, ins, ws, t - 1);
      ActiveStep(cfg, ins, ws, t - 1);
      AwaitedStep(cfg, ins, ws, t);
      hide FlushAwaited, IsRun;
    }
  }

  /** The request to the data cache is raised in the first cycle of the flush; it is held until the
      acknowledge if and only if `DcacheFlushOnFence` is set, and is a single pulse otherwise. */
  lemma FlushRequest(cfg: Config, bootAddr: nat, ins: seq<In>, ws: seq<Regs>, t: nat)
    requires IsRun(cfg, bootAddr, ins, ws) && t <= |ins| && ws[t].phase == FlushDcache
    ensures ws[t].flushDcache <==> cfg.dcacheFlushOnFence || Entered(ws, t) == t
  {
    var k := PhaseEnds(cfg, bootAddr, ins, ws, t);
    assert ws[t] == Step(cfg, ws[t - 1], ins[t - 1]);
    if Entered(ws, t) < t {
      BusyIsQuiet(cfg, ws[t - 1], ins[t - 1]);
      if cfg.dcacheFlushOnFence {
        OneFlushAtATime(cfg, bootAddr, ins, ws, t - 1);
      }
    }
  }
}
