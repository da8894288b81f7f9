/** What the dispatcher gets done: a released instruction is handed to the spill register, and an instruction in
    the commit window leaves within a fixed number of cycles, whatever it is. */
module AccProgress {
  import opened AccDispatcher
  import opened AccSystem
  import opened AccTheorems
  import opened Common

  // ---- one cycle ----

  /** Commit port 0, or port 1 behind a finished entry, shows the unfinished accelerator instruction `id`. */
  predicate Announced(i: Input, id: nat)
  {
    || (!i.commit0.valid && i.commit0.fu == Accel && i.commit0.id == id)
    || (i.commit0.valid && !i.commit1.valid && i.commit1.fu == Accel && i.commit1.id == id)
  }

  /** With an empty spill register the head of the queue moves there if and only if it has been made ready, or
      commit announces a pending instruction in a cycle that does not flush the unissued ones. The operation
      does not matter. */
  lemma HeadMovesExactly(r: Regs, i: Input)
    requires r.spill == [] && r.queue != [] && |r.queue| <= QUEUE_DEPTH
    ensures var r' := Step(r, i);
            var moves := r.queue[0].id in r.ready
                         || ((exists id :: id in r.pending && Announced(i, id)) && !i.flushUnissued);
            var arrival := if r.accValid && |r.queue| < QUEUE_DEPTH then [i.fuData] else [];
      && r'.spill == (if moves then [r.queue[0]] else [])
      && (!i.flushEx ==> r'.queue == r.queue[if moves then 1 else 0..] + arrival)
  {
    assert Releases(r, i) <==> exists id :: id in r.pending && Announced(i, id) by {
      if Releases(r, i) {
        assert CommitId(i) in r.pending && Announced(i, CommitId(i));
      }
    }
    assert Visible(r, i)[0] == r.queue[0];
  }

  /** A request in the spill register stays first there until the accelerator is ready. */
  lemma SpillStays(r: Regs, i: Input)
    requires r.spill != []
    ensures !i.reqReady ==> Step(r, i).spill != [] && Step(r, i).spill[0] == r.spill[0]
  {
  }

  // ---- over runs ----

  /** The oldest held instruction has reached the commit window. */
  ghost predicate HeadAtCommit(w: World)
  {
    Flight(w) != [] && AtCommit(w.sb, Flight(w)[0])
  }

  /** How many cycles the oldest held instruction is at most away from the spill register. */
  function Distance(r: Regs): nat
  {
    if r.spill != [] then 0
    else if r.queue == [] then 3
    else if r.queue[0].id in r.ready then 1 else 2
  }

  /** A pending head in the commit window is announced. */
  lemma HeadIsAnnounced(w: World, pos: seq<nat>, i: Input, c: Choice)
    requires Inv(w, pos) && EnvNoFlush(w, i, c) && HeadAtCommit(w)
    ensures Announced(i, Flight(w)[0].id)
  {
    var p: nat :| InWindow(w.sb, p) && w.sb[p].toAcc && !w.sb[p].done && w.sb[p].insn == Flight(w)[0];
    if p == 1 {
      assert w.sb[0].done;
    }
  }

  /** A cycle without a flush brings the oldest held instruction closer to the spill register. */
  lemma ComesCloser(w: World, pos: seq<nat>, i: Input, c: Choice)
    requires Inv(w, pos) && Env(w, i, c) && HeadAtCommit(w) && w.r.spill == [] && !i.flushEx
    ensures Distance(Step(w.r, i)) < Distance(w.r)
  {
    if w.r.queue != [] {
      HeadIsAnnounced(w, pos, i, c);
      HeadMovesExactly(w.r, i);
      var h := w.r.queue[0];
      assert h == Flight(w)[0];
      if h.id !in w.r.ready {
        assert h.id in w.r.pending && Announced(i, h.id);
        if i.flushUnissued {
          assert Releases(w.r, i);
          ReleasedIsHead(w, pos, i, c);
          assert h.id in ReadyNext(w.r, i) && Step(w.r, i).queue[0] == h;
        }
      }
    } else {
      assert w.r.accValid;
      assert Step(w.r, i).queue != [] || Step(w.r, i).spill != [];
    }
  }

  /** Unless the accelerator takes it, the oldest held instruction stays the oldest and in the commit window. */
  lemma HeadStays(w: World, pos: seq<nat>, i: Input, c: Choice, w': World, pos': seq<nat>)
    requires Inv(w, pos) && Env(w, i, c) && w' == AccSystem.Next(w, i, c) && Inv(w', pos')
    requires HeadAtCommit(w) && !i.flushEx && !Handshake(w.r, i)
    ensures Flight(w') != [] && Flight(w')[0] == Flight(w)[0] && HeadAtCommit(w')
  {
    CycleIsCalm(w, pos, i, c);
    FlightStep(w, i, c);
    var f := Flight(w)[0];
    assert Flight(w)[0..] == Flight(w) && Flight(w')[0] == f;
    var p: nat :| InWindow(w.sb, p) && w.sb[p].toAcc && !w.sb[p].done && w.sb[p].insn == f;
    assert p >= c.retired;
    var p' := p - c.retired;
    assert w'.sb[p'] == Written(w.sb[p], i, c);
    PlaceOf(w'.sb, Flight(w'), pos', 0, p');
    WindowShifts(w, i, c, w', p);
  }

  lemma WrittenStaysDone(e: SbEntry, i: Input, c: Choice)
    ensures e.done ==> Written(e, i, c).done
  {
  }

  lemma WindowShifts(w: World, i: Input, c: Choice, w': World, p: nat)
    requires EnvNoFlush(w, i, c) && !i.flushEx && w' == AccSystem.Next(w, i, c) && InWindow(w.sb, p) && p >= c.retired
    ensures InWindow(w'.sb, p - c.retired)
  {
    hide PortShows, IssueRule, AnswerRule, Step, Written;
    forall q | 0 <= q < p - c.retired ensures w'.sb[q].done {
      assert w'.sb[q] == Written(w.sb[q + c.retired], i, c);
      WrittenStaysDone(w.sb[q + c.retired], i, c);
    }
  }

  /** No flush of the execute stage from cycle `t` up to cycle `u`. */
  predicate Quiet(ins: seq<Input>, t: nat, u: nat)
    requires t <= u <= |ins|
  {
    forall k :: t <= k < u ==> !ins[k].flushEx
  }

  /** In cycle `u`, counted from a state with `n` instructions gone and `f` the next: it has left, or it still is the
      oldest one and close to the spill register. */
  ghost predicate OnItsWay(w: World, n: nat, f: Insn, distance: int)
  {
    || (|w.left| > n && w.left[n] == f)
    || (|w.left| == n && HeadAtCommit(w) && Flight(w)[0] == f && Distance(w.r) <= distance)
  }

  lemma OnItsWayStep(w: World, pos: seq<nat>, i: Input, c: Choice, w': World, pos': seq<nat>, n: nat, f: Insn, d: nat)
    requires Inv(w, pos) && Env(w, i, c) && w' == AccSystem.Next(w, i, c) && Inv(w', pos') && !i.flushEx
    requires OnItsWay(w, n, f, d)
    ensures OnItsWay(w', n, f, if d == 0 then 0 else d - 1)
    ensures d == 0 && i.reqReady ==> |w'.left| > n && w'.left[n] == f
  {
    if |w.left| == n {
      assert w.r.spill != [] ==> Flight(w)[0] == w.r.spill[0];
      if !Handshake(w.r, i) {
        HeadStays(w, pos, i, c, w', pos');
        if w.r.spill == [] {
          ComesCloser(w, pos, i, c);
        } else {
          SpillStays(w.r, i);
        }
      }
    }
  }

  lemma {:induction false} StaysOnItsWay(
    ws: seq<World>, ins: seq<Input>, cs: seq<Choice>, t: nat, u: nat, f: Insn)
    requires IsRun(ws, ins, cs) && t <= u <= |ins| && Quiet(ins, t, u)
    requires HeadAtCommit(ws[t]) && Flight(ws[t])[0] == f
    ensures OnItsWay(ws[u], |ws[t].left|, f, if u - t < 3 then 3 - (u - t) else 0)
  {
    assert |ws| == |ins| + 1;
    hide IsRun, OnItsWay, HeadAtCommit, Flight;
    if u == t {
      StartsOnItsWay(ws[t], f);
    } else {
      StaysOnItsWay(ws, ins, cs, t, u - 1, f);
      var d := if u - 1 - t < 3 then 3 - (u - 1 - t) else 0;
      StepOfRun(ws, ins, cs, u - 1, |ws[t].left|, f, d);
    }
  }

  lemma StartsOnItsWay(w: World, f: Insn)
    requires HeadAtCommit(w) && Flight(w)[0] == f
    ensures OnItsWay(w, |w.left|, f, 3)
  {
  }

  lemma StepOfRun(ws: seq<World>, ins: seq<Input>, cs: seq<Choice>, t: nat, n: nat, f: Insn, d: nat)
    requires IsRun(ws, ins, cs) && t < |ins| && !ins[t].flushEx && OnItsWay(ws[t], n, f, d)
    ensures OnItsWay(ws[t + 1], n, f, if d == 0 then 0 else d - 1)
    ensures d == 0 && ins[t].reqReady ==> |ws[t + 1].left| > n && ws[t + 1].left[n] == f
  {
    var pos := RunInv(ws, ins, cs, t);
    var pos' := RunInv(ws, ins, cs, t + 1);
    OnItsWayStep(ws[t], pos, ins[t], cs[t], ws[t + 1], pos', n, f, d);
  }

  /** An unfinished accelerator instruction in the commit window that is still held is the oldest held one. */
  lemma WaitingIsHead(w: World, pos: seq<nat>, p: nat)
    requires Inv(w, pos) && InWindow(w.sb, p) && w.sb[p].toAcc && !w.sb[p].done && w.sb[p].insn in Flight(w)
    ensures HeadAtCommit(w) && Flight(w)[0] == w.sb[p].insn
  {
    var flight := Flight(w);
    var k :| 0 <= k < |flight| && flight[k] == w.sb[p].insn;
    PlaceOf(w.sb, flight, pos, k, p);
    assert pos[0] <= p && !w.sb[pos[0]].done;
  }

  /** Progress: an accelerator instruction in the commit window, whatever its operation, has reached the spill
      register or left within three cycles without a flush, and leaves in the first cycle after that in which
      the accelerator is ready. It is the next one to leave. */
  lemma Leaves(ws: seq<World>, ins: seq<Input>, cs: seq<Choice>, t: nat, p: nat, u: nat)
    requires IsRun(ws, ins, cs) && t + 3 <= u < |ins| && Quiet(ins, t, u + 1)
    requires InWindow(ws[t].sb, p) && ws[t].sb[p].toAcc && !ws[t].sb[p].done && ws[t].sb[p].insn in Flight(ws[t])
    ensures var w, f, n := ws[u], ws[t].sb[p].insn, |ws[t].left|;
      && ((|w.left| > n && w.left[n] == f) || (|w.left| == n && w.r.spill != [] && w.r.spill[0] == f))
      && (ins[u].reqReady ==> |ws[u + 1].left| > n && ws[u + 1].left[n] == f)
  {
    var f := ws[t].sb[p].insn;
    var pos := RunInv(ws, ins, cs, t);
    WaitingIsHead(ws[t], pos, p);
    StaysOnItsWay(ws, ins, cs, t, u, f);
    StepOfRun(ws, ins, cs, u, |ws[t].left|, f, 0);
  }

  // ---- the issue stall and the barrier ----

  /** An accelerator instruction waits for the queue only, and only while two or three are queued; other
      instructions never wait for the dispatcher. */
  lemma AccelStallsExactly(ws: seq<World>, ins: seq<Input>, cs: seq<Choice>, t: nat)
    requires IsRun(ws, ins, cs) && t < |ins|
    ensures ins[t].issueFu == Accel ==> (IssueStall(ws[t].r, ins[t]) <==> |ws[t].r.queue| in {2, 3})
    ensures ins[t].issueFu == OtherFu || (!ins[t].consEn && ins[t].issueFu != Accel) ==> !IssueStall(ws[t].r, ins[t])
  {
    var pos := RunInv(ws, ins, cs, t);
  }

  /** The core is halted by a store barrier exactly from the cycle after it as long as the accelerator has
      reported pending stores in every cycle since. */
  lemma {:induction false} BarrierHolds(ws: seq<World>, ins: seq<Input>, cs: seq<Choice>, t: nat)
    requires IsRun(ws, ins, cs) && t <= |ins|
    ensures ws[t].r.waitStore <==>
            exists s :: 0 <= s < t && ins[s].storeBarrier && forall k :: s <= k < t ==> ins[k].accStorePending
  {
    if t > 0 {
      BarrierHolds(ws, ins, cs, t - 1);
      if ws[t - 1].r.waitStore {
        var s :| 0 <= s < t - 1 && ins[s].storeBarrier && forall k :: s <= k < t - 1 ==> ins[k].accStorePending;
        assert 0 <= s < t && ins[s].storeBarrier;
      }
      assert ws[t].r == Step(ws[t - 1].r, ins[t - 1]);
    }
  }
}
