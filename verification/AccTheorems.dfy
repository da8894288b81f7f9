/** What the dispatcher guarantees in every cycle of every run. */
module AccTheorems {
  import opened AccDispatcher
  import opened AccSystem

  predicate IsRun(ws: seq<World>, ins: seq<Input>, cs: seq<Choice>)
  {
    && |cs| == |ins|
    && |ws| == |ins| + 1
    && ws[0] == INITIAL
    && forall t :: 0 <= t < |ins| ==> Env(ws[t], ins[t], cs[t]) && ws[t + 1] == AccSystem.Next(ws[t], ins[t], cs[t])
  }

  /** The invariant holds in every reachable cycle. */
  lemma {:induction false} RunInv(ws: seq<World>, ins: seq<Input>, cs: seq<Choice>, t: nat) returns (pos: seq<nat>)
    requires IsRun(ws, ins, cs) && t <= |ins|
    ensures Inv(ws[t], pos)
  {
    if t == 0 {
      pos := [];
    } else {
      var before := RunInv(ws, ins, cs, t - 1);
      pos := InvStep(ws[t - 1], before, ins[t - 1], cs[t - 1], ws[t]);
    }
  }

  /** Instruction `f` is unfinished and has reached the commit window: it is one of the two oldest
      scoreboard entries and everything older is finished. */
  ghost predicate AtCommit(sb: seq<SbEntry>, f: Insn)
  {
    exists p: nat :: InWindow(sb, p) && sb[p].toAcc && !sb[p].done && sb[p].insn == f
  }

  /** The id that commit releases is always the head of the queue. A request is offered only for the
      head of the queue once it has reached the commit window, and always to an empty spill register.
      What the accelerator takes is still the unfinished instruction in the commit window. */
  lemma OnlyAtCommit(ws: seq<World>, ins: seq<Input>, cs: seq<Choice>, t: nat)
    requires IsRun(ws, ins, cs) && t < |ins|
    ensures var w, i := ws[t], ins[t];
      && (Releases(w.r, i) ==> w.r.queue != [] && w.r.queue[0].id == CommitId(i))
      && (ReqValid(w.r, i) ==> w.r.spill == [] && w.r.queue != [] && AtCommit(w.sb, w.r.queue[0]))
      && (Handshake(w.r, i) ==> AtCommit(w.sb, w.r.spill[0]))
  {
    var w, i, c := ws[t], ins[t], cs[t];
    var pos := RunInv(ws, ins, cs, t);
    if Releases(w.r, i) {
      ReleasedIsHead(w, pos, i, c);
    }
    if ReqValid(w.r, i) {
      OfferedIsHead(w, pos, i, c);
      assert InWindow(w.sb, pos[0]);
    }
    if Handshake(w.r, i) {
      SpillAtCommit(w, pos);
    }
  }

  lemma SpillAtCommit(w: World, pos: seq<nat>)
    requires Inv(w, pos) && w.r.spill != []
    ensures AtCommit(w.sb, w.r.spill[0])
  {
    SpilledNotPending(w, pos, 0);
    DistinctFlight(w.sb, Flight(w), pos);
    assert w.r.accValid ==> Flight(w)[|Flight(w)| - 1] == w.operands;
    assert NonSpeculative(w, w.sb[pos[0]]);
    assert InWindow(w.sb, pos[0]);
  }

  /** The accelerator takes the issued instructions in program order, each exactly once: what has left
      and what is still held make up the program, and a flush leaves nothing behind. Pushes never meet
      a full queue. */
  lemma InOrderExactlyOnce(ws: seq<World>, ins: seq<Input>, cs: seq<Choice>, t: nat)
    requires IsRun(ws, ins, cs) && t < |ins|
    ensures ws[t].program == ws[t].left + Flight(ws[t])
    ensures ws[t].r.accValid ==> |ws[t].r.queue| < QUEUE_DEPTH
    ensures ins[t].flushEx ==> Flight(ws[t + 1]) == [] && ws[t + 1].r.ready == {}
  {
    var pos := RunInv(ws, ins, cs, t);
    if ins[t].flushEx {
      FlushEmpties(ws[t], pos, ins[t], cs[t]);
    }
  }

  /** An accelerator store (load) that has been issued and has not completed. */
  predicate Incomplete(w: World, op: Op, out: int)
  {
    out != 0 || exists f :: f in Speculative(w) && f.op == op
  }

  lemma {:induction false} CountIsMembership(s: seq<Insn>, op: Op)
    ensures CountOp(s, op) == 0 <==> forall f :: f in s ==> f.op != op
  {
    if s != [] {
      CountIsMembership(s[1..], op);
      assert s == [s[0]] + s[1..];
    }
  }

  /** The stall is exact modulo the width of the counters: in consistent mode a scalar load waits if
      and only if an accelerator store is held speculatively or the number of dispatched, incomplete
      stores is not a multiple of eight; a scalar store also waits for loads. */
  lemma StallExact(ws: seq<World>, ins: seq<Input>, cs: seq<Choice>, t: nat)
    requires IsRun(ws, ins, cs) && t < |ins| && ins[t].consEn
    ensures var w, i := ws[t], ins[t];
      && (i.issueFu == Load ==> (IssueStall(w.r, i) <==> Incomplete(w, AccStore, w.outStores % 8)))
      && (i.issueFu == Store ==> (IssueStall(w.r, i) <==>
            Incomplete(w, AccStore, w.outStores % 8) || Incomplete(w, AccLoad, w.outLoads % 8)))
  {
    var pos := RunInv(ws, ins, cs, t);
    CountIsMembership(Speculative(ws[t]), AccLoad);
    CountIsMembership(Speculative(ws[t]), AccStore);
  }

  /** With at most seven dispatched accesses outstanding: in consistent mode no scalar load issues
      while an accelerator store is incomplete, and no scalar store while any accelerator access is. */
  lemma ScalarAccessesWait(ws: seq<World>, ins: seq<Input>, cs: seq<Choice>, t: nat)
    requires IsRun(ws, ins, cs) && t < |ins|
    requires ins[t].consEn && ins[t].issueHs && ws[t].outLoads <= 7 && ws[t].outStores <= 7
    ensures ins[t].issueFu == Load || ins[t].issueFu == Store ==> !Incomplete(ws[t], AccStore, ws[t].outStores)
    ensures ins[t].issueFu == Store ==> !Incomplete(ws[t], AccLoad, ws[t].outLoads)
  {
    var pos := RunInv(ws, ins, cs, t);
    StallExact(ws, ins, cs, t);
  }

  /** After any run, a flush leaves the dispatcher clean if and only if it keeps the flush rule. */
  lemma FlushExactly(ws: seq<World>, ins: seq<Input>, cs: seq<Choice>, i: Input, c: Choice)
    requires IsRun(ws, ins, cs) && EnvNoFlush(ws[|ins|], i, c) && i.flushEx && i.flushUnissued
    ensures var w' := AccSystem.Next(ws[|ins|], i, c);
            FlushRule(ws[|ins|], i) <==> Flight(w') == [] && w'.r.ready == {}
  {
    var w := ws[|ins|];
    var pos := RunInv(ws, ins, cs, |ins|);
    FlushRuleExactly(w, pos, i);
    FlushCleanExactly(w, pos, i, c);
  }

  // ---- the flush rule is needed ----

  const QUIET := Input(false, OtherFu, false, Insn(0, AccOther, 0), Insn(1, AccOther, 7),
                       CommitPort(false, OtherFu, 0), CommitPort(false, OtherFu, 1),
                       false, false, false, false, false, false, 0, false, false, false)

  /** Two instructions: a scalar one with id 0 and an accelerator one with id 1 behind it. */
  function IssueScalar(): Input
  {
    QUIET.(issueHs := true)
  }

  function IssueVector(operands: int): Input
  {
    QUIET.(issueHs := true, issueFu := Accel, issueInsn := Insn(1, AccOther, operands),
           commit0 := CommitPort(false, OtherFu, 0))
  }

  function Behind(scalarDone: bool): Input
  {
    QUIET.(commit0 := CommitPort(scalarDone, OtherFu, 0), commit1 := CommitPort(false, Accel, 1))
  }

  /** The seven cycles: issue both, let the scalar one finish, flush in the cycle in which commit
      releases the vector one, and issue two new instructions with the same ids. */
  function FlushScenario(t: nat): Input
  {
    match t
    case 0 => IssueScalar()
    case 1 => IssueVector(7)
    case 2 => Behind(false)
    case 3 => Behind(true).(flushEx := true, flushUnissued := true)
    case 4 => IssueScalar()
    case 5 => IssueVector(7)
    case _ => Behind(false)
  }

  function ScenarioChoice(t: nat): Choice
  {
    Choice(0, if t == 2 then {0} else {}, false)
  }

  const SCALAR := SbEntry(0, OtherFu, false, Insn(0, AccOther, 0), false)
  const VECTOR := SbEntry(1, Accel, true, Insn(1, AccOther, 7), false)

  function Expected(t: nat): World
  {
    var v := VECTOR.insn;
    match t
    case 0 => INITIAL
    case 1 => INITIAL.(sb := [SCALAR])
    case 2 => INITIAL.(r := RESET.(accValid := true), sb := [SCALAR, VECTOR], operands := v, program := [v])
    case 3 => INITIAL.(r := RESET.(queue := [v], pending := {1}), sb := [SCALAR.(done := true), VECTOR],
                       operands := v, program := [v])
    case 4 => INITIAL.(r := RESET.(ready := {1}), operands := v)
    case 5 => INITIAL.(r := RESET.(ready := {1}), operands := v, sb := [SCALAR])
    case _ => INITIAL.(r := RESET.(accValid := true, ready := {1}), sb := [SCALAR, VECTOR],
                       operands := v, program := [v])
  }

  lemma ScenarioSb(t: nat)
    requires t < 6
    ensures SbNext(Expected(t).sb, FlushScenario(t), ScenarioChoice(t)) == Expected(t + 1).sb
  {
  }

  lemma ScenarioBits(t: nat)
    requires t < 6
    ensures PendingNext(Expected(t).r, FlushScenario(t)) == Expected(t + 1).r.pending
    ensures ReadyNext(Expected(t).r, FlushScenario(t)) == Expected(t + 1).r.ready
    ensures !Handshake(Expected(t).r, FlushScenario(t)) && !ReqValid(Expected(t).r, FlushScenario(t))
  {
  }

  lemma ScenarioRegs(t: nat)
    requires t < 6
    ensures Step(Expected(t).r, FlushScenario(t)) == Expected(t + 1).r
  {
    ScenarioBits(t);
    hide PendingNext, ReadyNext;
    var r, i, r' := Expected(t).r, FlushScenario(t), Expected(t + 1).r;
    assert QueueNext(r, i) == r'.queue;
    assert SpillNext(r, i) == r'.spill;
  }

  /** What makes up a cycle without a request or a hand-over. */
  lemma NextOf(w: World, i: Input, c: Choice, w': World)
    requires c.retired <= |w.sb| && SbNext(w.sb, i, c) == w'.sb && Step(w.r, i) == w'.r
    requires !Handshake(w.r, i) && !ReqValid(w.r, i) && !i.loadComplete && !i.storeComplete
    requires w'.operands == (if AccIssue(i) then i.issueInsn else w.operands) && w'.left == w.left
    requires w'.program == if i.flushEx then w.left else w.program + if AccIssue(i) then [i.issueInsn] else []
    requires w'.outLoads == w.outLoads && w'.outStores == w.outStores
    ensures AccSystem.Next(w, i, c) == w'
  {
    hide Step, SbNext, ReqValid, Handshake, AccIssue;
    assert w.left + [] == w.left;
  }

  lemma ScenarioProgram(t: nat)
    requires t < 6
    ensures var w, i, w' := Expected(t), FlushScenario(t), Expected(t + 1);
      && w'.operands == (if AccIssue(i) then i.issueInsn else w.operands) && w'.left == w.left == []
      && w'.program == if i.flushEx then [] else w.program + if AccIssue(i) then [i.issueInsn] else []
  {
  }

  lemma ScenarioStep(t: nat)
    requires t < 6
    ensures AccSystem.Next(Expected(t), FlushScenario(t), ScenarioChoice(t)) == Expected(t + 1)
  {
    ScenarioSb(t);
    ScenarioBits(t);
    ScenarioRegs(t);
    ScenarioProgram(t);
    hide Step, SbNext, ReqValid, Handshake, AccIssue, PendingNext, ReadyNext, AccSystem.Next;
    NextOf(Expected(t), FlushScenario(t), ScenarioChoice(t), Expected(t + 1));
  }

  lemma ScenarioEnv(t: nat)
    requires t < 7
    ensures EnvNoFlush(Expected(t), FlushScenario(t), ScenarioChoice(t))
    ensures FlushRule(Expected(t), FlushScenario(t)) <==> t != 3
  {
  }

  /** If a flush comes in the very cycle in which commit releases a pending id, the ready bit is set
      although the queue is emptied, and the next instruction with that id is offered to the
      accelerator while an older one is still unfinished. Every other rule is kept in every cycle. */
  lemma FlushRuleNeeded(w: seq<World>)
    requires |w| == 7 && w[0] == INITIAL
    requires forall t :: 0 <= t < 6 ==> w[t + 1] == AccSystem.Next(w[t], FlushScenario(t), ScenarioChoice(t))
    ensures forall t :: 0 <= t < 7 ==> EnvNoFlush(w[t], FlushScenario(t), ScenarioChoice(t))
    ensures forall t :: 0 <= t < 7 ==> (FlushRule(w[t], FlushScenario(t)) <==> t != 3)
    ensures ReqValid(w[6].r, FlushScenario(6)) && !AtCommit(w[6].sb, Visible(w[6].r, FlushScenario(6))[0])
  {
    for t := 0 to 6
      invariant forall u :: 0 <= u <= t ==> w[u] == Expected(u)
    {
      ScenarioStep(t);
    }
    forall t | 0 <= t < 7
      ensures EnvNoFlush(w[t], FlushScenario(t), ScenarioChoice(t))
      ensures FlushRule(w[t], FlushScenario(t)) <==> t != 3
    {
      ScenarioEnv(t);
    }
  }

  // ---- eight outstanding stores are not seen ----

  const STORE := Insn(0, AccStore, 0)

  /** A round of five cycles: issue an accelerator store, wait, release it, let the accelerator take and
      answer it, retire it. It never completes. */
  function RoundInput(j: nat): Input
  {
    match j
    case 0 => QUIET.(issueHs := true, issueFu := Accel, issueInsn := STORE)
    case 1 => QUIET.(fuData := STORE, commit0 := CommitPort(false, Accel, 0))
    case 2 => QUIET.(commit0 := CommitPort(false, Accel, 0))
    case 3 => QUIET.(commit0 := CommitPort(false, Accel, 0), reqReady := true, respValid := true)
    case _ => QUIET.(commit0 := CommitPort(true, Accel, 0))
  }

  function RoundChoice(j: nat): Choice
  {
    Choice(if j == 4 then 1 else 0, {}, false)
  }

  function Stores(k: nat): (s: seq<Insn>)
    ensures |s| == k
  {
    seq(k, _ => STORE)
  }

  lemma StoresSnoc(k: nat)
    ensures Stores(k) + [STORE] == Stores(k + 1)
  {
  }

  /** The world in cycle `j` of the round after `k` rounds; `first` is the operand register at the start. */
  function RoundWorld(k: nat, j: nat): World
  {
    var operands := if k == 0 && j == 0 then INITIAL.operands else STORE;
    var r := RESET.(dispStores := (if j < 3 then k else k + 1) % 8);
    var entry := SbEntry(0, Accel, true, STORE, j == 4);
    World(
      match j
      case 1 => r.(accValid := true, specStores := 1)
      case 2 => r.(queue := [STORE], pending := {0}, specStores := 1)
      case 3 => r.(ready := {0}, spill := [STORE])
      case _ => r,
      if 1 <= j <= 4 then [entry] else [],
      operands,
      Stores(if j == 0 then k else k + 1), Stores(if j < 4 then k else k + 1),
      0, if j < 3 then k else k + 1)
  }

  lemma RoundRegs(k: nat, j: nat)
    requires j < 5
    ensures Step(RoundWorld(k, j).r, RoundInput(j)) == RoundWorld(k, j + 1).r
  {
    var r, i := RoundWorld(k, j).r, RoundInput(j);
    assert Visible(r, i) == if j == 1 || j == 2 then [STORE] else [];
    assert QueueNext(r, i) == RoundWorld(k, j + 1).r.queue;
    assert SpillNext(r, i) == RoundWorld(k, j + 1).r.spill;
    assert PendingNext(r, i) == RoundWorld(k, j + 1).r.pending;
    assert ReadyNext(r, i) == RoundWorld(k, j + 1).r.ready;
  }

  lemma RoundSb(k: nat, j: nat)
    requires j < 5
    ensures RoundChoice(j).retired <= |RoundWorld(k, j).sb|
    ensures SbNext(RoundWorld(k, j).sb, RoundInput(j), RoundChoice(j)) == RoundWorld(k, j + 1).sb
  {
  }

  lemma RoundNext(k: nat, j: nat)
    requires j < 5
    ensures RoundChoice(j).retired <= |RoundWorld(k, j).sb|
    ensures AccSystem.Next(RoundWorld(k, j), RoundInput(j), RoundChoice(j)) == RoundWorld(k, j + 1)
  {
    RoundRegs(k, j);
    RoundSb(k, j);
    StoresSnoc(k);
  }

  lemma RoundEnv(k: nat, j: nat)
    requires j < 5
    ensures Env(RoundWorld(k, j), RoundInput(j), RoundChoice(j))
  {
  }

  /** A round ends where the next one begins, and the first one begins at reset. */
  lemma RoundsJoin(k: nat)
    ensures RoundWorld(k, 5) == RoundWorld(k + 1, 0)
    ensures RoundWorld(0, 0) == INITIAL
  {
  }

  /** The world in cycle `t` when round follows round. */
  function RoundAt(t: nat): World
  {
    RoundWorld(t / 5, t % 5)
  }

  lemma NextInRound(t: nat, k: nat, j: nat)
    requires t == 5 * k + j && j < 5
    ensures RoundAt(t) == RoundWorld(k, j) && RoundAt(t + 1) == RoundWorld(k, j + 1)
  {
    assert t / 5 == k && t % 5 == j;
    if j == 4 {
      RoundsJoin(k);
      assert (t + 1) / 5 == k + 1 && (t + 1) % 5 == 0;
    } else {
      assert (t + 1) / 5 == k && (t + 1) % 5 == j + 1;
    }
  }

  lemma RoundStep(w: World, k: nat, j: nat, w': World)
    requires j < 5 && w == RoundWorld(k, j) && w' == RoundWorld(k, j + 1)
    ensures Env(w, RoundInput(j), RoundChoice(j)) && w' == AccSystem.Next(w, RoundInput(j), RoundChoice(j))
  {
    RoundEnv(k, j);
    RoundNext(k, j);
  }

  /** Any number of cycles of such rounds is a run. */
  lemma RoundsAreARun(n: nat) returns (ws: seq<World>, ins: seq<Input>, cs: seq<Choice>)
    ensures IsRun(ws, ins, cs) && |ins| == n && ws[n] == RoundAt(n)
  {
    RoundsJoin(0);
    ws := seq(n + 1, t requires 0 <= t => RoundAt(t));
    ins := seq(n, t requires 0 <= t => RoundInput(t % 5));
    cs := seq(n, t requires 0 <= t => RoundChoice(t % 5));
    forall t | 0 <= t < n
      ensures Env(ws[t], ins[t], cs[t]) && ws[t + 1] == AccSystem.Next(ws[t], ins[t], cs[t])
    {
      NextInRound(t, t / 5, t % 5);
      RoundStep(ws[t], t / 5, t % 5, ws[t + 1]);
    }
  }

  /** One more cycle that keeps the rules. */
  lemma RunSnoc(ws: seq<World>, ins: seq<Input>, cs: seq<Choice>, i: Input, c: Choice, w': World)
    requires IsRun(ws, ins, cs) && Env(ws[|ins|], i, c) && w' == AccSystem.Next(ws[|ins|], i, c)
    ensures IsRun(ws + [w'], ins + [i], cs + [c])
  {
    var ws', ins', cs' := ws + [w'], ins + [i], cs + [c];
    forall t | 0 <= t < |ins'|
      ensures Env(ws'[t], ins'[t], cs'[t]) && ws'[t + 1] == AccSystem.Next(ws'[t], ins'[t], cs'[t])
    {
      if t < |ins| {
        assert ws'[t] == ws[t] && ws'[t + 1] == ws[t + 1] && ins'[t] == ins[t] && cs'[t] == cs[t];
      }
    }
  }

  /** A scalar load that asks to issue in consistent mode. */
  const LOAD := QUIET.(issueFu := Load, consEn := true)

  /** Every number of incomplete stores is reached by a run, and a load then waits unless the number is a
      multiple of eight. */
  lemma OutstandingStores(k: nat) returns (ws: seq<World>, ins: seq<Input>, cs: seq<Choice>)
    ensures IsRun(ws, ins, cs) && ws[|ins|].outStores == k && ws[|ins|].sb == [] && !ws[|ins|].r.accValid
    ensures IssueStall(ws[|ins|].r, LOAD) <==> k % 8 != 0
  {
    ws, ins, cs := RoundsAreARun(5 * k);
    assert RoundAt(5 * k) == RoundWorld(k, 0);
  }

  /** So with eight of them a load issues, in a run that keeps every rule to the end. */
  lemma EightStoresAreMissed() returns (ws: seq<World>, ins: seq<Input>, cs: seq<Choice>, t: nat)
    ensures IsRun(ws, ins, cs) && t < |ins| && ws[t].outStores == 8
    ensures ins[t].consEn && ins[t].issueHs && ins[t].issueFu == Load && Incomplete(ws[t], AccStore, ws[t].outStores)
  {
    ws, ins, cs := OutstandingStores(8);
    t := |ins|;
    var i, c := LOAD.(issueHs := true), Choice(0, {}, false);
    assert IssueStall(ws[t].r, i) == IssueStall(ws[t].r, LOAD);
    var w' := AccSystem.Next(ws[t], i, c);
    RunSnoc(ws, ins, cs, i, c, w');
    ws, ins, cs := ws + [w'], ins + [i], cs + [c];
  }
}
