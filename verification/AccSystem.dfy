/** The dispatcher in its environment: an in-order scoreboard, the issue stage, the controller and an
    accelerator, and what holds in every cycle of every run. */
module AccSystem {
  import opened AccDispatcher
  import opened Common

  /** A scoreboard entry, oldest first. `toAcc` says that the instruction went to the dispatcher. */
  datatype SbEntry = SbEntry(id: nat, fu: Fu, toAcc: bool, insn: Insn, done: bool)

  /** The registers together with what the rest of the core knows. `operands` is the operand register
      of the issue stage, `program` the accelerator instructions that were issued and not flushed,
      `left` those the accelerator took, and `outLoads`, `outStores` the dispatched, incomplete ones. */
  datatype World = World(r: Regs, sb: seq<SbEntry>, operands: Insn,
                         program: seq<Insn>, left: seq<Insn>, outLoads: int, outStores: int)

  /** What the other units decide in a cycle: how many entries retire, which scalar instructions
      finish, and whether the issued scalar instruction is born finished. */
  datatype Choice = Choice(retired: nat, finished: set<nat>, bornDone: bool)

  const INITIAL := World(RESET, [], Insn(0, AccOther, 0), [], [], 0, 0)

  /** The queue and the issue register. */
  function Speculative(w: World): seq<Insn>
  {
    w.r.queue + if w.r.accValid then [w.operands] else []
  }

  /** The instructions the dispatcher still holds, oldest first. */
  function Flight(w: World): seq<Insn>
  {
    w.r.spill + Speculative(w)
  }

  // ---- the environment ----

  predicate HasId(sb: seq<SbEntry>, id: nat)
  {
    exists e :: e in sb && e.id == id
  }

  /** Commit port `k` shows the k-th oldest entry; beyond the last entry it shows stale contents. */
  predicate PortShows(sb: seq<SbEntry>, k: nat, p: CommitPort)
  {
    if k < |sb| then p == CommitPort(sb[k].done, sb[k].fu, sb[k].id)
    else !p.valid && !HasId(sb, p.id)
  }

  /** The instruction has been made non-speculative. */
  predicate NonSpeculative(w: World, e: SbEntry)
  {
    e.id !in w.r.pending && !(w.r.accValid && w.operands.id == e.id)
  }

  /** The accelerator has taken the instruction, at the latest in this cycle. */
  predicate Accepted(w: World, i: Input, e: SbEntry)
  {
    e.insn !in Flight(w) || (Handshake(w.r, i) && w.r.spill[0] == e.insn)
  }

  predicate IssueRule(w: World, i: Input)
  {
    i.issueHs ==> !IssueStall(w.r, i) && !HasId(w.sb, i.issueInsn.id)
  }

  predicate AnswerRule(w: World, i: Input)
  {
    i.respValid ==> forall e :: e in w.sb && e.id == i.respId ==> e.toAcc && !e.done && Accepted(w, i, e)
  }

  /** A flush comes with a flush of the unissued instructions, in no cycle that releases a pending id, and
      not before the accelerator has taken every instruction that was made non-speculative. */
  predicate FlushRule(w: World, i: Input)
  {
    i.flushEx ==>
      && i.flushUnissued
      && !Releases(w.r, i)
      && forall e :: e in w.sb && e.toAcc && !e.done && NonSpeculative(w, e) ==>
           Accepted(w, i, e)
  }

  /** Everything but the flush rule. */
  predicate EnvNoFlush(w: World, i: Input, c: Choice)
  {
    && PortShows(w.sb, 0, i.commit0)
    && PortShows(w.sb, 1, i.commit1)
    && (w.r.accValid ==> i.fuData == w.operands)
    && IssueRule(w, i)
    && AnswerRule(w, i)
    && c.retired <= |w.sb| && c.retired <= 2
    && (forall k :: 0 <= k < c.retired ==> w.sb[k].done)
    && (forall e :: e in w.sb && e.id in c.finished ==> !e.toAcc)
    && (i.loadComplete ==> w.outLoads > 0)
    && (i.storeComplete ==> w.outStores > 0)
  }

  predicate Env(w: World, i: Input, c: Choice)
  {
    EnvNoFlush(w, i, c) && FlushRule(w, i)
  }

  // ---- one cycle ----

  function Written(e: SbEntry, i: Input, c: Choice): SbEntry
  {
    e.(done := e.done || e.id in c.finished || (i.respValid && e.id == i.respId))
  }

  function SbNext(sb: seq<SbEntry>, i: Input, c: Choice): (sb': seq<SbEntry>)
    requires c.retired <= |sb|
    ensures !i.flushEx ==> |sb'| == |sb| - c.retired + Bit(i.issueHs && !i.flushUnissued)
    ensures !i.flushEx ==> forall k :: 0 <= k < |sb| - c.retired ==> sb'[k] == Written(sb[k + c.retired], i, c)
  {
    if i.flushEx then []
    else seq(|sb| - c.retired, k requires 0 <= k < |sb| - c.retired => Written(sb[k + c.retired], i, c))
         + if i.issueHs && !i.flushUnissued
           then [SbEntry(i.issueInsn.id, i.issueFu, AccIssue(i), i.issueInsn, !AccIssue(i) && c.bornDone)]
           else []
  }

  function Next(w: World, i: Input, c: Choice): World
    requires c.retired <= |w.sb|
  {
    var left := w.left + if Handshake(w.r, i) then [w.r.spill[0]] else [];
    World(
      r := Step(w.r, i),
      sb := SbNext(w.sb, i, c),
      operands := if AccIssue(i) then i.issueInsn else w.operands,
      program := if i.flushEx then left else w.program + if AccIssue(i) then [i.issueInsn] else [],
      left := left,
      outLoads := w.outLoads + Bit(Dispatches(w.r, i, AccLoad)) - Bit(i.loadComplete),
      outStores := w.outStores + Bit(Dispatches(w.r, i, AccStore)) - Bit(i.storeComplete))
  }

  // ---- the invariant ----

  predicate Shape(w: World)
  {
    && |w.r.queue| + Bit(w.r.accValid) <= QUEUE_DEPTH
    && |w.r.spill| <= 2
  }

  predicate UniqueIds(sb: seq<SbEntry>)
  {
    && (forall p, q :: 0 <= p < q < |sb| ==> sb[p].id != sb[q].id)
    && (forall p :: 0 <= p < |sb| && sb[p].toAcc ==> sb[p].insn.id == sb[p].id && sb[p].fu == Accel)
  }

  /** The held instructions are unfinished scoreboard entries, in program order: `pos[k]` is where the
      k-th one sits. */
  predicate Placed(sb: seq<SbEntry>, flight: seq<Insn>, pos: seq<nat>)
  {
    && |pos| == |flight|
    && (forall k :: 0 <= k < |pos| ==>
          pos[k] < |sb| && sb[pos[k]].toAcc && !sb[pos[k]].done && sb[pos[k]].insn == flight[k])
    && (forall j, k :: 0 <= j < k < |pos| ==> pos[j] < pos[k])
  }

  predicate IdIn(s: seq<Insn>, id: nat)
  {
    exists k :: 0 <= k < |s| && s[k].id == id
  }

  /** A queued instruction is either pending or ready, and a ready bit outlives the queue entry only
      until the spill register has shown the request. */
  predicate Bits(r: Regs)
  {
    && (forall x :: x in r.pending ==> IdIn(r.queue, x))
    && (forall k :: 0 <= k < |r.queue| ==> r.queue[k].id in r.pending || r.queue[k].id in r.ready)
    && (forall x :: x in r.ready ==> x !in r.pending && (IdIn(r.spill, x) || IdIn(r.queue, x)))
  }

  /** A released, unanswered instruction is one of the two oldest and everything older is finished. */
  predicate InWindow(sb: seq<SbEntry>, p: nat)
  {
    p < |sb| && p < 2 && forall q :: 0 <= q < p ==> sb[q].done
  }

  predicate ReleasedInOrder(w: World)
  {
    forall p :: 0 <= p < |w.sb| && w.sb[p].toAcc && !w.sb[p].done && NonSpeculative(w, w.sb[p]) ==> InWindow(w.sb, p)
  }

  function CountOp(s: seq<Insn>, op: Op): nat
  {
    if s == [] then 0 else Bit(s[0].op == op) + CountOp(s[1..], op)
  }

  predicate Counters(w: World)
  {
    && w.r.specLoads == CountOp(Speculative(w), AccLoad)
    && w.r.specStores == CountOp(Speculative(w), AccStore)
    && w.outLoads >= 0 && w.r.dispLoads == w.outLoads % 8
    && w.outStores >= 0 && w.r.dispStores == w.outStores % 8
  }

  predicate Inv(w: World, pos: seq<nat>)
  {
    && Shape(w)
    && UniqueIds(w.sb)
    && Placed(w.sb, Flight(w), pos)
    && Bits(w.r)
    && ReleasedInOrder(w)
    && Counters(w)
    && w.program == w.left + Flight(w)
  }

  // ---- consequences of the invariant within a cycle ----

  /** The position of a held instruction is determined by its id. */
  lemma PlaceOf(sb: seq<SbEntry>, flight: seq<Insn>, pos: seq<nat>, k: nat, p: nat)
    requires UniqueIds(sb) && Placed(sb, flight, pos)
    requires k < |flight| && p < |sb| && sb[p].id == flight[k].id
    ensures pos[k] == p
  {
    assert sb[pos[k]].id == flight[k].id;
  }

  lemma DistinctFlight(sb: seq<SbEntry>, flight: seq<Insn>, pos: seq<nat>)
    requires UniqueIds(sb) && Placed(sb, flight, pos)
    ensures forall j, k :: 0 <= j < k < |flight| ==> flight[j].id != flight[k].id
  {
    forall j, k | 0 <= j < k < |flight|
      ensures flight[j].id != flight[k].id
    {
      assert sb[pos[j]].id == flight[j].id && sb[pos[k]].id == flight[k].id;
    }
  }

  lemma HeldPosition(w: World, id: nat) returns (g: nat)
    requires IdIn(w.r.spill, id) || IdIn(w.r.queue, id)
    ensures g < |w.r.spill| + |w.r.queue| && Flight(w)[g].id == id
  {
    if IdIn(w.r.spill, id) {
      g :| 0 <= g < |w.r.spill| && w.r.spill[g].id == id;
    } else {
      var k :| 0 <= k < |w.r.queue| && w.r.queue[k].id == id;
      g := |w.r.spill| + k;
    }
  }

  /** The id that commit releases is the head of the queue, and it sits in the commit window. */
  lemma ReleasedIsHead(w: World, pos: seq<nat>, i: Input, c: Choice)
    requires Inv(w, pos) && EnvNoFlush(w, i, c) && Releases(w.r, i)
    ensures w.r.spill == [] && w.r.queue != [] && w.r.queue[0].id == CommitId(i)
    ensures InWindow(w.sb, pos[0])
  {
    var id := CommitId(i);
    var flight := Flight(w);
    var k :| 0 <= k < |w.r.queue| && w.r.queue[k].id == id;
    var f := |w.r.spill| + k;
    assert flight[f] == w.r.queue[k];
    var e := w.sb[pos[f]];
    assert e in w.sb && e.id == id;
    var p := if !i.commit0.valid then 0 else 1;
    assert HasId(w.sb, id);
    assert p < |w.sb| && w.sb[p].id == id;
    PlaceOf(w.sb, flight, pos, f, p);
    assert pos[0] <= pos[f] && !w.sb[pos[0]].done;
    assert f == 0;
  }

  /** A request is only offered for the head of the queue, once that instruction is in the commit
      window, and then the spill register is empty and takes it at once. */
  lemma OfferedIsHead(w: World, pos: seq<nat>, i: Input, c: Choice)
    requires Inv(w, pos) && EnvNoFlush(w, i, c) && ReqValid(w.r, i)
    ensures w.r.spill == [] && w.r.queue != [] && Visible(w.r, i)[0] == w.r.queue[0] == Flight(w)[0]
    ensures InWindow(w.sb, pos[0])
  {
    var h := Visible(w.r, i)[0];
    var flight := Flight(w);
    if h.id in w.r.ready {
      var f := |w.r.spill|;
      assert flight[f] == h;
      var g := HeldPosition(w, h.id);
      DistinctFlight(w.sb, flight, pos);
      assert f == g;
      assert w.r.accValid ==> flight[|flight| - 1] == w.operands;
      assert NonSpeculative(w, w.sb[pos[f]]);
      assert InWindow(w.sb, pos[f]);
      assert pos[0] <= pos[f] && !w.sb[pos[0]].done;
      assert f == 0;
    } else {
      ReleasedIsHead(w, pos, i, c);
    }
  }

  // ---- one cycle keeps the invariant ----

  lemma {:induction false} CountAppend(s: seq<Insn>, t: seq<Insn>, op: Op)
    ensures CountOp(s + t, op) == CountOp(s, op) + CountOp(t, op)
  {
    if s == [] {
      assert s + t == t;
    } else {
      assert (s + t)[1..] == s[1..] + t;
      CountAppend(s[1..], t, op);
    }
  }

  lemma {:induction false} CountBound(s: seq<Insn>, op: Op)
    ensures CountOp(s, op) <= |s|
  {
    if s != [] {
      CountBound(s[1..], op);
    }
  }

  function Issued(i: Input): seq<Insn>
  {
    if AccIssue(i) then [i.issueInsn] else []
  }

  lemma FlightSeq(spill: seq<Insn>, v: seq<Insn>, takes: bool, pops: bool, added: seq<Insn>)
    requires takes ==> spill != []
    requires pops ==> spill == [] && v != []
    ensures (if takes then spill[1..] else spill) + (if pops then [v[0]] else []) + (v[Bit(pops)..] + added)
         == (spill + v)[Bit(takes)..] + added
  {
    assert pops ==> v == [v[0]] + v[1..];
  }

  /** What the sequence arguments need to know about a cycle. */
  predicate Calm(w: World, i: Input)
  {
    && (w.r.accValid ==> |w.r.queue| < QUEUE_DEPTH && i.fuData == w.operands)
    && |w.r.queue| <= QUEUE_DEPTH
    && (ReqValid(w.r, i) ==> w.r.spill == [] && w.r.queue != [])
    && (i.flushEx ==> i.flushUnissued)
  }

  lemma CycleIsCalm(w: World, pos: seq<nat>, i: Input, c: Choice)
    requires Inv(w, pos) && Env(w, i, c)
    ensures Calm(w, i)
  {
    if ReqValid(w.r, i) {
      OfferedIsHead(w, pos, i, c);
    }
  }

  /** Without a flush, a cycle takes at most the oldest held instruction away and adds at most the
      issued one at the end. */
  lemma FlightStep(w: World, i: Input, c: Choice)
    requires Calm(w, i) && !i.flushEx && c.retired <= |w.sb|
    ensures Speculative(Next(w, i, c)) == Speculative(w)[Bit(Pops(w.r, i))..] + Issued(i)
    ensures Flight(Next(w, i, c)) == Flight(w)[Bit(Handshake(w.r, i))..] + Issued(i)
  {
    var v := Visible(w.r, i);
    assert v == Speculative(w);
    assert QueueNext(w.r, i) == v[Bit(Pops(w.r, i))..];
    FlightSeq(w.r.spill, v, Handshake(w.r, i), Pops(w.r, i), Issued(i));
  }

  lemma CountsOf(s: seq<Insn>, popped: bool, i: Input, op: Op)
    requires |s| <= QUEUE_DEPTH && (popped ==> s != [])
    ensures CountOp(s[Bit(popped)..] + Issued(i), op)
         == CountOp(s, op) - Bit(popped && s[0].op == op) + Bit(AccIssue(i) && i.issueInsn.op == op)
    ensures Bit(popped && s[0].op == op) <= CountOp(s, op) <= QUEUE_DEPTH
  {
    CountAppend(s[Bit(popped)..], Issued(i), op);
    CountBound(s, op);
    assert !popped ==> s[Bit(popped)..] == s;
  }

  lemma SpecNextExact(q: nat, r: Regs, i: Input, op: Op)
    requires !i.flushEx && Bit(Dispatches(r, i, op)) <= q <= QUEUE_DEPTH
    ensures SpecNext(q, r, i, op) == q - Bit(Dispatches(r, i, op)) + Bit(AccIssue(i) && i.issueInsn.op == op)
  {
  }

  /** The speculative counters count the queue and the issue register exactly. */
  lemma SpecCounterStep(q: nat, r: Regs, i: Input, op: Op)
    requires q == CountOp(Visible(r, i), op) && |Visible(r, i)| <= QUEUE_DEPTH
    requires (ReqValid(r, i) ==> r.spill == []) && (i.flushEx ==> i.flushUnissued)
    ensures SpecNext(q, r, i, op) == CountOp(QueueNext(r, i) + Issued(i), op)
  {
    if i.flushEx {
      assert QueueNext(r, i) + Issued(i) == [];
    } else {
      var s := Visible(r, i);
      assert QueueNext(r, i) == s[Bit(Pops(r, i))..];
      CountsOf(s, Pops(r, i), i, op);
      SpecNextExact(q, r, i, op);
    }
  }

  /** The dispatched counters count modulo eight. */
  lemma DispCounterStep(q: nat, out: nat, r: Regs, i: Input, op: Op, complete: bool)
    requires q == out % 8 && (complete ==> out > 0)
    ensures DispNext(q, r, i, op, complete) == (out + Bit(Dispatches(r, i, op)) - Bit(complete)) % 8
  {
  }

  /** A held instruction without a pending bit can only be the one that the accelerator takes in the
      cycle of the flush. */
  lemma FlushAllows(w: World, pos: seq<nat>, i: Input, k: nat)
    requires UniqueIds(w.sb) && Placed(w.sb, Flight(w), pos) && FlushRule(w, i) && i.flushEx
    requires k < |w.r.spill| + |w.r.queue| && Flight(w)[k].id !in w.r.pending
    ensures k == 0 && w.r.spill != [] && i.reqReady
  {
    var flight := Flight(w);
    DistinctFlight(w.sb, flight, pos);
    assert w.r.accValid ==> flight[|flight| - 1] == w.operands;
    var e := w.sb[pos[k]];
    assert e in w.sb && NonSpeculative(w, e);
    assert e.insn == flight[k] && e.insn in flight;
    assert w.r.spill != [] ==> flight[0] == w.r.spill[0];
  }

  /** At a flush, everything in the queue is still pending, and the spill register is empty or about
      to be emptied. */
  lemma FlushFinds(w: World, pos: seq<nat>, i: Input)
    requires UniqueIds(w.sb) && Placed(w.sb, Flight(w), pos) && Bits(w.r) && FlushRule(w, i) && i.flushEx
    ensures w.r.spill == [] || (|w.r.spill| == 1 && i.reqReady)
    ensures forall k :: 0 <= k < |w.r.queue| ==> w.r.queue[k].id in w.r.pending
  {
    var flight := Flight(w);
    DistinctFlight(w.sb, flight, pos);
    forall k | 0 <= k < |w.r.queue|
      ensures w.r.queue[k].id in w.r.pending
    {
      assert flight[|w.r.spill| + k] == w.r.queue[k];
      if w.r.queue[k].id !in w.r.pending {
        FlushAllows(w, pos, i, |w.r.spill| + k);
      }
    }
    if w.r.spill != [] {
      SpilledNotPending(w, pos, |w.r.spill| - 1);
      FlushAllows(w, pos, i, |w.r.spill| - 1);
    }
  }

  lemma SpilledNotPending(w: World, pos: seq<nat>, k: nat)
    requires UniqueIds(w.sb) && Placed(w.sb, Flight(w), pos) && Bits(w.r)
    requires k < |w.r.spill|
    ensures Flight(w)[k] == w.r.spill[k] && w.r.spill[k].id !in w.r.pending
  {
    var flight := Flight(w);
    DistinctFlight(w.sb, flight, pos);
    assert forall x :: x in w.r.pending ==> IdIn(w.r.queue, x);
    hide Placed, UniqueIds, Bits;
    assert flight[k] == w.r.spill[k];
    assert forall j :: 0 <= j < |w.r.queue| ==> flight[|w.r.spill| + j] == w.r.queue[j];
  }

  /** The registers and inputs of a flush cycle that leave the dispatcher clean: nothing is released, the
      whole queue is still pending, and the spill register is empty or about to be emptied. */
  predicate CleanFlush(r: Regs, i: Input)
  {
    && !Releases(r, i)
    && (forall k :: 0 <= k < |r.queue| ==> r.queue[k].id in r.pending)
    && (r.spill == [] || (|r.spill| == 1 && i.reqReady))
  }

  lemma CleanFlushEmpties(w: World, pos: seq<nat>, i: Input, c: Choice)
    requires Inv(w, pos) && EnvNoFlush(w, i, c) && i.flushEx && CleanFlush(w.r, i)
    ensures Step(w.r, i).spill == [] && Step(w.r, i).ready == {}
  {
    if ReqValid(w.r, i) {
      OfferedIsHead(w, pos, i, c);
    }
  }

  lemma ReleaseLeavesReady(w: World, pos: seq<nat>, i: Input, c: Choice)
    requires Inv(w, pos) && EnvNoFlush(w, i, c) && Releases(w.r, i)
    ensures Step(w.r, i).ready != {}
  {
    ReleasedIsHead(w, pos, i, c);
    assert CommitId(i) in ReadyNext(w.r, i);
  }

  lemma UncleanFlushLeaves(w: World, pos: seq<nat>, i: Input, c: Choice)
    requires Inv(w, pos) && EnvNoFlush(w, i, c) && i.flushEx
    requires Step(w.r, i).spill == [] && Step(w.r, i).ready == {}
    ensures CleanFlush(w.r, i)
  {
    var flight := Flight(w);
    DistinctFlight(w.sb, flight, pos);
    if Releases(w.r, i) {
      ReleaseLeavesReady(w, pos, i, c);
    }
    forall k | 0 <= k < |w.r.queue|
      ensures w.r.queue[k].id in w.r.pending
    {
      assert flight[|w.r.spill| + k] == w.r.queue[k];
      assert w.r.spill != [] ==> flight[0] == w.r.spill[0];
      assert w.r.queue[k].id !in ReadyNext(w.r, i);
    }
  }

  /** Exactly when a flush leaves neither a request nor a ready bit behind. */
  lemma FlushCleanExactly(w: World, pos: seq<nat>, i: Input, c: Choice)
    requires Inv(w, pos) && EnvNoFlush(w, i, c) && i.flushEx
    ensures Step(w.r, i).spill == [] && Step(w.r, i).ready == {} <==> CleanFlush(w.r, i)
  {
    if CleanFlush(w.r, i) {
      CleanFlushEmpties(w, pos, i, c);
    }
    if Step(w.r, i).spill == [] && Step(w.r, i).ready == {} {
      UncleanFlushLeaves(w, pos, i, c);
    }
  }

  /** The rule demands no more than that: it is the same condition, in terms of the scoreboard. */
  lemma FlushRuleExactly(w: World, pos: seq<nat>, i: Input)
    requires Inv(w, pos) && i.flushEx
    ensures FlushRule(w, i) <==> i.flushUnissued && CleanFlush(w.r, i)
  {
    if FlushRule(w, i) {
      FlushFinds(w, pos, i);
    } else if i.flushUnissued && CleanFlush(w.r, i) {
      forall e | e in w.sb && e.toAcc && !e.done && NonSpeculative(w, e)
        ensures Accepted(w, i, e)
      {
        OnlySpillIsReleased(w, i, e);
      }
    }
  }

  /** Of the held instructions only that of the spill register can be non-speculative in a clean flush. */
  lemma OnlySpillIsReleased(w: World, i: Input, e: SbEntry)
    requires UniqueIds(w.sb) && CleanFlush(w.r, i)
    requires e in w.sb && e.toAcc && NonSpeculative(w, e)
    ensures Accepted(w, i, e)
  {
    var flight := Flight(w);
    assert forall f :: f in flight <==> f in w.r.spill || f in w.r.queue || (w.r.accValid && f == w.operands);
    assert forall f :: f in w.r.queue ==> f.id in w.r.pending;
  }

  /** After a flush under the rule the dispatcher holds nothing and no ready bit is left over. */
  lemma FlushEmpties(w: World, pos: seq<nat>, i: Input, c: Choice)
    requires Inv(w, pos) && Env(w, i, c) && i.flushEx
    ensures var r' := Step(w.r, i); r'.queue == r'.spill == [] && r'.pending == r'.ready == {} && !r'.accValid
  {
    FlushRuleExactly(w, pos, i);
    FlushCleanExactly(w, pos, i, c);
  }

  lemma UniqueIdsStep(w: World, i: Input, c: Choice)
    requires UniqueIds(w.sb) && EnvNoFlush(w, i, c)
    ensures UniqueIds(SbNext(w.sb, i, c))
  {
    var sb' := SbNext(w.sb, i, c);
    assert forall k :: 0 <= k < |w.sb| ==> w.sb[k] in w.sb;
    if !i.flushEx {
      forall p, q | 0 <= p < q < |sb'|
        ensures sb'[p].id != sb'[q].id
      {
        assert sb'[p].id == w.sb[p + c.retired].id;
      }
    }
  }

  /** Where the held instructions sit after a cycle without a flush. */
  function PosNext(w: World, pos: seq<nat>, i: Input, c: Choice): seq<int>
    requires |pos| >= Bit(Handshake(w.r, i)) && c.retired <= |w.sb|
  {
    var h := Bit(Handshake(w.r, i));
    seq(|pos| - h, k requires 0 <= k < |pos| - h => pos[k + h] - c.retired)
    + if AccIssue(i) then [|w.sb| - c.retired] else []
  }

  /** A held instruction that stays is neither retired nor answered. */
  lemma StaysUnfinished(w: World, pos: seq<nat>, i: Input, c: Choice, k: nat)
    requires UniqueIds(w.sb) && Placed(w.sb, Flight(w), pos) && EnvNoFlush(w, i, c)
    requires Bit(Handshake(w.r, i)) <= k < |pos|
    ensures pos[k] >= c.retired && !Written(w.sb[pos[k]], i, c).done
  {
    var flight := Flight(w);
    DistinctFlight(w.sb, flight, pos);
    var e := w.sb[pos[k]];
    assert e in w.sb && e.insn == flight[k] && e.insn in flight;
    assert w.r.spill != [] ==> flight[0] == w.r.spill[0];
  }

  lemma PlacedStep(w: World, pos: seq<nat>, i: Input, c: Choice)
    requires UniqueIds(w.sb) && Placed(w.sb, Flight(w), pos) && EnvNoFlush(w, i, c) && !i.flushEx
    ensures |pos| >= Bit(Handshake(w.r, i))
    ensures forall p :: p in PosNext(w, pos, i, c) ==> p >= 0
    ensures Placed(SbNext(w.sb, i, c), Flight(w)[Bit(Handshake(w.r, i))..] + Issued(i), PosNext(w, pos, i, c))
  {
    forall k | Bit(Handshake(w.r, i)) <= k < |pos|
      ensures pos[k] >= c.retired && !Written(w.sb[pos[k]], i, c).done
    {
      StaysUnfinished(w, pos, i, c, k);
    }
    ShiftPlaced(w.sb, Flight(w), pos, i, c, Bit(Handshake(w.r, i)), PosNext(w, pos, i, c));
  }

  /** Retiring entries at the front of the scoreboard shifts the positions. */
  lemma ShiftPlaced(sb: seq<SbEntry>, flight: seq<Insn>, pos: seq<nat>, i: Input, c: Choice,
                    h: nat, pos': seq<int>)
    requires Placed(sb, flight, pos) && !i.flushEx && c.retired <= |sb| && h <= |pos|
    requires forall k :: h <= k < |pos| ==> pos[k] >= c.retired && !Written(sb[pos[k]], i, c).done
    requires |pos'| == |pos| - h + |Issued(i)|
    requires forall k :: 0 <= k < |pos| - h ==> pos'[k] == pos[k + h] - c.retired
    requires AccIssue(i) ==> pos'[|pos| - h] == |sb| - c.retired
    ensures forall p :: p in pos' ==> p >= 0
    ensures Placed(SbNext(sb, i, c), flight[h..] + Issued(i), pos')
  {
    var sb' := SbNext(sb, i, c);
    var last := |pos| - h;
    hide Written;
    assert forall k :: 0 <= k < last ==> (flight[h..] + Issued(i))[k] == flight[k + h];
    forall k | 0 <= k < |pos| - h
      ensures 0 <= pos'[k] < |sb| - c.retired && sb'[pos'[k]] == Written(sb[pos[k + h]], i, c)
      ensures !sb'[pos'[k]].done
    {
    }
    forall j, k | 0 <= j < k < |pos'|
      ensures pos'[j] < pos'[k]
    {
    }
  }

  /** The bit bookkeeping works on lists of instructions with distinct ids. */
  predicate BitsHyp(r: Regs, i: Input)
  {
    var flight := r.spill + Visible(r, i);
    && Bits(r)
    && !i.flushEx
    && |r.queue| <= QUEUE_DEPTH
    && (r.accValid ==> |r.queue| < QUEUE_DEPTH)
    && (forall j, k :: 0 <= j < k < |flight| ==> flight[j].id != flight[k].id)
    && (Releases(r, i) ==> r.spill == [] && r.queue != [] && r.queue[0].id == CommitId(i))
    && (ReqValid(r, i) ==> r.spill == [] && r.queue != [])
  }

  lemma DistinctVisible(r: Regs, i: Input)
    requires BitsHyp(r, i)
    ensures forall j, k :: 0 <= j < k < |Visible(r, i)| ==> Visible(r, i)[j].id != Visible(r, i)[k].id
    ensures forall j, k :: 0 <= j < |r.spill| && 0 <= k < |Visible(r, i)| ==> r.spill[j].id != Visible(r, i)[k].id
    ensures |r.spill| == 2 ==> r.spill[0].id != r.spill[1].id
  {
    var v, flight := Visible(r, i), r.spill + Visible(r, i);
    assert forall k :: 0 <= k < |v| ==> flight[|r.spill| + k] == v[k];
    assert forall k :: 0 <= k < |r.spill| ==> flight[k] == r.spill[k];
  }

  lemma PendingAreQueued(r: Regs, i: Input)
    requires BitsHyp(r, i)
    ensures forall x :: x in PendingNext(r, i) ==> IdIn(QueueNext(r, i), x)
  {
    var v, q' := Visible(r, i), QueueNext(r, i);
    DistinctVisible(r, i);
    forall x | x in PendingNext(r, i)
      ensures IdIn(q', x)
    {
      if r.accValid && x == i.fuData.id {
        assert q'[|q'| - 1] == i.fuData;
      } else {
        var k :| 0 <= k < |r.queue| && r.queue[k].id == x;
        assert v[k] == r.queue[k];
        assert q'[k - Bit(Pops(r, i))] == v[k];
      }
    }
  }

  lemma QueuedHaveABit(r: Regs, i: Input)
    requires BitsHyp(r, i)
    ensures forall k :: 0 <= k < |QueueNext(r, i)| ==>
              QueueNext(r, i)[k].id in PendingNext(r, i) || QueueNext(r, i)[k].id in ReadyNext(r, i)
  {
    var v, q' := Visible(r, i), QueueNext(r, i);
    DistinctVisible(r, i);
    forall k | 0 <= k < |q'|
      ensures q'[k].id in PendingNext(r, i) || q'[k].id in ReadyNext(r, i)
    {
      assert q'[k] == v[k + Bit(Pops(r, i))];
    }
  }

  lemma ReadyAreHeld(r: Regs, i: Input, x: nat)
    requires BitsHyp(r, i) && |r.spill| <= 2 && x in ReadyNext(r, i)
    ensures x !in PendingNext(r, i)
    ensures IdIn(SpillNext(r, i), x) || IdIn(QueueNext(r, i), x)
  {
    var v, q', s' := Visible(r, i), QueueNext(r, i), SpillNext(r, i);
    DistinctVisible(r, i);
    assert r.accValid ==> v[|r.queue|] == i.fuData;
    if IdIn(r.spill, x) {
      var k :| 0 <= k < |r.spill| && r.spill[k].id == x;
      assert s'[k - Bit(Handshake(r, i))] == r.spill[k];
    } else {
      var k :| 0 <= k < |r.queue| && r.queue[k].id == x;
      assert v[k] == r.queue[k];
      if Pops(r, i) {
        assert if k == 0 then s'[0] == v[0] else q'[k - 1] == v[k];
      } else {
        assert q'[k] == v[k];
      }
    }
  }

  lemma BitsStep(w: World, pos: seq<nat>, i: Input, c: Choice)
    requires Inv(w, pos) && Env(w, i, c) && !i.flushEx
    ensures Bits(Step(w.r, i))
  {
    CycleIsCalm(w, pos, i, c);
    DistinctFlight(w.sb, Flight(w), pos);
    assert Flight(w) == w.r.spill + Visible(w.r, i);
    if Releases(w.r, i) {
      ReleasedIsHead(w, pos, i, c);
    }
    PendingAreQueued(w.r, i);
    QueuedHaveABit(w.r, i);
    forall x | x in ReadyNext(w.r, i)
      ensures x !in PendingNext(w.r, i) && (IdIn(SpillNext(w.r, i), x) || IdIn(QueueNext(w.r, i), x))
    {
      ReadyAreHeld(w.r, i, x);
    }
  }

  /** A scoreboard entry that is non-speculative after the cycle either was so before, or commit has
      just released it. */
  lemma StaysInWindow(w: World, pos: seq<nat>, i: Input, c: Choice, p: nat)
    requires Inv(w, pos) && Env(w, i, c) && !i.flushEx
    requires p < |w.sb| && w.sb[p].toAcc && !w.sb[p].done
    requires w.sb[p].id !in PendingNext(w.r, i)
    ensures InWindow(w.sb, p)
  {
    var e, flight := w.sb[p], Flight(w);
    DistinctFlight(w.sb, flight, pos);
    assert w.r.accValid ==> flight[|flight| - 1] == w.operands;
    if Releases(w.r, i) {
      ReleasedIsHead(w, pos, i, c);
      assert flight[0] == w.r.queue[0];
    }
    if e.id in w.r.pending {
      PlaceOf(w.sb, flight, pos, 0, p);
    } else {
      assert NonSpeculative(w, e);
    }
  }

  lemma ReleasedStep(w: World, pos: seq<nat>, i: Input, c: Choice)
    requires Inv(w, pos) && Env(w, i, c) && !i.flushEx
    ensures ReleasedInOrder(Next(w, i, c))
  {
    var w' := Next(w, i, c);
    forall p | 0 <= p < |w'.sb| && w'.sb[p].toAcc && !w'.sb[p].done && NonSpeculative(w', w'.sb[p])
      ensures InWindow(w'.sb, p)
    {
      if p < |w.sb| - c.retired {
        StaysInWindow(w, pos, i, c, p + c.retired);
        forall q | 0 <= q < p
          ensures w'.sb[q].done
        {
          assert w.sb[q + c.retired].done;
        }
      }
    }
  }

  lemma InvFlushStep(w: World, pos: seq<nat>, i: Input, c: Choice)
    requires Inv(w, pos) && Env(w, i, c) && i.flushEx
    ensures var w' := Next(w, i, c); Placed(w'.sb, Flight(w'), []) && Bits(w'.r) && ReleasedInOrder(w')
    ensures var w' := Next(w, i, c); w'.program == w'.left + Flight(w')
  {
    FlushEmpties(w, pos, i, c);
  }

  lemma InvQuietStep(w: World, pos: seq<nat>, i: Input, c: Choice) returns (pos': seq<nat>)
    requires Inv(w, pos) && Env(w, i, c) && !i.flushEx
    ensures var w' := Next(w, i, c); Placed(w'.sb, Flight(w'), pos') && Bits(w'.r) && ReleasedInOrder(w')
    ensures var w' := Next(w, i, c); w'.program == w'.left + Flight(w')
  {
    CycleIsCalm(w, pos, i, c);
    FlightStep(w, i, c);
    PlacedStep(w, pos, i, c);
    pos' := PosNext(w, pos, i, c);
    BitsStep(w, pos, i, c);
    ReleasedStep(w, pos, i, c);
    ProgramSeq(w.left, Flight(w), Handshake(w.r, i), Issued(i));
  }

  /** One cycle keeps the invariant. */
  lemma InvStep(w: World, pos: seq<nat>, i: Input, c: Choice, w': World) returns (pos': seq<nat>)
    requires Inv(w, pos) && Env(w, i, c) && w' == Next(w, i, c)
    ensures Inv(w', pos')
  {
    CycleIsCalm(w, pos, i, c);
    UniqueIdsStep(w, i, c);
    CountersStep(w, i, c);
    ShapeStep(w, i, c);
    if i.flushEx {
      InvFlushStep(w, pos, i, c);
      pos' := [];
    } else {
      pos' := InvQuietStep(w, pos, i, c);
    }
  }

  lemma CountersStep(w: World, i: Input, c: Choice)
    requires Calm(w, i) && Counters(w) && c.retired <= |w.sb|
    requires |Speculative(w)| <= QUEUE_DEPTH
    requires (i.loadComplete ==> w.outLoads > 0) && (i.storeComplete ==> w.outStores > 0)
    ensures Counters(Next(w, i, c))
  {
    SpecCountersStep(w, i, c);
    DispCounterStep(w.r.dispLoads, w.outLoads, w.r, i, AccLoad, i.loadComplete);
    DispCounterStep(w.r.dispStores, w.outStores, w.r, i, AccStore, i.storeComplete);
  }

  lemma SpecCountersStep(w: World, i: Input, c: Choice)
    requires Calm(w, i) && Counters(w) && c.retired <= |w.sb|
    requires |Speculative(w)| <= QUEUE_DEPTH
    ensures SpecNext(w.r.specLoads, w.r, i, AccLoad) == CountOp(Speculative(Next(w, i, c)), AccLoad)
    ensures SpecNext(w.r.specStores, w.r, i, AccStore) == CountOp(Speculative(Next(w, i, c)), AccStore)
  {
    assert Visible(w.r, i) == Speculative(w);
    assert Speculative(Next(w, i, c)) == QueueNext(w.r, i) + Issued(i);
    SpecCounterStep(w.r.specLoads, w.r, i, AccLoad);
    SpecCounterStep(w.r.specStores, w.r, i, AccStore);
  }

  lemma ShapeStep(w: World, i: Input, c: Choice)
    requires Calm(w, i) && Shape(w) && IssueRule(w, i) && c.retired <= |w.sb|
    ensures Shape(Next(w, i, c))
  {
  }

  lemma ProgramSeq(left: seq<Insn>, flight: seq<Insn>, taken: bool, added: seq<Insn>)
    requires taken ==> flight != []
    ensures (left + flight) + added
         == (left + if taken then [flight[0]] else []) + (flight[Bit(taken)..] + added)
  {
    assert taken ==> flight == [flight[0]] + flight[1..];
  }
}
