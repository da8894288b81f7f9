/** The accelerator dispatcher (`acc_dispatcher`): the queue of vector instructions, the pending and
    ready bits, the spill register in front of the accelerator and the load/store counters. */
module AccDispatcher {
  import Fifo

  const QUEUE_DEPTH := 3

  datatype Fu = Load | Store | Accel | OtherFu

  datatype Op = AccLoad | AccStore | AccOther

  /** What travels through the dispatcher: the transaction id, the operation and the operands. */
  datatype Insn = Insn(id: nat, op: Op, operands: int)

  /** One entry of the commit window, as the scoreboard shows it. */
  datatype CommitPort = CommitPort(valid: bool, fu: Fu, id: nat)

  datatype Input = Input(
    // issue stage: the offered instruction, its exception flag and the handshake
    issueHs: bool, issueFu: Fu, issueEx: bool, issueInsn: Insn,
    // operands read for the instruction issued in the previous cycle
    fuData: Insn,
    // scoreboard
    commit0: CommitPort, commit1: CommitPort,
    // controller and CSRs
    flushUnissued: bool, flushEx: bool, consEn: bool, storeBarrier: bool,
    // accelerator
    reqReady: bool, respValid: bool, respId: nat,
    loadComplete: bool, storeComplete: bool, accStorePending: bool)

  /** The registers. The bit vectors are the sets of their one bits. */
  datatype Regs = Regs(
    accValid: bool,
    queue: seq<Insn>,
    pending: set<nat>,
    ready: set<nat>,
    spill: seq<Insn>,
    specLoads: nat, dispLoads: nat, specStores: nat, dispStores: nat,
    waitStore: bool)

  const RESET := Regs(false, [], {}, {}, [], 0, 0, 0, 0, false)

  // ---- combinational signals ----

  /** The instruction enters the issue register. */
  predicate AccIssue(i: Input)
  {
    !i.issueEx && i.issueHs && i.issueFu == Accel && !i.flushUnissued
  }

  predicate AccReady(r: Regs)
  {
    |r.queue| < QUEUE_DEPTH - 1
  }

  predicate NoLoadPending(r: Regs)
  {
    r.specLoads == 0 && r.dispLoads == 0
  }

  predicate NoStorePending(r: Regs)
  {
    r.specStores == 0 && r.dispStores == 0
  }

  predicate IssueStall(r: Regs, i: Input)
  {
    match i.issueFu
    case Accel => !AccReady(r)
    case Load => i.consEn && !NoStorePending(r)
    case Store => i.consEn && (!NoStorePending(r) || !NoLoadPending(r))
    case OtherFu => false
  }

  predicate AccCommit(i: Input)
  {
    || (!i.commit0.valid && i.commit0.fu == Accel)
    || (i.commit0.valid && !i.commit1.valid && i.commit1.fu == Accel)
  }

  function CommitId(i: Input): nat
  {
    if !i.commit0.valid then i.commit0.id else i.commit1.id
  }

  /** Commit makes this id non-speculative in this cycle. */
  predicate Releases(r: Regs, i: Input)
  {
    AccCommit(i) && CommitId(i) in r.pending
  }

  /** The queue as the dispatcher sees it: an arriving instruction falls through. */
  function Visible(r: Regs, i: Input): seq<Insn>
  {
    if r.accValid && |r.queue| < QUEUE_DEPTH then r.queue + [i.fuData] else r.queue
  }

  /** A request is offered to the spill register. */
  predicate ReqValid(r: Regs, i: Input)
  {
    Visible(r, i) != [] &&
    (Visible(r, i)[0].id in r.ready || (Releases(r, i) && !i.flushUnissued))
  }

  predicate ReqReady(r: Regs)
  {
    |r.spill| < 2
  }

  predicate Pops(r: Regs, i: Input)
  {
    ReqValid(r, i) && ReqReady(r)
  }

  /** The accelerator takes a request. */
  predicate Handshake(r: Regs, i: Input)
  {
    r.spill != [] && i.reqReady
  }

  predicate Dispatches(r: Regs, i: Input, op: Op)
  {
    ReqValid(r, i) && Visible(r, i)[0].op == op
  }

  // ---- next state ----

  /** A three-bit up/down counter; clear has priority over counting. */
  function Count(q: nat, clear: bool, en: bool, down: bool): nat
  {
    if clear then 0
    else if !en then q
    else if down then if q == 0 then 7 else q - 1
    else if q == 7 then 0 else q + 1
  }

  function Released(r: Regs, i: Input): set<nat>
  {
    if Releases(r, i) then {CommitId(i)} else {}
  }

  function QueueNext(r: Regs, i: Input): seq<Insn>
  {
    if i.flushEx then [] else if Pops(r, i) then Visible(r, i)[1..] else Visible(r, i)
  }

  /** A flush clears the pending bits, and a release clears its own after that. */
  function PendingNext(r: Regs, i: Input): set<nat>
  {
    (if i.flushEx then {} else r.pending + if r.accValid then {i.fuData.id} else {}) - Released(r, i)
  }

  /** A flush does not clear the ready bits. */
  function ReadyNext(r: Regs, i: Input): set<nat>
  {
    r.ready + Released(r, i) - if r.spill != [] then {r.spill[0].id} else {}
  }

  /** The spill register: a queue of at most two requests. */
  function SpillNext(r: Regs, i: Input): seq<Insn>
  {
    (if Handshake(r, i) then r.spill[1..] else r.spill) + if Pops(r, i) then [Visible(r, i)[0]] else []
  }

  function SpecNext(q: nat, r: Regs, i: Input, op: Op): nat
  {
    Count(q, i.flushEx, (AccIssue(i) && i.issueInsn.op == op) != Dispatches(r, i, op), Dispatches(r, i, op))
  }

  function DispNext(q: nat, r: Regs, i: Input, op: Op, complete: bool): nat
  {
    Count(q, false, Dispatches(r, i, op) != complete, complete)
  }

  function Step(r: Regs, i: Input): Regs
  {
    Regs(
      accValid := AccIssue(i),
      queue := QueueNext(r, i),
      pending := PendingNext(r, i),
      ready := ReadyNext(r, i),
      spill := SpillNext(r, i),
      specLoads := SpecNext(r.specLoads, r, i, AccLoad),
      dispLoads := DispNext(r.dispLoads, r, i, AccLoad, i.loadComplete),
      specStores := SpecNext(r.specStores, r, i, AccStore),
      dispStores := DispNext(r.dispStores, r, i, AccStore, i.storeComplete),
      waitStore := (r.waitStore || i.storeBarrier) && i.accStorePending)
  }

  // ---- the module ----

  /** The RTL module: its registers and one clock cycle. */
  class Dispatcher {
    var accValid: bool
    const queue: Fifo.RingBuffer<Insn>
    var pending: set<nat>
    var ready: set<nat>
    var spill: seq<Insn>
    var specLoads: nat
    var dispLoads: nat
    var specStores: nat
    var dispStores: nat
    var waitStore: bool

    ghost predicate Valid()
      reads this, queue, queue.mem
    {
      queue.Valid() && queue.depth == QUEUE_DEPTH && queue.fallThrough
    }

    ghost function State(): Regs
      requires Valid()
      reads this, queue, queue.mem
    {
      Regs(accValid, queue.Contents, pending, ready, spill,
           specLoads, dispLoads, specStores, dispStores, waitStore)
    }

    constructor ()
      ensures Valid() && fresh(queue) && fresh(queue.mem) && State() == RESET
    {
      accValid, pending, ready, spill, waitStore := false, {}, {}, [], false;
      specLoads, dispLoads, specStores, dispStores := 0, 0, 0, 0;
      queue := new Fifo.RingBuffer<Insn>(QUEUE_DEPTH, true, Insn(0, AccOther, 0));
    }

    /** `issue_stall_o`, from the queue's usage port and the counters. */
    method Stall(i: Input) returns (stall: bool)
      requires Valid()
      ensures stall == IssueStall(State(), i)
    {
      queue.UsageExact();
      Fifo.AddrDepthBounds(QUEUE_DEPTH);
      var accReady := queue.Usage() < QUEUE_DEPTH - 1;
      var noLoads := specLoads == 0 && dispLoads == 0;
      var noStores := specStores == 0 && dispStores == 0;
      match i.issueFu {
        case Accel => stall := !accReady;
        case Load => stall := i.consEn && !noStores;
        case Store => stall := i.consEn && (!noStores || !noLoads);
        case OtherFu => stall := false;
      }
    }

    /** The block `accelerator_commit`. */
    method Commit(i: Input) returns (accCommit: bool, commitId: nat)
      ensures accCommit == AccCommit(i) && commitId == CommitId(i)
    {
      accCommit := false;
      if !i.commit0.valid && i.commit0.fu == Accel {
        accCommit := true;
      }
      if i.commit0.valid && !i.commit1.valid && i.commit1.fu == Accel {
        accCommit := true;
      }
      commitId := if !i.commit0.valid then i.commit0.id else i.commit1.id;
    }

    /** The block `p_non_speculative_ff`. */
    method NonSpeculative(i: Input, ghost want: Regs) returns (pendingD: set<nat>, readyD: set<nat>)
      requires Valid() && want == Step(State(), i)
      ensures pendingD == want.pending && readyD == want.ready
    {
      var accCommit, commitId := Commit(i);
      pendingD, readyD := pending, ready;
      if accValid {
        pendingD := pendingD + {i.fuData.id};
      }
      if i.flushEx {
        pendingD := {};
      }
      if accCommit && commitId in pending {
        readyD := readyD + {commitId};
        pendingD := pendingD - {commitId};
      }
      if spill != [] {
        readyD := readyD - {spill[0].id};
      }
      assert pendingD == PendingNext(State(), i) && readyD == ReadyNext(State(), i);
    }

    /** The block `accelerator_req_dispatcher`. */
    method Request(i: Input) returns (reqValid: bool, pop: bool, head: Insn)
      requires Valid()
      ensures reqValid == ReqValid(State(), i) && pop == Pops(State(), i)
      ensures reqValid ==> head == Visible(State(), i)[0]
    {
      var accCommit, commitId := Commit(i);
      reqValid, pop := false, false;
      head := queue.Front(accValid, i.fuData);
      if !queue.IsEmpty(accValid) {
        reqValid := head.id in ready || (accCommit && commitId in pending && !i.flushUnissued);
        pop := reqValid && |spill| < 2;
      }
    }

    /** The next values of the four load and store counters. */
    method Track(i: Input, reqValid: bool, head: Insn, ghost want: Regs)
      returns (sl: nat, dl: nat, ss: nat, ds: nat)
      requires Valid() && want == Step(State(), i)
      requires reqValid == ReqValid(State(), i) && (reqValid ==> head == Visible(State(), i)[0])
      ensures sl == want.specLoads && dl == want.dispLoads && ss == want.specStores && ds == want.dispStores
    {
      var accValidD := !i.issueEx && i.issueHs && i.issueFu == Accel && !i.flushUnissued;
      var ldDisp, stDisp := reqValid && head.op == AccLoad, reqValid && head.op == AccStore;
      sl := Count(specLoads, i.flushEx, (accValidD && i.issueInsn.op == AccLoad) != ldDisp, ldDisp);
      dl := Count(dispLoads, false, ldDisp != i.loadComplete, i.loadComplete);
      ss := Count(specStores, i.flushEx, (accValidD && i.issueInsn.op == AccStore) != stDisp, stDisp);
      ds := Count(dispStores, false, stDisp != i.storeComplete, i.storeComplete);
    }

    /** The spill register's next contents. */
    method Spill(i: Input, pop: bool, head: Insn, ghost want: Regs) returns (spillD: seq<Insn>)
      requires Valid() && want == Step(State(), i)
      requires pop == Pops(State(), i) && (pop ==> head == Visible(State(), i)[0])
      ensures spillD == want.spill
    {
      spillD := spill;
      if spill != [] && i.reqReady {
        spillD := spillD[1..];
      }
      if pop {
        spillD := spillD + [head];
      }
    }

    /** The next values of the registers outside the queue; `queue` is left to the queue itself. */
    method Comb(i: Input, ghost want: Regs) returns (next: Regs, pop: bool)
      requires Valid() && want == Step(State(), i)
      ensures pop == Pops(State(), i)
      ensures next == want.(queue := [])
    {
      var reqValid, p, head := Request(i);
      pop := p;
      var pendingD, readyD := NonSpeculative(i, want);
      var sl, dl, ss, ds := Track(i, reqValid, head, want);
      var spillD := Spill(i, pop, head, want);
      next := Regs(!i.issueEx && i.issueHs && i.issueFu == Accel && !i.flushUnissued, [],
                   pendingD, readyD, spillD, sl, dl, ss, ds,
                   (waitStore || i.storeBarrier) && i.accStorePending);
    }

    /** The clock edge. */
    method Latch(next: Regs, x: Insn, pop: bool, flush: bool)
      requires Valid()
      modifies this, queue, queue.mem
      ensures Valid()
      ensures State() == next.(queue := Fifo.Next(old(queue.Contents), QUEUE_DEPTH, true, old(accValid), x, pop, flush))
    {
      queue.Tick(accValid, x, pop, flush);
      accValid, pending, ready, spill := next.accValid, next.pending, next.ready, next.spill;
      specLoads, dispLoads, specStores, dispStores :=
        next.specLoads, next.dispLoads, next.specStores, next.dispStores;
      waitStore := next.waitStore;
    }

    /** One clock cycle. */
    method Tick(i: Input)
      requires Valid()
      modifies this, queue, queue.mem
      ensures Valid() && State() == Step(old(State()), i)
    {
      var next, pop := Comb(i, Step(State(), i));
      Latch(next, i.fuData, pop, i.flushEx);
    }
  }
}
