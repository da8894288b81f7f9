/** The AXI adapter (`axi_shim`): the write state machine, which serves one held request at a time while the
    address and data handshakes interleave in any order. */
module AxiShim {

  /** One data lane of the request port. */
  datatype Word = Word(data: int, user: int, strobe: int)

  datatype Address = Address(addr: nat, size: nat, len: nat, id: nat, lock: bool, atop: nat)

  datatype Beat = Beat(word: Word, last: bool)

  /** The payload of a request; `blen` is the number of beats minus one. */
  datatype Request = Request(addr: nat, size: nat, id: nat, lock: bool, atop: nat, blen: nat, words: seq<Word>)

  datatype State = Idle | WaitAw | WaitLastW | WaitLastWAw | WaitAwBurst

  datatype Regs = Regs(st: State, cnt: nat)

  const RESET := Regs(Idle, 0)

  datatype In = In(wr: bool, q: Request, awReady: bool, wReady: bool)

  datatype Out = Out(awValid: bool, aw: Address, wValid: bool, w: Beat, gnt: bool)

  // ---- combinational outputs ----

  function AddressOf(q: Request): Address
  {
    Address(q.addr, q.size, q.blen, q.id, q.lock, q.atop)
  }

  /** The lane a counter value selects. Lanes past the port are never selected, by `BeatsAreInRange`. */
  function BeatOf(q: Request, k: nat): Beat
  {
    Beat(if k < |q.words| then q.words[k] else Word(0, 0, 0), k == q.blen)
  }

  predicate AwValid(burst: bool, r: Regs, i: In)
  {
    match r.st
    case Idle => i.wr
    case WaitAw => true
    case WaitLastW => false
    case WaitLastWAw => burst
    case WaitAwBurst => burst
  }

  predicate WValid(burst: bool, r: Regs, i: In)
  {
    match r.st
    case Idle => i.wr
    case WaitAw => false
    case WaitLastW => true
    case WaitLastWAw => burst
    case WaitAwBurst => false
  }

  predicate Grant(burst: bool, r: Regs, i: In)
  {
    match r.st
    case Idle => i.wr && i.q.blen == 0 && i.awReady && i.wReady
    case WaitAw => i.awReady
    case WaitLastW => r.cnt == i.q.blen && i.wReady
    case WaitLastWAw => burst && r.cnt == i.q.blen && i.awReady && i.wReady
    case WaitAwBurst => burst && i.awReady
  }

  function OutOf(burst: bool, r: Regs, i: In): Out
  {
    Out(AwValid(burst, r, i), AddressOf(i.q), WValid(burst, r, i), BeatOf(i.q, r.cnt), Grant(burst, r, i))
  }

  function StateNext(burst: bool, r: Regs, i: In): State
  {
    match r.st
    case Idle =>
      if !i.wr then Idle
      else if i.q.blen == 0 then
        if i.awReady == i.wReady then Idle else if i.wReady then WaitAw else WaitLastW
      else if !burst || !(i.awReady || i.wReady) then Idle
      else if i.awReady then WaitLastW else WaitLastWAw
    case WaitAw => if i.awReady then Idle else WaitAw
    case WaitLastW => if r.cnt == i.q.blen && i.wReady then Idle else WaitLastW
    case WaitLastWAw =>
      if !burst then Idle
      else if i.wReady && r.cnt == i.q.blen then if i.awReady then Idle else WaitAwBurst
      else if i.awReady then WaitLastW else WaitLastWAw
    case WaitAwBurst => if !burst || i.awReady then Idle else WaitAwBurst
  }

  /** A beat other than the last one is transferred. */
  predicate Counts(burst: bool, r: Regs, i: In)
  {
    && burst && i.wReady
    && match r.st
       case Idle => i.wr && i.q.blen != 0
       case WaitLastW => r.cnt != i.q.blen
       case WaitLastWAw => r.cnt != i.q.blen
       case _ => false
  }

  predicate Clears(burst: bool, r: Regs, i: In)
  {
    match r.st
    case Idle => i.wr && i.q.blen == 0
    case WaitLastW => r.cnt == i.q.blen && i.wReady
    case WaitLastWAw => burst && r.cnt == i.q.blen && i.wReady
    case _ => false
  }

  function Step(burst: bool, r: Regs, i: In): Regs
  {
    Regs(StateNext(burst, r, i),
         if Clears(burst, r, i) then 0 else if Counts(burst, r, i) then r.cnt + 1 else r.cnt)
  }

  class Shim {
    const burst: bool
    var r: Regs

    constructor (burst: bool)
      ensures this.burst == burst && r == RESET
    {
      this.burst := burst;
      r := RESET;
    }

    /** The block `p_axi_write_fsm`: defaults first, then the case for the current state. */
    method WriteFsm(i: In) returns (st: State, awValid: bool, wValid: bool, gnt: bool, cntEn: bool, cntClr: bool)
      ensures st == StateNext(burst, r, i)
      ensures awValid == AwValid(burst, r, i) && wValid == WValid(burst, r, i) && gnt == Grant(burst, r, i)
      ensures cntClr == Clears(burst, r, i) && (cntEn && burst) == Counts(burst, r, i)
    {
      var single, done := i.q.blen == 0, r.cnt == i.q.blen;
      st, awValid, wValid, gnt, cntEn, cntClr := r.st, false, false, false, false, false;
      match r.st {
        case Idle =>
          if i.wr {
            awValid, wValid := true, true;
            if burst && !single {
              cntEn := i.wReady;
              if i.awReady {
                st := WaitLastW;
              } else if i.wReady {
                st := WaitLastWAw;
              }
            } else if single {
              cntClr, gnt := true, i.awReady && i.wReady;
              if i.wReady && !i.awReady {
                st := WaitAw;
              } else if i.awReady && !i.wReady {
                st := WaitLastW;
              }
            }
          }
        case WaitAw =>
          awValid := true;
          if i.awReady {
            st, gnt := Idle, true;
          }
        case WaitLastW =>
          wValid := true;
          if burst && i.wReady && !done {
            cntEn := true;
          } else if done {
            if i.wReady {
              st, cntClr, gnt := Idle, true, true;
            }
          }
        case WaitLastWAw =>
          if burst {
            awValid, wValid := true, true;
            if i.wReady && !i.awReady {
              if done {
                st, cntClr := WaitAwBurst, true;
              } else {
                cntEn := true;
              }
            } else if i.awReady && !i.wReady {
              st := WaitLastW;
            } else if i.awReady && i.wReady {
              if done {
                st, gnt, cntClr := Idle, true, true;
              } else {
                st, cntEn := WaitLastW, true;
              }
            }
          } else {
            st := Idle;
          }
        case WaitAwBurst =>
          if burst {
            awValid := true;
            if i.awReady {
              st, gnt := Idle, true;
            }
          } else {
            st := Idle;
          }
      }
    }

    /** One clock cycle. */
    method Tick(i: In) returns (o: Out)
      modifies this
      ensures r == Step(burst, old(r), i)
      ensures o == OutOf(burst, old(r), i)
    {
      var st, awValid, wValid, gnt, cntEn, cntClr := WriteFsm(i);
      o := Out(awValid, AddressOf(i.q), wValid, BeatOf(i.q, r.cnt), gnt);
      r := Regs(st, if cntClr then 0 else if cntEn && burst then r.cnt + 1 else r.cnt);
    }
  }

  // ---- runs ----

  /** The registers with everything that has left the module so far. */
  datatype World = World(r: Regs, aws: seq<Address>, ws: seq<Beat>, granted: seq<Request>)

  const START := World(RESET, [], [], [])

  function Next(burst: bool, w: World, i: In): World
  {
    var o := OutOf(burst, w.r, i);
    World(Step(burst, w.r, i),
          w.aws + if o.awValid && i.awReady then [o.aw] else [],
          w.ws + if o.wValid && i.wReady then [o.w] else [],
          w.granted + if o.gnt then [i.q] else [])
  }

  /** Without burst writes only single-beat requests can be served. */
  predicate Supported(burst: bool, q: Request)
  {
    q.blen < |q.words| && (burst || q.blen == 0)
  }

  /** A raised request is held until it is granted. */
  predicate Held(burst: bool, r: Regs, i: In, i': In)
  {
    i.wr && !Grant(burst, r, i) ==> i'.wr && i'.q == i.q
  }

  ghost predicate IsRun(burst: bool, ins: seq<In>, ws: seq<World>)
  {
    && |ws| == |ins| + 1 && ws[0] == START
    && (forall t :: 0 <= t < |ins| ==> ws[t + 1] == Next(burst, ws[t], ins[t]))
    && (forall t :: 0 <= t < |ins| && ins[t].wr ==> Supported(burst, ins[t].q))
    && (forall t :: 0 <= t < |ins| - 1 ==> Held(burst, ws[t].r, ins[t], ins[t + 1]))
  }

  // ---- what the two channels must carry ----

  function BeatsOf(q: Request, n: nat): (bs: seq<Beat>)
    ensures |bs| == n && forall k :: 0 <= k < n ==> bs[k] == BeatOf(q, k)
  {
    seq(n, k requires 0 <= k => BeatOf(q, k))
  }

  function Addresses(qs: seq<Request>): seq<Address>
  {
    if qs == [] then [] else Addresses(qs[..|qs| - 1]) + [AddressOf(qs[|qs| - 1])]
  }

  function Beats(qs: seq<Request>): seq<Beat>
  {
    if qs == [] then [] else Beats(qs[..|qs| - 1]) + BeatsOf(qs[|qs| - 1], qs[|qs| - 1].blen + 1)
  }

  /** The address of the current request has been transferred. */
  predicate AwSent(r: Regs)
  {
    r.st == WaitLastW
  }

  /** How many beats of the current request have been transferred. */
  function Sent(r: Regs, q: Request): nat
  {
    if r.st in {WaitAw, WaitAwBurst} then q.blen + 1 else r.cnt
  }

  /** The registers are in step with a current request `q`. */
  predicate Consistent(burst: bool, r: Regs, q: Request)
  {
    match r.st
    case Idle => r.cnt == 0
    case WaitAw => r.cnt == 0 && q.blen == 0
    case WaitLastW => r.cnt <= q.blen
    case WaitLastWAw => burst && 1 <= r.cnt <= q.blen
    case WaitAwBurst => burst && r.cnt == 0
  }

  /** The channels carry the granted requests, then the part of the current one that was transferred. */
  ghost predicate Inv(burst: bool, w: World, q: Request)
  {
    && Consistent(burst, w.r, q)
    && w.aws == Addresses(w.granted) + (if AwSent(w.r) then [AddressOf(q)] else [])
    && w.ws == Beats(w.granted) + BeatsOf(q, Sent(w.r, q))
  }

  lemma GrantedSnoc(qs: seq<Request>, q: Request)
    ensures Addresses(qs + [q]) == Addresses(qs) + [AddressOf(q)]
    ensures Beats(qs + [q]) == Beats(qs) + BeatsOf(q, q.blen + 1)
  {
    assert (qs + [q])[..|qs|] == qs;
  }

  lemma BeatsSnoc(q: Request, n: nat)
    ensures BeatsOf(q, n) + [BeatOf(q, n)] == BeatsOf(q, n + 1)
  {
  }

  /** The state machine transfers whatever is missing: the address exactly while it has not gone out, the
      next beat exactly while one is left, and it grants exactly when nothing is left after this cycle. */
  lemma WorkConserving(burst: bool, r: Regs, i: In)
    requires i.wr && Supported(burst, i.q) && Consistent(burst, r, i.q)
    ensures AwValid(burst, r, i) <==> !AwSent(r)
    ensures WValid(burst, r, i) <==> Sent(r, i.q) <= i.q.blen
    ensures WValid(burst, r, i) ==> r.cnt == Sent(r, i.q)
    ensures Grant(burst, r, i) <==>
            (AwSent(r) || i.awReady) && Sent(r, i.q) + (if i.wReady then 1 else 0) >= i.q.blen + 1
    ensures Grant(burst, r, i) ==> Step(burst, r, i) == RESET
    ensures !Grant(burst, r, i) ==>
            && (AwSent(Step(burst, r, i)) <==> AwSent(r) || i.awReady)
            && Sent(Step(burst, r, i), i.q) == Sent(r, i.q) + (if WValid(burst, r, i) && i.wReady then 1 else 0)
            && Consistent(burst, Step(burst, r, i), i.q)
  {
  }

  /** No lane past the request's beats is ever selected. */
  lemma BeatsAreInRange(burst: bool, r: Regs, i: In)
    requires i.wr && Supported(burst, i.q) && Consistent(burst, r, i.q) && WValid(burst, r, i)
    ensures r.cnt < |i.q.words| && BeatOf(i.q, r.cnt).word == i.q.words[r.cnt]
  {
    WorkConserving(burst, r, i);
  }

  /** For an idle machine the invariant does not depend on the current request. */
  lemma IdleInv(burst: bool, w: World, q: Request)
    requires w.r.st == Idle
    ensures Inv(burst, w, q) <==> w.r == RESET && w.aws == Addresses(w.granted) && w.ws == Beats(w.granted)
  {
    assert Addresses(w.granted) + [] == Addresses(w.granted);
    if w.r.cnt == 0 {
      assert Beats(w.granted) + BeatsOf(q, 0) == Beats(w.granted);
    }
  }

  lemma AddressAppended(aws: seq<Address>, base: seq<Address>, x: Address, sent: bool, ready: bool)
    requires aws == base + if sent then [x] else []
    ensures aws + (if !sent && ready then [x] else []) == base + if sent || ready then [x] else []
  {
  }

  lemma BeatAppended(bs: seq<Beat>, base: seq<Beat>, q: Request, n: nat, now: bool)
    requires bs == base + BeatsOf(q, n)
    ensures bs + (if now then [BeatOf(q, n)] else []) == base + BeatsOf(q, if now then n + 1 else n)
  {
    BeatsSnoc(q, n);
    assert base + BeatsOf(q, n) + [BeatOf(q, n)] == base + (BeatsOf(q, n) + [BeatOf(q, n)]);
  }

  /** What one cycle adds to the two channels. */
  lemma ChannelsStep(burst: bool, w: World, i: In, w': World, sent': bool, n': nat)
    requires w' == Next(burst, w, i) && Inv(burst, w, i.q)
    requires i.wr && Supported(burst, i.q)
    requires sent' == (AwSent(w.r) || i.awReady)
    requires n' == Sent(w.r, i.q) + if WValid(burst, w.r, i) && i.wReady then 1 else 0
    ensures w'.aws == Addresses(w.granted) + if sent' then [AddressOf(i.q)] else []
    ensures w'.ws == Beats(w.granted) + BeatsOf(i.q, n')
  {
    WorkConserving(burst, w.r, i);
    AddressAppended(w.aws, Addresses(w.granted), AddressOf(i.q), AwSent(w.r), i.awReady);
    BeatAppended(w.ws, Beats(w.granted), i.q, Sent(w.r, i.q), WValid(burst, w.r, i) && i.wReady);
  }

  lemma InvHeld(burst: bool, w: World, i: In, w': World)
    requires w' == Next(burst, w, i) && Inv(burst, w, i.q)
    requires i.wr && Supported(burst, i.q) && !Grant(burst, w.r, i)
    ensures Inv(burst, w', i.q)
  {
    WorkConserving(burst, w.r, i);
    ChannelsStep(burst, w, i, w', AwSent(w'.r), Sent(w'.r, i.q));
    assert w.granted + [] == w.granted;
  }

  lemma InvGranted(burst: bool, w: World, i: In, w': World)
    requires w' == Next(burst, w, i) && Inv(burst, w, i.q)
    requires i.wr && Supported(burst, i.q) && Grant(burst, w.r, i)
    ensures w'.r == RESET && w'.aws == Addresses(w'.granted) && w'.ws == Beats(w'.granted)
  {
    WorkConserving(burst, w.r, i);
    ChannelsStep(burst, w, i, w', true, i.q.blen + 1);
    GrantedSnoc(w.granted, i.q);
  }

  lemma InvStep(burst: bool, w: World, i: In, w': World)
    requires w' == Next(burst, w, i) && Inv(burst, w, i.q)
    requires i.wr && Supported(burst, i.q)
    ensures if Grant(burst, w.r, i) then w'.r == RESET && w'.aws == Addresses(w'.granted) && w'.ws == Beats(w'.granted)
            else Inv(burst, w', i.q)
  {
    if Grant(burst, w.r, i) {
      InvGranted(burst, w, i, w');
    } else {
      InvHeld(burst, w, i, w');
    }
  }

  /** In every cycle of a run, both channels carry the granted requests in order followed by the transferred
      part of the held request; an idle machine has transferred nothing of it, whatever it is. */
  lemma {:induction false} RunInv(burst: bool, ins: seq<In>, ws: seq<World>, t: nat, q: Request)
    requires IsRun(burst, ins, ws) && t <= |ins|
    requires t < |ins| ==> q == ins[t].q
    ensures t < |ins| || ws[t].r.st == Idle ==> Inv(burst, ws[t], q)
    ensures t < |ins| && ws[t].r.st != Idle ==> ins[t].wr
  {
    if t == 0 {
      IdleInv(burst, ws[t], q);
    } else {
      var w, i := ws[t - 1], ins[t - 1];
      RunInv(burst, ins, ws, t - 1, i.q);
      assert t < |ins| ==> Held(burst, w.r, i, ins[t]);
      if i.wr {
        InvStep(burst, w, i, ws[t]);
      } else {
        IdleInv(burst, w, i.q);
        assert w.aws + [] == w.aws && w.ws + [] == w.ws && w.granted + [] == w.granted;
        assert ws[t] == w;
      }
      if ws[t].r.st == Idle {
        IdleInv(burst, ws[t], i.q);
        IdleInv(burst, ws[t], q);
      }
    }
  }

  /** The adapter as a whole: at the end of any run in which it is idle, exactly the granted requests have
      left it, each as one address and its beats in order with `last` on the final one. */
  lemma WriteChannels(burst: bool, ins: seq<In>, ws: seq<World>, t: nat)
    requires IsRun(burst, ins, ws) && t <= |ins| && ws[t].r.st == Idle
    ensures ws[t].aws == Addresses(ws[t].granted)
    ensures ws[t].ws == Beats(ws[t].granted)
  {
    var q := if t < |ins| then ins[t].q else Request(0, 0, 0, false, 0, 0, []);
    RunInv(burst, ins, ws, t, q);
    IdleInv(burst, ws[t], q);
  }

  /** Where a granted request's beats are in the data channel. */
  function Offset(qs: seq<Request>, n: nat): nat
    requires n <= |qs|
  {
    if n == 0 then 0 else Offset(qs, n - 1) + qs[n - 1].blen + 1
  }

  /** Request `n` has its address as the n-th one, with the request's own fields, and as many beats as that
      address announces; beat `k` carries lane `k`, and `last` is on the final one only. */
  lemma ChannelContents(qs: seq<Request>, n: nat, k: nat)
    requires n < |qs| && k <= qs[n].blen
    ensures |Addresses(qs)| == |qs| && Offset(qs, n) + k < |Beats(qs)| == Offset(qs, |qs|)
    ensures var a, q := Addresses(qs)[n], qs[n];
      && a.addr == q.addr && a.size == q.size && a.id == q.id && a.lock == q.lock && a.atop == q.atop
      && a.len == q.blen && Offset(qs, n + 1) - Offset(qs, n) == a.len + 1
    ensures var b, q := Beats(qs)[Offset(qs, n) + k], qs[n];
      (k < |q.words| ==> b.word == q.words[k]) && (b.last <==> k == q.blen)
  {
    ChannelEntries(qs, n, k);
  }

  lemma {:induction false} ChannelEntries(qs: seq<Request>, n: nat, k: nat)
    requires n < |qs| && k <= qs[n].blen
    ensures |Addresses(qs)| == |qs| && Addresses(qs)[n] == AddressOf(qs[n])
    ensures Offset(qs, n) + k < |Beats(qs)| == Offset(qs, |qs|)
    ensures Beats(qs)[Offset(qs, n) + k] == BeatOf(qs[n], k)
  {
    var front := qs[..|qs| - 1];
    var last := qs[|front|];
    Sizes(front);
    OffsetPrefix(qs, |front|);
    assert Beats(qs) == Beats(front) + BeatsOf(last, last.blen + 1);
    assert Addresses(qs) == Addresses(front) + [AddressOf(last)];
    if n < |front| {
      ChannelEntries(front, n, k);
      OffsetPrefix(qs, n);
    } else {
      assert BeatsOf(last, last.blen + 1)[k] == BeatOf(last, k);
    }
  }

  lemma {:induction false} Sizes(qs: seq<Request>)
    ensures |Addresses(qs)| == |qs| && |Beats(qs)| == Offset(qs, |qs|)
  {
    if qs != [] {
      Sizes(qs[..|qs| - 1]);
      OffsetPrefix(qs, |qs| - 1);
    }
  }

  lemma {:induction false} OffsetPrefix(qs: seq<Request>, n: nat)
    requires n < |qs|
    ensures Offset(qs[..|qs| - 1], n) == Offset(qs, n)
  {
    if n > 0 {
      OffsetPrefix(qs, n - 1);
    }
  }

  /** Handshake stability (section A3.2.1 of the AXI specification): a valid that meets no ready stays up
      with the same payload. */
  lemma ValidIsStable(burst: bool, ins: seq<In>, ws: seq<World>, t: nat)
    requires IsRun(burst, ins, ws) && t + 1 < |ins|
    ensures var o, o' := OutOf(burst, ws[t].r, ins[t]), OutOf(burst, ws[t + 1].r, ins[t + 1]);
      && (o.awValid && !ins[t].awReady ==> o'.awValid && o'.aw == o.aw)
      && (o.wValid && !ins[t].wReady ==> o'.wValid && o'.w == o.w)
  {
    RunConsistent(burst, ins, ws, t);
    RunConsistent(burst, ins, ws, t + 1);
    assert Held(burst, ws[t].r, ins[t], ins[t + 1]);
    assert ws[t + 1] == Next(burst, ws[t], ins[t]);
    if ins[t].wr {
      WorkConserving(burst, ws[t].r, ins[t]);
      if !Grant(burst, ws[t].r, ins[t]) {
        WorkConserving(burst, ws[t + 1].r, ins[t + 1]);
      }
    }
  }

  // ---- progress ----

  /** What is left to transfer of a request. */
  function Remaining(r: Regs, q: Request): int
  {
    (if AwSent(r) then 0 else 1) + q.blen + 1 - Sent(r, q)
  }

  /** Every handshake brings the request one transfer closer to its grant, which comes at zero. */
  lemma HandshakesCount(burst: bool, r: Regs, i: In)
    requires i.wr && Supported(burst, i.q) && Consistent(burst, r, i.q)
    ensures var o := OutOf(burst, r, i);
      var left := Remaining(r, i.q) - (if o.awValid && i.awReady then 1 else 0)
                                    - (if o.wValid && i.wReady then 1 else 0);
      && left >= 0
      && (o.gnt <==> left == 0)
      && (!o.gnt ==> Remaining(Step(burst, r, i), i.q) == left)
  {
    WorkConserving(burst, r, i);
  }

  /** In how many of the cycles from `t0` up to `t` the data channel was ready. */
  ghost function WReadies(ins: seq<In>, t0: nat, t: nat): nat
    requires t0 <= t <= |ins|
  {
    if t == t0 then 0 else WReadies(ins, t0, t - 1) + (if ins[t - 1].wReady then 1 else 0)
  }

  /** In how many of the cycles from `t0` up to `t` the address channel was ready. */
  ghost function AwReadies(ins: seq<In>, t0: nat, t: nat): nat
    requires t0 <= t <= |ins|
  {
    if t == t0 then 0 else AwReadies(ins, t0, t - 1) + (if ins[t - 1].awReady then 1 else 0)
  }

  lemma RunConsistent(burst: bool, ins: seq<In>, ws: seq<World>, t: nat)
    requires IsRun(burst, ins, ws) && t < |ins|
    ensures Consistent(burst, ws[t].r, ins[t].q)
    ensures ws[t].r.st != Idle ==> ins[t].wr
    ensures ins[t].wr ==> Supported(burst, ins[t].q)
  {
    RunInv(burst, ins, ws, t, ins[t].q);
  }

  lemma {:induction false} Progress(burst: bool, ins: seq<In>, ws: seq<World>, t0: nat, t: nat)
    requires IsRun(burst, ins, ws) && t0 <= t < |ins|
    requires ins[t0].wr && ws[t0].r.st == Idle
    requires forall k :: t0 <= k < t ==> !Grant(burst, ws[k].r, ins[k])
    ensures ins[t].wr && ins[t].q == ins[t0].q
    ensures AwSent(ws[t].r) <==> AwReadies(ins, t0, t) >= 1
    ensures Sent(ws[t].r, ins[t].q) ==
            if WReadies(ins, t0, t) <= ins[t].q.blen then WReadies(ins, t0, t) else ins[t].q.blen + 1
  {
    RunConsistent(burst, ins, ws, t);
    if t > t0 {
      Progress(burst, ins, ws, t0, t - 1);
      RunConsistent(burst, ins, ws, t - 1);
      assert Held(burst, ws[t - 1].r, ins[t - 1], ins[t]);
      WorkConserving(burst, ws[t - 1].r, ins[t - 1]);
    }
  }

  /** Exact time of the grant: a request raised on an idle machine in cycle `t0` is granted in the first
      cycle by which the address channel has been ready once and the data channel `blen + 1` times. Hence
      ready signals that keep coming bring the grant, after any delay and in any order. */
  lemma GrantTime(burst: bool, ins: seq<In>, ws: seq<World>, t0: nat, t: nat)
    requires IsRun(burst, ins, ws) && t0 <= t < |ins|
    requires ins[t0].wr && ws[t0].r.st == Idle
    requires forall k :: t0 <= k < t ==> !Grant(burst, ws[k].r, ins[k])
    ensures Grant(burst, ws[t].r, ins[t]) <==>
            AwReadies(ins, t0, t + 1) >= 1 && WReadies(ins, t0, t + 1) >= ins[t0].q.blen + 1
  {
    Progress(burst, ins, ws, t0, t);
    RunConsistent(burst, ins, ws, t);
    WorkConserving(burst, ws[t].r, ins[t]);
  }

  /** Without burst writes a multi-beat request is never granted: the machine stays idle and offers the same
      address and first beat again in every cycle, so each ready address channel takes another copy. */
  lemma UnsupportedIsNeverGranted(r: Regs, i: In)
    requires r == RESET && i.wr && i.q.blen > 0
    ensures !Grant(false, r, i) && Step(false, r, i) == RESET
    ensures AwValid(false, r, i) && WValid(false, r, i)
  {
  }

  /** The two ready signals in a cycle. */
  datatype Ready = Ready(aw: bool, w: bool)

  function Holding(q: Request, y: Ready): In
  {
    In(true, q, y.aw, y.w)
  }

  /** The registers after cycles with a held request and the given ready signals. */
  function Steps(burst: bool, q: Request, ys: seq<Ready>): Regs
  {
    if ys == [] then RESET else Step(burst, Steps(burst, q, ys[..|ys| - 1]), Holding(q, ys[|ys| - 1]))
  }

  /** A held request is granted under some ready signals if and only if it is supported: no ready signals, in
      any order and however often, bring the grant of one that is not. */
  lemma GrantableIffSupported(burst: bool, q: Request)
    requires q.blen < |q.words|
    ensures Supported(burst, q) <==>
            exists ys: seq<Ready>, y: Ready :: Grant(burst, Steps(burst, q, ys), Holding(q, y))
  {
    if Supported(burst, q) {
      var ys := AlwaysReady(q.blen);
      ReadySteps(burst, q, q.blen);
      assert Grant(burst, Steps(burst, q, ys), Holding(q, Ready(true, true)));
    } else {
      forall ys: seq<Ready>, y: Ready ensures !Grant(burst, Steps(burst, q, ys), Holding(q, y)) {
        StuckSteps(burst, q, ys);
      }
    }
  }

  function AlwaysReady(n: nat): (ys: seq<Ready>)
    ensures |ys| == n
  {
    seq(n, _ => Ready(true, true))
  }

  lemma {:induction false} ReadySteps(burst: bool, q: Request, n: nat)
    requires Supported(burst, q) && n <= q.blen
    ensures Steps(burst, q, AlwaysReady(n)) == if n == 0 then RESET else Regs(WaitLastW, n)
  {
    if n > 0 {
      ReadySteps(burst, q, n - 1);
      assert AlwaysReady(n)[..n - 1] == AlwaysReady(n - 1);
    }
  }

  lemma {:induction false} StuckSteps(burst: bool, q: Request, ys: seq<Ready>)
    requires !burst && q.blen > 0
    ensures Steps(burst, q, ys) == RESET
  {
    if ys != [] {
      StuckSteps(burst, q, ys[..|ys| - 1]);
    }
  }
}
