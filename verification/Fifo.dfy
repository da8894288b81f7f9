/** The core's FIFO (`cva6_fifo_v3` with FPGA_EN = 0): a ring buffer of any depth, in
    first-word-fall-through or registered mode. One call of `Tick` is one clock cycle. */
module Fifo {
  import opened Common

  const UINT32: nat := 0x1_0000_0000

  /** SystemVerilog's `$clog2`. */
  function Clog2(n: nat): nat
  {
    if n <= 1 then 0 else 1 + Clog2((n + 1) / 2)
  }

  /** `$clog2(n)` is the least width that can index `n` slots. */
  lemma {:induction false} Clog2Bounds(n: nat)
    requires n > 0
    ensures n <= Pow2(Clog2(n))
    ensures n > 1 ==> Pow2(Clog2(n)) < 2 * n
  {
    if n > 1 {
      Clog2Bounds((n + 1) / 2);
    }
  }

  /** Width of the read and write pointers. */
  function AddrDepth(depth: nat): nat
  {
    if depth > 1 then Clog2(depth) else 1
  }

  lemma AddrDepthBounds(depth: nat)
    requires depth > 0
    ensures depth <= Pow2(AddrDepth(depth)) <= 2 * depth
  {
    if depth > 1 {
      Clog2Bounds(depth);
    }
  }

  /** The pointer increment of the source. The comparison subtracts in 32 bits, so for a depth that is
      a power of two the truncated depth 0 turns into 0xFFFF_FFFF and only the wrap-around of the
      pointer's own width applies. */
  function PointerNext(depth: nat, p: nat): nat
  {
    var width := Pow2(AddrDepth(depth));
    if p == (depth % width - 1) % UINT32 then 0 else (p + 1) % width
  }

  /** Powers of two included, a pointer walks 0, 1, ..., depth - 1, 0, ... */
  lemma PointerNextWraps(depth: nat, p: nat)
    requires p < depth < UINT32
    ensures PointerNext(depth, p) == if p + 1 == depth then 0 else p + 1
  {
    AddrDepthBounds(depth);
    var width := Pow2(AddrDepth(depth));
    SmallMod(p, width);
    ModOf(p + 1, width);
    ModOf(depth, width);
    ModOf(if depth == width then 0 else depth - 1, UINT32);
    if depth == width {
      assert (depth % width - 1) % UINT32 == UINT32 - 1;
    }
  }

  lemma SmallMod(a: nat, m: nat)
    requires a < m
    ensures a % m == a
  {
  }

  lemma ModOf(a: nat, m: nat)
    requires 0 < m && a <= m
    ensures a % m == if a == m then 0 else a
  {
  }

  /** The queue a cycle leaves behind: a push is dropped when the queue is full, a pop is dropped when
      nothing is visible, and a fall-through queue shows an arriving element at once. */
  function Next<T>(q: seq<T>, depth: nat, fallThrough: bool, push: bool, x: T, pop: bool, flush: bool): seq<T>
    requires depth > 0
  {
    if flush then []
    else
      var q1 := if push && |q| < depth then q + [x] else q;
      if pop && q1 != [] && (q != [] || fallThrough) then q1[1..] else q1
  }

  /** One cycle's inputs without a flush. */
  datatype Op<T> = Op(push: bool, x: T, pop: bool)

  /** The contents after a run. */
  function After<T>(ops: seq<Op<T>>, depth: nat, fallThrough: bool): seq<T>
    requires depth > 0
  {
    if ops == [] then []
    else
      var o := ops[|ops| - 1];
      Next(After(ops[..|ops| - 1], depth, fallThrough), depth, fallThrough, o.push, o.x, o.pop, false)
  }

  /** What was accepted: a push is lost exactly when the queue is full. */
  function Accepted<T>(ops: seq<Op<T>>, depth: nat, fallThrough: bool): seq<T>
    requires depth > 0
  {
    if ops == [] then []
    else
      var front, o := ops[..|ops| - 1], ops[|ops| - 1];
      Accepted(front, depth, fallThrough)
      + if o.push && |After(front, depth, fallThrough)| < depth then [o.x] else []
  }

  /** What was handed out: with each pop of a queue that shows something, its oldest element, which is the arriving
      one when an empty queue falls through. */
  function HandedOut<T>(ops: seq<Op<T>>, depth: nat, fallThrough: bool): seq<T>
    requires depth > 0
  {
    if ops == [] then []
    else
      var front, o := ops[..|ops| - 1], ops[|ops| - 1];
      var q := After(front, depth, fallThrough);
      HandedOut(front, depth, fallThrough)
      + if !o.pop then [] else if q != [] then [q[0]] else if fallThrough && o.push then [o.x] else []
  }

  /** Conservation: what was accepted is what was handed out followed by what is held, in order; never more than
      `depth` elements are held. */
  lemma {:induction false} Conservation<T>(ops: seq<Op<T>>, depth: nat, fallThrough: bool)
    requires depth > 0
    ensures Accepted(ops, depth, fallThrough)
         == HandedOut(ops, depth, fallThrough) + After(ops, depth, fallThrough)
    ensures |After(ops, depth, fallThrough)| <= depth
  {
    if ops != [] {
      Conservation(ops[..|ops| - 1], depth, fallThrough);
    }
  }

  function Wrap(k: nat, depth: nat): int
  {
    if k < depth then k else k - depth
  }

  /** The `n` elements of ring `m` that start at slot `r`. */
  function View<T>(m: seq<T>, r: nat, n: nat): (q: seq<T>)
    requires r < |m| && n <= |m|
    ensures |q| == n
    ensures forall k :: 0 <= k < n ==> q[k] == m[Wrap(r + k, |m|)]
  {
    if r + n <= |m| then m[r..r + n] else m[r..] + m[..r + n - |m|]
  }

  lemma ViewPush<T>(m: seq<T>, r: nat, n: nat, x: T)
    requires r < |m| && n < |m|
    ensures View(m[Wrap(r + n, |m|) := x], r, n + 1) == View(m, r, n) + [x]
    ensures View(m[Wrap(r + n, |m|) := x], r, n) == View(m, r, n)
  {
    var m' := m[Wrap(r + n, |m|) := x];
    assert View(m', r, n + 1) == View(m, r, n) + [x];
    assert View(m', r, n) == View(m, r, n);
  }

  lemma ViewPop<T>(m: seq<T>, r: nat, n: nat)
    requires r < |m| && 0 < n <= |m|
    ensures View(m, Wrap(r + 1, |m|), n - 1) == View(m, r, n)[1..]
  {
    assert View(m, Wrap(r + 1, |m|), n - 1) == View(m, r, n)[1..];
  }

  /** Moving the pointers of the ring is `Next` on its contents; in the pass-through case the ring
      keeps its pointers although the slot has been written. */
  lemma RingStep<T>(m: seq<T>, r: nat, n: nat, fallThrough: bool, push: bool, x: T, pop: bool,
                    m': seq<T>, r': nat, n': nat)
    requires r < |m| && n <= |m|
    requires m' == if push && n < |m| then m[Wrap(r + n, |m|) := x] else m
    requires r' == if pop && n > 0 then Wrap(r + 1, |m|) else r
    requires n' == n + (if push && n < |m| then 1 else 0)
                     - (if pop && (n > 0 || (fallThrough && push)) then 1 else 0)
    ensures View(m', r', n') == Next(View(m, r, n), |m|, fallThrough, push, x, pop, false)
  {
    if push && n < |m| {
      ViewPush(m, r, n, x);
      if pop && n > 0 {
        ViewPop(m', r, n + 1);
      }
    } else if pop && n > 0 {
      ViewPop(m, r, n);
    }
  }

  class RingBuffer<T(0)> {
    const depth: nat
    const fallThrough: bool
    const mem: array<T>
    var readPointer: nat
    var writePointer: nat
    var statusCnt: nat
    ghost var Contents: seq<T>

    ghost predicate Valid()
      reads this, mem
    {
      && 0 < depth < UINT32
      && mem.Length == depth
      && readPointer < depth
      && writePointer < depth
      && statusCnt <= depth
      && writePointer == Wrap(readPointer + statusCnt, depth)
      && Contents == View(mem[..], readPointer, statusCnt)
    }

    constructor (depth: nat, fallThrough: bool, init: T)
      requires 0 < depth < UINT32
      ensures Valid() && fresh(mem)
      ensures this.depth == depth && this.fallThrough == fallThrough
      ensures Contents == []
    {
      this.depth := depth;
      this.fallThrough := fallThrough;
      mem := new T[depth](_ => init);
      readPointer, writePointer, statusCnt := 0, 0, 0;
      Contents := [];
    }

    predicate IsFull()
      reads this
    {
      statusCnt == depth
    }

    predicate IsEmpty(push: bool)
      reads this
    {
      statusCnt == 0 && !(fallThrough && push)
    }

    /** `usage_o`: the count without its top bit. */
    function Usage(): nat
      requires Valid()
      reads this, mem
    {
      statusCnt % Pow2(AddrDepth(depth))
    }

    /** `usage_o` is the number of elements, except that a full queue whose depth is a power of two
        reads as empty. */
    lemma UsageExact()
      requires Valid()
      ensures Usage() == |Contents| <==> !(IsFull() && Pow2(AddrDepth(depth)) == depth)
      ensures IsFull() && Pow2(AddrDepth(depth)) == depth ==> Usage() == 0
    {
      AddrDepthBounds(depth);
      if statusCnt < Pow2(AddrDepth(depth)) {
        SmallMod(statusCnt, Pow2(AddrDepth(depth)));
      } else {
        assert statusCnt == depth == Pow2(AddrDepth(depth));
      }
    }

    /** `data_o` during a cycle. */
    function Front(push: bool, x: T): (d: T)
      requires Valid()
      reads this, mem
      ensures Contents != [] ==> d == Contents[0]
      ensures Contents == [] && fallThrough && push ==> d == x
    {
      if fallThrough && statusCnt == 0 && push then x else mem[readPointer]
    }

    method Increment(p: nat) returns (q: nat)
      requires p < depth < UINT32
      ensures q == Wrap(p + 1, depth)
    {
      PointerNextWraps(depth, p);
      q := PointerNext(depth, p);
    }

    /** The combinational block: the next pointers and count, and whether the memory is written. */
    method ReadWrite(push: bool, x: T, pop: bool, ghost want: seq<T>)
      returns (readN: nat, writeN: nat, cntN: int, write: bool, ghost memN: seq<T>)
      requires Valid() && want == Next(Contents, depth, fallThrough, push, x, pop, false)
      ensures memN == if write then mem[..][writePointer := x] else mem[..]
      ensures 0 <= cntN <= depth && readN < depth && writeN == Wrap(readN + cntN, depth)
      ensures want == View(memN, readN, cntN)
    {
      readN, writeN, cntN, write := readPointer, writePointer, statusCnt, false;
      var full, empty := IsFull(), IsEmpty(push);
      // push a new element
      if push && !full {
        write := true;
        writeN := Increment(writePointer);
        cntN := statusCnt + 1;
      }
      // pop the oldest one
      if pop && !empty {
        readN := Increment(readPointer);
        cntN := statusCnt - 1;
      }
      // keep the count stable when both happen
      if push && pop && !full && !empty {
        cntN := statusCnt;
      }
      // pass through without moving the pointers
      if fallThrough && statusCnt == 0 && push {
        if pop {
          cntN, readN, writeN := statusCnt, readPointer, writePointer;
        }
      }
      memN := if write then mem[..][writePointer := x] else mem[..];
      RingStep(mem[..], readPointer, statusCnt, fallThrough, push, x, pop, memN, readN, cntN);
    }

    /** One clock edge. */
    method Tick(push: bool, x: T, pop: bool, flush: bool)
      requires Valid()
      modifies this, mem
      ensures Valid()
      ensures Contents == Next(old(Contents), depth, fallThrough, push, x, pop, flush)
    {
      ghost var want := Next(Contents, depth, fallThrough, push, x, pop, false);
      var readN, writeN, cntN, write, memN := ReadWrite(push, x, pop, want);
      if write {
        mem[writePointer] := x;
      }
      assert mem[..] == memN;
      if flush {
        readPointer, writePointer, statusCnt := 0, 0, 0;
        Contents := [];
      } else {
        readPointer, writePointer, statusCnt := readN, writeN, cntN;
        Contents := want;
      }
    }
  }
}
