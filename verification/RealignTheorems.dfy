/** The realigner as a decoder: a program laid out as halfwords comes back from the fetch blocks as that program. */
module RealignTheorems {
  import opened Realign

  /** An instruction by its length: sixteen bits, or thirty-two as two halves, lower one first. */
  datatype Insn = Insn16(h: Half) | Insn32(lo: Half, hi: Half)

  /** Section 1.5 of the RISC-V Unprivileged ISA: the low bits are 11 exactly on 32-bit instructions. */
  predicate WellFormed(x: Insn)
  {
    match x
    case Insn16(h) => h % 4 != 3
    case Insn32(lo, _) => lo % 4 == 3
  }

  predicate Program(prog: seq<Insn>)
  {
    forall k :: 0 <= k < |prog| ==> WellFormed(prog[k])
  }

  function Halves(x: Insn): seq<Half>
  {
    match x
    case Insn16(h) => [h]
    case Insn32(lo, hi) => [lo, hi]
  }

  /** The program in memory, one instruction after the other. */
  function Layout(prog: seq<Insn>): seq<Half>
  {
    if prog == [] then [] else Halves(prog[0]) + Layout(prog[1..])
  }

  function At(start: nat, x: Insn): Parsed
  {
    match x
    case Insn16(h) => Short(start, h)
    case Insn32(lo, hi) => Long(start, lo, hi)
  }

  /** The program with the address of every instruction. */
  function Located(start: nat, prog: seq<Insn>): seq<Parsed>
    decreases |prog|
  {
    if prog == [] then []
    else [At(start, prog[0])] + Located(start + 2 * |Halves(prog[0])|, prog[1..])
  }

  lemma ParseHead(start: nat, x: Insn, tail: seq<Half>)
    requires WellFormed(x)
    ensures ParseFrom(start, Halves(x) + tail) == Cons(At(start, x), ParseFrom(start + 2 * |Halves(x)|, tail))
  {
    var hs := Halves(x) + tail;
    assert hs[|Halves(x)|..] == tail && hs[0] == Halves(x)[0];
  }

  lemma LayoutCons(prog: seq<Insn>, rest: seq<Half>)
    requires prog != []
    ensures Layout(prog) + rest == Halves(prog[0]) + (Layout(prog[1..]) + rest)
    ensures |Layout(prog)| == |Halves(prog[0])| + |Layout(prog[1..])|
  {
    hide Halves;
    Regroup(Halves(prog[0]), Layout(prog[1..]), rest);
  }

  lemma Regroup<T>(a: seq<T>, b: seq<T>, c: seq<T>)
    ensures (a + b) + c == a + (b + c)
  {
  }

  lemma LocatedCons(start: nat, prog: seq<Insn>, q: Parse)
    requires prog != []
    ensures Then(Parse(Located(start, prog), Nothing), q)
         == Cons(At(start, prog[0]), Then(Parse(Located(start + 2 * |Halves(prog[0])|, prog[1..]), Nothing), q))
  {
    ThenCons(At(start, prog[0]), Parse(Located(start + 2 * |Halves(prog[0])|, prog[1..]), Nothing), q);
  }

  lemma EmptyDecodes(start: nat, rest: seq<Half>)
    ensures ParseFrom(start, Layout([]) + rest)
         == Then(Parse(Located(start, []), Nothing), ParseFrom(start + 2 * |Layout([])|, rest))
  {
    assert Layout([]) + rest == rest;
  }

  /** Parsing a program in memory gives the program, and then whatever follows it. */
  lemma {:induction false} ParserDecodes(start: nat, prog: seq<Insn>, rest: seq<Half>)
    requires Program(prog)
    ensures ParseFrom(start, Layout(prog) + rest)
         == Then(Parse(Located(start, prog), Nothing), ParseFrom(start + 2 * |Layout(prog)|, rest))
    decreases |prog|
  {
    if prog == [] {
      EmptyDecodes(start, rest);
    } else {
      assert WellFormed(prog[0]);
      hide Halves, WellFormed, At, Then;
      var n := |Halves(prog[0])|;
      LayoutCons(prog, rest);
      ParseHead(start, prog[0], Layout(prog[1..]) + rest);
      ParserDecodes(start + 2 * n, prog[1..], rest);
      assert start + 2 * n + 2 * |Layout(prog[1..])| == start + 2 * |Layout(prog)|;
      LocatedCons(start, prog, ParseFrom(start + 2 * |Layout(prog)|, rest));
    }
  }

  /** Encode and decode: for either fetch width and any start, the realigner emits exactly the program, each
      instruction with its own address, before anything that follows it. */
  method Decode(width: nat, start: nat, prog: seq<Insn>, rest: seq<Half>) returns (log: seq<Parsed>)
    requires width in {2, 4} && start % 2 == 0 && Program(prog) && prog != []
    requires Offset(start + 2 * |Layout(prog) + rest|, width) == 0
    ensures Located(start, prog) <= log
    ensures rest == [] ==> log == Located(start, prog)
  {
    ParserDecodes(start, prog, rest);
    log := RunStream(width, start, Layout(prog) + rest);
  }
}
