/** The instruction realigner (`instr_realign`): it cuts a stream of fetch blocks into 16- and 32-bit
    instructions and keeps the lower half of an instruction that crosses into the next block. */
module Realign {

  type Half = x: nat | x < 0x1_0000

  /** Section 1.5 of the RISC-V Unprivileged ISA: low bits 11 mean a 32-bit instruction. */
  predicate Compressed(h: Half)
  {
    h % 4 != 3
  }

  // ---- the sequential parser ----

  datatype Parsed = Short(addr: nat, h: Half) | Long(addr: nat, lo: Half, hi: Half)

  datatype Rest = Nothing | LowerHalf(addr: nat, h: Half)

  datatype Parse = Parse(insns: seq<Parsed>, rest: Rest)

  function Cons(p: Parsed, q: Parse): Parse
  {
    Parse([p] + q.insns, q.rest)
  }

  /** Cut the halfwords that start at `addr`, one instruction at a time. */
  function ParseFrom(addr: nat, hs: seq<Half>): Parse
    decreases |hs|
  {
    if hs == [] then Parse([], Nothing)
    else if Compressed(hs[0]) then Cons(Short(addr, hs[0]), ParseFrom(addr + 2, hs[1..]))
    else if |hs| == 1 then Parse([], LowerHalf(addr, hs[0]))
    else Cons(Long(addr, hs[0], hs[1]), ParseFrom(addr + 4, hs[2..]))
  }

  /** Go on parsing with a leftover half in front. */
  function Resume(rest: Rest, addr: nat, hs: seq<Half>): Parse
  {
    match rest
    case Nothing => ParseFrom(addr, hs)
    case LowerHalf(a, h) => ParseFrom(a, [h] + hs)
  }

  function Then(p: Parse, q: Parse): Parse
  {
    Parse(p.insns + q.insns, q.rest)
  }

  lemma ThenCons(p: Parsed, q: Parse, r: Parse)
    ensures Then(Cons(p, q), r) == Cons(p, Then(q, r))
  {
    assert [p] + q.insns + r.insns == [p] + (q.insns + r.insns);
  }

  /** One instruction of `n` halves in front of an append. */
  lemma ConsAppend(addr: nat, a: seq<Half>, b: seq<Half>, n: nat, head: Parsed)
    requires n <= |a| && ParseFrom(addr, a) == Cons(head, ParseFrom(addr + 2 * n, a[n..]))
    requires ParseFrom(addr, a + b) == Cons(head, ParseFrom(addr + 2 * n, a[n..] + b))
    requires var p := ParseFrom(addr + 2 * n, a[n..]);
             ParseFrom(addr + 2 * n, a[n..] + b) == Then(p, Resume(p.rest, addr + 2 * |a|, b))
    ensures var p := ParseFrom(addr, a); ParseFrom(addr, a + b) == Then(p, Resume(p.rest, addr + 2 * |a|, b))
  {
    var p := ParseFrom(addr + 2 * n, a[n..]);
    ThenCons(head, p, Resume(p.rest, addr + 2 * |a|, b));
  }

  /** Parsing in two portions is parsing at once. */
  lemma {:induction false} ParseAppend(addr: nat, a: seq<Half>, b: seq<Half>)
    ensures var p := ParseFrom(addr, a); ParseFrom(addr, a + b) == Then(p, Resume(p.rest, addr + 2 * |a|, b))
    ensures var p := ParseFrom(addr, a);
            p.rest.LowerHalf? ==> p.rest.addr + 2 == addr + 2 * |a| && !Compressed(p.rest.h)
    decreases |a|
  {
    if a == [] {
      assert a + b == b;
    } else if Compressed(a[0]) {
      assert (a + b)[1..] == a[1..] + b;
      ParseAppend(addr + 2, a[1..], b);
      ConsAppend(addr, a, b, 1, Short(addr, a[0]));
    } else if |a| == 1 {
      assert a + b == [a[0]] + b;
    } else {
      assert (a + b)[2..] == a[2..] + b;
      ParseAppend(addr + 4, a[2..], b);
      ConsAppend(addr, a, b, 2, Long(addr, a[0], a[1]));
    }
  }

  // ---- one fetch block ----

  /** A 32-bit slot as two halfwords, lower one first. */
  datatype Slot = Slot(valid: bool, addr: nat, lo: Half, hi: Half)

  /** `unaligned_q` with the saved half and its address. */
  datatype Saved = Saved(unaligned: bool, addr: nat, h: Half)

  function RestOf(s: Saved): Rest
  {
    if s.unaligned then LowerHalf(s.addr, s.h) else Nothing
  }

  /** What the front end reads from a slot: of a compressed instruction only the lower half. */
  function Read(s: Slot): Parsed
  {
    if Compressed(s.lo) then Short(s.addr, s.lo) else Long(s.addr, s.lo, s.hi)
  }

  /** The valid slots in slot order. */
  function Emitted(slots: seq<Slot>): seq<Parsed>
  {
    if slots == [] then [] else Shown(slots[0]) + Emitted(slots[1..])
  }

  // ---- 64-bit fetch ----

  /** What a block at `address` means: with a saved half and an aligned block the half is completed
      first; any other block is parsed from its own address. */
  function BlockParse(aligned: bool, address: nat, hs: seq<Half>, q: Saved): Parse
    requires hs != []
  {
    if q.unaligned && aligned then
      Cons(Long(q.addr, q.h, hs[0]), ParseFrom(address + 2, hs[1..]))
    else ParseFrom(address, hs)
  }

  predicate Meets(slots: seq<Slot>, next: Saved, p: Parse)
  {
    Emitted(slots) == p.insns && RestOf(next) == p.rest
  }

  // `ParseFrom` on short lists

  lemma ParseOne(a: nat, x: Half)
    ensures ParseFrom(a, [x]) ==
            if Compressed(x) then Parse([Short(a, x)], Nothing) else Parse([], LowerHalf(a, x))
  {
  }

  lemma ParseTwo(a: nat, x: Half, y: Half)
    ensures ParseFrom(a, [x, y]) ==
            if Compressed(x) then Cons(Short(a, x), ParseFrom(a + 2, [y])) else Parse([Long(a, x, y)], Nothing)
  {
    assert [x, y][1..] == [y] && [x, y][2..] == [];
  }

  lemma ParseThree(a: nat, x: Half, y: Half, z: Half)
    ensures ParseFrom(a, [x, y, z]) ==
            if Compressed(x) then Cons(Short(a, x), ParseFrom(a + 2, [y, z]))
            else Cons(Long(a, x, y), ParseFrom(a + 4, [z]))
  {
    assert [x, y, z][1..] == [y, z] && [x, y, z][2..] == [z];
  }

  lemma ParseFour(a: nat, x: Half, y: Half, z: Half, w: Half)
    ensures ParseFrom(a, [x, y, z, w]) ==
            if Compressed(x) then Cons(Short(a, x), ParseFrom(a + 2, [y, z, w]))
            else Cons(Long(a, x, y), ParseFrom(a + 4, [z, w]))
  {
    assert [x, y, z, w][1..] == [y, z, w] && [x, y, z, w][2..] == [z, w];
  }

  function Shown(s: Slot): seq<Parsed>
  {
    if s.valid then [Read(s)] else []
  }

  lemma EmittedTwo(s0: Slot, s1: Slot)
    ensures Emitted([s0, s1]) == Shown(s0) + Shown(s1)
  {
    assert [s0, s1][1..] == [s1] && [s1][1..] == [];
    assert Emitted([s1]) == Shown(s1);
  }

  lemma EmittedFour(s0: Slot, s1: Slot, s2: Slot, s3: Slot)
    ensures Emitted([s0, s1, s2, s3]) == Shown(s0) + Shown(s1) + Shown(s2) + Shown(s3)
  {
    assert [s0, s1, s2, s3][1..] == [s1, s2, s3];
    assert [s1, s2, s3][1..] == [s2, s3] && [s2, s3][1..] == [s3];
    assert Emitted([s3]) == Shown(s3);
    assert Emitted([s2, s3]) == Shown(s2) + Shown(s3);
    assert Emitted([s1, s2, s3]) == Shown(s1) + Emitted([s2, s3]);
    assert Emitted([s0, s1, s2, s3]) == Shown(s0) + Emitted([s1, s2, s3]);
  }

  /** Case 00 with a saved half. */
  method AlignSaved(valid: bool, base: nat, d: seq<Half>, q: Saved)
    returns (slots: seq<Slot>, next: Saved)
    requires |d| == 4 && q.unaligned && !Compressed(q.h)
    ensures |slots| == 4
    ensures valid ==> Meets(slots, next, Cons(Long(q.addr, q.h, d[0]), ParseFrom(base + 2, [d[1], d[2], d[3]])))
    ensures !valid ==> Emitted(slots) == []
  {
    var c1, c2, c3 := Compressed(d[1]), Compressed(d[2]), Compressed(d[3]);
    var unalignedD, addressD, instrD := q.unaligned, q.addr, q.h;
    var s0 := Slot(valid, q.addr, q.h, d[0]);
    var s1 := Slot(valid, base + 2, d[1], d[2]);
    var s2 := Slot(false, 0, 0, 0);
    var s3 := Slot(false, base + 6, d[3], 0);
    if c1 {
      s2 := Slot(valid, base + 4, d[2], d[3]);
      if c2 {
        if c3 {
          unalignedD := false;
          s3 := s3.(valid := valid);
        } else {
          instrD, addressD := s3.lo, s3.addr;
        }
      } else {
        unalignedD := false;
        s2 := s2.(valid := valid);
      }
    } else {
      s2 := s2.(lo := s3.lo, hi := s3.hi, addr := s3.addr);
      if c3 {
        unalignedD := false;
        s2 := s2.(valid := valid);
      } else {
        instrD, addressD := s3.lo, s3.addr;
      }
    }
    slots := [s0, s1, s2, s3];
    next := Saved(unalignedD, addressD, instrD);
    EmittedFour(s0, s1, s2, s3);
    ParseThree(base + 2, d[1], d[2], d[3]);
    ParseTwo(base + 4, d[2], d[3]);
    ParseOne(base + 6, d[3]);
  }

  /** Case 00 without a saved half. */
  method AlignFresh(valid: bool, base: nat, d: seq<Half>, q: Saved)
    returns (slots: seq<Slot>, next: Saved)
    requires |d| == 4 && !q.unaligned
    ensures |slots| == 4
    ensures valid ==> Meets(slots, next, ParseFrom(base, [d[0], d[1], d[2], d[3]]))
    ensures !valid ==> Emitted(slots) == []
  {
    var c0, c1, c2, c3 := Compressed(d[0]), Compressed(d[1]), Compressed(d[2]), Compressed(d[3]);
    var unalignedD, addressD, instrD := q.unaligned, q.addr, q.h;
    var s0 := Slot(valid, base, d[0], d[1]);
    var s1, s2 := Slot(valid, 0, 0, 0), Slot(false, 0, 0, 0);
    var s3 := Slot(false, base + 6, d[3], 0);
    if c0 {
      s1 := s1.(lo := d[1], hi := d[2], addr := base + 2);
      if c1 {
        s2 := Slot(valid, base + 4, d[2], d[3]);
        if c2 {
          if c3 {
            s3 := s3.(valid := valid);
          } else {
            unalignedD, instrD, addressD := true, s3.lo, s3.addr;
          }
        }
      } else {
        s2 := s2.(lo := s3.lo, hi := s3.hi, addr := s3.addr);
        if c3 {
          s2 := s2.(valid := valid);
        } else {
          unalignedD, instrD, addressD := true, s3.lo, s3.addr;
        }
      }
    } else {
      s1 := s1.(lo := d[2], hi := d[3], addr := base + 4);
      s2 := s2.(lo := s3.lo, hi := s3.hi, addr := s3.addr);
      if c2 {
        if c3 {
          s2 := s2.(valid := valid);
        } else {
          unalignedD, instrD, addressD := true, s3.lo, s3.addr;
        }
      }
    }
    slots := [s0, s1, s2, s3];
    next := Saved(unalignedD, addressD, instrD);
    EmittedFour(s0, s1, s2, s3);
    ParseFour(base, d[0], d[1], d[2], d[3]);
    ParseThree(base + 2, d[1], d[2], d[3]);
    ParseTwo(base + 4, d[2], d[3]);
    ParseOne(base + 6, d[3]);
  }

  /** Case 01: the lower three halves of the data. */
  method AlignOne(valid: bool, base: nat, d: seq<Half>, q: Saved)
    returns (slots: seq<Slot>, next: Saved)
    requires |d| == 4
    ensures |slots| == 4
    ensures valid ==> Meets(slots, next, ParseFrom(base + 2, [d[0], d[1], d[2]]))
    ensures !valid ==> Emitted(slots) == []
  {
    var c0, c1, c2 := Compressed(d[0]), Compressed(d[1]), Compressed(d[2]);
    var unalignedD, addressD, instrD := false, q.addr, q.h;
    var s0 := Slot(valid, base + 2, d[0], d[1]);
    var s1, s2 := Slot(false, 0, 0, 0), Slot(false, base + 6, d[2], d[3]);
    var s3 := Slot(false, base + 6, d[3], 0);
    if c0 {
      s1 := Slot(valid, base + 4, d[1], d[2]);
      if c1 {
        if c2 {
          s2 := s2.(valid := valid);
        } else {
          unalignedD, instrD, addressD := true, s2.lo, s2.addr;
        }
      }
    } else {
      s1 := s1.(lo := s2.lo, hi := s2.hi, addr := s2.addr);
      if c2 {
        s1 := s1.(valid := valid);
      } else {
        unalignedD, instrD, addressD := true, s2.lo, s2.addr;
      }
    }
    slots := [s0, s1, s2, s3];
    next := Saved(unalignedD, addressD, instrD);
    EmittedFour(s0, s1, s2, s3);
    ParseThree(base + 2, d[0], d[1], d[2]);
    ParseTwo(base + 4, d[1], d[2]);
    ParseOne(base + 6, d[2]);
  }

  /** Case 10: the lower two halves. */
  method AlignTwo(valid: bool, base: nat, d: seq<Half>, q: Saved)
    returns (slots: seq<Slot>, next: Saved)
    requires |d| == 4
    ensures |slots| == 4
    ensures valid ==> Meets(slots, next, ParseFrom(base + 4, [d[0], d[1]]))
    ensures !valid ==> Emitted(slots) == []
  {
    var unalignedD, addressD, instrD := false, q.addr, q.h;
    var s0, s1 := Slot(valid, base + 4, d[0], d[1]), Slot(false, base + 6, d[1], d[2]);
    if Compressed(d[0]) {
      if Compressed(d[1]) {
        s1 := s1.(valid := valid);
      } else {
        unalignedD, instrD, addressD := true, s1.lo, s1.addr;
      }
    }
    var s2, s3 := Slot(false, 0, 0, 0), Slot(false, base + 6, d[3], 0);
    slots := [s0, s1, s2, s3];
    next := Saved(unalignedD, addressD, instrD);
    EmittedFour(s0, s1, s2, s3);
    ParseTwo(base + 4, d[0], d[1]);
    ParseOne(base + 6, d[1]);
  }

  /** Case 11: one half; a 32-bit instruction has to wait for the next block. */
  method AlignThree(valid: bool, base: nat, d: seq<Half>, q: Saved)
    returns (slots: seq<Slot>, next: Saved)
    requires |d| == 4
    ensures |slots| == 4
    ensures valid ==> Meets(slots, next, ParseFrom(base + 6, [d[0]]))
    ensures !valid ==> Emitted(slots) == []
  {
    var unalignedD, addressD, instrD := false, q.addr, q.h;
    var s0 := Slot(false, base + 6, d[0], d[1]);
    if Compressed(d[0]) {
      s0 := s0.(valid := valid);
    } else {
      unalignedD, instrD, addressD := true, s0.lo, s0.addr;
    }
    var s1, s2, s3 := Slot(false, 0, 0, 0), Slot(false, 0, 0, 0), Slot(false, base + 6, d[3], 0);
    slots := [s0, s1, s2, s3];
    next := Saved(unalignedD, addressD, instrD);
    EmittedFour(s0, s1, s2, s3);
    ParseOne(base + 6, d[0]);
  }

  /** The position of an address in its block of four or two halfwords. */
  function Offset(address: nat, width: nat): nat
  {
    if width == 4 then address / 2 % 4 else address / 2 % 2
  }

  lemma AddressSplit(address: nat)
    requires address % 2 == 0
    ensures Offset(address, 4) < 4 && address % 8 == 2 * Offset(address, 4)
    ensures Offset(address, 2) < 2 && address % 4 == 2 * Offset(address, 2)
  {
    var a := address / 2;
    assert address == 2 * a;
    SplitFour(a);
    SplitTwo(a);
  }

  lemma SplitFour(a: nat)
    ensures 2 * a % 8 == 2 * (a % 4)
  {
    var q, r := a / 4, a % 4;
    assert 2 * a == 8 * q + 2 * r;
  }

  lemma SplitTwo(a: nat)
    ensures 2 * a % 4 == 2 * (a % 2)
  {
    var q, r := a / 2, a % 2;
    assert 2 * a == 4 * q + 2 * r;
  }

  /** The block `re_align` of the 64-bit variant. */
  method Align64(valid: bool, address: nat, d: seq<Half>, q: Saved)
    returns (slots: seq<Slot>, next: Saved)
    requires |d| == 4 && address % 2 == 0
    requires q.unaligned ==> !Compressed(q.h)
    ensures |slots| == 4
    ensures Offset(address, 4) < 4
    ensures valid ==> Meets(slots, next, BlockParse(Offset(address, 4) == 0, address, d[..4 - Offset(address, 4)], q))
    ensures !valid ==> Emitted(slots) == []
  {
    AddressSplit(address);
    var k := Offset(address, 4);
    var base := address - address % 8;
    slots, next := AlignCases(valid, base, k, d, q);
  }

  method AlignCases(valid: bool, base: nat, k: nat, d: seq<Half>, q: Saved)
    returns (slots: seq<Slot>, next: Saved)
    requires |d| == 4 && k < 4
    requires q.unaligned ==> !Compressed(q.h)
    ensures |slots| == 4
    ensures valid ==> Meets(slots, next, BlockParse(k == 0, base + 2 * k, d[..4 - k], q))
    ensures !valid ==> Emitted(slots) == []
  {
    match k {
      case 0 =>
        assert d[..4] == [d[0], d[1], d[2], d[3]] && d[..4][1..] == [d[1], d[2], d[3]];
        if q.unaligned {
          slots, next := AlignSaved(valid, base, d, q);
        } else {
          slots, next := AlignFresh(valid, base, d, q);
        }
      case 1 =>
        assert d[..3] == [d[0], d[1], d[2]];
        slots, next := AlignOne(valid, base, d, q);
      case 2 =>
        assert d[..2] == [d[0], d[1]];
        slots, next := AlignTwo(valid, base, d, q);
      case _ =>
        assert d[..1] == [d[0]];
        slots, next := AlignThree(valid, base, d, q);
    }
  }

  // ---- 32-bit fetch ----

  /** The block `re_align` of the 32-bit variant. A block in the upper position arrives with zeros on
      top. If a half is still saved then, the saved half is glued to a compressed one or dropped. */
  method Align32(valid: bool, address: nat, d: seq<Half>, q: Saved)
    returns (slots: seq<Slot>, next: Saved)
    requires |d| == 2 && address % 2 == 0
    requires q.unaligned ==> !Compressed(q.h)
    requires Offset(address, 2) == 1 ==> d[1] == 0
    ensures |slots| == 2
    ensures Offset(address, 2) < 2
    ensures valid && !(q.unaligned && Offset(address, 2) == 1) ==>
              Meets(slots, next, BlockParse(Offset(address, 2) == 0, address, d[..2 - Offset(address, 2)], q))
    ensures valid && q.unaligned && Offset(address, 2) == 1 ==>
              Meets(slots, next, if Compressed(d[0]) then Parse([Long(q.addr, q.h, d[0])], Nothing)
                                 else Parse([], LowerHalf(address, d[0])))
    ensures !valid ==> Emitted(slots) == []
  {
    AddressSplit(address);
    slots, next := AlignPair(valid, address - address % 4, Offset(address, 2), d, q);
  }

  method AlignPair(valid: bool, base: nat, k: nat, d: seq<Half>, q: Saved)
    returns (slots: seq<Slot>, next: Saved)
    requires |d| == 2 && k < 2 && (k == 1 ==> d[1] == 0)
    requires q.unaligned ==> !Compressed(q.h)
    ensures |slots| == 2
    ensures valid && !(q.unaligned && k == 1) ==>
              Meets(slots, next, BlockParse(k == 0, base + 2 * k, d[..2 - k], q))
    ensures valid && q.unaligned && k == 1 ==>
              Meets(slots, next, if Compressed(d[0]) then Parse([Long(q.addr, q.h, d[0])], Nothing)
                                 else Parse([], LowerHalf(base + 2, d[0])))
    ensures !valid ==> Emitted(slots) == []
  {
    var c0, c1 := Compressed(d[0]), Compressed(d[1]);
    var unalignedD, addressD, instrD := q.unaligned, base + 2, d[1];
    var s0 := if q.unaligned then Slot(valid, q.addr, q.h, d[0]) else Slot(valid, base + 2 * k, d[0], d[1]);
    var s1 := Slot(false, base + 2, 0, 0);
    if c0 || q.unaligned {
      if c1 {
        unalignedD := false;
        s1 := s1.(valid := valid, lo := d[1], hi := 0);
      } else {
        unalignedD, instrD, addressD := true, d[1], base + 2;
      }
    }
    if valid && k == 1 {
      if !c0 {
        s0, s1 := s0.(valid := false), s1.(valid := false);
        unalignedD, addressD, instrD := true, base + 2, d[0];
      } else {
        s0, s1 := s0.(valid := true), s1.(valid := false);
      }
    }
    slots := [s0, s1];
    next := Saved(unalignedD, addressD, instrD);
    EmittedTwo(s0, s1);
    assert d[..2] == [d[0], d[1]] && d[..1] == [d[0]] && [d[0], d[1]][1..] == [d[1]];
    if k == 0 {
      ParseTwo(base, d[0], d[1]);
      ParseOne(base + 2, d[1]);
    } else {
      ParseOne(base + 2, d[0]);
    }
  }

  // ---- the registers, and whole runs ----

  /** One cycle at the inputs: the halves are those of the block from the fetch address upwards. */
  datatype Cycle = Cycle(valid: bool, flush: bool, address: nat, hs: seq<Half>)

  datatype Stream = Stream(start: nat, hs: seq<Half>)

  /** The streams between flushes: the finished ones and the current one. */
  datatype Streams = Streams(closed: seq<Stream>, current: seq<Stream>)

  function Extend(st: Streams, c: Cycle): Streams
  {
    var current :=
      if !c.valid then st.current
      else if st.current == [] then [Stream(c.address, c.hs)]
      else [Stream(st.current[0].start, st.current[0].hs + c.hs)];
    if c.flush then Streams(st.closed + current, []) else Streams(st.closed, current)
  }

  function StreamsOf(cs: seq<Cycle>): (st: Streams)
    ensures |st.current| <= 1
  {
    if cs == [] then Streams([], []) else Extend(StreamsOf(cs[..|cs| - 1]), cs[|cs| - 1])
  }

  /** A cycle delivers a whole block, or its upper part, and continues the current stream. */
  predicate Continues(width: nat, st: Streams, c: Cycle)
  {
    && c.address % 2 == 0
    && |c.hs| == width - Offset(c.address, width)
    && (c.valid && st.current != [] ==> c.address == st.current[0].start + 2 * |st.current[0].hs|)
  }

  predicate Sequential(width: nat, cs: seq<Cycle>)
  {
    cs == [] ||
    (Sequential(width, cs[..|cs| - 1]) && Continues(width, StreamsOf(cs[..|cs| - 1]), cs[|cs| - 1]))
  }

  lemma {:induction false} SequentialAt(width: nat, cs: seq<Cycle>, t: nat)
    requires Sequential(width, cs) && t < |cs|
    ensures Continues(width, StreamsOf(cs[..t]), cs[t])
  {
    if t < |cs| - 1 {
      SequentialAt(width, cs[..|cs| - 1], t);
      assert cs[..|cs| - 1][..t] == cs[..t];
    }
  }

  function InsnsOf(ss: seq<Stream>): seq<Parsed>
  {
    if ss == [] then []
    else InsnsOf(ss[..|ss| - 1]) + ParseFrom(ss[|ss| - 1].start, ss[|ss| - 1].hs).insns
  }

  /** The parser's output for a run: every stream parsed from its start. */
  function Reference(st: Streams): seq<Parsed>
  {
    InsnsOf(st.closed) + InsnsOf(st.current)
  }

  /** What the parser has left over. */
  function Leftover(st: Streams): Rest
  {
    if st.current == [] then Nothing else ParseFrom(st.current[0].start, st.current[0].hs).rest
  }

  /** Every block but the first of a stream starts on a block boundary. */
  predicate EndsOnBoundary(width: nat, st: Streams)
  {
    |st.current| <= 1 &&
    (st.current != [] ==> Offset(st.current[0].start + 2 * |st.current[0].hs|, width) == 0)
  }

  lemma EndOfBlock(width: nat, address: nat)
    requires width in {2, 4} && address % 2 == 0
    ensures Offset(address, width) < width
    ensures Offset(address + 2 * (width - Offset(address, width)), width) == 0
  {
  }

  lemma BoundaryKept(width: nat, st: Streams, c: Cycle)
    requires width in {2, 4} && EndsOnBoundary(width, st) && Continues(width, st, c)
    ensures EndsOnBoundary(width, Extend(st, c))
    ensures |c.hs| > 0 && |c.hs| <= width
  {
    EndOfBlock(width, c.address);
    if c.valid && st.current != [] {
      var s := st.current[0];
      assert s.start + 2 * |s.hs + c.hs| == c.address + 2 * |c.hs|;
    }
  }

  /** In a sequential run, the meaning of a block is the continuation of the parse. */
  lemma BlockResumes(width: nat, st: Streams, c: Cycle, q: Saved)
    requires width in {2, 4} && EndsOnBoundary(width, st) && Continues(width, st, c) && c.valid && c.hs != []
    requires RestOf(q) == Leftover(st)
    ensures BlockParse(Offset(c.address, width) == 0, c.address, c.hs, q) == Resume(Leftover(st), c.address, c.hs)
    ensures q.unaligned ==> Offset(c.address, width) == 0
  {
    if q.unaligned {
      var s := st.current[0];
      ParseAppend(s.start, s.hs, []);
      assert ([q.h] + c.hs)[2..] == c.hs[1..];
    }
  }

  lemma OneStream(s: Stream)
    ensures InsnsOf([s]) == ParseFrom(s.start, s.hs).insns
    ensures InsnsOf([]) == []
  {
  }

  lemma CurrentExtends(current: seq<Stream>, c: Cycle)
    requires |current| <= 1 && c.valid
    requires current != [] ==> c.address == current[0].start + 2 * |current[0].hs|
    ensures var st, st' := Streams([], current), Extend(Streams([], current), c.(flush := false));
            var p := Resume(Leftover(st), c.address, c.hs);
            InsnsOf(st'.current) == InsnsOf(current) + p.insns && Leftover(st') == p.rest
  {
    if current == [] {
      OneStream(Stream(c.address, c.hs));
    } else {
      var s := current[0];
      assert current == [s];
      ParseAppend(s.start, s.hs, c.hs);
      OneStream(s);
      OneStream(Stream(s.start, s.hs + c.hs));
    }
  }

  /** The streams after a cycle, but for its flush. */
  function Grown(st: Streams, c: Cycle): Streams
  {
    Extend(st, c.(flush := false))
  }

  lemma ReferenceGrows(width: nat, st: Streams, c: Cycle)
    requires width in {2, 4} && EndsOnBoundary(width, st) && Continues(width, st, c)
    ensures var p := if c.valid then Resume(Leftover(st), c.address, c.hs) else Parse([], Leftover(st));
      && Reference(Grown(st, c)) == Reference(st) + p.insns
      && Leftover(Grown(st, c)) == p.rest
  {
    if c.valid {
      CurrentExtends(st.current, c);
    }
  }

  lemma FlushCloses(st: Streams, c: Cycle)
    requires |st.current| <= 1 && c.flush
    ensures Reference(Extend(st, c)) == Reference(Grown(st, c)) && Leftover(Extend(st, c)) == Nothing
  {
    ClosedAppend(st.closed, Grown(st, c).current);
  }

  /** Adding a block to the current stream adds the block's instructions to the reference output. */
  lemma ReferenceExtends(width: nat, st: Streams, c: Cycle)
    requires width in {2, 4} && EndsOnBoundary(width, st) && Continues(width, st, c)
    ensures var p := if c.valid then Resume(Leftover(st), c.address, c.hs) else Parse([], Leftover(st));
      && Reference(Extend(st, c)) == Reference(st) + p.insns
      && Leftover(Extend(st, c)) == if c.flush then Nothing else p.rest
  {
    ReferenceGrows(width, st, c);
    if c.flush {
      FlushCloses(st, c);
    }
  }

  lemma ClosedAppend(closed: seq<Stream>, current: seq<Stream>)
    requires |current| <= 1
    ensures InsnsOf(closed + current) == InsnsOf(closed) + InsnsOf(current)
  {
    if current == [] {
      assert closed + current == closed;
    } else {
      OneStream(current[0]);
      assert current == [current[0]];
      assert (closed + current)[..|closed|] == closed;
    }
  }

  /** The realigner with its registers; `width` is 4 for 64-bit and 2 for 32-bit fetch. */
  class Realigner {
    const width: nat
    var saved: Saved

    predicate Valid()
      reads this
    {
      width in {2, 4} && (saved.unaligned ==> !Compressed(saved.h))
    }

    constructor (width: nat)
      requires width in {2, 4}
      ensures Valid() && this.width == width && RestOf(saved) == Nothing
    {
      this.width := width;
      saved := Saved(false, 0, 0);
    }

    /** One clock cycle in a run that has delivered `st` so far: what is emitted extends the parser's
        output, and what is saved is the parser's leftover. */
    method Tick(c: Cycle, ghost st: Streams) returns (slots: seq<Slot>)
      requires Valid() && EndsOnBoundary(width, st)
      requires Continues(width, st, c) && RestOf(saved) == Leftover(st)
      modifies this
      ensures Valid()
      ensures Reference(Extend(st, c)) == Reference(st) + Emitted(slots)
      ensures RestOf(saved) == Leftover(Extend(st, c))
    {
      BoundaryKept(width, st, c);
      ReferenceExtends(width, st, c);
      var next;
      slots, next := Align(c, st);
      if c.valid {
        saved := saved.(addr := next.addr, h := next.h);
      }
      if c.flush {
        saved := saved.(unaligned := false);
      } else if c.valid {
        saved := saved.(unaligned := next.unaligned);
      }
    }

    /** The combinational part, with the zeros the front end shifts in on top. */
    method Align(c: Cycle, ghost st: Streams) returns (slots: seq<Slot>, next: Saved)
      requires Valid() && EndsOnBoundary(width, st)
      requires Continues(width, st, c) && RestOf(saved) == Leftover(st) && 0 < |c.hs| <= width
      ensures c.valid ==> Meets(slots, next, Resume(Leftover(st), c.address, c.hs))
      ensures c.valid && next.unaligned ==> !Compressed(next.h)
      ensures !c.valid ==> Emitted(slots) == []
    {
      // the fetch data arrive shifted down to the fetch address, with zeros on top
      var d := c.hs + seq(width - |c.hs|, _ => 0);
      assert d[..|c.hs|] == c.hs;
      if c.valid {
        BlockResumes(width, st, c, saved);
        ResumeLeftover(Leftover(st), c.address, c.hs);
      }
      if width == 4 {
        slots, next := Align64(c.valid, c.address, d, saved);
      } else {
        slots, next := Align32(c.valid, c.address, d, saved);
      }
    }
  }

  lemma {:induction false} RestNotCompressed(addr: nat, hs: seq<Half>)
    ensures var r := ParseFrom(addr, hs).rest; r.LowerHalf? ==> !Compressed(r.h)
  {
    ParseAppend(addr, hs, []);
  }

  lemma ResumeLeftover(rest: Rest, addr: nat, hs: seq<Half>)
    ensures var r := Resume(rest, addr, hs).rest; r.LowerHalf? ==> !Compressed(r.h)
  {
    match rest
    case Nothing => RestNotCompressed(addr, hs);
    case LowerHalf(a, h) => RestNotCompressed(a, [h] + hs);
  }

  /** A whole run, with stalls and flushes: the instructions emitted are those of the parser, for every
      stream between two flushes, in order. */
  method Run(r: Realigner, cs: seq<Cycle>) returns (log: seq<Parsed>)
    requires r.Valid() && RestOf(r.saved) == Nothing && Sequential(r.width, cs)
    modifies r
    ensures log == Reference(StreamsOf(cs))
    ensures RestOf(r.saved) == Leftover(StreamsOf(cs))
  {
    log := [];
    ghost var st := Streams([], []);
    assert cs[..0] == [];
    for t := 0 to |cs|
      invariant r.Valid()
      invariant st == StreamsOf(cs[..t]) && EndsOnBoundary(r.width, st)
      invariant log == Reference(st) && RestOf(r.saved) == Leftover(st)
    {
      assert cs[..t + 1][..t] == cs[..t];
      SequentialAt(r.width, cs, t);
      BoundaryKept(r.width, st, cs[t]);
      var slots := r.Tick(cs[t], st);
      log := log + Emitted(slots);
      st := Extend(st, cs[t]);
    }
    assert cs[..|cs|] == cs;
  }

  /** An instruction stream cut into fetch blocks. */
  function Chop(width: nat, start: nat, hs: seq<Half>): seq<Cycle>
    requires width > 0
    decreases |hs|
  {
    if |hs| <= width - Offset(start, width) then [Cycle(true, false, start, hs)]
    else
      var n := if |hs| < width then 0 else |hs| - width;
      Chop(width, start, hs[..n]) + [Cycle(true, false, start + 2 * n, hs[n..])]
  }

  lemma SequentialSnoc(width: nat, cs: seq<Cycle>, c: Cycle, cs': seq<Cycle>)
    requires Sequential(width, cs) && Continues(width, StreamsOf(cs), c) && cs' == cs + [c]
    ensures Sequential(width, cs') && StreamsOf(cs') == Extend(StreamsOf(cs), c)
  {
    assert cs'[..|cs|] == cs;
  }

  lemma {:induction false} ChopIsOneStream(width: nat, start: nat, hs: seq<Half>)
    requires width in {2, 4} && start % 2 == 0 && hs != [] && Offset(start + 2 * |hs|, width) == 0
    ensures Sequential(width, Chop(width, start, hs))
    ensures StreamsOf(Chop(width, start, hs)) == Streams([], [Stream(start, hs)])
    decreases |hs|
  {
    if |hs| <= width - Offset(start, width) {
      ChopOnce(width, start, hs);
    } else {
      LastBlock(width, start, |hs|);
      var n := |hs| - width;
      var cs, cs' := Chop(width, start, hs[..n]), Chop(width, start, hs);
      ChopIsOneStream(width, start, hs[..n]);
      ChopUnfolds(width, start, hs, n, cs, cs');
      ChopMore(width, start, hs, n, cs, cs');
    }
  }

  lemma ChopUnfolds(width: nat, start: nat, hs: seq<Half>, n: nat, cs: seq<Cycle>, cs': seq<Cycle>)
    requires width > 0 && |hs| == n + width > width - Offset(start, width)
    requires cs == Chop(width, start, hs[..n]) && cs' == Chop(width, start, hs)
    ensures cs' == cs + [Cycle(true, false, start + 2 * n, hs[n..])]
  {
  }

  lemma ChopOnce(width: nat, start: nat, hs: seq<Half>)
    requires width in {2, 4} && start % 2 == 0 && hs != [] && Offset(start + 2 * |hs|, width) == 0
    requires |hs| <= width - Offset(start, width)
    ensures Sequential(width, Chop(width, start, hs))
    ensures StreamsOf(Chop(width, start, hs)) == Streams([], [Stream(start, hs)])
  {
    var c := Cycle(true, false, start, hs);
    LastPart(width, start, |hs|);
    SequentialSnoc(width, [], c, [c]);
  }

  lemma ChopMore(width: nat, start: nat, hs: seq<Half>, n: nat, cs: seq<Cycle>, cs': seq<Cycle>)
    requires width in {2, 4} && start % 2 == 0 && n + width == |hs| && Offset(start + 2 * n, width) == 0
    requires Sequential(width, cs) && StreamsOf(cs) == Streams([], [Stream(start, hs[..n])])
    requires cs' == cs + [Cycle(true, false, start + 2 * n, hs[n..])]
    ensures Sequential(width, cs') && StreamsOf(cs') == Streams([], [Stream(start, hs)])
  {
    SequentialSnoc(width, cs, Cycle(true, false, start + 2 * n, hs[n..]), cs');
    assert hs[..n] + hs[n..] == hs;
  }

  lemma LastPart(width: nat, start: nat, n: nat)
    requires width in {2, 4} && start % 2 == 0
    requires 0 < n <= width - Offset(start, width) && Offset(start + 2 * n, width) == 0
    ensures n == width - Offset(start, width)
  {
  }

  lemma LastBlock(width: nat, start: nat, n: nat)
    requires width in {2, 4} && start % 2 == 0
    requires n > width - Offset(start, width) && Offset(start + 2 * n, width) == 0
    ensures n > width && Offset(start + 2 * (n - width), width) == 0
  {
    var a := start / 2;
    assert (start + 2 * n) / 2 == a + n && (start + 2 * (n - width)) / 2 == a + n - width;
    if width == 4 { LastOfFour(a, n); } else { LastOfTwo(a, n); }
  }

  lemma LastOfFour(a: nat, n: nat)
    requires n > 4 - a % 4 && (a + n) % 4 == 0
    ensures n > 4 && (a + n - 4) % 4 == 0
  {
    assert (a % 4 + n) % 4 == 0;
  }

  lemma LastOfTwo(a: nat, n: nat)
    requires n > 2 - a % 2 && (a + n) % 2 == 0
    ensures n > 2 && (a + n - 2) % 2 == 0
  {
    assert (a % 2 + n) % 2 == 0;
  }

  method RunStream(width: nat, start: nat, hs: seq<Half>) returns (log: seq<Parsed>)
    requires width in {2, 4} && start % 2 == 0 && hs != [] && Offset(start + 2 * |hs|, width) == 0
    ensures log == ParseFrom(start, hs).insns
  {
    OneStream(Stream(start, hs));
    ChopIsOneStream(width, start, hs);
    var r := new Realigner(width);
    log := Run(r, Chop(width, start, hs));
  }

  /** The two variants of the realigner emit the same instructions for the same stream: those of the
      parser. */
  method SameForBothWidths(start: nat, hs: seq<Half>) returns (log32: seq<Parsed>, log64: seq<Parsed>)
    requires start % 2 == 0 && hs != [] && Offset(start + 2 * |hs|, 4) == 0
    ensures log32 == log64 == ParseFrom(start, hs).insns
  {
    log64 := RunStream(4, start, hs);
    log32 := RunStream(2, start, hs);
  }

  /** The halfwords an instruction occupies. */
  function HalvesOf(p: Parsed): seq<Half>
  {
    match p
    case Short(_, h) => [h]
    case Long(_, lo, hi) => [lo, hi]
  }

  function Flatten(ps: seq<Parsed>): seq<Half>
  {
    if ps == [] then [] else HalvesOf(ps[0]) + Flatten(ps[1..])
  }

  /** Instruction `k` starts where the ones before it end. */
  predicate Contiguous(addr: nat, ps: seq<Parsed>)
    decreases ps
  {
    ps == [] || (ps[0].addr == addr && Contiguous(addr + 2 * |HalvesOf(ps[0])|, ps[1..]))
  }

  /** The instructions laid end to end, and the leftover half behind them, are the stream; the addresses are
      contiguous from its start; exactly the instructions whose low bits are 11 are 32 bits long, and the leftover
      half is the lower half of one. */
  ghost predicate Lossless(addr: nat, hs: seq<Half>, p: Parse)
  {
    && Flatten(p.insns) + (if p.rest.LowerHalf? then [p.rest.h] else []) == hs
    && Contiguous(addr, p.insns)
    && (p.rest.LowerHalf? ==> p.rest.addr == addr + 2 * |Flatten(p.insns)| && p.rest.h % 4 == 3)
    && (forall q :: q in p.insns ==> (q.Long? <==> HalvesOf(q)[0] % 4 == 3))
  }

  lemma LosslessCons(addr: nat, hs: seq<Half>, n: nat, head: Parsed, q: Parse)
    requires n <= |hs| && Lossless(addr + 2 * n, hs[n..], q)
    requires HalvesOf(head) == hs[..n] && head.addr == addr && (head.Long? <==> hs[0] % 4 == 3)
    ensures Lossless(addr, hs, Cons(head, q))
  {
    var insns := [head] + q.insns;
    assert insns[1..] == q.insns;
    assert hs == hs[..n] + hs[n..];
  }

  /** The parser loses, duplicates and moves nothing. */
  lemma {:induction false} ParserIsLossless(addr: nat, hs: seq<Half>)
    ensures Lossless(addr, hs, ParseFrom(addr, hs))
    decreases |hs|
  {
    if hs == [] {
    } else if Compressed(hs[0]) {
      ParserIsLossless(addr + 2, hs[1..]);
      LosslessCons(addr, hs, 1, Short(addr, hs[0]), ParseFrom(addr + 2, hs[1..]));
    } else if |hs| > 1 {
      ParserIsLossless(addr + 4, hs[2..]);
      LosslessCons(addr, hs, 2, Long(addr, hs[0], hs[1]), ParseFrom(addr + 4, hs[2..]));
    }
  }
}
