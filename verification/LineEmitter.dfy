/** The emitter of the line-number program. */
module LineEmitter {
  import opened LineProgram

  const DEFAULT_COLUMN: int := UINT32 - 1

  /** `hasOpcode` is false for labels. */
  datatype Ins = Ins(hasOpcode: bool, size: int, line: int, column: int, canThrow: bool)

  /** A local variable lives in instructions `start` up to, but not including, `start + length`. */
  datatype Var = Var(name: string, reg: int, start: int, length: int)

  datatype Function = Function(ins: seq<Ins>, vars: seq<Var>, regsNum: int)

  datatype Event = Event(order: int, v: nat)

  /** The program written so far and what the emitter carries from instruction to instruction. */
  datatype Emitted = Emitted(ops: seq<Op>, pcInc: int, prevLine: int, prevColumn: int)

  /** The address of instruction `i`. */
  function Pc(f: Function, i: int): int
    requires 0 <= i <= |f.ins|
    decreases i
  {
    if i == 0 then 0 else Pc(f, i - 1) + (if f.ins[i - 1].hasOpcode then f.ins[i - 1].size else 0)
  }

  predicate InsOk(ins: Ins) {
    0 <= ins.line <= INT32_MAX && 0 <= ins.column < UINT32 && (ins.hasOpcode ==> ins.size > 0)
  }

  /** Lines fit a signed and columns an unsigned 32-bit number; the code is short enough for special opcodes. */
  ghost predicate FunctionOk(f: Function) {
    && f.ins != [] && (forall i :: 0 <= i < |f.ins| ==> InsOk(f.ins[i]))
    && Pc(f, |f.ins|) * LINE_RANGE < UINT32
  }

  lemma {:induction false} PcGrows(f: Function, i: int, j: int)
    requires 0 <= i <= j <= |f.ins| && forall k :: 0 <= k < |f.ins| ==> InsOk(f.ins[k])
    ensures Pc(f, i) <= Pc(f, j)
    ensures i < j && f.ins[i].hasOpcode ==> Pc(f, i) < Pc(f, j)
    decreases j
  {
    if i < j {
      PcGrows(f, i, j - 1);
      assert InsOk(f.ins[j - 1]);
    }
  }

  lemma PcIsNat(f: Function, i: int)
    requires 0 <= i <= |f.ins| && forall k :: 0 <= k < |f.ins| ==> InsOk(f.ins[k])
    ensures 0 <= Pc(f, i)
  {
    PcGrows(f, 0, i);
  }

  // ----- what each step writes -----

  function PcOps(pcInc: int): seq<Op> {
    if pcInc != 0 then [AdvancePc(pcInc)] else []
  }

  /** The special opcode that advances nothing and records the current line. */
  function ZeroOp(): Op {
    Special(SpecialOpcode(0, 0).value)
  }

  function NumberOps(pcInc: int, lineInc: int): seq<Op>
    requires 0 <= pcInc
  {
    var direct := SpecialOpcode(pcInc, lineInc);
    var short := SpecialOpcode(0, lineInc);
    if direct.Some? then [Special(direct.value)]
    else if pcInc == 0 then [AdvanceLine(lineInc), ZeroOp()]
    else if short.Some? then [AdvancePc(pcInc), Special(short.value)]
    else [AdvancePc(pcInc), AdvanceLine(lineInc), ZeroOp()]
  }

  ghost predicate HasByte(pcInc: int, lineInc: int) {
    exists op :: 12 <= op <= 255 && StandsFor(op, pcInc, lineInc)
  }

  /** One byte if there is one for both increments; else the pc is advanced first, if it has to be, then the line. */
  lemma FewestOps(pcInc: int, lineInc: int)
    requires 0 <= pcInc && pcInc * 15 < 0x1_0000_0000
    ensures |NumberOps(pcInc, lineInc)|
            == if HasByte(pcInc, lineInc) then 1 else if pcInc == 0 || HasByte(0, lineInc) then 2 else 3
    ensures NumberOps(pcInc, lineInc)[0].AdvancePc? <==> pcInc != 0 && !HasByte(pcInc, lineInc)
  {
    SpecialIsFound(pcInc, lineInc);
    SpecialIsFound(0, lineInc);
  }

  function WithLine(f: Function, st: Emitted, i: int): Emitted
    requires 0 <= i < |f.ins| && 0 <= st.pcInc
  {
    var inc := f.ins[i].line - st.prevLine;
    if inc == 0 then st else Emitted(st.ops + NumberOps(st.pcInc, inc), 0, f.ins[i].line, st.prevColumn)
  }

  function WithColumn(f: Function, st: Emitted, i: int): Emitted
    requires 0 <= i < |f.ins|
  {
    if f.ins[i].column == st.prevColumn then st
    else Emitted(st.ops + PcOps(st.pcInc) + [SetColumn(f.ins[i].column)], 0, st.prevLine, f.ins[i].column)
  }

  function WithIns(f: Function, debug: bool, st: Emitted, i: int): Emitted
    requires 0 <= i < |f.ins| && 0 <= st.pcInc
  {
    if !f.ins[i].hasOpcode then st
    else
      var st1 := if debug || f.ins[i].canThrow then WithLine(f, st, i) else st;
      var st2 := if debug then WithColumn(f, st1, i) else st1;
      st2.(pcInc := st2.pcInc + f.ins[i].size)
  }

  function WithPc(st: Emitted): Emitted {
    st.(ops := st.ops + PcOps(st.pcInc), pcInc := 0)
  }

  function WithLocal(f: Function, st: Emitted, order: int, v: nat): Emitted
    requires v < |f.vars|
  {
    var x := f.vars[v];
    var st1 := if order == x.start then WithPc(st).(ops := WithPc(st).ops + [StartLocal(x.reg, x.name)]) else st;
    if order == x.start + x.length then WithPc(st1).(ops := WithPc(st1).ops + [EndLocal(x.reg)]) else st1
  }

  // ----- reading it back -----

  ghost function Read(f: Function, st: Emitted): Reader
    requires f.ins != []
  {
    Replay(f.ins[0].line, st.ops)
  }

  lemma ReadMore(f: Function, st: Emitted, more: seq<Op>)
    requires f.ins != []
    ensures Read(f, st.(ops := st.ops + more)) == ReadAll(Read(f, st), more)
  {
    ReadAllAppend(Reader(0, f.ins[0].line, [Entry(0, f.ins[0].line)], [], [], false), st.ops, more);
  }

  lemma ReadPcOps(r: Reader, pcInc: int)
    ensures ReadAll(r, PcOps(pcInc)) == r.(address := r.address + pcInc)
  {
    if pcInc != 0 { ReadOne(r, AdvancePc(pcInc)); }
  }

  lemma ReadTwo(r: Reader, a: Op, b: Op)
    ensures ReadAll(r, [a, b]) == ReadOp(ReadOp(r, a), b)
  {
    assert [a, b][..1] == [a];
    ReadOne(r, a);
  }

  lemma ReadShort(r: Reader, pcInc: int, lineInc: int)
    requires SpecialOpcode(0, lineInc).Some?
    ensures ReadAll(r, [AdvancePc(pcInc), Special(SpecialOpcode(0, lineInc).value)])
            == r.(address := r.address + pcInc, line := r.line + lineInc,
                  lines := r.lines + [Entry(r.address + pcInc, r.line + lineInc)])
  {
    SpecialRoundTrip(0, lineInc);
    ReadTwo(r, AdvancePc(pcInc), Special(SpecialOpcode(0, lineInc).value));
  }

  lemma ReadZero(r: Reader)
    ensures ReadOp(r, ZeroOp()) == r.(lines := r.lines + [Entry(r.address, r.line)])
  {
    SpecialRoundTrip(0, 0);
  }

  lemma ReadThree(r: Reader, a: Op, b: Op, c: Op)
    ensures ReadAll(r, [a, b, c]) == ReadOp(ReadOp(ReadOp(r, a), b), c)
  {
    assert [a, b, c][..2] == [a, b];
    ReadTwo(r, a, b);
  }

  lemma ReadLong(r: Reader, pcInc: int, lineInc: int)
    ensures ReadAll(r, [AdvancePc(pcInc), AdvanceLine(lineInc), ZeroOp()])
            == r.(address := r.address + pcInc, line := r.line + lineInc,
                  lines := r.lines + [Entry(r.address + pcInc, r.line + lineInc)])
  {
    var moved := r.(address := r.address + pcInc, line := r.line + lineInc);
    assert ReadOp(ReadOp(r, AdvancePc(pcInc)), AdvanceLine(lineInc)) == moved;
    ReadThree(r, AdvancePc(pcInc), AdvanceLine(lineInc), ZeroOp());
    ReadZero(moved);
  }

  lemma ReadLineOnly(r: Reader, lineInc: int)
    ensures ReadAll(r, [AdvanceLine(lineInc), ZeroOp()])
            == r.(line := r.line + lineInc, lines := r.lines + [Entry(r.address, r.line + lineInc)])
  {
    ReadTwo(r, AdvanceLine(lineInc), ZeroOp());
    ReadZero(r.(line := r.line + lineInc));
  }

  lemma ReadDirect(r: Reader, pcInc: int, lineInc: int)
    requires 0 <= pcInc && pcInc * LINE_RANGE < UINT32 && SpecialOpcode(pcInc, lineInc).Some?
    ensures ReadAll(r, [Special(SpecialOpcode(pcInc, lineInc).value)])
            == r.(address := r.address + pcInc, line := r.line + lineInc,
                  lines := r.lines + [Entry(r.address + pcInc, r.line + lineInc)])
  {
    SpecialRoundTrip(pcInc, lineInc);
    ReadOne(r, Special(SpecialOpcode(pcInc, lineInc).value));
  }

  /** However the increments are split between opcodes, one line entry is added, at the advanced address. */
  lemma ReadNumberOps(r: Reader, pcInc: int, lineInc: int)
    requires 0 <= pcInc && pcInc * LINE_RANGE < UINT32
    ensures ReadAll(r, NumberOps(pcInc, lineInc))
            == r.(address := r.address + pcInc, line := r.line + lineInc,
                  lines := r.lines + [Entry(r.address + pcInc, r.line + lineInc)])
  {
    if SpecialOpcode(pcInc, lineInc).Some? {
      ReadDirect(r, pcInc, lineInc);
    } else if pcInc == 0 {
      ReadLineOnly(r, lineInc);
    } else if SpecialOpcode(0, lineInc).Some? {
      ReadShort(r, pcInc, lineInc);
    } else {
      ReadLong(r, pcInc, lineInc);
    }
  }
}
