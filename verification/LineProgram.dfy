/** The line-number program: its operations, the special-opcode encoding, and the reader that replays it. */
module LineProgram {
  import opened Options

  const OPCODE_BASE: int := 12
  const LINE_RANGE: int := 15
  const LINE_BASE: int := -4
  const UINT32: int := 0x1_0000_0000
  const INT32_MAX: int := 0x7fff_ffff
  const UINT32_MAX: int := UINT32 - 1
  const DEFAULT_LINE: int := UINT32 * UINT32 - 1

  datatype Op =
    | AdvancePc(pc: int)
    | AdvanceLine(line: int)
    | Special(opcode: int)
    | SetColumn(column: int)
    | StartLocal(reg: int, name: string)
    | EndLocal(reg: int)

  /** The byte for a pc and a line increment, if there is one; the product is computed in 32 bits and may wrap. */
  function SpecialOpcode(pcInc: int, lineInc: int): Option<int>
    requires 0 <= pcInc
  {
    if lineInc < LINE_BASE || lineInc - LINE_BASE >= LINE_RANGE then None
    else
      var opcode := (lineInc - LINE_BASE) + (pcInc * LINE_RANGE) % UINT32 + OPCODE_BASE;
      if opcode > 255 then None else Some(opcode)
  }

  function SpecialPc(opcode: int): int
    requires OPCODE_BASE <= opcode <= 255
  {
    (opcode - OPCODE_BASE) / LINE_RANGE
  }

  function SpecialLine(opcode: int): int
    requires OPCODE_BASE <= opcode <= 255
  {
    (opcode - OPCODE_BASE) % LINE_RANGE + LINE_BASE
  }

  /** A special opcode reads back as what was encoded exactly when the 32-bit product did not wrap. */
  lemma SpecialRoundTrip(pcInc: int, lineInc: int)
    requires 0 <= pcInc && SpecialOpcode(pcInc, lineInc).Some?
    ensures OPCODE_BASE <= SpecialOpcode(pcInc, lineInc).value <= 255
    ensures var op := SpecialOpcode(pcInc, lineInc).value;
            (SpecialPc(op) == pcInc && SpecialLine(op) == lineInc) <==> pcInc * LINE_RANGE < UINT32
  {
    var op := SpecialOpcode(pcInc, lineInc).value;
    var a := lineInc - LINE_BASE;
    if pcInc * LINE_RANGE < UINT32 {
      assert op - OPCODE_BASE == a + pcInc * LINE_RANGE;
      DivMod(a, pcInc);
    } else {
      assert op - OPCODE_BASE < 256;
      assert SpecialPc(op) <= 256;
    }
  }

  /** Where the product does not wrap, a byte is found exactly if some byte stands for the two increments. */
  lemma SpecialIsFound(pcInc: int, lineInc: int)
    requires 0 <= pcInc && pcInc * 15 < 0x1_0000_0000
    ensures SpecialOpcode(pcInc, lineInc).Some? <==>
            exists op :: 12 <= op <= 255 && StandsFor(op, pcInc, lineInc)
    ensures SpecialOpcode(pcInc, lineInc).Some? ==>
              StandsFor(SpecialOpcode(pcInc, lineInc).value, pcInc, lineInc)
  {
    if SpecialOpcode(pcInc, lineInc).Some? {
      SpecialRoundTrip(pcInc, lineInc);
      assert StandsFor(SpecialOpcode(pcInc, lineInc).value, pcInc, lineInc);
    }
    forall op | 12 <= op <= 255 && StandsFor(op, pcInc, lineInc)
      ensures SpecialOpcode(pcInc, lineInc) == Some(op)
    {
      DivMod(lineInc - LINE_BASE, pcInc);
      assert op - 12 == pcInc * 15 + (lineInc + 4);
      assert pcInc * LINE_RANGE % UINT32 == pcInc * 15;
    }
  }

  /** A special opcode counts line increments from -4 to 10 in steps of one, and the pc in steps of 15. */
  predicate StandsFor(op: int, pcInc: int, lineInc: int) {
    (op - 12) / 15 == pcInc && (op - 12) % 15 == lineInc + 4
  }

  lemma DivMod(a: int, q: int)
    requires 0 <= a < LINE_RANGE && 0 <= q
    ensures (a + q * LINE_RANGE) / LINE_RANGE == q && (a + q * LINE_RANGE) % LINE_RANGE == a
  {
  }

  // ----- the reader -----

  datatype Entry = Entry(offset: int, value: int)

  datatype Local = Local(name: string, reg: int, start: int, end: int)

  /** What the reader has collected; `bad` is an EndLocal for a register that never started. */
  datatype Reader = Reader(address: int, line: int, lines: seq<Entry>, columns: seq<Entry>, locals: seq<Local>,
      bad: bool)

  /** A 32-bit column goes through a signed 32-bit parameter into a 64-bit field. */
  function WidenColumn(c: int): int {
    if c <= INT32_MAX then c else c - UINT32 + UINT32 * UINT32
  }

  /** The most recent variable in this register, if any. */
  function LastIn(locals: seq<Local>, reg: int): int
    ensures -1 <= LastIn(locals, reg) < |locals|
    decreases |locals|
  {
    if locals == [] then -1
    else if locals[|locals| - 1].reg == reg then |locals| - 1
    else LastIn(locals[..|locals| - 1], reg)
  }

  function ReadOp(r: Reader, op: Op): Reader {
    match op
    case AdvancePc(n) => r.(address := r.address + n)
    case AdvanceLine(n) => r.(line := r.line + n)
    case Special(o) =>
      if OPCODE_BASE <= o <= 255 then
        var address, line := r.address + SpecialPc(o), r.line + SpecialLine(o);
        r.(address := address, line := line, lines := r.lines + [Entry(address, line)])
      else r
    case SetColumn(c) => r.(columns := r.columns + [Entry(r.address, WidenColumn(c))])
    case StartLocal(reg, name) => r.(locals := r.locals + [Local(name, reg, r.address, 0)])
    case EndLocal(reg) =>
      var k := LastIn(r.locals, reg);
      if k < 0 then r.(bad := true) else r.(locals := r.locals[k := r.locals[k].(end := r.address)])
  }

  function ReadAll(r: Reader, ops: seq<Op>): Reader
    decreases |ops|
  {
    if ops == [] then r else ReadOp(ReadAll(r, ops[..|ops| - 1]), ops[|ops| - 1])
  }

  function Replay(lineStart: int, ops: seq<Op>): Reader {
    ReadAll(Reader(0, lineStart, [Entry(0, lineStart)], [], [], false), ops)
  }

  /** At the end of the program a variable whose end was never set, or was set to 0, ends at the last address. */
  function CloseLocal(r: Reader, v: Local): Local {
    if v.end == 0 then v.(end := r.address) else v
  }

  lemma {:induction false} ReadAllAppend(r: Reader, a: seq<Op>, b: seq<Op>)
    ensures ReadAll(r, a + b) == ReadAll(ReadAll(r, a), b)
    decreases |b|
  {
    if b == [] {
      assert a + b == a;
    } else {
      var init := b[..|b| - 1];
      assert (a + b)[..|a + b| - 1] == a + init;
      ReadAllAppend(r, a, init);
    }
  }

  lemma ReadOne(r: Reader, op: Op)
    ensures ReadAll(r, [op]) == ReadOp(r, op)
  {
    assert [op][..0] == [];
    assert ReadAll(r, []) == r;
  }

  // ----- looking an instruction up -----

  /** The value of the last entry at or before `pc`, or the default when there is none. */
  function Lookup(table: seq<Entry>, default: int, pc: int): int
    decreases |table|
  {
    if table == [] then default
    else if table[|table| - 1].offset <= pc then table[|table| - 1].value
    else Lookup(table[..|table| - 1], default, pc)
  }

  predicate Nondecreasing(table: seq<Entry>) {
    forall i, j :: 0 <= i <= j < |table| ==> table[i].offset <= table[j].offset
  }

  lemma LookupAppend(table: seq<Entry>, e: Entry, default: int, pc: int)
    ensures Lookup(table + [e], default, pc) == if e.offset <= pc then e.value else Lookup(table, default, pc)
  {
    assert (table + [e])[..|table|] == table;
  }
}
