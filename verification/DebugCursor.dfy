/** The one-pass cursor that gives each disassembled instruction its line and column. */
module DebugCursor {
  import opened LineProgram
  import opened LineEmitter
  import opened LineRoundTrip
  import opened LineAddress

  datatype Cursor = Cursor(idx: int, start: int, end: int)

  /** Sorted by offset, every offset an unsigned 32-bit number. */
  ghost predicate TableOk(table: seq<Entry>) {
    Nondecreasing(table) && forall k :: 0 <= k < |table| ==> 0 <= table[k].offset < UINT32_MAX
  }

  /** The number of entries at or before `pc` in a sorted table. */
  function Before(table: seq<Entry>, pc: int): (n: int)
    ensures 0 <= n <= |table|
    decreases |table|
  {
    if table == [] then 0
    else if table[|table| - 1].offset <= pc then |table|
    else Before(table[..|table| - 1], pc)
  }

  lemma {:induction false} BeforeIs(table: seq<Entry>, pc: int, n: int)
    requires Nondecreasing(table) && 0 <= n <= |table|
    requires 0 < n ==> table[n - 1].offset <= pc
    requires n < |table| ==> pc < table[n].offset
    ensures Before(table, pc) == n
    decreases |table|
  {
    if n < |table| { BeforeIs(table[..|table| - 1], pc, n); }
  }

  lemma {:induction false} LookupIsBefore(table: seq<Entry>, default: int, pc: int)
    ensures Lookup(table, default, pc) == if Before(table, pc) == 0 then default else table[Before(table, pc) - 1].value
    decreases |table|
  {
    if table != [] && table[|table| - 1].offset > pc { LookupIsBefore(table[..|table| - 1], default, pc); }
  }

  lemma {:induction false} SomethingBefore(table: seq<Entry>, pc: int)
    requires table != [] && table[0].offset <= pc
    ensures 0 < Before(table, pc)
    decreases |table|
  {
    if table[|table| - 1].offset > pc { SomethingBefore(table[..|table| - 1], pc); }
  }

  function NextOffset(table: seq<Entry>, idx: int): int
    requires 0 <= idx <= |table|
  {
    if idx < |table| then table[idx].offset else UINT32_MAX
  }

  /** The cursor stands on an entry (or before the first one) that starts at or before `pc`. */
  ghost predicate Covers(table: seq<Entry>, c: Cursor, pc: int) {
    && 0 <= c.idx <= |table| && c.end == NextOffset(table, c.idx) && c.start <= pc
    && (0 < c.idx ==> c.start == table[c.idx - 1].offset)
  }

  const UNSET: Cursor := Cursor(0, UINT32_MAX, UINT32_MAX)

  /**
   * From a cursor at or before `pc` the entry that covers `pc` is found. From the unset cursor it is found if and
   * only if the table does not start after `pc`: otherwise every entry is skipped.
   */
  method SkipToNextEntryIfNeeded(c: Cursor, pc: int, table: seq<Entry>) returns (c': Cursor)
    requires TableOk(table) && 0 <= pc < UINT32_MAX
    requires c == UNSET || Covers(table, c, pc)
    ensures c.idx <= c'.idx
    ensures Covers(table, c, pc) ==> Covers(table, c', pc) && c'.idx == Before(table, pc)
    ensures c == UNSET && table == [] ==> c' == UNSET
    ensures c == UNSET && table != [] && table[0].offset <= pc ==> Covers(table, c', pc) && c'.idx == Before(table, pc)
    ensures c == UNSET && table != [] && table[0].offset > pc ==> c'.idx == |table| && Before(table, pc) == 0
  {
    var idx, start, end := c.idx, c.start, c.end;
    ghost var found := Covers(table, c, pc) || (table != [] && table[0].offset <= pc);
    while idx < |table| && (pc < start || pc >= end)
      invariant 0 <= c.idx <= idx <= |table|
      invariant idx == 0 && c == UNSET ==> Cursor(idx, start, end) == UNSET
      invariant found && (c != UNSET || 0 < idx) ==> Covers(table, Cursor(idx, start, end), pc)
      invariant !found && 0 < idx ==> start == table[idx - 1].offset && pc < start
    {
      start := table[idx].offset;
      idx := idx + 1;
      end := if idx < |table| then table[idx].offset else UINT32_MAX;
    }
    c' := Cursor(idx, start, end);
    if found { if idx > 0 || c != UNSET { BeforeIs(table, pc, idx); } } else if table != [] { BeforeIs(table, pc, 0); }
  }

  ghost predicate PcsOk(pcs: seq<int>) {
    && (forall i :: 0 <= i < |pcs| ==> 0 <= pcs[i] < UINT32_MAX)
    && forall i, j :: 0 <= i <= j < |pcs| ==> pcs[i] <= pcs[j]
  }

  ghost predicate LooksUp(table: seq<Entry>, default: int, pcs: seq<int>, values: seq<int>) {
    |values| == |pcs| && forall i :: 0 <= i < |pcs| ==> values[i] == Lookup(table, default, pcs[i])
  }

  method FillLines(pcs: seq<int>, table: seq<Entry>) returns (lines: seq<int>)
    requires PcsOk(pcs) && TableOk(table) && (table != [] ==> table[0].offset == 0)
    ensures LooksUp(table, DEFAULT_LINE, pcs, lines)
  {
    lines := [];
    var c, line := UNSET, DEFAULT_LINE;
    for i := 0 to |pcs|
      invariant |lines| == i && forall k :: 0 <= k < i ==> lines[k] == Lookup(table, DEFAULT_LINE, pcs[k])
      invariant c == UNSET || (0 < i && 0 < c.idx && Covers(table, c, pcs[i - 1]))
      invariant c == UNSET ==> line == DEFAULT_LINE && (i == 0 || table == [])
    {
      assert 0 < i ==> pcs[i - 1] <= pcs[i];
      if table != [] { SomethingBefore(table, pcs[i]); }
      c := SkipToNextEntryIfNeeded(c, pcs[i], table);
      LookupIsBefore(table, DEFAULT_LINE, pcs[i]);
      line := if c.idx > 0 then table[c.idx - 1].value else line;
      lines := lines + [line];
    }
  }

  method FillColumns(pcs: seq<int>, table: seq<Entry>) returns (columns: seq<int>)
    requires PcsOk(pcs) && TableOk(table)
    ensures |columns| == |pcs|
    ensures forall i :: 0 <= i < |pcs| ==> columns[i] == Lookup(table, DEFAULT_COLUMN, pcs[i]) % UINT32
  {
    columns := [];
    var c, column := Cursor(0, 0, if |table| > 0 then table[0].offset else UINT32_MAX), DEFAULT_COLUMN;
    for i := 0 to |pcs|
      invariant |columns| == i
      invariant forall k :: 0 <= k < i ==> columns[k] == Lookup(table, DEFAULT_COLUMN, pcs[k]) % UINT32
      invariant Covers(table, c, if i == 0 then 0 else pcs[i - 1])
      invariant c.idx == 0 ==> column == DEFAULT_COLUMN
    {
      assert 0 < i ==> pcs[i - 1] <= pcs[i];
      c := SkipToNextEntryIfNeeded(c, pcs[i], table);
      LookupIsBefore(table, DEFAULT_COLUMN, pcs[i]);
      column := if c.idx > 0 then table[c.idx - 1].value % UINT32 else column;
      columns := columns + [column];
    }
  }

  // ----- the round trip with the emitter -----

  /** The instructions the disassembler sees: those that are not labels. */
  function RealIns(f: Function, n: int): (js: seq<int>)
    requires 0 <= n <= |f.ins|
    ensures forall k :: 0 <= k < |js| ==> 0 <= js[k] < n && f.ins[js[k]].hasOpcode
    ensures forall k, l :: 0 <= k < l < |js| ==> js[k] < js[l]
    decreases n
  {
    if n == 0 then [] else RealIns(f, n - 1) + if f.ins[n - 1].hasOpcode then [n - 1] else []
  }

  function RealPcs(f: Function): seq<int> {
    var js := RealIns(f, |f.ins|);
    seq(|js|, k requires 0 <= k < |js| => Pc(f, js[k]))
  }

  lemma RealPcsOk(f: Function)
    requires FunctionOk(f)
    ensures PcsOk(RealPcs(f))
  {
    var js := RealIns(f, |f.ins|);
    forall i, j | 0 <= i <= j < |js|
      ensures 0 <= RealPcs(f)[i] <= RealPcs(f)[j] < UINT32_MAX
    {
      PcIsNat(f, js[i]);
      PcGrows(f, js[i], js[j]);
      PcGrows(f, js[j], |f.ins|);
    }
  }

  /** The replayed tables meet the conditions of the cursor. */
  lemma TablesOk(f: Function, i: int, st: Emitted)
    requires InStep(f, i, st)
    ensures TableOk(Read(f, st).lines) && TableOk(Read(f, st).columns)
    ensures Read(f, st).lines[0].offset == 0
  {
    PcGrows(f, i, |f.ins|);
  }

  ghost predicate DebugRecovered(f: Function, debug: bool, lines: seq<int>, columns: seq<int>) {
    var js := RealIns(f, |f.ins|);
    && |lines| == |columns| == |js|
    && (forall k :: 0 <= k < |js| && (debug || f.ins[js[k]].canThrow) ==> lines[k] == f.ins[js[k]].line)
    && (forall k :: 0 <= k < |js| && debug ==> columns[k] == f.ins[js[k]].column)
  }

  /** Emitted, replayed and looked up by the cursor, every real instruction has its own line and column again. */
  method FillInsDebug(f: Function, debug: bool, ghost events: seq<Event>, ghost st: Emitted, r: Reader)
    returns (lines: seq<int>, columns: seq<int>)
    requires Progress(f, debug, events, |events|, |f.ins|, st) && r == Read(f, st)
    ensures DebugRecovered(f, debug, lines, columns)
  {
    var pcs := RealPcs(f);
    RealPcsOk(f);
    TablesOk(f, |f.ins|, st);
    lines := FillLines(pcs, r.lines);
    columns := FillColumns(pcs, r.columns);
    Recovered(f, debug, st, lines, columns);
  }

  lemma Recovered(f: Function, debug: bool, st: Emitted, lines: seq<int>, columns: seq<int>)
    requires Tracks(f, debug, |f.ins|, |f.ins|, |f.ins|, st)
    requires LooksUp(Read(f, st).lines, DEFAULT_LINE, RealPcs(f), lines) && |columns| == |lines|
    requires forall k :: 0 <= k < |columns| ==>
      columns[k] == Lookup(Read(f, st).columns, DEFAULT_COLUMN, RealPcs(f)[k]) % UINT32
    ensures DebugRecovered(f, debug, lines, columns)
  {
    var js := RealIns(f, |f.ins|);
    forall k | 0 <= k < |js| && (debug || f.ins[js[k]].canThrow)
      ensures lines[k] == f.ins[js[k]].line
    {
      assert HasLine(f, debug, js[k]);
    }
    forall k | 0 <= k < |js| && debug
      ensures columns[k] == f.ins[js[k]].column
    {
      assert RealPcs(f)[k] == Pc(f, js[k]);
    }
  }
}
