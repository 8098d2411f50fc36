/** Replaying the emitted program recovers lines, columns and variable ranges. */
module LineRoundTrip {
  import opened LineProgram
  import opened LineEmitter

  ghost predicate HasLine(f: Function, debug: bool, j: int)
    requires 0 <= j < |f.ins|
  {
    f.ins[j].hasOpcode && (debug || f.ins[j].canThrow)
  }

  ghost predicate LinesKept(f: Function, debug: bool, n: int, lines: seq<Entry>)
    requires n <= |f.ins|
  {
    forall j :: 0 <= j < n && HasLine(f, debug, j) ==> Lookup(lines, DEFAULT_LINE, Pc(f, j)) == f.ins[j].line
  }

  ghost predicate ColumnsKept(f: Function, debug: bool, n: int, columns: seq<Entry>)
    requires n <= |f.ins|
  {
    forall j :: 0 <= j < n && debug && f.ins[j].hasOpcode ==>
      Lookup(columns, DEFAULT_COLUMN, Pc(f, j)) % UINT32 == f.ins[j].column
  }

  ghost predicate UpTo(table: seq<Entry>, address: int) {
    Nondecreasing(table) && forall k :: 0 <= k < |table| ==> 0 <= table[k].offset <= address
  }

  /** Decoder address plus the pending increment is the current pc; pending values are what the tables end with. */
  ghost predicate InStep(f: Function, i: int, st: Emitted) {
    && FunctionOk(f) && 0 <= i <= |f.ins|
    && var r := Read(f, st);
    && 0 <= st.pcInc && 0 <= r.address && r.address + st.pcInc == Pc(f, i)
    && |r.lines| > 0 && r.lines[0].offset == 0 && UpTo(r.lines, r.address)
    && r.line == st.prevLine == r.lines[|r.lines| - 1].value
    && UpTo(r.columns, r.address) && 0 <= st.prevColumn < UINT32
    && (if r.columns == [] then st.prevColumn == DEFAULT_COLUMN
        else r.columns[|r.columns| - 1].value == WidenColumn(st.prevColumn))
  }

  /** Instructions before `nl` have their line and those before `nc` their column. */
  ghost predicate Tracks(f: Function, debug: bool, i: int, nl: int, nc: int, st: Emitted) {
    && InStep(f, i, st) && nl <= |f.ins| && nc <= |f.ins|
    && LinesKept(f, debug, nl, Read(f, st).lines)
    && ColumnsKept(f, debug, nc, Read(f, st).columns)
  }

  lemma SmallIncrement(f: Function, i: int, st: Emitted)
    requires InStep(f, i, st)
    ensures st.pcInc * LINE_RANGE < UINT32
  {
    PcGrows(f, i, |f.ins|);
  }

  /** A new entry at the current pc does not change what earlier instructions find. */
  lemma LinesStayKept(f: Function, debug: bool, i: int, lines: seq<Entry>, e: Entry)
    requires FunctionOk(f) && 0 <= i <= |f.ins| && LinesKept(f, debug, i, lines) && e.offset == Pc(f, i)
    ensures LinesKept(f, debug, i, lines + [e])
  {
    forall j | 0 <= j < i && HasLine(f, debug, j)
      ensures Lookup(lines + [e], DEFAULT_LINE, Pc(f, j)) == f.ins[j].line
    {
      LookupAppend(lines, e, DEFAULT_LINE, Pc(f, j));
      PcGrows(f, j, i);
    }
  }

  lemma ColumnsStayKept(f: Function, debug: bool, i: int, columns: seq<Entry>, e: Entry)
    requires FunctionOk(f) && 0 <= i <= |f.ins| && ColumnsKept(f, debug, i, columns) && e.offset == Pc(f, i)
    ensures ColumnsKept(f, debug, i, columns + [e])
  {
    forall j | 0 <= j < i && debug && f.ins[j].hasOpcode
      ensures Lookup(columns + [e], DEFAULT_COLUMN, Pc(f, j)) % UINT32 == f.ins[j].column
    {
      LookupAppend(columns, e, DEFAULT_COLUMN, Pc(f, j));
      PcGrows(f, j, i);
    }
  }

  lemma ReadWithLine(f: Function, i: int, st: Emitted, r: Reader)
    requires f.ins != [] && 0 <= i < |f.ins| && r == Read(f, st) && f.ins[i].line != st.prevLine == r.line
    requires 0 <= st.pcInc && st.pcInc * LINE_RANGE < UINT32
    ensures Read(f, WithLine(f, st, i)) == r.(address := r.address + st.pcInc, line := f.ins[i].line,
                                              lines := r.lines + [Entry(r.address + st.pcInc, f.ins[i].line)])
  {
    var inc := f.ins[i].line - st.prevLine;
    ReadNumberOps(r, st.pcInc, inc);
    ReadMore(f, st, NumberOps(st.pcInc, inc));
    assert WithLine(f, st, i).ops == st.ops + NumberOps(st.pcInc, inc);
  }

  lemma TrackLine(f: Function, debug: bool, i: int, st: Emitted)
    requires Tracks(f, debug, i, i, i, st) && i < |f.ins|
    ensures Tracks(f, debug, i, i + 1, i, WithLine(f, st, i))
    ensures Read(f, WithLine(f, st, i)).locals == Read(f, st).locals
    ensures Read(f, WithLine(f, st, i)).columns == Read(f, st).columns
    ensures Read(f, WithLine(f, st, i)).bad == Read(f, st).bad
  {
    var r := Read(f, st);
    var inc := f.ins[i].line - st.prevLine;
    if inc != 0 {
      var e := Entry(Pc(f, i), f.ins[i].line);
      SmallIncrement(f, i, st);
      ReadWithLine(f, i, st, r);
      LinesStayKept(f, debug, i, r.lines, e);
      LookupAppend(r.lines, e, DEFAULT_LINE, Pc(f, i));
    }
  }

  lemma ReadWithColumn(f: Function, i: int, st: Emitted)
    requires InStep(f, i, st) && i < |f.ins| && f.ins[i].column != st.prevColumn
    ensures var r := Read(f, st);
            Read(f, WithColumn(f, st, i)) == r.(address := Pc(f, i),
                                                columns := r.columns + [Entry(Pc(f, i), WidenColumn(f.ins[i].column))])
  {
    var r, set' := Read(f, st), SetColumn(f.ins[i].column);
    ReadMore(f, st, PcOps(st.pcInc));
    ReadPcOps(r, st.pcInc);
    ReadMore(f, st.(ops := st.ops + PcOps(st.pcInc)), [set']);
    ReadOne(r.(address := r.address + st.pcInc), set');
  }

  lemma WidenedColumn(c: int)
    requires 0 <= c < UINT32
    ensures WidenColumn(c) % UINT32 == c
  {
  }

  lemma SameColumn(f: Function, i: int, st: Emitted)
    requires InStep(f, i, st) && i < |f.ins| && f.ins[i].column == st.prevColumn
    ensures Lookup(Read(f, st).columns, DEFAULT_COLUMN, Pc(f, i)) % UINT32 == f.ins[i].column
  {
    WidenedColumn(st.prevColumn);
  }

  lemma NewColumn(f: Function, i: int, st: Emitted)
    requires Tracks(f, true, i, i + 1, i, st) && i < |f.ins| && f.ins[i].column != st.prevColumn
    ensures Tracks(f, true, i, i + 1, i + 1, WithColumn(f, st, i))
    ensures Read(f, WithColumn(f, st, i)).locals == Read(f, st).locals
    ensures Read(f, WithColumn(f, st, i)).bad == Read(f, st).bad
  {
    var columns := Read(f, st).columns;
    var e := Entry(Pc(f, i), WidenColumn(f.ins[i].column));
    assert InsOk(f.ins[i]);
    WidenedColumn(f.ins[i].column);
    ReadWithColumn(f, i, st);
    ColumnsStayKept(f, true, i, columns, e);
    LookupAppend(columns, e, DEFAULT_COLUMN, Pc(f, i));
    assert ColumnsKept(f, true, i + 1, columns + [e]);
  }

  lemma TrackColumn(f: Function, i: int, st: Emitted)
    requires Tracks(f, true, i, i + 1, i, st) && i < |f.ins|
    ensures Tracks(f, true, i, i + 1, i + 1, WithColumn(f, st, i))
    ensures Read(f, WithColumn(f, st, i)).locals == Read(f, st).locals
    ensures Read(f, WithColumn(f, st, i)).bad == Read(f, st).bad
  {
    if f.ins[i].column != st.prevColumn {
      NewColumn(f, i, st);
    } else {
      SameColumn(f, i, st);
    }
  }

  lemma TrackSize(f: Function, debug: bool, i: int, st: Emitted)
    requires Tracks(f, debug, i, i + 1, i + 1, st) && i < |f.ins| && f.ins[i].hasOpcode
    ensures Tracks(f, debug, i + 1, i + 1, i + 1, st.(pcInc := st.pcInc + f.ins[i].size))
    ensures Read(f, st.(pcInc := st.pcInc + f.ins[i].size)) == Read(f, st)
  {
    assert InsOk(f.ins[i]);
  }

  lemma TrackNoLine(f: Function, i: int, st: Emitted)
    requires Tracks(f, false, i, i, i, st) && i < |f.ins| && !f.ins[i].canThrow
    ensures Tracks(f, false, i, i + 1, i, st)
  {
  }

  /** One instruction, label or real. */
  lemma TrackIns(f: Function, debug: bool, i: int, st: Emitted)
    requires Tracks(f, debug, i, i, i, st) && i < |f.ins|
    ensures Tracks(f, debug, i + 1, i + 1, i + 1, WithIns(f, debug, st, i))
    ensures Read(f, WithIns(f, debug, st, i)).locals == Read(f, st).locals
    ensures !debug ==> Read(f, WithIns(f, debug, st, i)).columns == Read(f, st).columns
    ensures Read(f, WithIns(f, debug, st, i)).bad == Read(f, st).bad
  {
    if f.ins[i].hasOpcode {
      if debug {
        TrackLine(f, debug, i, st);
        TrackColumn(f, i, WithLine(f, st, i));
        TrackSize(f, debug, i, WithColumn(f, WithLine(f, st, i), i));
      } else {
        if f.ins[i].canThrow { TrackLine(f, debug, i, st); } else { TrackNoLine(f, i, st); }
        var st1 := if f.ins[i].canThrow then WithLine(f, st, i) else st;
        NoColumnsWanted(f, i, st1);
        TrackSize(f, debug, i, st1);
      }
    }
  }

  lemma NoColumnsWanted(f: Function, i: int, st: Emitted)
    requires Tracks(f, false, i, i + 1, i, st) && i < |f.ins|
    ensures Tracks(f, false, i, i + 1, i + 1, st)
  {
  }

  lemma TrackPc(f: Function, debug: bool, i: int, st: Emitted)
    requires Tracks(f, debug, i, i, i, st)
    ensures Tracks(f, debug, i, i, i, WithPc(st)) && WithPc(st).pcInc == 0
    ensures Read(f, WithPc(st)) == Read(f, st).(address := Pc(f, i))
  {
    ReadMore(f, st, PcOps(st.pcInc));
    ReadPcOps(Read(f, st), st.pcInc);
    assert Read(f, WithPc(st)) == Read(f, st.(ops := st.ops + PcOps(st.pcInc)));
  }

  /** Before the first instruction nothing is written and nothing is pending. */
  lemma StartsInStep(f: Function, debug: bool)
    requires FunctionOk(f)
    ensures Tracks(f, debug, 0, 0, 0, Emitted([], 0, f.ins[0].line, DEFAULT_COLUMN))
  {
    var st := Emitted([], 0, f.ins[0].line, DEFAULT_COLUMN);
    assert Read(f, st) == Reader(0, f.ins[0].line, [Entry(0, f.ins[0].line)], [], [], false);
  }
}
