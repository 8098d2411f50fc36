/** The line and column tables that replaying the program yields, entry by entry. */
module LineTables {
  import opened LineProgram
  import opened LineEmitter
  import opened LineRoundTrip

  /** The last line recorded before `i`; at the beginning that of the first list element. */
  ghost function LineSeen(f: Function, debug: bool, i: int): int
    requires f.ins != [] && 0 <= i <= |f.ins|
    decreases i
  {
    if i == 0 then f.ins[0].line else if HasLine(f, debug, i - 1) then f.ins[i - 1].line else LineSeen(f, debug, i - 1)
  }

  function ColumnSeen(f: Function, i: int): int
    requires 0 <= i <= |f.ins|
    decreases i
  {
    if i == 0 then 0xffff_ffff else if f.ins[i - 1].hasOpcode then f.ins[i - 1].column else ColumnSeen(f, i - 1)
  }

  /** An entry where the line changes, and one at the beginning. */
  ghost function LineTable(f: Function, debug: bool, i: int): seq<Entry>
    requires f.ins != [] && 0 <= i <= |f.ins|
    decreases i
  {
    if i == 0 then [Entry(0, f.ins[0].line)]
    else LineTable(f, debug, i - 1)
         + if HasLine(f, debug, i - 1) && f.ins[i - 1].line != LineSeen(f, debug, i - 1)
           then [Entry(Pc(f, i - 1), f.ins[i - 1].line)] else []
  }

  function SignExtended(c: int): int {
    if c < 0x8000_0000 then c else c + 0xffff_ffff_0000_0000
  }

  /** An entry where the column changes; greater ones than a signed 32-bit number holds are widened with their sign. */
  function ColumnTable(f: Function, i: int): seq<Entry>
    requires 0 <= i <= |f.ins|
    decreases i
  {
    if i == 0 then []
    else ColumnTable(f, i - 1)
         + if f.ins[i - 1].hasOpcode && f.ins[i - 1].column != ColumnSeen(f, i - 1)
           then [Entry(Pc(f, i - 1), SignExtended(f.ins[i - 1].column))] else []
  }

  ghost predicate LinesStand(f: Function, debug: bool, i: int, st: Emitted) {
    && f.ins != [] && 0 <= i <= |f.ins|
    && Read(f, st).lines == LineTable(f, debug, i) && st.prevLine == LineSeen(f, debug, i)
  }

  ghost predicate ColumnsStand(f: Function, debug: bool, i: int, st: Emitted) {
    && f.ins != [] && 0 <= i <= |f.ins|
    && if debug then Read(f, st).columns == ColumnTable(f, i) && st.prevColumn == ColumnSeen(f, i)
       else Read(f, st).columns == []
  }

  ghost predicate TablesStand(f: Function, debug: bool, i: int, st: Emitted) {
    LinesStand(f, debug, i, st) && ColumnsStand(f, debug, i, st)
  }

  lemma TablesLine(f: Function, debug: bool, i: int, st: Emitted)
    requires Tracks(f, debug, i, i, i, st) && i < |f.ins| && TablesStand(f, debug, i, st) && HasLine(f, debug, i)
    ensures LinesStand(f, debug, i + 1, WithLine(f, st, i)) && ColumnsStand(f, debug, i, WithLine(f, st, i))
  {
    TrackLine(f, debug, i, st);
    if f.ins[i].line != st.prevLine {
      SmallIncrement(f, i, st);
      ReadWithLine(f, i, st, Read(f, st));
    }
  }

  lemma TablesColumn(f: Function, i: int, st: Emitted)
    requires InStep(f, i, st) && i < |f.ins| && f.ins[i].hasOpcode
    requires LinesStand(f, true, i + 1, st) && ColumnsStand(f, true, i, st)
    ensures TablesStand(f, true, i + 1, WithColumn(f, st, i))
  {
    if f.ins[i].column != st.prevColumn { ReadWithColumn(f, i, st); }
  }

  lemma SameTables(f: Function, debug: bool, i: int, st: Emitted, st': Emitted)
    requires f.ins != [] && TablesStand(f, debug, i, st)
    requires Read(f, st').lines == Read(f, st).lines && Read(f, st').columns == Read(f, st).columns
    requires st'.prevLine == st.prevLine && st'.prevColumn == st.prevColumn
    ensures TablesStand(f, debug, i, st')
  {
  }

  lemma TablesIns(f: Function, debug: bool, i: int, st: Emitted)
    requires Tracks(f, debug, i, i, i, st) && i < |f.ins| && TablesStand(f, debug, i, st)
    ensures TablesStand(f, debug, i + 1, WithIns(f, debug, st, i))
  {
    if f.ins[i].hasOpcode {
      if debug {
        TablesLine(f, debug, i, st);
        TrackLine(f, debug, i, st);
        TablesColumn(f, i, WithLine(f, st, i));
        var st2 := WithColumn(f, WithLine(f, st, i), i);
        SameTables(f, debug, i + 1, st2, WithIns(f, debug, st, i));
      } else {
        var st1 := if f.ins[i].canThrow then WithLine(f, st, i) else st;
        if f.ins[i].canThrow { TablesLine(f, debug, i, st); }
        SameTables(f, debug, i + 1, st1, WithIns(f, debug, st, i));
      }
    }
  }

  lemma TablesStart(f: Function, debug: bool)
    requires f.ins != []
    ensures TablesStand(f, debug, 0, Emitted([], 0, f.ins[0].line, DEFAULT_COLUMN))
  {
    var st := Emitted([], 0, f.ins[0].line, DEFAULT_COLUMN);
    assert Read(f, st) == Reader(0, f.ins[0].line, [Entry(0, f.ins[0].line)], [], [], false);
  }
}
