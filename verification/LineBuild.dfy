/** The loop that writes the line-number program of a function. */
module LineBuild {
  import opened LineProgram
  import opened LineEmitter
  import opened LineRoundTrip
  import opened LineLocals
  import opened LineTables
  import opened LineAddress

  class Emitter {
    const f: Function
    const debug: bool
    var ops: seq<Op>
    var pcInc: int
    var prevLine: int
    var prevColumn: int

    constructor (f: Function, debug: bool)
      ensures this.f == f && this.debug == debug && ops == []
    {
      this.f, this.debug := f, debug;
      ops, pcInc, prevLine, prevColumn := [], 0, 0, DEFAULT_COLUMN;
    }

    ghost function View(): Emitted
      reads this
    {
      Emitted(ops, pcInc, prevLine, prevColumn)
    }

    method EmitSpecialOpcode(pc: int, line: int) returns (ok: bool)
      requires 0 <= pc
      modifies this`ops
      ensures ok == SpecialOpcode(pc, line).Some?
      ensures ops == old(ops) + if ok then [Special(SpecialOpcode(pc, line).value)] else []
    {
      var opcode := SpecialOpcode(pc, line);
      ok := opcode.Some?;
      if ok { ops := ops + [Special(opcode.value)]; }
    }

    method TryEmitPc()
      modifies this`ops, this`pcInc
      ensures View() == WithPc(old(View()))
    {
      if pcInc != 0 {
        ops := ops + [AdvancePc(pcInc)];
        pcInc := 0;
      }
    }

    method EmitNumber(lineInc: int)
      requires 0 <= pcInc
      modifies this`ops
      ensures ops == old(ops) + NumberOps(pcInc, lineInc)
    {
      var ok := EmitSpecialOpcode(pcInc, lineInc);
      if !ok {
        if pcInc != 0 {
          ops := ops + [AdvancePc(pcInc)];
          ok := EmitSpecialOpcode(0, lineInc);
          if !ok {
            ops := ops + [AdvanceLine(lineInc)];
            ok := EmitSpecialOpcode(0, 0);
          }
        } else {
          ops := ops + [AdvanceLine(lineInc)];
          ok := EmitSpecialOpcode(0, 0);
        }
      }
    }

    method EmitLineNumber(i: nat)
      requires i < |f.ins| && 0 <= pcInc
      modifies this`ops, this`pcInc, this`prevLine
      ensures View() == WithLine(f, old(View()), i)
    {
      var lineInc := f.ins[i].line - prevLine;
      if lineInc != 0 {
        prevLine := f.ins[i].line;
        EmitNumber(lineInc);
        pcInc := 0;
      }
    }

    method EmitColumnNumber(i: nat)
      requires i < |f.ins|
      modifies this`ops, this`pcInc, this`prevColumn
      ensures View() == WithColumn(f, old(View()), i)
    {
      var cn := f.ins[i].column;
      if cn != prevColumn {
        if pcInc != 0 { ops := ops + [AdvancePc(pcInc)]; }
        ops := ops + [SetColumn(cn)];
        pcInc := 0;
        prevColumn := cn;
      }
    }

    method EmitIns(i: nat)
      requires i < |f.ins| && 0 <= pcInc
      modifies this`ops, this`pcInc, this`prevLine, this`prevColumn
      ensures View() == WithIns(f, debug, old(View()), i)
    {
      if !f.ins[i].hasOpcode {
        return;
      }
      if debug || f.ins[i].canThrow { EmitLineNumber(i); }
      if debug { EmitColumnNumber(i); }
      pcInc := pcInc + f.ins[i].size;
    }

    method EmitLocalVariable(order: int, v: nat)
      requires v < |f.vars|
      modifies this`ops, this`pcInc
      ensures View() == WithLocal(f, old(View()), order, v)
    {
      var x := f.vars[v];
      if order == x.start {
        TryEmitPc();
        ops := ops + [StartLocal(x.reg, x.name)];
      }
      if order == x.start + x.length {
        TryEmitPc();
        ops := ops + [EndLocal(x.reg)];
      }
    }

    method EmitRange(start: int, end: int, ghost events: seq<Event>, ghost k: int)
      requires 0 <= start <= end <= |f.ins| && Progress(f, debug, events, k, start, View())
      modifies this`ops, this`pcInc, this`prevLine, this`prevColumn
      ensures Progress(f, debug, events, k, end, View())
    {
      for i := start to end
        invariant Progress(f, debug, events, k, i, View())
      {
        ProgressIns(f, debug, events, k, i, View());
        EmitIns(i);
      }
    }

    /** A start and an end event for every variable that is not a parameter, so lives in a register of the frame. */
    method CollectLocalVariable() returns (info: seq<Event>)
      ensures info == Collected(f, |f.vars|)
      ensures forall e :: e in info <==>
        && e.v < |f.vars| && 0 <= f.vars[e.v].reg < f.regsNum
        && (e.order == f.vars[e.v].start || e.order == f.vars[e.v].start + f.vars[e.v].length)
    {
      info := [];
      for i := 0 to |f.vars|
        invariant info == Collected(f, i)
      {
        if IsParameter(f, i) {
          continue;
        }
        info := info + [Event(f.vars[i].start, i)];
        info := info + [Event(f.vars[i].start + f.vars[i].length, i)];
      }
      forall e {
        CollectedExactly(f, |f.vars|, e);
      }
    }

    /** The events in the order the sort gives them; none without debug information. */
    ghost function Events(sort: seq<Event> -> seq<Event>): seq<Event> {
      if debug then sort(Collected(f, |f.vars|)) else []
    }

    /**
     * Writes the program. Replayed, it gives every real instruction its line (only throwing ones when debug
     * information is off) and its column, and every variable the entry that the order of the events leaves it.
     */
    method BuildLineNumberProgram(sort: seq<Event> -> seq<Event>)
      requires f.ins != [] ==> FunctionOk(f) && (debug ==> VarsOk(f) && EventList(f, sort(Collected(f, |f.vars|))))
      modifies this
      ensures f.ins == [] ==> ops == []
      ensures f.ins != [] ==>
        var r := Replay(f.ins[0].line, ops);
        && LinesKept(f, debug, |f.ins|, r.lines) && ColumnsKept(f, debug, |f.ins|, r.columns)
        && r.lines == LineTable(f, debug, |f.ins|) && r.columns == (if debug then ColumnTable(f, |f.ins|) else [])
        && if debug then Finished(f, Events(sort), r) else r.locals == []
      ensures f.ins != [] ==> Progress(f, debug, Events(sort), |Events(sort)|, |f.ins|, View())
    {
      ops, pcInc, prevColumn := [], 0, DEFAULT_COLUMN;
      if f.ins == [] {
        return;
      }
      prevLine := f.ins[0].line;
      var events: seq<Event> := [];
      if debug {
        events := CollectLocalVariable();
        events := sort(events);
        EventListIsOk(f, events);
      }
      ProgressStarts(f, debug, events);
      EmitSegments(events);
      if debug { ProgressEnds(f, events, View()); }
    }

    method EmitSegments(events: seq<Event>)
      requires Progress(f, debug, events, 0, 0, View())
      modifies this`ops, this`pcInc, this`prevLine, this`prevColumn
      ensures Progress(f, debug, events, |events|, |f.ins|, View())
    {
      var start, k, more := 0, 0, true;
      while more
        invariant AtEvent(events, k, start, more)
        decreases |events| - k, more
      {
        more, start, k := EmitThrough(start, events, k);
      }
      AllEmitted(events, k, start);
    }

    lemma AllEmitted(events: seq<Event>, k: int, start: int)
      requires AtEvent(events, k, start, false)
      ensures Progress(f, debug, events, |events|, |f.ins|, View())
    {
    }

    /** In front of the segment that ends with event `k`, or behind everything. */
    ghost predicate AtEvent(events: seq<Event>, k: int, start: int, more: bool)
      reads this
    {
      && 0 <= k <= |events| && Progress(f, debug, events, k, start, View())
      && if more then start == SegmentStart(events, k) else k == |events| && start == |f.ins|
    }

    /** A segment and the event behind it, if there is one. */
    method EmitThrough(start: int, events: seq<Event>, k: int) returns (more: bool, end: int, next: int)
      requires AtEvent(events, k, start, true)
      modifies this`ops, this`pcInc, this`prevLine, this`prevColumn
      ensures k <= next <= |events| && (more ==> k < next) && AtEvent(events, next, end, more)
    {
      end := EmitSegment(start, events, k);
      more, next := EmitEvent(events, k, end);
    }

    /** Behind the instructions up to event `k`, or up to the end. */
    ghost predicate BeforeEvent(events: seq<Event>, k: int, end: int)
      reads this
    {
      && 0 <= k <= |events| && Progress(f, debug, events, k, end, View())
      && end == if k < |events| then events[k].order else |f.ins|
    }

    /** The instructions up to the next event. */
    method EmitSegment(start: int, events: seq<Event>, k: int) returns (end: int)
      requires AtEvent(events, k, start, true)
      modifies this`ops, this`pcInc, this`prevLine, this`prevColumn
      ensures BeforeEvent(events, k, end)
    {
      end := if debug && k < |events| then events[k].order else |f.ins|;
      Segment(f, debug, events, k);
      EmitRange(start, end, events, k);
    }

    method EmitEvent(events: seq<Event>, k: int, end: int) returns (more: bool, next: int)
      requires BeforeEvent(events, k, end)
      modifies this`ops, this`pcInc
      ensures k <= next <= |events| && (more ==> k < next) && AtEvent(events, next, end, more)
    {
      if k == |events| {
        return false, k;
      }
      ProgressLocal(f, debug, events, k, View());
      EmitLocalVariable(end, events[k].v);
      return true, k + 1;
    }
  }
}
