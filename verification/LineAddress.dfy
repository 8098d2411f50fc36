/** How far the reader's address gets while the program is replayed. */
module LineAddress {
  import opened LineProgram
  import opened LineEmitter
  import opened LineRoundTrip
  import opened LineTables
  import opened LineLocals
  import opened LineOrder

  /** The line of the last real instruction before `i`; at the beginning that of the first list element. */
  function PrevLine(f: Function, i: int): int
    requires f.ins != [] && 0 <= i <= |f.ins|
    decreases i
  {
    if i == 0 then f.ins[0].line else if f.ins[i - 1].hasOpcode then f.ins[i - 1].line else PrevLine(f, i - 1)
  }

  function PrevColumn(f: Function, i: int): int
    requires 0 <= i <= |f.ins|
    decreases i
  {
    if i == 0 then DEFAULT_COLUMN else if f.ins[i - 1].hasOpcode then f.ins[i - 1].column else PrevColumn(f, i - 1)
  }

  /** A real instruction with another line or column than the real instruction before it. */
  predicate IsNew(f: Function, j: int)
    requires 0 <= j < |f.ins|
  {
    f.ins[j].hasOpcode && (f.ins[j].line != PrevLine(f, j) || f.ins[j].column != PrevColumn(f, j))
  }

  function Max(a: int, b: int): int {
    if a < b then b else a
  }

  /** The address of the last new instruction before `i`. */
  function NewPc(f: Function, i: int): int
    requires f.ins != [] && 0 <= i <= |f.ins|
    decreases i
  {
    if i == 0 then 0 else if IsNew(f, i - 1) then Pc(f, i - 1) else NewPc(f, i - 1)
  }

  /** The address of the last event before event `k`. */
  ghost function EventPc(f: Function, ev: seq<Event>, k: int): int
    requires 0 <= k <= |ev|
  {
    if k == 0 then 0 else PcOf(f, ev[k - 1].order)
  }

  ghost predicate AddressOk(f: Function, ev: seq<Event>, k: int, i: int, st: Emitted) {
    && f.ins != [] && 0 <= k <= |ev| && 0 <= i <= |f.ins|
    && st.prevLine == PrevLine(f, i) && st.prevColumn == PrevColumn(f, i)
    && Read(f, st).address == Max(NewPc(f, i), EventPc(f, ev, k))
  }

  /** The address moves to a new instruction and stays otherwise. */
  lemma InsAddress(f: Function, i: int, st: Emitted)
    requires Tracks(f, true, i, i, i, st) && 0 <= i < |f.ins| && f.ins[i].hasOpcode
    requires st.prevLine == PrevLine(f, i) && st.prevColumn == PrevColumn(f, i)
    ensures Read(f, WithIns(f, true, st, i)).address == if IsNew(f, i) then Pc(f, i) else Read(f, st).address
  {
    var st1 := WithLine(f, st, i);
    var st2 := WithColumn(f, st1, i);
    TrackLine(f, true, i, st);
    if f.ins[i].line != st.prevLine {
      SmallIncrement(f, i, st);
      ReadWithLine(f, i, st, Read(f, st));
    }
    if f.ins[i].column != st1.prevColumn { ReadWithColumn(f, i, st1); }
    assert Read(f, WithIns(f, true, st, i)) == Read(f, st2);
  }

  lemma AddressIns(f: Function, ev: seq<Event>, k: int, i: int, st: Emitted)
    requires Tracks(f, true, i, i, i, st) && i < |f.ins| && AddressOk(f, ev, k, i, st)
    ensures AddressOk(f, ev, k, i + 1, WithIns(f, true, st, i))
  {
    if f.ins[i].hasOpcode { InsAddress(f, i, st); }
  }

  lemma AddressLocal(f: Function, ev: seq<Event>, k: int, st: Emitted, st': Emitted)
    requires 0 <= k < |ev| && 0 <= ev[k].order <= |f.ins| && AddressOk(f, ev, k, ev[k].order, st)
    requires InStep(f, ev[k].order, st) && Read(f, st').address == Pc(f, ev[k].order)
    requires st'.prevLine == st.prevLine && st'.prevColumn == st.prevColumn
    ensures AddressOk(f, ev, k + 1, ev[k].order, st')
  {
    assert EventPc(f, ev, k + 1) == Pc(f, ev[k].order);
  }

  // ----- in terms of the function -----

  /** The greatest address at which one of the first `n` variables ends. */
  ghost function EndPc(f: Function, n: nat): int
    requires n <= |f.vars|
    decreases n
  {
    if n == 0 then 0
    else if IsParameter(f, n - 1) then EndPc(f, n - 1)
    else Max(EndPc(f, n - 1), PcOf(f, End(f.vars[n - 1])))
  }

  /** The last address at which anything is recorded. */
  ghost function LastPc(f: Function): int
    requires f.ins != []
  {
    Max(NewPc(f, |f.ins|), EndPc(f, |f.vars|))
  }

  ghost predicate EndsAt(f: Function, v: nat, pc: int) {
    v < |f.vars| && !IsParameter(f, v) && PcOf(f, End(f.vars[v])) == pc
  }

  ghost predicate NewAt(f: Function, j: nat, pc: int) {
    j < |f.ins| && IsNew(f, j) && Pc(f, j) == pc
  }

  lemma {:induction false} EndPcIsGreatest(f: Function, n: nat)
    requires n <= |f.vars|
    ensures 0 <= EndPc(f, n) && forall v: nat, pc :: v < n && EndsAt(f, v, pc) ==> pc <= EndPc(f, n)
    ensures EndPc(f, n) == 0 || exists v: nat :: v < n && EndsAt(f, v, EndPc(f, n))
    decreases n
  {
    if n > 0 {
      EndPcIsGreatest(f, n - 1);
      assert !IsParameter(f, n - 1) ==> EndsAt(f, n - 1, PcOf(f, End(f.vars[n - 1])));
      if EndPc(f, n) == EndPc(f, n - 1) && EndPc(f, n) != 0 {
        var v: nat :| v < n - 1 && EndsAt(f, v, EndPc(f, n - 1));
        assert v < n && EndsAt(f, v, EndPc(f, n));
      }
    }
  }

  lemma {:induction false} NewPcIsGreatest(f: Function, i: nat)
    requires FunctionOk(f) && i <= |f.ins|
    ensures 0 <= NewPc(f, i) && forall j: nat, pc :: j < i && NewAt(f, j, pc) ==> pc <= NewPc(f, i)
    ensures NewPc(f, i) == 0 || exists j: nat :: j < i && NewAt(f, j, NewPc(f, i))
    decreases i
  {
    if i > 0 {
      NewPcIsGreatest(f, i - 1);
      PcIsNat(f, i - 1);
      if IsNew(f, i - 1) {
        forall j: nat, pc | j < i && NewAt(f, j, pc)
          ensures pc <= Pc(f, i - 1)
        {
          PcGrows(f, j, i - 1);
        }
        assert NewAt(f, i - 1, NewPc(f, i));
      } else if NewPc(f, i) != 0 {
        var j: nat :| j < i - 1 && NewAt(f, j, NewPc(f, i - 1));
        assert j < i && NewAt(f, j, NewPc(f, i));
      }
    }
  }

  /** The greatest address of a new instruction or of the end of a variable; 0 if there is neither. */
  lemma LastPcIsGreatest(f: Function)
    requires FunctionOk(f)
    ensures 0 <= LastPc(f)
    ensures forall j: nat, pc :: NewAt(f, j, pc) ==> pc <= LastPc(f)
    ensures forall v: nat, pc :: EndsAt(f, v, pc) ==> pc <= LastPc(f)
    ensures LastPc(f) == 0 || (exists j: nat :: NewAt(f, j, LastPc(f))) || exists v: nat :: EndsAt(f, v, LastPc(f))
  {
    NewPcIsGreatest(f, |f.ins|);
    EndPcIsGreatest(f, |f.vars|);
    var n, e := NewPc(f, |f.ins|), EndPc(f, |f.vars|);
    if e <= n && n != 0 { var j: nat :| NewAt(f, j, n); }
    if n < e { var v: nat :| EndsAt(f, v, e); }
  }

  /** The last event is where the last variable ends. */
  lemma EventPcAtEnd(f: Function, ev: seq<Event>)
    requires FunctionOk(f) && VarsOk(f) && EventsOk(f, ev)
    ensures EventPc(f, ev, |ev|) == EndPc(f, |f.vars|)
  {
    EndPcIsGreatest(f, |f.vars|);
    var top := EndPc(f, |f.vars|);
    if ev != [] {
      var last := ev[|ev| - 1];
      assert EventOf(f, last) && VarOk(f, last.v);
      var j, k := EventsOf(f, ev, last.v);
      assert last.order == End(f.vars[last.v]);
      assert EndsAt(f, last.v, PcOf(f, last.order));
      PcIsNat(f, last.order);
    }
    if top != 0 {
      var v: nat :| v < |f.vars| && EndsAt(f, v, top);
      var j, k := EventsOf(f, ev, v);
      assert EventOf(f, ev[|ev| - 1]) && VarOk(f, ev[|ev| - 1].v);
      assert VarOk(f, v);
      PcGrows(f, ev[k].order, ev[|ev| - 1].order);
    }
  }

  /** The reader's result for a whole program: every entry as the events leave it, at the last address recorded. */
  ghost predicate Finished(f: Function, ev: seq<Event>, r: Reader) {
    f.ins != [] && LocalsOk(f, ev, |ev|, r) && r.address == LastPc(f)
  }

  // ----- the invariant of the loop over instructions and events -----

  ghost predicate Inputs(f: Function, debug: bool, ev: seq<Event>) {
    FunctionOk(f) && if debug then VarsOk(f) && EventsOk(f, ev) else ev == []
  }

  /** Instruction `i` and event `k` come next. */
  ghost predicate Progress(f: Function, debug: bool, ev: seq<Event>, k: int, i: int, st: Emitted) {
    && Inputs(f, debug, ev) && 0 <= k <= |ev| && Tracks(f, debug, i, i, i, st)
    && TablesStand(f, debug, i, st)
    && if debug then LocalsOk(f, ev, k, Read(f, st)) && AddressOk(f, ev, k, i, st) else Read(f, st).locals == []
  }

  /** The instructions between event `k - 1` and event `k`. */
  function SegmentStart(ev: seq<Event>, k: int): int
    requires 0 <= k <= |ev|
  {
    if k == 0 then 0 else ev[k - 1].order
  }

  function SegmentEnd(f: Function, debug: bool, ev: seq<Event>, k: int): int
    requires 0 <= k <= |ev|
  {
    if debug && k < |ev| then ev[k].order else |f.ins|
  }

  lemma EventInside(f: Function, ev: seq<Event>, k: nat)
    requires VarsOk(f) && EventsOk(f, ev) && k < |ev|
    ensures 0 <= ev[k].order <= |f.ins| && ev[k].v < |f.vars|
    ensures k + 1 < |ev| ==> ev[k].order <= ev[k + 1].order
  {
    assert EventOf(f, ev[k]) && VarOk(f, ev[k].v);
  }

  lemma Segment(f: Function, debug: bool, ev: seq<Event>, k: int)
    requires Inputs(f, debug, ev) && 0 <= k <= |ev|
    ensures 0 <= SegmentStart(ev, k) <= SegmentEnd(f, debug, ev, k) <= |f.ins|
    ensures k < |ev| ==> debug
  {
    if 0 < k { EventInside(f, ev, k - 1); }
    if k < |ev| { EventInside(f, ev, k); }
  }

  lemma ProgressStarts(f: Function, debug: bool, ev: seq<Event>)
    requires Inputs(f, debug, ev)
    ensures Progress(f, debug, ev, 0, 0, Emitted([], 0, f.ins[0].line, DEFAULT_COLUMN))
  {
    StartsInStep(f, debug);
    TablesStart(f, debug);
  }

  lemma ProgressIns(f: Function, debug: bool, ev: seq<Event>, k: int, i: int, st: Emitted)
    requires Progress(f, debug, ev, k, i, st) && i < |f.ins|
    ensures Progress(f, debug, ev, k, i + 1, WithIns(f, debug, st, i))
  {
    TrackIns(f, debug, i, st);
    TablesIns(f, debug, i, st);
    if debug {
      AddressIns(f, ev, k, i, st);
      SameLocals(f, ev, k, Read(f, st), Read(f, WithIns(f, debug, st, i)));
    }
  }

  lemma SameLocals(f: Function, ev: seq<Event>, k: nat, r: Reader, r': Reader)
    requires k <= |ev| && LocalsOk(f, ev, k, r) && r'.locals == r.locals && r'.bad == r.bad
    ensures LocalsOk(f, ev, k, r')
  {
  }

  lemma ProgressLocal(f: Function, debug: bool, ev: seq<Event>, k: int, st: Emitted)
    requires Inputs(f, debug, ev) && 0 <= k < |ev| && Progress(f, debug, ev, k, ev[k].order, st)
    ensures ev[k].v < |f.vars|
    ensures Progress(f, debug, ev, k + 1, ev[k].order, WithLocal(f, st, ev[k].order, ev[k].v))
  {
    EventInside(f, ev, k);
    TrackLocal(f, ev, k, st);
    AddressLocal(f, ev, k, st, WithLocal(f, st, ev[k].order, ev[k].v));
    SameTables(f, debug, ev[k].order, st, WithLocal(f, st, ev[k].order, ev[k].v));
  }

  lemma ProgressEnds(f: Function, ev: seq<Event>, st: Emitted)
    requires Progress(f, true, ev, |ev|, |f.ins|, st)
    ensures Finished(f, ev, Read(f, st))
  {
    EventPcAtEnd(f, ev);
  }
}
