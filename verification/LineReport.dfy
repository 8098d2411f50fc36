/** What the reader reports of the local variables, and exactly when that is right. */
module LineReport {
  import opened Options
  import opened LineProgram
  import opened LineEmitter
  import opened LineLocals
  import opened LineOrder
  import opened LineAddress

  /** The exact range of a variable. */
  ghost function Exact(f: Function, v: nat): Local
    requires v < |f.vars|
  {
    LocalOf(f, v, Some(End(f.vars[v])))
  }

  /** Ends come behind their own starts, so the reader always finds something to close. */
  lemma NothingUnmatched(f: Function, ev: seq<Event>)
    requires VarsOk(f) && EventsOk(f, ev)
    ensures !Unmatched(f, ev, |ev|)
  {
    forall i | 0 <= i < |ev|
      ensures !Closes(f, ev, i, -1)
    {
      assert EventOf(f, ev[i]);
      var j, k := EventsOf(f, ev, ev[i].v);
      assert !IsStart(f, ev[i]) ==> i == k;
    }
  }

  /** Every variable in a register of the frame has exactly one entry. */
  lemma VariableHasEntry(f: Function, ev: seq<Event>, r: Reader, v: nat) returns (n: nat)
    requires VarsOk(f) && EventsOk(f, ev) && LocalsOk(f, ev, |ev|, r) && v < |f.vars| && 0 <= f.vars[v].reg < f.regsNum
    ensures n < |r.locals| && ev[StartsIn(f, ev, |ev|)[n]].v == v
    ensures forall m :: 0 <= m < |r.locals| && m != n ==> ev[StartsIn(f, ev, |ev|)[m]].v != v
  {
    var j, k := EventsOf(f, ev, v);
    n := StartIsListed(f, ev, |ev|, j);
    var js := StartsIn(f, ev, |ev|);
    forall m | 0 <= m < |r.locals| && m != n
      ensures ev[js[m]].v != v
    {
      assert js[m] != js[n] && ev[js[m]] != ev[js[n]];
    }
  }

  /** No entry stands for anything else, and the reader meets no unknown register. */
  lemma EntryIsVariable(f: Function, ev: seq<Event>, r: Reader, n: nat) returns (v: nat)
    requires VarsOk(f) && EventsOk(f, ev) && LocalsOk(f, ev, |ev|, r) && n < |r.locals|
    ensures v == ev[StartsIn(f, ev, |ev|)[n]].v && v < |f.vars| && 0 <= f.vars[v].reg < f.regsNum && !r.bad
    ensures EntryOf(f, v, r.locals[n])
  {
    NothingUnmatched(f, ev);
    v := ev[StartsIn(f, ev, |ev|)[n]].v;
    assert EventOf(f, ev[StartsIn(f, ev, |ev|)[n]]);
  }

  /** The entry has the name and the register of the variable, and begins at the address of its start. */
  ghost predicate EntryOf(f: Function, v: nat, l: Local) {
    v < |f.vars| && l.name == f.vars[v].name && l.reg == f.vars[v].reg && l.start == PcOf(f, f.vars[v].start)
  }

  /** The entries of the table, in order, are those of the variables `vs`. */
  ghost predicate TableOf(f: Function, locals: seq<Local>, vs: seq<nat>) {
    && |vs| == |locals| && (forall n :: 0 <= n < |vs| ==> EntryOf(f, vs[n], locals[n]))
    && (forall m, n :: 0 <= m < n < |vs| ==> vs[m] != vs[n])
    && forall v: nat :: v in vs <==> v < |f.vars| && 0 <= f.vars[v].reg < f.regsNum
  }

  /** The table has one entry for each variable in a register of the frame, and none for any other. */
  lemma TableIsExact(f: Function, ev: seq<Event>, r: Reader) returns (vs: seq<nat>)
    requires VarsOk(f) && EventsOk(f, ev) && LocalsOk(f, ev, |ev|, r)
    ensures TableOf(f, r.locals, vs) && !r.bad
  {
    var js := StartsIn(f, ev, |ev|);
    vs := seq(|r.locals|, n requires 0 <= n < |r.locals| => ev[js[n]].v);
    NothingUnmatched(f, ev);
    forall n | 0 <= n < |vs|
      ensures EntryOf(f, vs[n], r.locals[n]) && 0 <= f.vars[vs[n]].reg < f.regsNum
      ensures forall m :: 0 <= m < |vs| && m != n ==> vs[m] != vs[n]
    {
      var v := EntryIsVariable(f, ev, r, n);
      var n' := VariableHasEntry(f, ev, r, v);
      assert vs[n] == v && vs[n'] == v && n == n';
    }
    forall v: nat | v < |f.vars| && 0 <= f.vars[v].reg < f.regsNum
      ensures v in vs
    {
      var n := VariableHasEntry(f, ev, r, v);
      assert vs[n] == v;
    }
  }

  /** The end that is reported of a variable closed at `c`: a missing end, or one at 0, becomes the last address. */
  ghost function ReportedPc(f: Function, c: Option<int>): int
    requires f.ins != []
  {
    if c.Some? && PcOf(f, c.value) != 0 then PcOf(f, c.value) else LastPc(f)
  }

  /** What started at event `j` is reported with its exact range. */
  ghost predicate ReportedRight(f: Function, ev: seq<Event>, j: nat)
    requires f.ins != [] && j < |ev| && ev[j].v < |f.vars|
  {
    ReportedPc(f, ClosedAt(f, ev, |ev|, j)) == PcOf(f, End(f.vars[ev[j].v]))
  }

  ghost predicate AllReported(f: Function, ev: seq<Event>)
    requires f.ins != []
  {
    forall j :: 0 <= j < |ev| && IsStart(f, ev[j]) ==> ReportedRight(f, ev, j)
  }

  lemma EntryReported(f: Function, ev: seq<Event>, r: Reader, n: nat)
    requires Finished(f, ev, r) && n < |r.locals|
    ensures var j := StartsIn(f, ev, |ev|)[n];
            CloseLocal(r, r.locals[n]) == Exact(f, ev[j].v) <==> ReportedRight(f, ev, j)
  {
    assert IsStart(f, ev[StartsIn(f, ev, |ev|)[n]]);
  }

  /**
   * The reader reports all ranges exactly if and only if each variable was closed at an address behind 0 that is the
   * one of its own end, or was not closed behind 0 and ends at the last address.
   */
  lemma AllReportedExactly(f: Function, ev: seq<Event>, r: Reader)
    requires Finished(f, ev, r)
    ensures (forall n :: 0 <= n < |r.locals| ==>
               CloseLocal(r, r.locals[n]) == Exact(f, ev[StartsIn(f, ev, |ev|)[n]].v))
            <==> AllReported(f, ev)
  {
    var js := StartsIn(f, ev, |ev|);
    forall n | 0 <= n < |r.locals|
      ensures IsStart(f, ev[js[n]])
      ensures CloseLocal(r, r.locals[n]) == Exact(f, ev[js[n]].v) <==> ReportedRight(f, ev, js[n])
    {
      EntryReported(f, ev, r, n);
    }
    forall j | 0 <= j < |ev| && IsStart(f, ev[j])
      ensures exists n :: 0 <= n < |r.locals| && js[n] == j
    {
      var n := StartIsListed(f, ev, |ev|, j);
    }
  }

  // ----- in terms of the events -----

  /** Event `i` is an end behind event `j`, and nothing starts in the register in between. */
  ghost predicate EndsOpen(f: Function, ev: seq<Event>, i: nat, j: nat)
    requires i < |ev| && j < |ev|
  {
    && j < i && SameRegister(f, ev[i], ev[j]) && !IsStart(f, ev[i])
    && forall m :: j < m < i && IsStart(f, ev[m]) ==> !SameRegister(f, ev[m], ev[j])
  }

  lemma ClosesExactly(f: Function, ev: seq<Event>, i: nat, j: nat)
    requires i < |ev| && j < |ev| && IsStart(f, ev[j])
    ensures Closes(f, ev, i, j) <==> EndsOpen(f, ev, i, j)
  {
    if EndsOpen(f, ev, i, j) {
      var h := LastStart(f, ev, i, f.vars[ev[i].v].reg);
      assert h >= j;
    }
  }

  /** Event `i` is the last end before the next start in the register of event `j`. */
  ghost predicate LastEnd(f: Function, ev: seq<Event>, i: nat, j: nat)
    requires i < |ev| && j < |ev|
  {
    EndsOpen(f, ev, i, j) && forall k :: i < k < |ev| ==> !EndsOpen(f, ev, k, j)
  }

  ghost predicate NoEnd(f: Function, ev: seq<Event>, j: nat)
    requires j < |ev|
  {
    forall i :: 0 <= i < |ev| ==> !EndsOpen(f, ev, i, j)
  }

  lemma ClosedAtLastEnd(f: Function, ev: seq<Event>, i: nat, j: nat)
    requires i < |ev| && j < |ev| && IsStart(f, ev[j]) && LastEnd(f, ev, i, j)
    ensures ClosedAt(f, ev, |ev|, j) == Some(ev[i].order)
  {
    ClosesExactly(f, ev, i, j);
    forall k | i < k < |ev|
      ensures !Closes(f, ev, k, j)
    {
      ClosesExactly(f, ev, k, j);
    }
    ClosedLast(f, ev, |ev|, j, i);
  }

  lemma {:induction false} NeverClosed(f: Function, ev: seq<Event>, n: nat, j: int)
    requires n <= |ev| && forall i :: 0 <= i < n ==> !Closes(f, ev, i, j)
    ensures ClosedAt(f, ev, n, j) == None
    decreases n
  {
    if n > 0 { NeverClosed(f, ev, n - 1, j); }
  }

  lemma NoEndNotClosed(f: Function, ev: seq<Event>, j: nat)
    requires j < |ev| && IsStart(f, ev[j]) && NoEnd(f, ev, j)
    ensures ClosedAt(f, ev, |ev|, j) == None
  {
    forall i | 0 <= i < |ev|
      ensures !Closes(f, ev, i, j)
    {
      ClosesExactly(f, ev, i, j);
    }
    NeverClosed(f, ev, |ev|, j);
  }

  /** A start is followed by a last end in its register, or by none. */
  lemma {:induction false} LastEndOrNone(f: Function, ev: seq<Event>, j: nat, n: nat) returns (i: nat)
    requires j < |ev| && n <= |ev| && forall k :: n <= k < |ev| ==> !EndsOpen(f, ev, k, j)
    ensures (i < |ev| && LastEnd(f, ev, i, j)) || NoEnd(f, ev, j)
    decreases n
  {
    i := 0;
    if n > 0 {
      if EndsOpen(f, ev, n - 1, j) { i := n - 1; } else { i := LastEndOrNone(f, ev, j, n - 1); }
    }
  }

  /** The last end behind the start has the address of the variable's own end, which is not 0. */
  ghost predicate EndsAlike(f: Function, ev: seq<Event>, j: nat)
    requires j < |ev| && ev[j].v < |f.vars|
  {
    var pc := PcOf(f, End(f.vars[ev[j].v]));
    pc != 0 && exists i :: 0 <= i < |ev| && LastEnd(f, ev, i, j) && PcOf(f, ev[i].order) == pc
  }

  /** No end behind the start has an address but 0, and the variable's own end is at the last address. */
  ghost predicate EndsAtLast(f: Function, ev: seq<Event>, j: nat)
    requires f.ins != [] && j < |ev| && ev[j].v < |f.vars|
  {
    && (forall i :: 0 <= i < |ev| && EndsOpen(f, ev, i, j) ==> PcOf(f, ev[i].order) == 0)
    && PcOf(f, End(f.vars[ev[j].v])) == LastPc(f)
  }

  lemma PcOfGrows(f: Function, i: int, j: int)
    requires FunctionOk(f) && i <= j <= |f.ins|
    ensures 0 <= PcOf(f, i) <= PcOf(f, j)
  {
    if 0 <= i {
      PcIsNat(f, i);
      PcGrows(f, i, j);
    } else if 0 <= j {
      PcIsNat(f, j);
    }
  }

  /** No end behind a start is later than the last one. */
  lemma LastEndIsLatest(f: Function, ev: seq<Event>, i: nat, j: nat)
    requires FunctionOk(f) && VarsOk(f) && EventsOk(f, ev) && i < |ev| && j < |ev| && LastEnd(f, ev, i, j)
    ensures 0 <= PcOf(f, ev[i].order)
    ensures forall k :: 0 <= k < |ev| && EndsOpen(f, ev, k, j) ==> PcOf(f, ev[k].order) <= PcOf(f, ev[i].order)
    ensures forall k :: 0 <= k < |ev| && LastEnd(f, ev, k, j) ==> k == i
  {
    assert EventOf(f, ev[i]) && VarOk(f, ev[i].v);
    PcOfGrows(f, ev[i].order, ev[i].order);
    forall k | 0 <= k < |ev| && EndsOpen(f, ev, k, j)
      ensures PcOf(f, ev[k].order) <= PcOf(f, ev[i].order)
    {
      PcOfGrows(f, ev[k].order, ev[i].order);
    }
  }

  lemma EndsAlikeAt(f: Function, ev: seq<Event>, i: nat, j: nat)
    requires FunctionOk(f) && VarsOk(f) && EventsOk(f, ev) && i < |ev| && j < |ev| && LastEnd(f, ev, i, j)
    requires IsStart(f, ev[j])
    ensures EndsAlike(f, ev, j) <==> 0 != PcOf(f, ev[i].order) == PcOf(f, End(f.vars[ev[j].v]))
  {
    LastEndIsLatest(f, ev, i, j);
  }

  lemma EndsAtLastAt(f: Function, ev: seq<Event>, i: nat, j: nat)
    requires FunctionOk(f) && VarsOk(f) && EventsOk(f, ev) && i < |ev| && j < |ev| && LastEnd(f, ev, i, j)
    requires IsStart(f, ev[j])
    ensures EndsAtLast(f, ev, j) <==> PcOf(f, ev[i].order) == 0 && PcOf(f, End(f.vars[ev[j].v])) == LastPc(f)
  {
    LastEndIsLatest(f, ev, i, j);
    forall k | 0 <= k < |ev| && EndsOpen(f, ev, k, j)
      ensures 0 <= PcOf(f, ev[k].order)
    {
      PcOfGrows(f, ev[k].order, |f.ins|) by { assert EventOf(f, ev[k]) && VarOk(f, ev[k].v); }
    }
  }

  lemma ClosedReportedExactly(f: Function, ev: seq<Event>, i: nat, j: nat)
    requires FunctionOk(f) && VarsOk(f) && EventsOk(f, ev) && i < |ev| && j < |ev| && LastEnd(f, ev, i, j)
    requires IsStart(f, ev[j])
    ensures ReportedRight(f, ev, j) <==> EndsAlike(f, ev, j) || EndsAtLast(f, ev, j)
  {
    ClosedAtLastEnd(f, ev, i, j);
    EndsAlikeAt(f, ev, i, j);
    EndsAtLastAt(f, ev, i, j);
  }

  lemma OpenReportedExactly(f: Function, ev: seq<Event>, j: nat)
    requires f.ins != [] && j < |ev| && IsStart(f, ev[j]) && NoEnd(f, ev, j)
    ensures ReportedRight(f, ev, j) <==> EndsAlike(f, ev, j) || EndsAtLast(f, ev, j)
  {
    NoEndNotClosed(f, ev, j);
  }

  /** A variable is reported with its exact range in these two cases and in no other. */
  lemma ReportedExactly(f: Function, ev: seq<Event>, j: nat)
    requires FunctionOk(f) && VarsOk(f) && EventsOk(f, ev) && j < |ev| && IsStart(f, ev[j])
    ensures ReportedRight(f, ev, j) <==> EndsAlike(f, ev, j) || EndsAtLast(f, ev, j)
  {
    var i := LastEndOrNone(f, ev, j, |ev|);
    if NoEnd(f, ev, j) { OpenReportedExactly(f, ev, j); } else { ClosedReportedExactly(f, ev, i, j); }
  }
}
