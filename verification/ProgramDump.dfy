/** The normalised dump of a function: labels give way to instruction indices. */
module ProgramDump {
  import opened Options

  /** `jump` is the label a jump names. */
  datatype Ins = Label(l: string) | Plain(code: int, jump: Option<string>)

  datatype CatchBlock = CatchBlock(tryBegin: string, tryEnd: string, catchBegin: string, catchEnd: string,
      record: string)

  datatype Var = Var(name: string, reg: int, start: int, length: int)

  datatype Function = Function(ins: seq<Ins>, catches: seq<CatchBlock>)

  /** How an instruction index is written as a label. */
  type Namer = nat -> string

  ghost predicate NamesOk(name: Namer) {
    (forall n: nat :: name(n) != "") && forall m: nat, n: nat :: name(m) == name(n) ==> m == n
  }

  // ----- what the dump is meant to show -----

  /** Instructions among the first `n` entries. */
  function Count(ins: seq<Ins>, n: int): nat
    requires 0 <= n <= |ins|
    decreases n
  {
    if n == 0 then 0 else Count(ins, n - 1) + if ins[n - 1].Plain? then 1 else 0
  }

  /** The instructions without the labels. */
  function Plains(ins: seq<Ins>): (ps: seq<Ins>)
    ensures forall i :: 0 <= i < |ps| ==> ps[i].Plain? && ps[i] in ins
    decreases |ins|
  {
    if ins == [] then []
    else Plains(ins[..|ins| - 1]) + if ins[|ins| - 1].Plain? then [ins[|ins| - 1]] else []
  }

  /** Where a label stands: the number of instructions in front of its first occurrence. */
  function Position(ins: seq<Ins>, l: string): (p: Option<nat>)
    ensures p.Some? <==> Label(l) in ins
    decreases |ins|
  {
    if ins == [] then None
    else
      var before := Position(ins[..|ins| - 1], l);
      if before.Some? then before
      else if ins[|ins| - 1] == Label(l) then Some(|Plains(ins[..|ins| - 1])|)
      else None
  }

  lemma {:induction false} CountIsPlains(ins: seq<Ins>, n: int)
    requires 0 <= n <= |ins|
    ensures Count(ins, n) == |Plains(ins[..n])|
    decreases n
  {
    if n > 0 {
      CountIsPlains(ins, n - 1);
      assert ins[..n][..n - 1] == ins[..n - 1];
    }
  }

  // ----- the dumper -----

  /** A label that is not defined keeps its name. */
  function Mapped(name: Namer, ins: seq<Ins>, l: string): string {
    var p := Position(ins, l);
    if p.Some? then name(p.value) else l
  }

  function MappedIns(name: Namer, ins: seq<Ins>, x: Ins): Ins {
    if x.Plain? && x.jump.Some? then x.(jump := Some(Mapped(name, ins, x.jump.value))) else x
  }

  function MappedCatch(name: Namer, ins: seq<Ins>, c: CatchBlock): CatchBlock {
    CatchBlock(Mapped(name, ins, c.tryBegin), Mapped(name, ins, c.tryEnd), Mapped(name, ins, c.catchBegin),
               Mapped(name, ins, c.catchEnd), c.record)
  }

  function DumpIns(name: Namer, f: Function): (ds: seq<Ins>)
    ensures |ds| == |Plains(f.ins)| && forall i :: 0 <= i < |ds| ==> ds[i] == MappedIns(name, f.ins, Plains(f.ins)[i])
  {
    var ps := Plains(f.ins);
    seq(|ps|, i requires 0 <= i < |ps| => MappedIns(name, f.ins, ps[i]))
  }

  function DumpCatches(name: Namer, f: Function): (ds: seq<CatchBlock>)
    ensures |ds| == |f.catches| && forall i :: 0 <= i < |ds| ==> ds[i] == MappedCatch(name, f.ins, f.catches[i])
  {
    seq(|f.catches|, i requires 0 <= i < |f.catches| => MappedCatch(name, f.ins, f.catches[i]))
  }

  ghost predicate LabelsMapped(name: Namer, ins: seq<Ins>, labels: map<string, string>) {
    && (forall l :: l in labels <==> Position(ins, l).Some?)
    && (forall l :: l in labels ==> labels[l] == name(Position(ins, l).value))
  }

  ghost predicate IndicesMapped(ins: seq<Ins>, indices: map<int, int>, n: int)
    requires n <= |ins| + 1
  {
    forall i :: 0 <= i < n ==> i in indices && indices[i] == Count(ins, i)
  }

  lemma LabelStep(name: Namer, ins: seq<Ins>, labels: map<string, string>, i: nat)
    requires i < |ins| && LabelsMapped(name, ins[..i], labels)
    ensures LabelsMapped(name, ins[..i + 1],
                         if ins[i].Label? && ins[i].l !in labels then labels[ins[i].l := name(|Plains(ins[..i])|)]
                         else labels)
  {
    assert ins[..i + 1][..i] == ins[..i];
  }

  class Dumper {
    const name: Namer
    var labels: map<string, string>
    var final: seq<Ins>
    var indices: map<int, int>

    constructor (name: Namer)
      ensures this.name == name
    {
      this.name := name;
      labels, final, indices := map[], [], map[];
    }

    /** One pass: the instructions without labels, the new name of every label, the new index of every old one. */
    method GetFinalDumpIns(ins: seq<Ins>)
      modifies this
      ensures final == Plains(ins) && LabelsMapped(name, ins, labels) && IndicesMapped(ins, indices, |ins| + 1)
    {
      labels, final, indices := map[], [], map[];
      var count := 0;
      assert ins[..0] == [];
      for idx := 0 to |ins|
        invariant DumpedTo(ins, idx, count)
      {
        count := DumpNext(ins, idx, count);
      }
      assert ins[..|ins|] == ins;
      CountIsPlains(ins, |ins|);
      indices := indices[|ins| := |final|];
    }

    /** The first `n` entries have been gone through, `count` of them instructions. */
    ghost predicate DumpedTo(ins: seq<Ins>, n: int, count: int)
      reads this
    {
      && 0 <= n <= |ins| && final == Plains(ins[..n]) && count == |final| && LabelsMapped(name, ins[..n], labels)
      && IndicesMapped(ins, indices, n)
    }

    method DumpNext(ins: seq<Ins>, idx: nat, count: int) returns (more: int)
      requires idx < |ins| && DumpedTo(ins, idx, count)
      modifies this`labels, this`final, this`indices
      ensures DumpedTo(ins, idx + 1, more)
    {
      CountIsPlains(ins, idx);
      LabelStep(name, ins, labels, idx);
      assert ins[..idx + 1][..idx] == ins[..idx];
      more := count;
      indices := indices[idx := count];
      if ins[idx].Label? {
        if ins[idx].l !in labels { labels := labels[ins[idx].l := name(count)]; }
      } else {
        more := count + 1;
        final := final + [ins[idx]];
      }
    }

    function GetMappedLabel(l: string): string
      reads this
    {
      if l in labels then labels[l] else ""
    }

    method UpdateLabels4DumpIns(ghost f: Function)
      requires final == Plains(f.ins) && LabelsMapped(name, f.ins, labels) && NamesOk(name)
      modifies this`final
      ensures final == DumpIns(name, f)
    {
      for i := 0 to |final|
        invariant |final| == |Plains(f.ins)|
        invariant forall k :: 0 <= k < |final| ==>
          final[k] == if k < i then MappedIns(name, f.ins, Plains(f.ins)[k]) else Plains(f.ins)[k]
      {
        if final[i].jump.Some? {
          var mapped := GetMappedLabel(final[i].jump.value);
          if mapped != "" { final := final[i := final[i].(jump := Some(mapped))]; }
        }
      }
    }

    method GetUpdatedCatchBlockLabel(l: string, ghost f: Function) returns (r: string)
      requires LabelsMapped(name, f.ins, labels) && NamesOk(name)
      ensures r == Mapped(name, f.ins, l)
    {
      r := GetMappedLabel(l);
      if r == "" { r := l; }
    }

    method UpdateCatchBlocks(f: Function) returns (catches: seq<CatchBlock>)
      requires LabelsMapped(name, f.ins, labels) && NamesOk(name)
      ensures catches == DumpCatches(name, f)
    {
      catches := [];
      for i := 0 to |f.catches|
        invariant |catches| == i && forall k :: 0 <= k < i ==> catches[k] == MappedCatch(name, f.ins, f.catches[k])
      {
        var c := f.catches[i];
        var a := GetUpdatedCatchBlockLabel(c.tryBegin, f);
        var b := GetUpdatedCatchBlockLabel(c.tryEnd, f);
        var d := GetUpdatedCatchBlockLabel(c.catchBegin, f);
        var e := GetUpdatedCatchBlockLabel(c.catchEnd, f);
        catches := catches + [CatchBlock(a, b, d, e, c.record)];
      }
    }

    /** A variable's interval, counted in instructions; of two variables in a register the later one is kept. */
    method UpdateLocalVarMap(ins: seq<Ins>, vars: seq<Var>) returns (table: map<int, Var>)
      requires IndicesMapped(ins, indices, |ins| + 1)
      requires forall i :: 0 <= i < |vars| ==> VarOk(ins, vars[i])
      ensures forall r :: r in table <==> Used(vars, r)
      ensures forall r, i :: r in table && IsLastIn(vars, i, r) ==> table[r] == MappedVar(ins, vars[i])
    {
      table := map[];
      for i := 0 to |vars|
        invariant forall r :: r in table <==> Used(vars[..i], r)
        invariant forall r, k :: r in table && IsLastIn(vars[..i], k, r) ==> table[r] == MappedVar(ins, vars[k])
      {
        var v := vars[i];
        var start := indices[v.start];
        LastInStep(vars, i);
        table := table[v.reg := Var(v.name, v.reg, start, indices[v.start + v.length] - start)];
      }
      assert vars[..|vars|] == vars;
    }
  }

  predicate VarOk(ins: seq<Ins>, v: Var) {
    0 <= v.start && 0 <= v.length && v.start + v.length <= |ins|
  }

  function MappedVar(ins: seq<Ins>, v: Var): Var
    requires VarOk(ins, v)
  {
    Var(v.name, v.reg, Count(ins, v.start), Count(ins, v.start + v.length) - Count(ins, v.start))
  }

  predicate IsLastIn(vars: seq<Var>, i: int, r: int) {
    0 <= i < |vars| && vars[i].reg == r && forall k :: i < k < |vars| ==> vars[k].reg != r
  }

  ghost predicate Used(vars: seq<Var>, r: int) {
    exists i :: 0 <= i < |vars| && vars[i].reg == r
  }

  lemma UsedStep(vars: seq<Var>, n: nat, r: int)
    requires n < |vars|
    ensures Used(vars[..n + 1], r) <==> r == vars[n].reg || Used(vars[..n], r)
  {
    var all, some := vars[..n + 1], vars[..n];
    if r == vars[n].reg { assert all[n].reg == r; }
    if Used(some, r) {
      var i :| 0 <= i < |some| && some[i].reg == r;
      assert all[i].reg == r;
    }
    if Used(all, r) && r != vars[n].reg {
      var i :| 0 <= i < |all| && all[i].reg == r;
      assert some[i].reg == r;
    }
  }

  lemma LastInStep(vars: seq<Var>, n: nat)
    requires n < |vars|
    ensures forall i, r :: IsLastIn(vars[..n + 1], i, r) <==>
      if r == vars[n].reg then i == n else IsLastIn(vars[..n], i, r)
    ensures forall r :: Used(vars[..n + 1], r) <==> r == vars[n].reg || Used(vars[..n], r)
  {
    forall r
      ensures Used(vars[..n + 1], r) <==> r == vars[n].reg || Used(vars[..n], r)
    {
      UsedStep(vars, n, r);
    }
    forall i, r
      ensures IsLastIn(vars[..n + 1], i, r) <==> if r == vars[n].reg then i == n else IsLastIn(vars[..n], i, r)
    {
      var more := vars[..n + 1];
      assert more[n] == vars[n] && forall k :: 0 <= k < n ==> more[k] == vars[..n][k];
    }
  }

  // ----- what the dump shows, index by index -----

  /** The instructions in front of index `i`; labels do not count. */
  function Before(ins: seq<Ins>, i: int): set<int> {
    set k | 0 <= k < i && k < |ins| && ins[k].Plain?
  }

  /** The first place where a label stands. */
  predicate StandsAt(ins: seq<Ins>, l: string, i: int) {
    0 <= i < |ins| && ins[i] == Label(l) && forall k :: 0 <= k < i ==> ins[k] != Label(l)
  }

  /** A label is shown as the number of instructions in front of it; one that stands nowhere keeps its name. */
  ghost predicate Shown(name: Namer, ins: seq<Ins>, l: string, shown: string) {
    && (forall i :: StandsAt(ins, l, i) ==> shown == name(|Before(ins, i)|))
    && (Label(l) !in ins ==> shown == l)
  }

  lemma {:induction false} CountIsBefore(ins: seq<Ins>, n: int)
    requires 0 <= n <= |ins|
    ensures Count(ins, n) == |Before(ins, n)|
    decreases n
  {
    if n > 0 {
      CountIsBefore(ins, n - 1);
      assert Before(ins, n) == Before(ins, n - 1) + if ins[n - 1].Plain? then {n - 1} else {};
    } else {
      assert Before(ins, n) == {};
    }
  }

  lemma {:induction false} PositionIs(ins: seq<Ins>, l: string, i: int)
    requires StandsAt(ins, l, i)
    ensures Position(ins, l) == Some(|Before(ins, i)|)
    decreases |ins|
  {
    var n := |ins| - 1;
    if i < n {
      PositionIs(ins[..n], l, i);
      assert Before(ins[..n], i) == Before(ins, i);
    } else {
      CountIsPlains(ins, n);
      CountIsBefore(ins, n);
    }
  }

  lemma {:induction false} PlainsAt(ins: seq<Ins>, i: int)
    requires 0 <= i < |ins| && ins[i].Plain?
    ensures |Before(ins, i)| < |Plains(ins)| && Plains(ins)[|Before(ins, i)|] == ins[i]
    decreases |ins|
  {
    var n := |ins| - 1;
    if i < n {
      PlainsAt(ins[..n], i);
      assert Before(ins[..n], i) == Before(ins, i);
    } else {
      CountIsPlains(ins, n);
      CountIsBefore(ins, n);
    }
  }

  lemma MappedIsShown(name: Namer, ins: seq<Ins>, l: string)
    ensures Shown(name, ins, l, Mapped(name, ins, l))
  {
    forall i | StandsAt(ins, l, i)
      ensures Mapped(name, ins, l) == name(|Before(ins, i)|)
    {
      PositionIs(ins, l, i);
    }
  }

  /** Each instruction stands in the dump behind those in front of it, with its jump shown as its target. */
  lemma InstructionShown(name: Namer, f: Function, i: int)
    requires 0 <= i < |f.ins| && f.ins[i].Plain?
    ensures |DumpIns(name, f)| == |Before(f.ins, |f.ins|)| && |Before(f.ins, i)| < |DumpIns(name, f)|
    ensures var d := DumpIns(name, f)[|Before(f.ins, i)|];
            && d.Plain? && d.code == f.ins[i].code && d.jump.Some? == f.ins[i].jump.Some?
            && (d.jump.Some? ==> Shown(name, f.ins, f.ins[i].jump.value, d.jump.value))
  {
    CountIsPlains(f.ins, |f.ins|);
    CountIsBefore(f.ins, |f.ins|);
    assert f.ins[..|f.ins|] == f.ins;
    PlainsAt(f.ins, i);
    if f.ins[i].jump.Some? { MappedIsShown(name, f.ins, f.ins[i].jump.value); }
  }

  /** Catch blocks keep their order and their records, and all their labels are shown. */
  lemma CatchShown(name: Namer, f: Function, j: int)
    requires 0 <= j < |f.catches|
    ensures |DumpCatches(name, f)| == |f.catches|
    ensures var c, d := f.catches[j], DumpCatches(name, f)[j];
            && d.record == c.record
            && Shown(name, f.ins, c.tryBegin, d.tryBegin) && Shown(name, f.ins, c.tryEnd, d.tryEnd)
            && Shown(name, f.ins, c.catchBegin, d.catchBegin) && Shown(name, f.ins, c.catchEnd, d.catchEnd)
  {
    var c := f.catches[j];
    MappedIsShown(name, f.ins, c.tryBegin);
    MappedIsShown(name, f.ins, c.tryEnd);
    MappedIsShown(name, f.ins, c.catchBegin);
    MappedIsShown(name, f.ins, c.catchEnd);
  }

  /** A variable keeps its name and register; its start is the number of instructions in front of it. */
  lemma VariableShown(ins: seq<Ins>, v: Var)
    requires 0 <= v.start && 0 <= v.length && v.start + v.length <= |ins|
    ensures var d := MappedVar(ins, v);
            && d.name == v.name && d.reg == v.reg && d.start == |Before(ins, v.start)|
            && d.length == |Before(ins, v.start + v.length)| - |Before(ins, v.start)|
  {
    CountIsBefore(ins, v.start);
    CountIsBefore(ins, v.start + v.length);
  }

  // ----- the dump is a canonical form -----

  /** Where a named label leads: to a position, or nowhere, and then only its name is left. */
  datatype Target = At(p: nat) | Nowhere(l: string)

  function TargetOf(ins: seq<Ins>, l: string): Target {
    var p := Position(ins, l);
    if p.Some? then At(p.value) else Nowhere(l)
  }

  predicate InJump(f: Function, l: string) {
    exists i :: 0 <= i < |Plains(f.ins)| && Plains(f.ins)[i].jump == Some(l)
  }

  predicate InCatch(f: Function, l: string) {
    exists i :: 0 <= i < |f.catches| && CatchNames(f.catches[i], l)
  }

  predicate CatchNames(c: CatchBlock, l: string) {
    l == c.tryBegin || l == c.tryEnd || l == c.catchBegin || l == c.catchEnd
  }

  /** The label is named by a jump or a catch block. */
  predicate IsNamed(f: Function, l: string) {
    InJump(f, l) || InCatch(f, l)
  }

  /** A label that leads nowhere but is written like an instruction index of the function. */
  ghost predicate LooksResolved(name: Namer, f: Function, l: string, n: nat) {
    Position(f.ins, l).None? && n <= |Plains(f.ins)| && l == name(n)
  }

  ghost predicate Clear(name: Namer, f: Function) {
    forall l, n: nat :: IsNamed(f, l) ==> !LooksResolved(name, f, l, n)
  }

  /** Two instructions do the same: the same code and, for jumps, the same target. */
  ghost predicate SameIns(f: Function, g: Function, x: Ins, y: Ins) {
    && x.Plain? && y.Plain? && x.code == y.code && (x.jump.Some? <==> y.jump.Some?)
    && (x.jump.Some? ==> TargetOf(f.ins, x.jump.value) == TargetOf(g.ins, y.jump.value))
  }

  ghost predicate SameCatch(f: Function, g: Function, c: CatchBlock, d: CatchBlock) {
    && c.record == d.record
    && TargetOf(f.ins, c.tryBegin) == TargetOf(g.ins, d.tryBegin)
    && TargetOf(f.ins, c.tryEnd) == TargetOf(g.ins, d.tryEnd)
    && TargetOf(f.ins, c.catchBegin) == TargetOf(g.ins, d.catchBegin)
    && TargetOf(f.ins, c.catchEnd) == TargetOf(g.ins, d.catchEnd)
  }

  ghost predicate SameCode(f: Function, g: Function) {
    var ps, qs := Plains(f.ins), Plains(g.ins);
    && |ps| == |qs| && (forall i :: 0 <= i < |ps| ==> SameIns(f, g, ps[i], qs[i]))
    && |f.catches| == |g.catches|
    && (forall i :: 0 <= i < |f.catches| ==> SameCatch(f, g, f.catches[i], g.catches[i]))
  }

  ghost predicate SameDump(name: Namer, f: Function, g: Function) {
    DumpIns(name, f) == DumpIns(name, g) && DumpCatches(name, f) == DumpCatches(name, g)
  }

  lemma {:induction false} PositionInside(ins: seq<Ins>, l: string)
    ensures Position(ins, l).Some? ==> Position(ins, l).value <= |Plains(ins)|
    decreases |ins|
  {
    if ins != [] { PositionInside(ins[..|ins| - 1], l); }
  }

  /** Functions with the same number of instructions whose stray labels are clear of their indices. */
  ghost predicate Comparable(name: Namer, f: Function, g: Function) {
    NamesOk(name) && Clear(name, f) && Clear(name, g) && |Plains(f.ins)| == |Plains(g.ins)|
  }

  lemma MappedSame(name: Namer, f: Function, g: Function, l: string, m: string)
    requires Comparable(name, f, g) && IsNamed(f, l) && IsNamed(g, m)
    ensures Mapped(name, f.ins, l) == Mapped(name, g.ins, m) <==> TargetOf(f.ins, l) == TargetOf(g.ins, m)
  {
    var p, q := Position(f.ins, l), Position(g.ins, m);
    PositionInside(f.ins, l);
    PositionInside(g.ins, m);
    if p.Some? && q.None? { assert !LooksResolved(name, g, m, p.value); }
    if p.None? && q.Some? { assert !LooksResolved(name, f, l, q.value); }
  }

  lemma InsSame(name: Namer, f: Function, g: Function, i: nat)
    requires Comparable(name, f, g) && i < |Plains(f.ins)|
    ensures var x, y := Plains(f.ins)[i], Plains(g.ins)[i];
            MappedIns(name, f.ins, x) == MappedIns(name, g.ins, y) <==> SameIns(f, g, x, y)
  {
    var x, y := Plains(f.ins)[i], Plains(g.ins)[i];
    if x.jump.Some? && y.jump.Some? {
      assert InJump(f, x.jump.value) && InJump(g, y.jump.value);
      MappedSame(name, f, g, x.jump.value, y.jump.value);
    }
  }

  lemma CatchSame(name: Namer, f: Function, g: Function, i: nat)
    requires Comparable(name, f, g) && i < |f.catches| && i < |g.catches|
    ensures MappedCatch(name, f.ins, f.catches[i]) == MappedCatch(name, g.ins, g.catches[i])
            <==> SameCatch(f, g, f.catches[i], g.catches[i])
  {
    var c, d := f.catches[i], g.catches[i];
    CatchesName(f, i);
    CatchesName(g, i);
    MappedSame(name, f, g, c.tryBegin, d.tryBegin);
    MappedSame(name, f, g, c.tryEnd, d.tryEnd);
    MappedSame(name, f, g, c.catchBegin, d.catchBegin);
    MappedSame(name, f, g, c.catchEnd, d.catchEnd);
  }

  lemma CatchesName(f: Function, i: nat)
    requires i < |f.catches|
    ensures var c := f.catches[i];
            && InCatch(f, c.tryBegin) && InCatch(f, c.tryEnd) && InCatch(f, c.catchBegin) && InCatch(f, c.catchEnd)
  {
    var c := f.catches[i];
    assert CatchNames(c, c.tryBegin) && CatchNames(c, c.tryEnd) && CatchNames(c, c.catchBegin)
      && CatchNames(c, c.catchEnd);
  }

  /**
   * Two functions have the same dump if and only if they have the same instructions and the same targets, provided
   * that no label that leads nowhere is written like an index.
   */
  lemma DumpIsCanonical(name: Namer, f: Function, g: Function)
    requires NamesOk(name) && Clear(name, f) && Clear(name, g)
    ensures SameDump(name, f, g) <==> SameCode(f, g)
  {
    var ps, qs := Plains(f.ins), Plains(g.ins);
    if |ps| == |qs| && |f.catches| == |g.catches| {
      forall i | 0 <= i < |ps|
        ensures DumpIns(name, f)[i] == DumpIns(name, g)[i] <==> SameIns(f, g, ps[i], qs[i])
      {
        InsSame(name, f, g, i);
      }
      forall i | 0 <= i < |f.catches|
        ensures DumpCatches(name, f)[i] == DumpCatches(name, g)[i] <==> SameCatch(f, g, f.catches[i], g.catches[i])
      {
        CatchSame(name, f, g, i);
      }
    }
  }

  // ----- what happens otherwise -----

  lemma Snoc(ins: seq<Ins>, x: Ins, l: string)
    ensures Plains(ins + [x]) == Plains(ins) + if x.Plain? then [x] else []
    ensures Position(ins + [x], l) == if Position(ins, l).Some? then Position(ins, l)
                                      else if x == Label(l) then Some(|Plains(ins)|) else None
  {
    assert (ins + [x])[..|ins|] == ins;
  }

  /** Somewhere in the list exactly `n` instructions have gone by. */
  lemma {:induction false} PlaceFor(ins: seq<Ins>, n: nat) returns (i: nat)
    requires n <= |Plains(ins)|
    ensures i <= |ins| && |Plains(ins[..i])| == n
    decreases |ins|
  {
    if n == |Plains(ins)| {
      i := |ins|;
      assert ins[..i] == ins;
    } else {
      i := PlaceFor(ins[..|ins| - 1], n);
      assert ins[..|ins| - 1][..i] == ins[..i];
    }
  }

  /** A new label moves nothing and stands where it was put. */
  lemma {:induction false} NewLabel(a: seq<Ins>, b: seq<Ins>, l: string, m: string)
    requires Label(l) !in a + b
    ensures Plains(a + [Label(l)] + b) == Plains(a + b)
    ensures Position(a + [Label(l)] + b, m) == if m == l then Some(|Plains(a)|) else Position(a + b, m)
    decreases |b|
  {
    if b == [] {
      assert a + b == a && a + [Label(l)] + b == a + [Label(l)];
      Snoc(a, Label(l), m);
    } else {
      var init, x := b[..|b| - 1], b[|b| - 1];
      assert a + b == a + init + [x] && a + [Label(l)] + b == a + [Label(l)] + init + [x];
      assert forall y :: y in a + init ==> y in a + b;
      NewLabel(a, init, l, m);
      Snoc(a + init, x, m);
      Snoc(a + [Label(l)] + init, x, m);
      assert (a + b)[|a + b| - 1] == x;
    }
  }

  /** The same function with one more label, at the index it is written like. */
  lemma Defining(name: Namer, f: Function, n: nat) returns (g: Function)
    requires Position(f.ins, name(n)).None? && n <= |Plains(f.ins)|
    ensures Plains(g.ins) == Plains(f.ins) && g.catches == f.catches
    ensures forall m :: Position(g.ins, m) == if m == name(n) then Some(n) else Position(f.ins, m)
  {
    var i := PlaceFor(f.ins, n);
    var l := name(n);
    var a, b := f.ins[..i], f.ins[i..];
    assert f.ins == a + b;
    g := Function(a + [Label(l)] + b, f.catches);
    NotIn(f.ins, l);
    forall m
      ensures Position(g.ins, m) == if m == l then Some(n) else Position(f.ins, m)
    {
      NewLabel(a, b, l, m);
    }
    NewLabel(a, b, l, l);
  }

  /** In `g` the labels written like the first `k` indices are defined too, each at its index. */
  ghost predicate Filled(name: Namer, f: Function, g: Function, k: nat) {
    && Plains(g.ins) == Plains(f.ins) && g.catches == f.catches
    && (forall m :: Position(f.ins, m).Some? ==> Position(g.ins, m) == Position(f.ins, m))
    && (forall m :: Position(f.ins, m).None? && Position(g.ins, m).Some? ==> m == name(Position(g.ins, m).value))
    && forall j: nat :: j < k ==> Position(g.ins, name(j)).Some?
  }

  lemma {:induction false} Filling(name: Namer, f: Function, k: nat) returns (g: Function)
    requires NamesOk(name) && k <= |Plains(f.ins)| + 1
    ensures Filled(name, f, g, k)
    decreases k
  {
    if k == 0 {
      g := f;
    } else {
      g := Filling(name, f, k - 1);
      if Position(g.ins, name(k - 1)).None? { g := Defining(name, g, k - 1); }
    }
  }

  lemma FilledSameDump(name: Namer, f: Function, g: Function, k: nat)
    requires Filled(name, f, g, k)
    ensures SameDump(name, f, g)
  {
    forall m
      ensures Mapped(name, g.ins, m) == Mapped(name, f.ins, m)
    {
    }
    assert DumpIns(name, f) == DumpIns(name, g);
    assert DumpCatches(name, f) == DumpCatches(name, g);
  }

  lemma FilledIsClear(name: Namer, f: Function, g: Function)
    requires Filled(name, f, g, |Plains(f.ins)| + 1)
    ensures Clear(name, g)
  {
  }

  /**
   * A label that leads nowhere but is written like an index makes the dump that of another function, one in which
   * no label does that.
   */
  lemma UnresolvedLooksResolved(name: Namer, f: Function, l: string, n: nat) returns (g: Function)
    requires NamesOk(name) && IsNamed(f, l) && LooksResolved(name, f, l, n)
    ensures Clear(name, g) && SameDump(name, f, g) && !SameCode(f, g)
  {
    g := Filling(name, f, |Plains(f.ins)| + 1);
    FilledIsClear(name, f, g);
    FilledSameDump(name, f, g, |Plains(f.ins)| + 1);
    assert Position(g.ins, name(n)).Some?;
    OtherTarget(f, g, l);
  }

  /** The dump stands for one function exactly when the function has no such label. */
  lemma CanonicalExactly(name: Namer, f: Function)
    requires NamesOk(name)
    ensures (forall g :: Clear(name, g) && SameDump(name, f, g) ==> SameCode(f, g)) <==> Clear(name, f)
  {
    if Clear(name, f) {
      forall g | Clear(name, g) && SameDump(name, f, g)
        ensures SameCode(f, g)
      {
        DumpIsCanonical(name, f, g);
      }
    } else {
      var l, n: nat :| IsNamed(f, l) && LooksResolved(name, f, l, n);
      var g := UnresolvedLooksResolved(name, f, l, n);
    }
  }

  lemma NotIn(ins: seq<Ins>, l: string)
    requires Position(ins, l).None?
    ensures Label(l) !in ins
  {
  }

  lemma OtherTarget(f: Function, g: Function, l: string)
    requires IsNamed(f, l) && Position(f.ins, l).None? && Position(g.ins, l).Some?
    requires Plains(g.ins) == Plains(f.ins) && g.catches == f.catches
    ensures !SameCode(f, g)
  {
    if InJump(f, l) {
      var i :| 0 <= i < |Plains(f.ins)| && Plains(f.ins)[i].jump == Some(l);
      assert !SameIns(f, g, Plains(f.ins)[i], Plains(g.ins)[i]);
    } else {
      var i :| 0 <= i < |f.catches| && CatchNames(f.catches[i], l);
      assert !SameCatch(f, g, f.catches[i], g.catches[i]);
    }
  }

  /** A variable's new interval holds exactly the instructions of its old one. */
  lemma {:induction false} IntervalKept(ins: seq<Ins>, start: int, end: int)
    requires 0 <= start <= end <= |ins|
    ensures Count(ins, end) - Count(ins, start) == |Plains(ins[start..end])|
    decreases end
  {
    if start < end {
      IntervalKept(ins, start, end - 1);
      assert ins[start..end][..end - 1 - start] == ins[start..end - 1];
    } else {
      assert ins[start..end] == [];
    }
  }
}
