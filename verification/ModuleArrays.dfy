/** Module records flattened into one literal array, and read back. */
module ModuleArrays {
  import opened Options

  datatype Lit = Int(n: int) | Str(s: string) | Request(idx: int)

  datatype Entry =
    | RegularImport(localName: string, importName: string, request: int)
    | NamespaceImport(localName: string, request: int)
    | LocalExport(localName: string, exportName: string)
    | IndirectExport(exportName: string, importName: string, request: int)
    | StarExport(request: int)

  const KINDS: int := 5
  const UINT16: int := 0x1_0000

  function Kind(e: Entry): int {
    match e
    case RegularImport(_, _, _) => 0
    case NamespaceImport(_, _) => 1
    case LocalExport(_, _) => 2
    case IndirectExport(_, _, _) => 3
    case StarExport(_) => 4
  }

  /** Literals per entry of each kind. */
  function LiteralNum(kind: int): int {
    if kind == 0 || kind == 3 then 3 else if kind == 4 then 1 else 2
  }

  /** Request indices are stored in 16 bits. */
  function Lits(e: Entry): (ls: seq<Lit>)
    ensures |ls| == LiteralNum(Kind(e))
  {
    match e
    case RegularImport(l, i, r) => [Str(l), Str(i), Request(r % UINT16)]
    case NamespaceImport(l, r) => [Str(l), Request(r % UINT16)]
    case LocalExport(l, x) => [Str(l), Str(x)]
    case IndirectExport(x, i, r) => [Str(x), Str(i), Request(r % UINT16)]
    case StarExport(r) => [Request(r % UINT16)]
  }

  function AllLits(es: seq<Entry>): seq<Lit>
    decreases |es|
  {
    if es == [] then [] else AllLits(es[..|es| - 1]) + Lits(es[|es| - 1])
  }

  function Group(es: seq<Entry>, kind: int): seq<Entry>
    decreases |es|
  {
    if es == [] then []
    else Group(es[..|es| - 1], kind) + if Kind(es[|es| - 1]) == kind then [es[|es| - 1]] else []
  }

  /** The order in which the records of a module are enumerated. */
  predicate InTagOrder(es: seq<Entry>) {
    forall i, j :: 0 <= i <= j < |es| ==> Kind(es[i]) <= Kind(es[j])
  }

  function Strs(ss: seq<string>): (ls: seq<Lit>)
    ensures |ls| == |ss| && forall i :: 0 <= i < |ss| ==> ls[i] == Str(ss[i])
  {
    seq(|ss|, i requires 0 <= i < |ss| => Str(ss[i]))
  }

  // ----- the layout that is wanted: each count directly before its group -----

  /** The literals of one group and the number of its entries. */
  datatype Chunk = Chunk(count: int, lits: seq<Lit>)

  function Chunks(es: seq<Entry>): (cs: seq<Chunk>)
    ensures |cs| == KINDS && forall k :: 0 <= k < KINDS ==> cs[k] == Chunk(|Group(es, k)|, AllLits(Group(es, k)))
  {
    seq(KINDS, k requires 0 <= k < KINDS => Chunk(|Group(es, k)|, AllLits(Group(es, k))))
  }

  function CodeFrom(cs: seq<Chunk>, k: nat): seq<Lit>
    requires k <= |cs|
    decreases |cs| - k
  {
    if k == |cs| then [] else [Int(cs[k].count)] + cs[k].lits + CodeFrom(cs, k + 1)
  }

  function CodeUpTo(cs: seq<Chunk>, k: nat): seq<Lit>
    requires k <= |cs|
    decreases k
  {
    if k == 0 then [] else CodeUpTo(cs, k - 1) + ([Int(cs[k - 1].count)] + cs[k - 1].lits)
  }

  /** The groups from `k` on without their counts. */
  function LitsFrom(cs: seq<Chunk>, k: nat): seq<Lit>
    requires k <= |cs|
    decreases |cs| - k
  {
    if k == |cs| then [] else cs[k].lits + LitsFrom(cs, k + 1)
  }

  function Head(requests: seq<string>): seq<Lit> {
    [Int(|requests|)] + Strs(requests)
  }

  function Flat(requests: seq<string>, es: seq<Entry>): seq<Lit> {
    Head(requests) + CodeFrom(Chunks(es), 0)
  }

  function Split(es: seq<Entry>, kind: int): seq<Entry>
    requires 0 <= kind <= KINDS
    decreases KINDS - kind
  {
    if kind == KINDS then [] else Group(es, kind) + Split(es, kind + 1)
  }

  // ----- lemmas -----

  lemma AllLitsStep(init: seq<Entry>, e: Entry)
    ensures AllLits(init + [e]) == AllLits(init) + Lits(e)
  {
    assert (init + [e])[..|init|] == init;
  }

  lemma JoinLits(x: seq<Lit>, y: seq<Lit>, z: seq<Lit>)
    ensures x + (y + z) == x + y + z
  {
  }

  lemma {:induction false} AllLitsAppend(a: seq<Entry>, b: seq<Entry>)
    ensures AllLits(a + b) == AllLits(a) + AllLits(b)
    decreases |b|
  {
    if b == [] {
      assert a + b == a;
    } else {
      var init, e := b[..|b| - 1], b[|b| - 1];
      assert b == init + [e] && a + b == (a + init) + [e];
      AllLitsAppend(a, init);
      AllLitsStep(init, e);
      AllLitsStep(a + init, e);
      JoinLits(AllLits(a), AllLits(init), Lits(e));
    }
  }

  lemma {:induction false} AllLitsLength(es: seq<Entry>, kind: int)
    requires forall i :: 0 <= i < |es| ==> Kind(es[i]) == kind
    ensures |AllLits(es)| == LiteralNum(kind) * |es|
    decreases |es|
  {
    if es != [] { AllLitsLength(es[..|es| - 1], kind); }
  }

  lemma {:induction false} SplitIsEmpty(es: seq<Entry>, from: int)
    requires 0 <= from <= KINDS && forall i :: 0 <= i < |es| ==> Kind(es[i]) < from
    ensures Split(es, from) == []
    decreases KINDS - from
  {
    if from < KINDS {
      NoneOfKind(es, from);
      SplitIsEmpty(es, from + 1);
    }
  }

  lemma {:induction false} NoneOfKind(es: seq<Entry>, kind: int)
    requires forall i :: 0 <= i < |es| ==> Kind(es[i]) != kind
    ensures Group(es, kind) == []
    decreases |es|
  {
    if es != [] { NoneOfKind(es[..|es| - 1], kind); }
  }

  lemma GroupStep(es: seq<Entry>, e: Entry, kind: int)
    ensures Group(es + [e], kind) == Group(es, kind) + if Kind(e) == kind then [e] else []
  {
    assert (es + [e])[..|es|] == es;
  }

  lemma {:induction false} GroupIsOfKind(es: seq<Entry>, kind: int)
    ensures forall i :: 0 <= i < |Group(es, kind)| ==> Kind(Group(es, kind)[i]) == kind
    decreases |es|
  {
    if es != [] { GroupIsOfKind(es[..|es| - 1], kind); }
  }

  lemma Joined(g: seq<Entry>, t: seq<Entry>, e: Entry)
    ensures g + (t + [e]) == g + t + [e] && g + [e] + [] == g + [] + [e] && t + [] == t
  {
  }

  lemma SplitUnfold(es: seq<Entry>, kind: int)
    requires 0 <= kind < KINDS
    ensures Split(es, kind) == Group(es, kind) + Split(es, kind + 1)
  {
  }

  lemma SplitJoin(es: seq<Entry>, e: Entry, kind: int)
    requires 0 <= kind < KINDS && (kind == Kind(e) ==> Split(es, kind + 1) == [])
    requires Split(es + [e], kind + 1) == Split(es, kind + 1) + if kind + 1 <= Kind(e) then [e] else []
    ensures Split(es + [e], kind) == Split(es, kind) + if kind <= Kind(e) then [e] else []
  {
    var g, t := Group(es, kind), Split(es, kind + 1);
    SplitUnfold(es, kind);
    SplitUnfold(es + [e], kind);
    GroupStep(es, e, kind);
    Joined(g, t, e);
  }

  /** Appending a record of the last kind so far appends it to the split. */
  lemma {:induction false} SplitStep(es: seq<Entry>, e: Entry, kind: int)
    requires 0 <= kind <= KINDS && forall i :: 0 <= i < |es| ==> Kind(es[i]) <= Kind(e)
    ensures Split(es + [e], kind) == Split(es, kind) + if kind <= Kind(e) then [e] else []
    decreases KINDS - kind
  {
    if kind < KINDS {
      SplitStep(es, e, kind + 1);
      if kind == Kind(e) { SplitIsEmpty(es, kind + 1); }
      SplitJoin(es, e, kind);
    }
  }

  lemma SplitLast(es: seq<Entry>, init: seq<Entry>, last: Entry)
    requires InTagOrder(es) && es == init + [last] && Split(init, 0) == init
    ensures Split(es, 0) == es
  {
    forall i | 0 <= i < |init|
      ensures Kind(init[i]) <= Kind(last)
    {
      assert es[i] == init[i] && es[|init|] == last;
    }
    SplitStep(init, last, 0);
  }

  /** Records in tag order are their groups, one behind the other. */
  lemma {:induction false} SplitIsAll(es: seq<Entry>)
    requires InTagOrder(es)
    ensures Split(es, 0) == es
    decreases |es|
  {
    if es == [] {
      SplitIsEmpty(es, 0);
    } else {
      SplitIsAll(es[..|es| - 1]);
      SplitLast(es, es[..|es| - 1], es[|es| - 1]);
    }
  }

  lemma {:induction false} SplitLits(es: seq<Entry>, kind: int)
    requires 0 <= kind <= KINDS
    ensures AllLits(Split(es, kind)) == LitsFrom(Chunks(es), kind)
    decreases KINDS - kind
  {
    if kind < KINDS {
      SplitLits(es, kind + 1);
      AllLitsAppend(Group(es, kind), Split(es, kind + 1));
    }
  }

  lemma {:induction false} CodeParts(cs: seq<Chunk>, k: nat)
    requires k <= |cs|
    ensures CodeUpTo(cs, k) + CodeFrom(cs, k) == CodeFrom(cs, 0)
    decreases k
  {
    if k > 0 {
      CodeParts(cs, k - 1);
      var a, b, c := CodeUpTo(cs, k - 1), [Int(cs[k - 1].count)] + cs[k - 1].lits, CodeFrom(cs, k);
      assert a + (b + c) == a + b + c;
    }
  }

  // ----- the processor -----

  function Inserted(v: seq<Lit>, i: int, x: Lit): seq<Lit>
    requires 0 <= i <= |v|
  {
    v[..i] + [x] + v[i..]
  }

  lemma InsertCount(cs: seq<Chunk>, head: seq<Lit>, k: nat)
    requires k < |cs|
    ensures var done := head + CodeUpTo(cs, k);
            && Inserted(done + LitsFrom(cs, k), |done|, Int(cs[k].count))
              == head + CodeUpTo(cs, k + 1) + LitsFrom(cs, k + 1)
            && |head + CodeUpTo(cs, k + 1)| == |done| + 1 + |cs[k].lits|
  {
    var done, x, lits, rest := head + CodeUpTo(cs, k), Int(cs[k].count), cs[k].lits, LitsFrom(cs, k + 1);
    var v := done + (lits + rest);
    assert v[..|done|] == done && v[|done|..] == lits + rest;
    assert done + [x] + (lits + rest) == done + ([x] + lits) + rest;
    assert head + (CodeUpTo(cs, k) + ([x] + lits)) == done + ([x] + lits);
  }

  predicate CountsFit(num: seq<int>, requests: seq<string>, cs: seq<Chunk>) {
    && |cs| == KINDS && |num| == KINDS + 1 && num[0] == |requests|
    && forall k :: 0 <= k < KINDS ==> num[k + 1] == cs[k].count && |cs[k].lits| == LiteralNum(k) * cs[k].count
  }

  /** The first `k` counts are in front of their groups, and the next one goes to `idx`. */
  predicate FilledTo(r: seq<Lit>, idx: int, cs: seq<Chunk>, head: seq<Lit>, k: nat) {
    k <= |cs| && r == head + CodeUpTo(cs, k) + LitsFrom(cs, k) && idx == |head + CodeUpTo(cs, k)|
  }

  lemma FilledStep(r: seq<Lit>, idx: int, cs: seq<Chunk>, head: seq<Lit>, k: nat, size: int)
    requires FilledTo(r, idx, cs, head, k) && k < |cs| && size == |cs[k].lits|
    ensures 0 <= idx <= |r| && FilledTo(r[..idx] + [Int(cs[k].count)] + r[idx..], idx + 1 + size, cs, head, k + 1)
  {
    InsertCount(cs, head, k);
  }

  /** Puts the five counts into the list, at positions that move on behind what was inserted. */
  method FillEntrySize(vec: seq<Lit>, num: seq<int>, ghost requests: seq<string>, ghost cs: seq<Chunk>)
    returns (r: seq<Lit>)
    requires CountsFit(num, requests, cs) && vec == Head(requests) + LitsFrom(cs, 0)
    ensures r == Head(requests) + CodeFrom(cs, 0)
  {
    ghost var head := Head(requests);
    r := vec;
    var idx := num[0] + 1;
    assert head + CodeUpTo(cs, 0) == head;
    for index := 1 to KINDS + 1
      invariant FilledTo(r, idx, cs, head, index - 1)
    {
      FilledStep(r, idx, cs, head, index - 1, LiteralNum(index - 1) * num[index]);
      r := r[..idx] + [Int(num[index])] + r[idx..];
      idx := idx + 1 + LiteralNum(index - 1) * num[index];
    }
    AllInserted(cs, head);
  }

  lemma AllInserted(cs: seq<Chunk>, head: seq<Lit>)
    ensures head + CodeUpTo(cs, |cs|) + LitsFrom(cs, |cs|) == head + CodeFrom(cs, 0)
  {
    CodeParts(cs, |cs|);
    assert CodeFrom(cs, |cs|) == [] && LitsFrom(cs, |cs|) == [];
    assert CodeUpTo(cs, |cs|) + [] == CodeUpTo(cs, |cs|);
  }

  predicate CountsAre(num: seq<int>, es: seq<Entry>) {
    |num| == KINDS + 1 && forall k :: 0 <= k < KINDS ==> num[k + 1] == |Group(es, k)|
  }

  lemma ChunksFit(num: seq<int>, requests: seq<string>, es: seq<Entry>)
    requires CountsAre(num, es) && num[0] == |requests|
    ensures CountsFit(num, requests, Chunks(es))
  {
    forall k | 0 <= k < KINDS
      ensures |Chunks(es)[k].lits| == LiteralNum(k) * Chunks(es)[k].count
    {
      GroupIsOfKind(es, k);
      AllLitsLength(Group(es, k), k);
    }
  }

  lemma CountsStep(num: seq<int>, es: seq<Entry>, i: nat)
    requires i < |es| && CountsAre(num, es[..i])
    ensures var k := Kind(es[i]); CountsAre(num[k + 1 := num[k + 1] + 1], es[..i + 1])
  {
    assert es[..i + 1] == es[..i] + [es[i]];
    var k := Kind(es[i]);
    var more, upTo := num[k + 1 := num[k + 1] + 1], es[..i + 1];
    forall j | 0 <= j < KINDS
      ensures more[j + 1] == |Group(upTo, j)|
    {
      GroupStep(es[..i], es[i], j);
      assert num[j + 1] == |Group(es[..i], j)|;
    }
  }

  /** Flattening keeps the requests and puts every group behind its count. */
  method FillProgramData(requests: seq<string>, es: seq<Entry>) returns (vec: seq<Lit>)
    requires InTagOrder(es)
    ensures vec == Flat(requests, es)
  {
    vec := [Int(|requests|)] + Strs(requests);
    var num := [|requests|, 0, 0, 0, 0, 0];
    for i := 0 to |es|
      invariant vec == Head(requests) + AllLits(es[..i])
      invariant CountsAre(num, es[..i]) && num[0] == |requests|
    {
      CountsStep(num, es, i);
      assert es[..i + 1][..i] == es[..i];
      vec := vec + Lits(es[i]);
      var k := Kind(es[i]);
      num := num[k + 1 := num[k + 1] + 1];
    }
    assert es[..|es|] == es;
    SplitIsAll(es);
    SplitLits(es, 0);
    ChunksFit(num, requests, es);
    vec := FillEntrySize(vec, num, requests, Chunks(es));
  }

  // ----- reading it back -----

  datatype Parsed<T> = Fail | Ok(value: T, rest: seq<Lit>)

  datatype Module = Module(requests: seq<string>, entries: seq<Entry>)

  function ReadStrs(v: seq<Lit>, n: int): Parsed<seq<string>>
    decreases n
  {
    if n <= 0 then Ok([], v)
    else if v == [] || !v[0].Str? then Fail
    else
      var more := ReadStrs(v[1..], n - 1);
      if more.Fail? then Fail else Ok([v[0].s] + more.value, more.rest)
  }

  function ReadEntry(v: seq<Lit>, kind: int): Parsed<Entry> {
    if |v| < LiteralNum(kind) then Fail
    else
      var rest := v[LiteralNum(kind)..];
      if kind == 0 && v[0].Str? && v[1].Str? && v[2].Request? then Ok(RegularImport(v[0].s, v[1].s, v[2].idx), rest)
      else if kind == 1 && v[0].Str? && v[1].Request? then Ok(NamespaceImport(v[0].s, v[1].idx), rest)
      else if kind == 2 && v[0].Str? && v[1].Str? then Ok(LocalExport(v[0].s, v[1].s), rest)
      else if kind == 3 && v[0].Str? && v[1].Str? && v[2].Request?
        then Ok(IndirectExport(v[0].s, v[1].s, v[2].idx), rest)
      else if kind == 4 && v[0].Request? then Ok(StarExport(v[0].idx), rest)
      else Fail
  }

  function ReadEntries(v: seq<Lit>, kind: int, n: int): Parsed<seq<Entry>>
    decreases n
  {
    if n <= 0 then Ok([], v)
    else
      var e := ReadEntry(v, kind);
      if e.Fail? then Fail
      else
        var more := ReadEntries(e.rest, kind, n - 1);
        if more.Fail? then Fail else Ok([e.value] + more.value, more.rest)
  }

  function ReadGroups(v: seq<Lit>, kind: int): Parsed<seq<Entry>>
    requires 0 <= kind <= KINDS
    decreases KINDS - kind
  {
    if kind == KINDS then Ok([], v)
    else if v == [] || !v[0].Int? then Fail
    else
      var es := ReadEntries(v[1..], kind, v[0].n);
      if es.Fail? then Fail
      else
        var more := ReadGroups(es.rest, kind + 1);
        if more.Fail? then Fail else Ok(es.value + more.value, more.rest)
  }

  function Decode(v: seq<Lit>): Option<Module> {
    if v == [] || !v[0].Int? then None
    else
      var requests := ReadStrs(v[1..], v[0].n);
      if requests.Fail? then None
      else
        var es := ReadGroups(requests.rest, 0);
        if es.Fail? || es.rest != [] then None else Some(Module(requests.value, es.value))
  }

  /** An entry as 16-bit request indices leave it. */
  function Narrow(e: Entry): Entry {
    if e.LocalExport? then e else e.(request := e.request % UINT16)
  }

  function NarrowAll(es: seq<Entry>): (ns: seq<Entry>)
    ensures |ns| == |es| && forall i :: 0 <= i < |es| ==> ns[i] == Narrow(es[i])
  {
    seq(|es|, i requires 0 <= i < |es| => Narrow(es[i]))
  }

  lemma ReadOne(e: Entry, tail: seq<Lit>)
    ensures ReadEntry(Lits(e) + tail, Kind(e)) == Ok(Narrow(e), tail)
  {
    var v := Lits(e) + tail;
    assert v[LiteralNum(Kind(e))..] == tail;
  }

  lemma {:induction false} ReadStrings(ss: seq<string>, tail: seq<Lit>)
    ensures ReadStrs(Strs(ss) + tail, |ss|) == Ok(ss, tail)
    decreases |ss|
  {
    if ss == [] {
      assert Strs(ss) + tail == tail;
    } else {
      ReadStrings(ss[1..], tail);
      assert (Strs(ss) + tail)[1..] == Strs(ss[1..]) + tail;
      assert [ss[0]] + ss[1..] == ss;
    }
  }

  lemma {:induction false} AllLitsFront(es: seq<Entry>)
    requires es != []
    ensures AllLits(es) == Lits(es[0]) + AllLits(es[1..])
  {
    assert es == [es[0]] + es[1..];
    AllLitsAppend([es[0]], es[1..]);
    assert [es[0]][..0] == [];
    assert AllLits([es[0]]) == Lits(es[0]);
  }

  lemma {:induction false} ReadGroup(es: seq<Entry>, kind: int, tail: seq<Lit>)
    requires forall i :: 0 <= i < |es| ==> Kind(es[i]) == kind
    ensures ReadEntries(AllLits(es) + tail, kind, |es|) == Ok(NarrowAll(es), tail)
    decreases |es|
  {
    if es == [] {
      assert AllLits(es) + tail == tail;
    } else {
      AllLitsFront(es);
      var t := AllLits(es[1..]) + tail;
      assert AllLits(es) + tail == Lits(es[0]) + t;
      ReadOne(es[0], t);
      ReadGroup(es[1..], kind, tail);
      assert [Narrow(es[0])] + NarrowAll(es[1..]) == NarrowAll(es);
    }
  }

  /** One group: its count, its entries, and what follows. */
  lemma ReadOneGroup(g: seq<Entry>, kind: int, tail: seq<Lit>)
    requires 0 <= kind < KINDS && forall i :: 0 <= i < |g| ==> Kind(g[i]) == kind
    ensures var more := ReadGroups(tail, kind + 1);
            ReadGroups([Int(|g|)] + AllLits(g) + tail, kind)
            == if more.Fail? then Fail else Ok(NarrowAll(g) + more.value, more.rest)
  {
    var v := [Int(|g|)] + AllLits(g) + tail;
    assert v[1..] == AllLits(g) + tail;
    ReadGroup(g, kind, tail);
  }

  lemma NarrowJoined(a: seq<Entry>, b: seq<Entry>)
    ensures NarrowAll(a) + NarrowAll(b) == NarrowAll(a + b)
  {
  }

  lemma {:induction false} ReadCode(es: seq<Entry>, kind: int)
    requires 0 <= kind <= KINDS
    ensures ReadGroups(CodeFrom(Chunks(es), kind), kind) == Ok(NarrowAll(Split(es, kind)), [])
    decreases KINDS - kind
  {
    if kind < KINDS {
      ReadCode(es, kind + 1);
      GroupIsOfKind(es, kind);
      ReadOneGroup(Group(es, kind), kind, CodeFrom(Chunks(es), kind + 1));
      NarrowJoined(Group(es, kind), Split(es, kind + 1));
    }
  }

  lemma DecodeFlat(requests: seq<string>, es: seq<Entry>, tail: seq<Lit>)
    requires ReadGroups(tail, 0) == Ok(NarrowAll(es), [])
    ensures Decode(Head(requests) + tail) == Some(Module(requests, NarrowAll(es)))
  {
    var v := Head(requests) + tail;
    assert v[1..] == Strs(requests) + tail;
    ReadStrings(requests, tail);
  }

  predicate RequestsFit(es: seq<Entry>) {
    forall i :: 0 <= i < |es| && !es[i].LocalExport? ==> 0 <= es[i].request < UINT16
  }

  lemma NarrowIsSame(es: seq<Entry>)
    ensures NarrowAll(es) == es <==> RequestsFit(es)
  {
    forall i | 0 <= i < |es| && !es[i].LocalExport?
      ensures Narrow(es[i]) == es[i] <==> 0 <= es[i].request < UINT16
    {
    }
    if NarrowAll(es) == es {
      forall i | 0 <= i < |es| && !es[i].LocalExport?
        ensures 0 <= es[i].request < UINT16
      {
        assert NarrowAll(es)[i] == Narrow(es[i]);
      }
    }
  }

  /** The module comes back as it was if and only if its request indices fit 16 bits. */
  lemma FlatIsInvertible(requests: seq<string>, es: seq<Entry>)
    requires InTagOrder(es)
    ensures Decode(Flat(requests, es)) == Some(Module(requests, NarrowAll(es)))
    ensures Decode(Flat(requests, es)) == Some(Module(requests, es)) <==> RequestsFit(es)
  {
    ReadCode(es, 0);
    SplitIsAll(es);
    DecodeFlat(requests, es, CodeFrom(Chunks(es), 0));
    NarrowIsSame(es);
  }
}
