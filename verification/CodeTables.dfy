/** Code with pc-based jumps and try tables, and the same code with labels. */
module CodeTables {
  import opened Options

  /** An instruction as stored: its size and, for a jump, the distance to its target. */
  datatype Raw = Raw(size: int, jump: Option<int>)

  datatype Catch = Catch(record: int, handler: int, size: int)

  datatype Try = Try(start: int, length: int, catches: seq<Catch>)

  /** An instruction in a function's list; labels are named by the index of the instruction they precede. */
  datatype Item = LabelIns(l: int) | Plain(size: int, target: Option<int>)

  datatype CatchBlock = CatchBlock(tryBegin: int, tryEnd: int, catchBegin: int, catchEnd: int, record: int)

  const UINT32: int := 0x1_0000_0000

  // ----- stored code -----

  function Pc(raw: seq<Raw>, i: int): int
    requires 0 <= i <= |raw|
    decreases i
  {
    if i == 0 then 0 else Pc(raw, i - 1) + raw[i - 1].size
  }

  predicate RawOk(raw: seq<Raw>) {
    forall i :: 0 <= i < |raw| ==> raw[i].size > 0
  }

  lemma {:induction false} PcGrows(raw: seq<Raw>, i: int, j: int)
    requires RawOk(raw) && 0 <= i < j <= |raw|
    ensures Pc(raw, i) < Pc(raw, j)
    decreases j
  {
    if i < j - 1 { PcGrows(raw, i, j - 1); }
  }

  lemma PcInjective(raw: seq<Raw>, i: int, j: int)
    requires RawOk(raw) && 0 <= i <= |raw| && 0 <= j <= |raw|
    ensures Pc(raw, i) == Pc(raw, j) <==> i == j
  {
    if i < j { PcGrows(raw, i, j); }
    if j < i { PcGrows(raw, j, i); }
  }

  predicate IsIdx(raw: seq<Raw>, pc: int, i: int) {
    0 <= i <= |raw| && Pc(raw, i) == pc
  }

  /** `pc` is the start of an instruction or the end of the code. */
  ghost predicate Boundary(raw: seq<Raw>, pc: int) {
    exists i :: IsIdx(raw, pc, i)
  }

  ghost function Idx(raw: seq<Raw>, pc: int): (i: int)
    requires Boundary(raw, pc)
    ensures IsIdx(raw, pc, i)
  {
    var i :| IsIdx(raw, pc, i);
    i
  }

  ghost predicate CatchOk(raw: seq<Raw>, c: Catch) {
    Boundary(raw, c.handler) && Boundary(raw, c.handler + c.size)
  }

  ghost predicate TryOk(raw: seq<Raw>, t: Try) {
    && Boundary(raw, t.start) && Boundary(raw, t.start + t.length)
    && forall k :: 0 <= k < |t.catches| ==> CatchOk(raw, t.catches[k])
  }

  ghost predicate JumpOk(raw: seq<Raw>, i: int)
    requires 0 <= i < |raw|
  {
    raw[i].jump.Some? ==> Boundary(raw, Pc(raw, i) + raw[i].jump.value)
  }

  /** Every pc in the code and its tables is on an instruction boundary or at the end of the code. */
  ghost predicate InputOk(raw: seq<Raw>, tries: seq<Try>) {
    && RawOk(raw) && Pc(raw, |raw|) < UINT32
    && (forall i :: 0 <= i < |raw| ==> JumpOk(raw, i))
    && (forall k :: 0 <= k < |tries| ==> TryOk(raw, tries[k]))
  }

  // ----- the same with labels -----

  ghost function TargetOf(raw: seq<Raw>, i: int): Option<int>
    requires 0 <= i < |raw| && JumpOk(raw, i)
  {
    if raw[i].jump.Some? then Some(Idx(raw, Pc(raw, i) + raw[i].jump.value)) else None
  }

  ghost function BlockOf(raw: seq<Raw>, t: Try, c: Catch): CatchBlock
    requires TryOk(raw, t) && CatchOk(raw, c)
  {
    CatchBlock(Idx(raw, t.start), Idx(raw, t.start + t.length), Idx(raw, c.handler), Idx(raw, c.handler + c.size),
      c.record)
  }

  /** The first `n` catches of a try block. */
  ghost function BlocksOf(raw: seq<Raw>, t: Try, n: int): (cbs: seq<CatchBlock>)
    requires TryOk(raw, t) && 0 <= n <= |t.catches|
    ensures |cbs| == n && forall k :: 0 <= k < n ==> cbs[k] == BlockOf(raw, t, t.catches[k])
  {
    seq(n, k requires 0 <= k < n => BlockOf(raw, t, t.catches[k]))
  }

  ghost function AllBlocks(raw: seq<Raw>, tries: seq<Try>, m: int): seq<CatchBlock>
    requires 0 <= m <= |tries| && forall k :: 0 <= k < |tries| ==> TryOk(raw, tries[k])
    decreases m
  {
    if m == 0 then [] else AllBlocks(raw, tries, m - 1) + BlocksOf(raw, tries[m - 1], |tries[m - 1].catches|)
  }

  function Here(labels: set<int>, i: int): seq<Item> {
    if i in labels then [LabelIns(i)] else []
  }

  /** The first `n` instructions with the labels before them. */
  function Labelled(ins: seq<Item>, labels: set<int>, n: int): seq<Item>
    requires 0 <= n <= |ins|
    decreases n
  {
    if n == 0 then [] else Labelled(ins, labels, n - 1) + Here(labels, n - 1) + [ins[n - 1]]
  }

  function AllLabelled(ins: seq<Item>, labels: set<int>): seq<Item> {
    Labelled(ins, labels, |ins|) + Here(labels, |ins|)
  }

  ghost predicate TargetsAre(raw: seq<Raw>, ins: seq<Item>) {
    && |ins| == |raw| && (forall i :: 0 <= i < |raw| ==> JumpOk(raw, i))
    && forall i :: 0 <= i < |raw| ==> ins[i] == Plain(raw[i].size, TargetOf(raw, i))
  }

  // ----- measuring a list with labels -----

  function SizeOf(item: Item): int {
    if item.Plain? then item.size else 0
  }

  /** The pc in front of item `n`. */
  function ItemPc(items: seq<Item>, n: int): int
    requires 0 <= n <= |items|
    decreases n
  {
    if n == 0 then 0 else ItemPc(items, n - 1) + SizeOf(items[n - 1])
  }

  /** The pc of the last occurrence of a label among the first `n` items; 0 when there is none. */
  function LabelPc(items: seq<Item>, l: int, n: int): int
    requires 0 <= n <= |items|
    decreases n
  {
    if n == 0 then 0
    else if items[n - 1] == LabelIns(l) then ItemPc(items, n - 1)
    else LabelPc(items, l, n - 1)
  }

  /** Where a label stands last, with nothing in front of it counted but instructions. */
  lemma {:induction false} LabelPcIs(items: seq<Item>, l: int, n: int)
    requires 0 <= n <= |items|
    ensures (forall i :: 0 <= i < n ==> items[i] != LabelIns(l)) ==> LabelPc(items, l, n) == 0
    ensures forall i :: 0 <= i < n && items[i] == LabelIns(l) && (forall j :: i < j < n ==> items[j] != LabelIns(l)) ==>
              LabelPc(items, l, n) == ItemPc(items, i)
    decreases n
  {
    if n > 0 { LabelPcIs(items, l, n - 1); }
  }

  lemma {:induction false} PrefixPc(a: seq<Item>, b: seq<Item>, n: int)
    requires 0 <= n <= |a|
    ensures ItemPc(a + b, n) == ItemPc(a, n)
    decreases n
  {
    if n > 0 { PrefixPc(a, b, n - 1); }
  }

  lemma {:induction false} PrefixLabelPc(a: seq<Item>, b: seq<Item>, l: int, n: int)
    requires 0 <= n <= |a|
    ensures LabelPc(a + b, l, n) == LabelPc(a, l, n)
    decreases n
  {
    if n > 0 {
      PrefixLabelPc(a, b, l, n - 1);
      PrefixPc(a, b, n - 1);
    }
  }

  lemma ExtendPc(a: seq<Item>, x: Item)
    ensures ItemPc(a + [x], |a| + 1) == ItemPc(a, |a|) + SizeOf(x)
  {
    PrefixPc(a, [x], |a|);
  }

  lemma ExtendLabelPc(a: seq<Item>, x: Item, l: int)
    ensures LabelPc(a + [x], l, |a| + 1) == if x == LabelIns(l) then ItemPc(a, |a|) else LabelPc(a, l, |a|)
  {
    PrefixPc(a, [x], |a|);
    PrefixLabelPc(a, [x], l, |a|);
  }

  lemma HerePc(a: seq<Item>, labels: set<int>, i: int, l: int)
    ensures ItemPc(a + Here(labels, i), |a + Here(labels, i)|) == ItemPc(a, |a|)
    ensures LabelPc(a + Here(labels, i), l, |a + Here(labels, i)|)
            == if l == i && i in labels then ItemPc(a, |a|) else LabelPc(a, l, |a|)
  {
    if i in labels {
      ExtendPc(a, LabelIns(i));
      ExtendLabelPc(a, LabelIns(i), l);
    } else {
      assert a + [] == a;
    }
  }

  /** Labels take no room, and each one is measured at the instruction it was made for. */
  lemma {:induction false} LabelledPc(raw: seq<Raw>, ins: seq<Item>, labels: set<int>, l: int, n: int)
    requires 0 <= n <= |raw| == |ins| && forall i :: 0 <= i < |raw| ==> ins[i].Plain? && ins[i].size == raw[i].size
    ensures var a := Labelled(ins, labels, n);
            ItemPc(a, |a|) == Pc(raw, n) && (0 <= l < n && l in labels ==> LabelPc(a, l, |a|) == Pc(raw, l))
    decreases n
  {
    if n > 0 {
      LabelledPc(raw, ins, labels, l, n - 1);
      var a := Labelled(ins, labels, n - 1);
      HerePc(a, labels, n - 1, l);
      ExtendPc(a + Here(labels, n - 1), ins[n - 1]);
      ExtendLabelPc(a + Here(labels, n - 1), ins[n - 1], l);
    }
  }

  /** A label made for index `l` is measured at the pc of instruction `l`, or at the end of the code. */
  lemma LabelMeasured(raw: seq<Raw>, ins: seq<Item>, labels: set<int>, l: int)
    requires |raw| == |ins| && forall i :: 0 <= i < |raw| ==> ins[i].Plain? && ins[i].size == raw[i].size
    requires l in labels && 0 <= l <= |raw|
    ensures LabelPc(AllLabelled(ins, labels), l, |AllLabelled(ins, labels)|) == Pc(raw, l)
  {
    LabelledPc(raw, ins, labels, l, |raw|);
    HerePc(Labelled(ins, labels, |ins|), labels, |ins|, l);
  }
}
