/** The content key is exact: it can be read back, so equal keys mean equal unfoldings. */
module LiteralKeysExact {
  import opened Options
  import opened LiteralKeys

  const SIZE_LIMIT: int := 0x1_0000_0000

  datatype Kind = BoolKind | StrKind | NumKind | RefKind

  function ItemKind(item: Item): Kind {
    match item
    case Leaf(_, Bool(_)) => BoolKind
    case Leaf(_, Str(_)) => StrKind
    case Leaf(_, Num(_)) => NumKind
    case Nested(_, _) => RefKind
    case Dangling(_, _) => RefKind
  }

  // ----- reading a key -----

  /** The length that four little-endian bytes stand for. */
  function Size(b: Bytes): nat
    requires |b| == 4
  {
    b[0] as int + 256 * (b[1] as int) + 65536 * (b[2] as int) + 16777216 * (b[3] as int)
  }

  /** A string behind its length, if there are enough bytes. */
  function Sized(body: Bytes): Option<Bytes> {
    if |body| < 4 || |body| < 4 + Size(body[..4]) then None else Some(body[4..4 + Size(body[..4])])
  }

  /**
   * An item and the number of bytes it takes; referenced bytes are a nested array exactly if they can be read as one.
   */
  function ReadItem(kind: Byte -> Kind, bs: Bytes): (r: Option<(Item, nat)>)
    requires bs != []
    ensures r.Some? ==> 0 < r.value.1 <= |bs|
    decreases |bs|, 0
  {
    var tag, body := bs[0], bs[1..];
    match kind(tag)
    case BoolKind =>
      if body == [] || body[0] > 1 then None else Some((Leaf(tag, Bool(body[0] == 1)), 2))
    case StrKind =>
      if Sized(body).None? then None else Some((Leaf(tag, Str(Sized(body).value)), 5 + |Sized(body).value|))
    case NumKind =>
      if body == [] || |body| < 1 + body[0] as int then None
      else Some((Leaf(tag, Num(body[1..1 + body[0] as int])), 2 + body[0] as int))
    case RefKind =>
      if Sized(body).None? then None
      else
        var s := Sized(body).value;
        var items := ReadKey(kind, s);
        Some((if items.Some? then Nested(tag, Tree(items.value)) else Dangling(tag, s), 5 + |s|))
  }

  /** The array that a byte string is the key of, if it is a key at all. */
  function ReadKey(kind: Byte -> Kind, bs: Bytes): Option<seq<Item>>
    decreases |bs|, 1
  {
    if bs == [] then Some([])
    else
      var first := ReadItem(kind, bs);
      if first.None? then None
      else
        var more := ReadKey(kind, bs[first.value.1..]);
        if more.None? then None else Some([first.value.0] + more.value)
  }

  // ----- typed arrays -----

  /** The tag determines the kind of value, and lengths fit their length fields. */
  ghost predicate Shaped(kind: Byte -> Kind, items: seq<Item>) {
    forall i :: 0 <= i < |items| ==> ShapedItem(kind, items[i])
  }

  ghost predicate ShapedItem(kind: Byte -> Kind, item: Item) {
    && kind(item.tag) == ItemKind(item)
    && match item
       case Leaf(_, Bool(_)) => true
       case Leaf(_, Str(s)) => |s| < SIZE_LIMIT
       case Leaf(_, Num(rep)) => |rep| < 256
       case Nested(_, sub) => |TreeKey(sub)| < SIZE_LIMIT && Shaped(kind, sub.items)
       case Dangling(_, id) => |id| < SIZE_LIMIT
  }

  /** Moreover no unresolved reference, at any depth, is spelled like a key. */
  ghost predicate Typed(kind: Byte -> Kind, items: seq<Item>) {
    forall i :: 0 <= i < |items| ==> TypedItem(kind, items[i])
  }

  ghost predicate TypedItem(kind: Byte -> Kind, item: Item) {
    && ShapedItem(kind, item)
    && match item
       case Leaf(_, _) => true
       case Nested(_, sub) => Typed(kind, sub.items)
       case Dangling(_, id) => ReadKey(kind, id).None?
  }

  // ----- lengths -----

  lemma SizeOfSize4(n: nat)
    requires n < SIZE_LIMIT
    ensures |Size4(n)| == 4 && Size(Size4(n)) == n
  {
    assert n / 65536 == n / 256 / 256;
    assert n / 16777216 == n / 65536 / 256;
    assert n / 16777216 < 256;
  }

  lemma Size4OfSize(b: Bytes)
    requires |b| == 4
    ensures Size(b) < SIZE_LIMIT && Size4(Size(b)) == b
  {
    var n := Size(b);
    assert n / 256 == b[1] as int + 256 * (b[2] as int) + 65536 * (b[3] as int);
    assert n / 65536 == b[2] as int + 256 * (b[3] as int);
    assert n / 16777216 == b[3] as int;
    assert Size4(n)[0] == b[0] && Size4(n)[1] == b[1] && Size4(n)[2] == b[2] && Size4(n)[3] == b[3];
  }

  lemma SizedRight(s: Bytes, rest: Bytes)
    requires |s| < SIZE_LIMIT
    ensures Sized(Size4(|s|) + s + rest) == Some(s)
  {
    var body := Size4(|s|) + s + rest;
    SizeOfSize4(|s|);
    assert body[..4] == Size4(|s|) && body[4..4 + |s|] == s;
  }

  lemma SizedIs(body: Bytes)
    requires Sized(body).Some?
    ensures var s := Sized(body).value;
            |s| < SIZE_LIMIT && 4 + |s| <= |body| && body[..4 + |s|] == Size4(|s|) + s
  {
    Size4OfSize(body[..4]);
    var s := Sized(body).value;
    assert body[..4 + |s|] == body[..4] + s;
  }

  // ----- a key reads back as what it was made from -----

  lemma ReadBool(kind: Byte -> Kind, tag: Byte, b: bool, rest: Bytes)
    requires kind(tag) == BoolKind
    ensures ReadItem(kind, [tag] + ValueKey(Bool(b)) + rest) == Some((Leaf(tag, Bool(b)), 2))
  {
    var bs := [tag] + ValueKey(Bool(b)) + rest;
    assert bs[1..][0] == if b then 1 else 0;
  }

  lemma ReadStr(kind: Byte -> Kind, tag: Byte, s: Bytes, rest: Bytes)
    requires kind(tag) == StrKind && |s| < SIZE_LIMIT
    ensures ReadItem(kind, [tag] + ValueKey(Str(s)) + rest) == Some((Leaf(tag, Str(s)), 5 + |s|))
  {
    var bs := [tag] + ValueKey(Str(s)) + rest;
    assert bs[1..] == Size4(|s|) + s + rest;
    SizedRight(s, rest);
  }

  lemma ReadNum(kind: Byte -> Kind, tag: Byte, rep: Bytes, rest: Bytes)
    requires kind(tag) == NumKind && |rep| < 256
    ensures ReadItem(kind, [tag] + ValueKey(Num(rep)) + rest) == Some((Leaf(tag, Num(rep)), 2 + |rep|))
  {
    var bs := [tag] + ValueKey(Num(rep)) + rest;
    assert bs[1..] == [|rep| % 256] + rep + rest;
    assert bs[1..][1..1 + |rep|] == rep;
  }

  lemma ReadLeaf(kind: Byte -> Kind, x: Item, rest: Bytes)
    requires ShapedItem(kind, x) && x.Leaf?
    ensures ReadItem(kind, ItemKey(x) + rest) == Some((x, |ItemKey(x)|))
  {
    match x.value
    case Bool(b) => ReadBool(kind, x.tag, b, rest);
    case Str(s) => ReadStr(kind, x.tag, s, rest);
    case Num(rep) => ReadNum(kind, x.tag, rep, rest);
  }

  lemma ReadRef(kind: Byte -> Kind, tag: Byte, s: Bytes, rest: Bytes)
    requires kind(tag) == RefKind && |s| < SIZE_LIMIT
    ensures var items := ReadKey(kind, s);
            ReadItem(kind, [tag] + (Size4(|s|) + s) + rest)
            == Some((if items.Some? then Nested(tag, Tree(items.value)) else Dangling(tag, s), 5 + |s|))
  {
    var bs := [tag] + (Size4(|s|) + s) + rest;
    assert bs[1..] == Size4(|s|) + s + rest;
    SizedRight(s, rest);
  }

  lemma {:induction false} ReadTypedItem(kind: Byte -> Kind, x: Item, rest: Bytes)
    requires TypedItem(kind, x)
    ensures ReadItem(kind, ItemKey(x) + rest) == Some((x, |ItemKey(x)|))
    decreases x
  {
    match x
    case Leaf(_, _) => ReadLeaf(kind, x, rest);
    case Nested(tag, sub) =>
      ReadTyped(kind, sub.items);
      ReadRef(kind, tag, TreeKey(sub), rest);
    case Dangling(tag, id) => ReadRef(kind, tag, id, rest);
  }

  /** Every typed array can be read off its key. */
  lemma {:induction false} ReadTyped(kind: Byte -> Kind, items: seq<Item>)
    requires Typed(kind, items)
    ensures ReadKey(kind, ItemsKey(items)) == Some(items)
    decreases items
  {
    if items != [] {
      var rest := ItemsKey(items[1..]);
      ReadTypedItem(kind, items[0], rest);
      ReadTyped(kind, items[1..]);
      assert ItemsKey(items)[|ItemKey(items[0])|..] == rest;
      assert [items[0]] + items[1..] == items;
    }
  }

  lemma {:induction false} ReadItemIs(kind: Byte -> Kind, bs: Bytes)
    requires bs != [] && ReadItem(kind, bs).Some?
    ensures var (x, n) := ReadItem(kind, bs).value; TypedItem(kind, x) && ItemKey(x) == bs[..n]
    decreases |bs|, 0
  {
    var tag, body := bs[0], bs[1..];
    var (x, n) := ReadItem(kind, bs).value;
    assert bs[..n] == [tag] + body[..n - 1];
    match kind(tag)
    case BoolKind => assert body[..1] == [body[0]];
    case StrKind => SizedIs(body);
    case NumKind => assert body[..1 + body[0] as int] == [body[0]] + body[1..1 + body[0] as int];
    case RefKind =>
      SizedIs(body);
      var s := Sized(body).value;
      if ReadKey(kind, s).Some? { ReadKeyIs(kind, s); }
  }

  /** Whatever is read is typed and has the bytes it was read from as its key. */
  lemma {:induction false} ReadKeyIs(kind: Byte -> Kind, bs: Bytes)
    requires ReadKey(kind, bs).Some?
    ensures Typed(kind, ReadKey(kind, bs).value) && ItemsKey(ReadKey(kind, bs).value) == bs
    decreases |bs|, 1
  {
    if bs != [] {
      var (x, n) := ReadItem(kind, bs).value;
      ReadItemIs(kind, bs);
      ReadKeyIs(kind, bs[n..]);
      var more := ReadKey(kind, bs[n..]).value;
      ItemsKeyCons([x] + more);
      assert ([x] + more)[1..] == more;
      assert bs[..n] + bs[n..] == bs;
    }
  }

  /** A byte string can be read as a key exactly when it is the key of a typed array. */
  lemma SpellsExactly(kind: Byte -> Kind, bs: Bytes)
    ensures ReadKey(kind, bs).Some? <==> exists items :: Typed(kind, items) && ItemsKey(items) == bs
  {
    if ReadKey(kind, bs).Some? { ReadKeyIs(kind, bs); }
    if exists items :: Typed(kind, items) && ItemsKey(items) == bs {
      var items :| Typed(kind, items) && ItemsKey(items) == bs;
      ReadTyped(kind, items);
    }
  }

  // ----- exactness -----

  /**
   * Main result: over acyclic tables, possibly different ones, two arrays have equal keys if and only if their
   * complete unfoldings are equal. Unresolved references may occur as long as they are not spelled like keys.
   */
  lemma KeyIsExact(kind: Byte -> Kind, t: Table, rank: map<Id, nat>, id: Id,
                   t': Table, rank': map<Id, nat>, id': Id)
    requires Acyclic(t, rank) && id in t && Typed(kind, Unfold(t, rank, id).items)
    requires Acyclic(t', rank') && id' in t' && Typed(kind, Unfold(t', rank', id').items)
    ensures TreeKey(Unfold(t, rank, id)) == TreeKey(Unfold(t', rank', id'))
            <==> Unfold(t, rank, id) == Unfold(t', rank', id')
  {
    ReadTyped(kind, Unfold(t, rank, id).items);
    ReadTyped(kind, Unfold(t', rank', id').items);
  }

  lemma {:induction false} ShapedItemReads(kind: Byte -> Kind, x: Item, rest: Bytes)
    requires ShapedItem(kind, x)
    ensures ReadItem(kind, ItemKey(x) + rest).Some? && ReadItem(kind, ItemKey(x) + rest).value.1 == |ItemKey(x)|
    ensures ReadItem(kind, ItemKey(x) + rest).value.0 == x ==> TypedItem(kind, x)
    decreases x
  {
    match x
    case Leaf(_, _) => ReadLeaf(kind, x, rest);
    case Nested(tag, sub) =>
      ShapedReads(kind, sub.items);
      ReadRef(kind, tag, TreeKey(sub), rest);
    case Dangling(tag, id) => ReadRef(kind, tag, id, rest);
  }

  /** Every key can be read; what is read is the array itself exactly when the array is typed. */
  lemma {:induction false} ShapedReads(kind: Byte -> Kind, items: seq<Item>)
    requires Shaped(kind, items)
    ensures ReadKey(kind, ItemsKey(items)).Some?
    ensures ReadKey(kind, ItemsKey(items)) == Some(items) <==> Typed(kind, items)
    decreases items
  {
    if items != [] {
      var rest := ItemsKey(items[1..]);
      ShapedItemReads(kind, items[0], rest);
      ShapedReads(kind, items[1..]);
      assert ItemsKey(items)[|ItemKey(items[0])|..] == rest;
    }
    if Typed(kind, items) { ReadTyped(kind, items); }
    if ReadKey(kind, ItemsKey(items)) == Some(items) { ReadKeyIs(kind, ItemsKey(items)); }
  }

  /** Two arrays of any shape have equal keys exactly when their keys read as the same typed array. */
  lemma EqualKeysExactly(kind: Byte -> Kind, a: seq<Item>, b: seq<Item>)
    requires Shaped(kind, a) && Shaped(kind, b)
    ensures ItemsKey(a) == ItemsKey(b) <==> ReadKey(kind, ItemsKey(a)) == ReadKey(kind, ItemsKey(b))
  {
    ShapedReads(kind, a);
    ShapedReads(kind, b);
    ReadKeyIs(kind, ItemsKey(a));
    ReadKeyIs(kind, ItemsKey(b));
  }

  /**
   * An array is told apart by its key from all typed arrays exactly when it is typed itself: no unresolved reference
   * in it can be read as a key.
   */
  lemma ToldApartExactly(kind: Byte -> Kind, a: seq<Item>)
    requires Shaped(kind, a)
    ensures (forall b :: Typed(kind, b) && ItemsKey(b) == ItemsKey(a) ==> b == a) <==> Typed(kind, a)
  {
    ShapedReads(kind, a);
    ReadKeyIs(kind, ItemsKey(a));
    if Typed(kind, a) {
      forall b | Typed(kind, b) && ItemsKey(b) == ItemsKey(a)
        ensures b == a
      {
        ReadTyped(kind, b);
      }
    }
  }

  /** No other item has the key of this unresolved reference. */
  ghost predicate ToldApart(kind: Byte -> Kind, tag: Byte, id: Id) {
    forall x :: ShapedItem(kind, x) && ItemKey(x) == ItemKey(Dangling(tag, id)) ==> x == Dangling(tag, id)
  }

  /** An unresolved reference leaves the key of its item exact if and only if it cannot be read as a key. */
  lemma DanglingExactly(kind: Byte -> Kind, tag: Byte, id: Id)
    requires kind(tag) == RefKind && |id| < SIZE_LIMIT
    ensures ToldApart(kind, tag, id) <==> ReadKey(kind, id).None?
  {
    if ReadKey(kind, id).None? {
      forall x | ShapedItem(kind, x) && ItemKey(x) == ItemKey(Dangling(tag, id))
        ensures x == Dangling(tag, id)
      {
        OnlyDangling(kind, tag, id, x);
      }
    } else {
      SpelledIsNested(kind, tag, id);
    }
  }

  lemma SpelledIsNested(kind: Byte -> Kind, tag: Byte, id: Id)
    requires kind(tag) == RefKind && |id| < SIZE_LIMIT && ReadKey(kind, id).Some?
    ensures !ToldApart(kind, tag, id)
  {
    var sub := Tree(ReadKey(kind, id).value);
    ReadKeyIs(kind, id);
    TypedIsShaped(kind, sub.items);
    var x := Nested(tag, sub);
    assert TreeKey(sub) == id;
    assert ShapedItem(kind, x) && ItemKey(x) == ItemKey(Dangling(tag, id)) && x != Dangling(tag, id);
  }

  lemma TypedIsShaped(kind: Byte -> Kind, items: seq<Item>)
    requires Typed(kind, items)
    ensures Shaped(kind, items)
  {
    forall i | 0 <= i < |items|
      ensures ShapedItem(kind, items[i])
    {
      assert TypedItem(kind, items[i]);
    }
  }

  lemma OnlyDangling(kind: Byte -> Kind, tag: Byte, id: Id, x: Item)
    requires kind(tag) == RefKind && |id| < SIZE_LIMIT && ReadKey(kind, id).None?
    requires ShapedItem(kind, x) && ItemKey(x) == ItemKey(Dangling(tag, id))
    ensures x == Dangling(tag, id)
  {
    assert ItemKey(x)[0] == tag && ItemKey(x) + [] == ItemKey(x);
    assert x.tag == tag;
    ReadRef(kind, tag, id, []);
    if x.Nested? {
      ShapedReads(kind, x.sub.items);
      ReadRef(kind, tag, TreeKey(x.sub), []);
    } else {
      ReadRef(kind, tag, x.id, []);
    }
  }

  /** With an unresolved reference the key is not exact: its raw id can spell the key of a real array. */
  lemma DanglingKeyCollides()
    ensures exists t: Table, rank: map<Id, nat>, a: Id, b: Id ::
      && Acyclic(t, rank) && a in t && b in t
      && TreeKey(Unfold(t, rank, a)) == TreeKey(Unfold(t, rank, b)) && Unfold(t, rank, a) != Unfold(t, rank, b)
  {
    var a: Id, b: Id, c: Id, missing: Id := [65], [66], [67], [1, 1];
    var t: Table := map[a := [Literal(LITERALARRAY, Str(missing))],
                        b := [Literal(LITERALARRAY, Str(c))],
                        c := [Literal(1, Bool(true))]];
    var rank: map<Id, nat> := map[a := 1, b := 1, c := 0];
    assert Acyclic(t, rank);
    var ua, ub, uc := Unfold(t, rank, a), Unfold(t, rank, b), Unfold(t, rank, c);
    assert uc.items == [UnfoldLiteral(t, rank, c, 0)] && ua.items == [UnfoldLiteral(t, rank, a, 0)]
        && ub.items == [UnfoldLiteral(t, rank, b, 0)];
    assert missing !in t;
    assert uc.items == [Leaf(1, Bool(true))];
    assert ItemsKey(uc.items) == ItemKey(uc.items[0]) + ItemsKey(uc.items[1..]);
    assert TreeKey(uc) == missing;
    assert ua.items == [Dangling(LITERALARRAY, missing)];
    assert ub.items == [Nested(LITERALARRAY, uc)];
    assert ItemKey(ua.items[0]) == ItemKey(ub.items[0]);
    assert ItemsKey(ua.items) == ItemKey(ua.items[0]) + ItemsKey(ua.items[1..]);
    assert ItemsKey(ub.items) == ItemKey(ub.items[0]) + ItemsKey(ub.items[1..]);
    assert ua.items[0] != ub.items[0];
  }
}
