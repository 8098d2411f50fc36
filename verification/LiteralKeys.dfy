/** Literal arrays, what they unfold to, and the byte string that stands for their content. */
module LiteralKeys {
  type Byte = b: int | 0 <= b < 256
  type Bytes = seq<Byte>
  type Id = Bytes

  const LITERALARRAY: Byte := 24

  /** A literal's value; numbers are kept as their object representation. */
  datatype Value = Bool(b: bool) | Str(s: Bytes) | Num(rep: Bytes)

  datatype Literal = Literal(tag: Byte, value: Value)

  type LiteralArray = seq<Literal>
  type Table = map<Id, LiteralArray>

  /** A LITERALARRAY-tagged string is the id of another array. */
  predicate IsRef(lit: Literal) {
    lit.tag == LITERALARRAY && lit.value.Str?
  }

  function Rank(rank: map<Id, nat>, id: Id): nat {
    if id in rank then rank[id] else 0
  }

  ghost predicate RefsBelow(t: Table, rank: map<Id, nat>, id: Id)
    requires id in t
  {
    forall i :: 0 <= i < |t[id]| && IsRef(t[id][i]) && t[id][i].value.s in t ==>
      Rank(rank, t[id][i].value.s) < Rank(rank, id)
  }

  /** The table has no reference cycle: references lead to lower ranks. */
  ghost predicate Acyclic(t: Table, rank: map<Id, nat>) {
    forall id :: id in t ==> RefsBelow(t, rank, id)
  }

  // ----- complete unfolding -----

  datatype Tree = Tree(items: seq<Item>)

  datatype Item =
    | Leaf(tag: Byte, value: Value)
    | Nested(tag: Byte, sub: Tree)
    | Dangling(tag: Byte, id: Id)

  ghost function Unfold(t: Table, rank: map<Id, nat>, id: Id): Tree
    requires Acyclic(t, rank) && id in t
    decreases Rank(rank, id), 1
  {
    Tree(seq(|t[id]|, i requires 0 <= i < |t[id]| => UnfoldLiteral(t, rank, id, i)))
  }

  ghost function UnfoldLiteral(t: Table, rank: map<Id, nat>, id: Id, i: int): Item
    requires Acyclic(t, rank) && id in t && 0 <= i < |t[id]|
    decreases Rank(rank, id), 0
  {
    var lit := t[id][i];
    if !IsRef(lit) then Leaf(lit.tag, lit.value)
    else if lit.value.s !in t then Dangling(lit.tag, lit.value.s)
    else assert RefsBelow(t, rank, id); Nested(lit.tag, Unfold(t, rank, lit.value.s))
  }

  // ----- the content key -----

  /** A length as four little-endian bytes; longer lengths are truncated. */
  function Size4(n: nat): Bytes {
    [n % 256, n / 256 % 256, n / 65536 % 256, n / 16777216 % 256]
  }

  function ValueKey(v: Value): Bytes {
    match v
    case Bool(b) => [if b then 1 else 0]
    case Str(s) => Size4(|s|) + s
    case Num(rep) => [|rep| % 256] + rep
  }

  function TreeKey(t: Tree): Bytes {
    ItemsKey(t.items)
  }

  function ItemsKey(items: seq<Item>): Bytes {
    if items == [] then [] else ItemKey(items[0]) + ItemsKey(items[1..])
  }

  function ItemKey(item: Item): Bytes {
    match item
    case Leaf(tag, v) => [tag] + ValueKey(v)
    case Nested(tag, sub) => [tag] + (Size4(|TreeKey(sub)|) + TreeKey(sub))
    case Dangling(tag, id) => [tag] + (Size4(|id|) + id)
  }

  lemma ItemsKeyCons(items: seq<Item>)
    requires items != []
    ensures ItemsKey(items) == ItemKey(items[0]) + ItemsKey(items[1..])
  {
  }

  lemma {:induction false} ItemsKeyAppend(a: seq<Item>, x: Item)
    ensures ItemsKey(a + [x]) == ItemsKey(a) + ItemKey(x)
    decreases |a|
  {
    var all := a + [x];
    ItemsKeyCons(all);
    if a == [] {
      assert all[1..] == [] && ItemsKey([]) == [];
    } else {
      assert all[1..] == a[1..] + [x];
      ItemsKeyAppend(a[1..], x);
      ItemsKeyCons(a);
      JoinBytes(ItemKey(a[0]), ItemsKey(a[1..]), ItemKey(x));
    }
  }

  lemma JoinBytes(a: Bytes, b: Bytes, c: Bytes)
    ensures a + (b + c) == a + b + c
  {
  }

  // ----- computing the key -----

  /** Every cached key is the key of what its id unfolds to. */
  ghost predicate CacheExact(t: Table, rank: map<Id, nat>, cache: map<Id, Bytes>)
    requires Acyclic(t, rank)
  {
    forall id :: id in cache ==> id in t && cache[id] == TreeKey(Unfold(t, rank, id))
  }

  /** On an acyclic table nothing being visited can be reached again. */
  ghost predicate VisitingAbove(rank: map<Id, nat>, visiting: set<Id>, id: Id) {
    forall v :: v in visiting ==> Rank(rank, id) < Rank(rank, v)
  }

  /** The number of ids that can still be entered; it shrinks on every table, cyclic ones included. */
  ghost function Unvisited(t: Table, visiting: set<Id>): set<Id> {
    t.Keys - visiting
  }

  /**
   * The recursive, memoised key of an array. It terminates on every table; on an acyclic one memoisation and the
   * cycle guard are invisible: the result is the key of the complete unfolding.
   */
  method ComputeContentKey(id: Id, t: Table, cache: map<Id, Bytes>, visiting: set<Id>, ghost rank: map<Id, nat>)
    returns (key: Bytes, cache': map<Id, Bytes>)
    ensures cache.Keys <= cache'.Keys
    ensures id in t && id !in visiting ==> id in cache'
    ensures id !in t && id !in cache ==> key == id && cache' == cache
    ensures Acyclic(t, rank) && CacheExact(t, rank, cache) && VisitingAbove(rank, visiting, id) ==>
      && CacheExact(t, rank, cache')
      && (id in t ==> id in cache' && key == cache'[id])
    decreases |Unvisited(t, visiting)|
  {
    if id in cache {
      return cache[id], cache;
    }
    if id in visiting {
      return id, cache;
    }
    if id !in t {
      return id, cache;
    }
    key, cache' := KeyOfLiterals(id, t, cache, visiting + {id}, rank);
    cache' := cache'[id := key];
  }

  method KeyOfLiterals(id: Id, t: Table, cache: map<Id, Bytes>, visiting: set<Id>, ghost rank: map<Id, nat>)
    returns (key: Bytes, cache': map<Id, Bytes>)
    requires id in t && id in visiting
    ensures cache.Keys <= cache'.Keys
    ensures Acyclic(t, rank) && CacheExact(t, rank, cache) && VisitingAbove(rank, visiting - {id}, id) ==>
      CacheExact(t, rank, cache') && key == TreeKey(Unfold(t, rank, id))
    decreases |Unvisited(t, visiting - {id})|, 1
  {
    key, cache' := [], cache;
    ghost var good := Acyclic(t, rank) && CacheExact(t, rank, cache) && VisitingAbove(rank, visiting - {id}, id);
    for i := 0 to |t[id]|
      invariant cache.Keys <= cache'.Keys
      invariant good ==> CacheExact(t, rank, cache') && key == ItemsKey(Unfold(t, rank, id).items[..i])
    {
      if good { KeyStep(t, rank, id, i); }
      var part: Bytes;
      part, cache' := KeyOfLiteral(id, i, t, cache', visiting, rank);
      key := key + part;
    }
    if good {
      assert Unfold(t, rank, id).items[..|t[id]|] == Unfold(t, rank, id).items;
    }
  }

  method KeyOfLiteral(id: Id, i: nat, t: Table, cache: map<Id, Bytes>, visiting: set<Id>, ghost rank: map<Id, nat>)
    returns (part: Bytes, cache': map<Id, Bytes>)
    requires id in t && id in visiting && i < |t[id]|
    ensures cache.Keys <= cache'.Keys
    ensures Acyclic(t, rank) && CacheExact(t, rank, cache) && VisitingAbove(rank, visiting - {id}, id) ==>
      CacheExact(t, rank, cache') && part == ItemKey(UnfoldLiteral(t, rank, id, i))
    decreases |Unvisited(t, visiting - {id})|, 0
  {
    var lit := t[id][i];
    cache' := cache;
    if IsRef(lit) {
      UnvisitedShrinks(t, visiting, id);
      if Acyclic(t, rank) && VisitingAbove(rank, visiting - {id}, id) && lit.value.s in t {
        RefBelowVisiting(t, rank, visiting, id, i);
      }
      var refKey: Bytes;
      refKey, cache' := ComputeContentKey(lit.value.s, t, cache, visiting, rank);
      part := [lit.tag] + (Size4(|refKey|) + refKey);
    } else {
      part := [lit.tag] + ValueKey(lit.value);
    }
  }

  lemma UnvisitedShrinks(t: Table, visiting: set<Id>, id: Id)
    requires id in t && id in visiting
    ensures |Unvisited(t, visiting)| < |Unvisited(t, visiting - {id})|
  {
    assert Unvisited(t, visiting - {id}) == Unvisited(t, visiting) + {id};
  }

  lemma RefBelowVisiting(t: Table, rank: map<Id, nat>, visiting: set<Id>, id: Id, i: nat)
    requires Acyclic(t, rank) && id in t && i < |t[id]| && IsRef(t[id][i]) && t[id][i].value.s in t
    requires VisitingAbove(rank, visiting - {id}, id)
    ensures VisitingAbove(rank, visiting, t[id][i].value.s)
  {
    assert RefsBelow(t, rank, id);
    forall v | v in visiting
      ensures Rank(rank, t[id][i].value.s) < Rank(rank, v)
    {
      assert v != id ==> v in visiting - {id};
    }
  }

  lemma KeyStep(t: Table, rank: map<Id, nat>, id: Id, i: nat)
    requires Acyclic(t, rank) && id in t && i < |t[id]|
    ensures var items := Unfold(t, rank, id).items;
            && |items| == |t[id]|
            && ItemsKey(items[..i + 1]) == ItemsKey(items[..i]) + ItemKey(UnfoldLiteral(t, rank, id, i))
  {
    var items := Unfold(t, rank, id).items;
    assert items[..i + 1] == items[..i] + [items[i]];
    ItemsKeyAppend(items[..i], items[i]);
  }
}
