/** Which array stands for a class at each moment of a walk, and which ids end as aliases of which. */
module LiteralHolders {
  import opened Options
  import opened LiteralKeys
  import opened LiteralKeysExact
  import opened LiteralDedup

  predicate Uses(p: Program, k: nat, id: Id)
    requires k < |p.code|
  {
    IsBuffer(p.code[k]) && p.code[k].id == id
  }

  /** The first use of `id` before `n`, or `n`. */
  function First(p: Program, id: Id, n: nat): (h: nat)
    requires n <= |p.code|
    ensures h <= n && (h < n ==> Uses(p, h, id)) && forall k :: 0 <= k < h ==> !Uses(p, k, id)
    decreases n
  {
    if n == 0 then 0
    else
      var h := First(p, id, n - 1);
      if h < n - 1 || Uses(p, n - 1, id) then h else n
  }

  predicate IsFirst(p: Program, i: nat)
    requires i < |p.code|
  {
    IsBuffer(p.code[i]) && First(p, p.code[i].id, i) == i
  }

  /** A use by another instruction than the first one. */
  predicate IsMixing(p: Program, i: nat)
    requires i < |p.code|
  {
    && IsBuffer(p.code[i]) && First(p, p.code[i].id, i) < i
    && p.code[First(p, p.code[i].id, i)].op != p.code[i].op
  }

  lemma FirstStays(p: Program, id: Id, m: nat, n: nat)
    requires m <= n <= |p.code| && First(p, id, m) < m
    ensures First(p, id, n) == First(p, id, m)
  {
    var h, g := First(p, id, m), First(p, id, n);
    assert Uses(p, h, id);
    assert g <= h;
    assert Uses(p, g, id);
  }

  /** The instruction that first uses the id of use `i`, and the content, as one key. */
  ghost function ClassOf(w: World, p: Program, i: nat): Bytes
    requires w.Valid() && Inhabits(w, p) && i < |p.code| && IsBuffer(p.code[i])
  {
    CompositeKey(p.code[First(p, p.code[i].id, i + 1)].op, TreeKey(w.Content(p.code[i].id)))
  }

  ghost predicate OpensIn(w: World, p: Program, i: nat, ck: Bytes)
    requires w.Valid() && Inhabits(w, p) && i < |p.code|
  {
    IsFirst(p, i) && ClassOf(w, p, i) == ck
  }

  /** A mixing use takes the class of its id out of the canonical ones. */
  ghost predicate Erases(w: World, p: Program, i: nat, ck: Bytes)
    requires w.Valid() && Inhabits(w, p) && i < |p.code|
  {
    IsMixing(p, i) && ClassOf(w, p, i) == ck
  }

  /** The canonical id of a class before use `n`, if it has one; `c0` is what earlier programs left. */
  ghost function Holder(w: World, p: Program, c0: map<Bytes, Id>, n: nat, ck: Bytes): Option<Id>
    requires w.Valid() && Inhabits(w, p) && n <= |p.code|
    decreases n
  {
    if n == 0 then if ck in c0 then Some(c0[ck]) else None
    else
      var before := Holder(w, p, c0, n - 1, ck);
      if OpensIn(w, p, n - 1, ck) && before.None? then Some(p.code[n - 1].id)
      else if Erases(w, p, n - 1, ck) then None
      else before
  }

  /** What `id` is an alias of before use `n`. */
  ghost function AliasOf(w: World, p: Program, c0: map<Bytes, Id>, n: nat, id: Id): Option<Id>
    requires w.Valid() && Inhabits(w, p) && n <= |p.code|
    decreases n
  {
    if n == 0 then None
    else if !Uses(p, n - 1, id) then AliasOf(w, p, c0, n - 1, id)
    else if IsFirst(p, n - 1) then Holder(w, p, c0, n - 1, ClassOf(w, p, n - 1))
    else if IsMixing(p, n - 1) then None
    else AliasOf(w, p, c0, n - 1, id)
  }

  // ----- the walk follows this -----

  /** One buffer instruction, in terms of content instead of keys. */
  ghost function Met(w: World, st: Walk, op: Opcode, id: Id, cache: map<Id, Bytes>): Walk
    requires w.Valid() && id in w.all
  {
    if id !in st.deduplicable then Recorded(st, op, id, TreeKey(w.Content(id)), cache)
    else if st.deduplicable[id] != op then
      st.(canonical := st.canonical - {CompositeKey(st.deduplicable[id], TreeKey(w.Content(id)))},
          aliases := st.aliases - {id})
    else st
  }

  ghost predicate MapIs<K, V>(m: map<K, V>, k: K, v: Option<V>) {
    if v.None? then k !in m else k in m && m[k] == v.value
  }

  ghost predicate SeenAs(p: Program, n: nat, st: Walk, id: Id)
    requires n <= |p.code|
  {
    var h := First(p, id, n);
    MapIs(st.deduplicable, id, if h < n then Some(p.code[h].op) else None)
  }

  ghost predicate Follows(w: World, p: Program, c0: map<Bytes, Id>, n: nat, st: Walk)
    requires w.Valid() && Inhabits(w, p) && n <= |p.code|
  {
    && (forall id :: SeenAs(p, n, st, id))
    && (forall ck :: MapIs(st.canonical, ck, Holder(w, p, c0, n, ck)))
    && (forall id :: MapIs(st.aliases, id, AliasOf(w, p, c0, n, id)))
  }

  /** One instruction: a buffer instruction as above, any other without effect. */
  ghost predicate OneStep(w: World, p: Program, n: nat, st: Walk, st': Walk)
    requires w.Valid() && Inhabits(w, p) && n < |p.code|
  {
    st' == if IsBuffer(p.code[n]) then Met(w, st, p.code[n].op, p.code[n].id, st'.keyCache) else st
  }

  lemma SeenStep(w: World, p: Program, n: nat, st: Walk, st': Walk, id: Id)
    requires w.Valid() && Inhabits(w, p) && n < |p.code| && OneStep(w, p, n, st, st')
    requires SeenAs(p, n, st, id) && (IsBuffer(p.code[n]) ==> SeenAs(p, n, st, p.code[n].id))
    ensures SeenAs(p, n + 1, st', id)
  {
  }

  lemma HolderStep(w: World, p: Program, c0: map<Bytes, Id>, n: nat, st: Walk, st': Walk, ck: Bytes)
    requires w.Valid() && Inhabits(w, p) && n < |p.code| && OneStep(w, p, n, st, st')
    requires IsBuffer(p.code[n]) ==> SeenAs(p, n, st, p.code[n].id)
    requires MapIs(st.canonical, ck, Holder(w, p, c0, n, ck))
    ensures MapIs(st'.canonical, ck, Holder(w, p, c0, n + 1, ck))
  {
    if IsBuffer(p.code[n]) { ClassKnown(w, p, n); }
  }

  lemma ClassKnown(w: World, p: Program, n: nat)
    requires w.Valid() && Inhabits(w, p) && n < |p.code| && IsBuffer(p.code[n])
    ensures var id := p.code[n].id; var h := First(p, id, n);
            ClassOf(w, p, n) == CompositeKey(if h < n then p.code[h].op else p.code[n].op, TreeKey(w.Content(id)))
  {
    if First(p, p.code[n].id, n) < n { FirstStays(p, p.code[n].id, n, n + 1); }
  }

  lemma AliasStep(w: World, p: Program, c0: map<Bytes, Id>, n: nat, st: Walk, st': Walk, id: Id)
    requires w.Valid() && Inhabits(w, p) && n < |p.code| && OneStep(w, p, n, st, st')
    requires IsBuffer(p.code[n]) ==> SeenAs(p, n, st, p.code[n].id)
    requires IsBuffer(p.code[n]) ==> MapIs(st.canonical, ClassOf(w, p, n), Holder(w, p, c0, n, ClassOf(w, p, n)))
    requires MapIs(st.aliases, id, AliasOf(w, p, c0, n, id))
    ensures MapIs(st'.aliases, id, AliasOf(w, p, c0, n + 1, id))
  {
    if IsBuffer(p.code[n]) { ClassKnown(w, p, n); }
    if First(p, id, n) == n { FirstHasNoAlias(w, p, c0, n, id); }
  }

  lemma FollowsStep(w: World, p: Program, c0: map<Bytes, Id>, n: nat, st: Walk, st': Walk)
    requires w.Valid() && Inhabits(w, p) && n < |p.code| && Follows(w, p, c0, n, st) && OneStep(w, p, n, st, st')
    ensures Follows(w, p, c0, n + 1, st')
  {
    var m := n + 1;
    if IsBuffer(p.code[n]) {
      assert SeenAs(p, n, st, p.code[n].id);
      assert MapIs(st.canonical, ClassOf(w, p, n), Holder(w, p, c0, n, ClassOf(w, p, n)));
    }
    forall id
      ensures SeenAs(p, m, st', id)
    {
      assert SeenAs(p, n, st, id);
      SeenStep(w, p, n, st, st', id);
    }
    forall ck
      ensures MapIs(st'.canonical, ck, Holder(w, p, c0, m, ck))
    {
      assert MapIs(st.canonical, ck, Holder(w, p, c0, n, ck));
      HolderStep(w, p, c0, n, st, st', ck);
    }
    forall id
      ensures MapIs(st'.aliases, id, AliasOf(w, p, c0, m, id))
    {
      assert MapIs(st.aliases, id, AliasOf(w, p, c0, n, id));
      AliasStep(w, p, c0, n, st, st', id);
    }
  }

  lemma {:induction false} FirstHasNoAlias(w: World, p: Program, c0: map<Bytes, Id>, n: nat, id: Id)
    requires w.Valid() && Inhabits(w, p) && n <= |p.code| && First(p, id, n) == n
    ensures AliasOf(w, p, c0, n, id) == None
    decreases n
  {
    if n > 0 { FirstHasNoAlias(w, p, c0, n - 1, id); }
  }

  // ----- which ids end as aliases -----

  ghost predicate MixedBefore(p: Program, n: nat, id: Id)
    requires n <= |p.code|
  {
    exists k :: 0 <= k < n && IsMixing(p, k) && p.code[k].id == id
  }

  lemma MixedStep(p: Program, n: nat, id: Id)
    requires n < |p.code|
    ensures MixedBefore(p, n + 1, id) <==> MixedBefore(p, n, id) || (IsMixing(p, n) && p.code[n].id == id)
  {
    if MixedBefore(p, n, id) {
      var k :| 0 <= k < n && IsMixing(p, k) && p.code[k].id == id;
      assert MixedBefore(p, n + 1, id);
    }
  }

  /** An id is an alias of what held its class at its first use, unless it was mixed. */
  lemma {:induction false} AliasIs(w: World, p: Program, c0: map<Bytes, Id>, n: nat, id: Id, j: nat)
    requires w.Valid() && Inhabits(w, p) && j < n <= |p.code| && IsFirst(p, j) && p.code[j].id == id
    ensures AliasOf(w, p, c0, n, id) == if MixedBefore(p, n, id) then None else Holder(w, p, c0, j, ClassOf(w, p, j))
    decreases n
  {
    if j < n - 1 {
      AliasLater(w, p, c0, n, id, j);
      MixedStep(p, n - 1, id);
      AliasIs(w, p, c0, n - 1, id, j);
    } else {
      NotMixedYet(p, j, id);
    }
  }

  /** Behind its first use only a mixing use changes what an id is an alias of. */
  lemma AliasLater(w: World, p: Program, c0: map<Bytes, Id>, n: nat, id: Id, j: nat)
    requires w.Valid() && Inhabits(w, p) && j < n - 1 < |p.code| && IsFirst(p, j) && p.code[j].id == id
    ensures AliasOf(w, p, c0, n, id)
            == if IsMixing(p, n - 1) && p.code[n - 1].id == id then None else AliasOf(w, p, c0, n - 1, id)
  {
    OneFirst(p, j, n - 1);
  }

  lemma NotMixedYet(p: Program, j: nat, id: Id)
    requires j < |p.code| && IsFirst(p, j) && p.code[j].id == id
    ensures !MixedBefore(p, j + 1, id)
  {
    forall k | 0 <= k < j + 1 && IsMixing(p, k)
      ensures p.code[k].id != id
    {
      assert k < j ==> !Uses(p, k, id);
    }
  }

  /** A holder is what earlier programs left, or opened the class in this one. */
  lemma {:induction false} HolderOrigin(w: World, p: Program, c0: map<Bytes, Id>, n: nat, ck: Bytes) returns (h: nat)
    requires w.Valid() && Inhabits(w, p) && n <= |p.code| && Holder(w, p, c0, n, ck).Some?
    ensures var x := Holder(w, p, c0, n, ck).value;
            || (ck in c0 && c0[ck] == x)
            || (h < n && OpensIn(w, p, h, ck) && p.code[h].id == x && Holder(w, p, c0, h, ck).None?)
    decreases n
  {
    h := 0;
    if n > 0 {
      if OpensIn(w, p, n - 1, ck) && Holder(w, p, c0, n - 1, ck).None? {
        h := n - 1;
      } else {
        h := HolderOrigin(w, p, c0, n - 1, ck);
      }
    }
  }

  ghost predicate ErasedBetween(w: World, p: Program, i: nat, n: nat, ck: Bytes)
    requires w.Valid() && Inhabits(w, p) && n <= |p.code|
  {
    exists k :: i < k < n && Erases(w, p, k, ck)
  }

  lemma ErasedStep(w: World, p: Program, i: nat, n: nat, ck: Bytes)
    requires w.Valid() && Inhabits(w, p) && i < n < |p.code|
    ensures ErasedBetween(w, p, i, n + 1, ck) <==> ErasedBetween(w, p, i, n, ck) || Erases(w, p, n, ck)
  {
    if ErasedBetween(w, p, i, n, ck) {
      var k :| i < k < n && Erases(w, p, k, ck);
      assert ErasedBetween(w, p, i, n + 1, ck);
    }
  }

  /** What opened a class holds it until the class is erased, and never again. */
  lemma {:induction false} HeldUntilErased(w: World, p: Program, c0: map<Bytes, Id>, i: nat, n: nat)
    requires w.Valid() && Inhabits(w, p) && i < n <= |p.code| && IsFirst(p, i)
    requires Holder(w, p, c0, i, ClassOf(w, p, i)).None?
    ensures var ck := ClassOf(w, p, i);
            Holder(w, p, c0, n, ck) == Some(p.code[i].id) <==> !ErasedBetween(w, p, i, n, ck)
    decreases n
  {
    if i < n - 1 {
      HeldUntilErased(w, p, c0, i, n - 1);
      ErasedStep(w, p, i, n - 1, ClassOf(w, p, i));
      OneFirst(p, i, n - 1);
      FirstIsNotMixing(p, n - 1);
    }
  }

  lemma OneFirst(p: Program, i: nat, j: nat)
    requires i < |p.code| && j < |p.code|
    ensures IsFirst(p, i) && IsFirst(p, j) && p.code[i].id == p.code[j].id ==> i == j
  {
    assert IsFirst(p, i) ==> Uses(p, i, p.code[i].id);
    assert IsFirst(p, j) ==> Uses(p, j, p.code[j].id);
  }

  lemma FirstIsNotMixing(p: Program, i: nat)
    requires i < |p.code|
    ensures !(IsFirst(p, i) && IsMixing(p, i))
  {
  }

  // ----- which ids end as aliases of one array -----

  /**
   * Use `j` is the first of `b`, behind use `i`, by the same instruction and with the same content; no id of the class
   * was mixed in between, and `b` never is.
   */
  ghost predicate MetOpen(w: World, p: Program, i: nat, j: nat, b: Id)
    requires w.Valid() && Inhabits(w, p)
  {
    && i < j < |p.code| && IsFirst(p, j) && IsBuffer(p.code[i]) && p.code[j].id == b && p.code[j].op == p.code[i].op
    && w.Content(b) == w.Content(p.code[i].id)
    && !ErasedBetween(w, p, i, j, ClassOf(w, p, i)) && !MixedBefore(p, |p.code|, b)
  }

  lemma SameClassExactly(w: World, p: Program, i: nat, j: nat)
    requires w.Valid() && Inhabits(w, p) && i < |p.code| && j < |p.code| && IsFirst(p, i) && IsFirst(p, j)
    ensures ClassOf(w, p, i) == ClassOf(w, p, j) <==>
            p.code[i].op == p.code[j].op && w.Content(p.code[i].id) == w.Content(p.code[j].id)
  {
    var x, y := ClassOf(w, p, i), ClassOf(w, p, j);
    assert x[1..] == TreeKey(w.Content(p.code[i].id)) && y[1..] == TreeKey(w.Content(p.code[j].id));
    if x == y {
      assert x[0] == y[0];
      KeyIsExact(w.kind, w.all, w.rank, p.code[i].id, w.all, w.rank, p.code[j].id);
    }
  }

  lemma MetIsAlias(w: World, p: Program, c0: map<Bytes, Id>, i: nat, j: nat, b: Id)
    requires w.Valid() && Inhabits(w, p) && i < |p.code| && IsFirst(p, i) && MetOpen(w, p, i, j, b)
    requires Holder(w, p, c0, i, ClassOf(w, p, i)).None?
    ensures AliasOf(w, p, c0, |p.code|, b) == Some(p.code[i].id)
  {
    SameClassExactly(w, p, i, j);
    HeldUntilErased(w, p, c0, i, j);
    AliasIs(w, p, c0, |p.code|, b, j);
  }

  lemma AliasWasMet(w: World, p: Program, c0: map<Bytes, Id>, i: nat, b: Id) returns (j: nat)
    requires w.Valid() && Inhabits(w, p) && i < |p.code| && IsFirst(p, i) && c0.Values !! p.table.Keys
    requires AliasOf(w, p, c0, |p.code|, b) == Some(p.code[i].id)
    ensures Holder(w, p, c0, i, ClassOf(w, p, i)).None? && MetOpen(w, p, i, j, b)
  {
    j := First(p, b, |p.code|);
    if j == |p.code| { FirstHasNoAlias(w, p, c0, |p.code|, b); }
    assert Uses(p, j, b);
    FirstAt(p, b, j);
    AliasIs(w, p, c0, |p.code|, b, j);
    var h := HolderOrigin(w, p, c0, j, ClassOf(w, p, j));
    assert p.code[i].id in p.table;
    OneFirst(p, i, h);
    SameClassExactly(w, p, i, j);
    HeldUntilErased(w, p, c0, i, j);
  }

  lemma FirstAt(p: Program, id: Id, j: nat)
    requires j < |p.code| && j == First(p, id, |p.code|)
    ensures IsFirst(p, j) && p.code[j].id == id
  {
    var h := First(p, id, j);
  }

  /**
   * An id ends as an alias of the array first used at `i` exactly when that use made it canonical and the id was met
   * before any id of the class was used by another instruction, and never is itself: of a mixed array, too, the ids
   * met before it was mixed stay aliases.
   */
  lemma AliasExactly(w: World, p: Program, c0: map<Bytes, Id>, i: nat, b: Id)
    requires w.Valid() && Inhabits(w, p) && i < |p.code| && IsFirst(p, i) && c0.Values !! p.table.Keys
    ensures AliasOf(w, p, c0, |p.code|, b) == Some(p.code[i].id)
            <==> Holder(w, p, c0, i, ClassOf(w, p, i)).None? && exists j: nat :: MetOpen(w, p, i, j, b)
  {
    if AliasOf(w, p, c0, |p.code|, b) == Some(p.code[i].id) {
      var j := AliasWasMet(w, p, c0, i, b);
    }
    if Holder(w, p, c0, i, ClassOf(w, p, i)).None? && exists j: nat :: MetOpen(w, p, i, j, b) {
      var j: nat :| MetOpen(w, p, i, j, b);
      MetIsAlias(w, p, c0, i, j, b);
    }
  }
}
