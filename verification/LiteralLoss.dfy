/** A program whose content deduplication does not keep. */
module LiteralLoss {
  import opened Options
  import opened LiteralKeys
  import opened LiteralKeysExact
  import opened LiteralDedup
  import opened LiteralHolders

  const A: Id := [1]
  const B: Id := [2]
  const C: Id := [3]

  /** Two empty arrays and one that refers to the second of them. */
  function Arrays(): Table {
    map[A := [], B := [], C := [Literal(LITERALARRAY, Str(B))]]
  }

  /** All three are created, the empty ones first. */
  function Creates(): Program {
    Program(Arrays(), [Insn(CreateArrayWithBuffer, A), Insn(CreateArrayWithBuffer, B), Insn(CreateArrayWithBuffer, C)])
  }

  function KindOf(tag: Byte): Kind {
    if tag == LITERALARRAY then RefKind else NumKind
  }

  function Here(): World {
    World(Arrays(), map[A := 0, B := 0, C := 1], KindOf)
  }

  lemma HereIsValid()
    ensures Here().Valid() && Inhabits(Here(), Creates()) && Mergeable(Here(), [Creates()])
    ensures Here().Content(A) == Here().Content(B) == Tree([])
    ensures Here().Content(C) == Tree([Nested(LITERALARRAY, Tree([]))])
  {
    var t, rank := Arrays(), Here().rank;
    assert RefsBelow(t, rank, A) && RefsBelow(t, rank, B) && RefsBelow(t, rank, C);
    assert Unfold(t, rank, A).items == [] && Unfold(t, rank, B).items == [];
    assert UnfoldLiteral(t, rank, C, 0) == Nested(LITERALARRAY, Tree([]));
    assert Unfold(t, rank, C).items == [Nested(LITERALARRAY, Tree([]))];
    assert RefsIn(t, C);
    assert [Creates()][..0] == [];
    assert Union([]) == map[];
    assert Union([Creates()]) == t;
  }

  /** The second use finds the first array under its class. */
  lemma BIsAlias()
    requires Here().Valid() && Inhabits(Here(), Creates()) && Here().Content(A) == Here().Content(B)
    ensures AliasOf(Here(), Creates(), map[], 3, B) == Some(A)
  {
    var w, p := Here(), Creates();
    assert Uses(p, 0, A) && Uses(p, 1, B) && Uses(p, 2, C);
    assert IsFirst(p, 0) && IsFirst(p, 1) && IsFirst(p, 2);
    SameClassExactly(w, p, 0, 1);
    assert !ErasedBetween(w, p, 0, 1, ClassOf(w, p, 0)) && !MixedBefore(p, 3, B);
    assert MetOpen(w, p, 0, 1, B);
    MetIsAlias(w, p, map[], 0, 1, B);
  }

  /**
   * The second array ends as an alias of the first one and is given up, although the third one still refers to it: what
   * the third instruction loads is not what it loaded.
   */
  lemma NestedIsLost()
    ensures Mergeable(Here(), [Creates()]) && AliasOf(Here(), Creates(), map[], 3, B) == Some(A)
    ensures !ContentKept(Here(), [Creates()], Finished([Creates()], [map[B := A]]))
  {
    HereIsValid();
    BIsAlias();
    var w, before, after := Here(), [Creates()], Finished([Creates()], [map[B := A]]);
    var u := Union(after);
    assert after[..0] == [] && u == Union([]) + after[0].table;
    if InsnKept(w, before, after, 0, 2) {
      assert UnfoldLiteral(u, w.rank, C, 0) == Dangling(LITERALARRAY, B);
      assert Unfold(u, w.rank, C).items[0] == Dangling(LITERALARRAY, B);
    }
  }
}
