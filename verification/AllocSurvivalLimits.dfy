/** Members called stored that are gone by the time their allocation escapes. */
module AllocSurvivalLimits {
  import opened Options
  import opened Cfg
  import opened Ssa
  import opened NilFlow
  import opened AllocEscape
  import opened AllocSurvival

  // ----- a member stored and lost -----

  /** `t := new(T); t.F = x; *t = T{}; return t` */
  const STORED_THEN_CLEARED := Func(
    Graph([[]], [[]], [None], [0]),
    [Alloc, FieldAddr(0, 0), Param(0), Const(IntV(0))],
    [Some(Pos(0, 0)), Some(Pos(0, 1)), None, None],
    [[Define(0), Define(1), Store(1, 2), Store(0, 3), Effect]])

  const CLEARED_REFS: Referrers := [[Pos(0, 1), Pos(0, 3)], [Pos(0, 2)], [Pos(0, 2)], [Pos(0, 3)]]

  lemma ClearedOperands()
    ensures OperandsInRange(STORED_THEN_CLEARED)
  {
    assert Operands(STORED_THEN_CLEARED.defs[1]) == [0];
  }

  lemma ClearedSized()
    ensures Sized(STORED_THEN_CLEARED) && Wf(STORED_THEN_CLEARED.g)
  {
    hide OperandsInRange;
    ReachSelf(STORED_THEN_CLEARED.g.succs, 0);
    ClearedOperands();
    assert Shaped(STORED_THEN_CLEARED.g);
    assert ValuesPlaced(STORED_THEN_CLEARED) && CodeInRange(STORED_THEN_CLEARED);
  }

  lemma ClearedOrdered()
    requires Sized(STORED_THEN_CLEARED)
    ensures OperandsFirst(STORED_THEN_CLEARED)
  {
    hide Shaped, ValuesPlaced, CodeInRange, OperandsInRange;
    assert Operands(STORED_THEN_CLEARED.defs[1]) == [0];
  }

  lemma ClearedUses()
    requires Sized(STORED_THEN_CLEARED)
    ensures UsesLater(STORED_THEN_CLEARED)
  {
    hide Shaped, ValuesPlaced, CodeInRange, OperandsInRange;
    assert InstrOperands(STORED_THEN_CLEARED.code[0][2]) == [1, 2];
    assert InstrOperands(STORED_THEN_CLEARED.code[0][3]) == [0, 3];
  }

  lemma ClearedWellFormed()
    ensures WellFormed(STORED_THEN_CLEARED)
  {
    hide Wf, Sized, OperandsFirst, UsesLater;
    ClearedSized();
    ClearedOrdered();
    ClearedUses();
  }

  lemma ClearedReferrers(v: Value, p: Pos)
    requires v < 4
    ensures p in CLEARED_REFS[v] <==> RefersTo(STORED_THEN_CLEARED, p, v)
  {
    assert Operands(STORED_THEN_CLEARED.defs[1]) == [0] && Operands(STORED_THEN_CLEARED.defs[0]) == [];
  }

  lemma ClearedAnswer()
    requires WellFormed(STORED_THEN_CLEARED)
    ensures FieldsNest(STORED_THEN_CLEARED)
    ensures FieldStoreReaches(STORED_THEN_CLEARED, CLEARED_REFS, 0, [0], Pos(0, 4), {})
  {
    var f := STORED_THEN_CLEARED;
    SsaFieldsNest(f);
    hide WellFormed, Sized, FieldsNest, WholeStoreFills;
    assert IsStoreTo(f, CLEARED_REFS[1][0], 1) && Precedes(f, CLEARED_REFS[1][0], Pos(0, 4));
    assert StoreReaches(f, CLEARED_REFS, 1, Pos(0, 4));
    assert IsFieldOf(f, CLEARED_REFS[0][0], 0, 0);
    assert FieldReaches(f, CLEARED_REFS, 1, [0], Pos(0, 4), {0});
  }

  lemma ClearedMember()
    requires Sized(STORED_THEN_CLEARED) && FieldsNest(STORED_THEN_CLEARED)
    ensures OnPath(STORED_THEN_CLEARED, [0], 0, 5) && !Present(STORED_THEN_CLEARED, [0], 0, [0], 0, 5)
  {
    var f := STORED_THEN_CLEARED;
    hide Sized, FieldsNest;
    assert OnPath(f, [0], 0, 5);
    assert [0][..0] == [];
    assert Touches(f, [0], 0, [0], 0, 3, 0);
    assert !Disturbs(f, [0], 0, [0], 0, 4);
    assert Disturbs(f, [0], 0, [0], 0, 3);
    forall n: nat
      ensures !Fills(f, [0], 0, [0], 0, 3, n)
    {
      if n == 1 {
        assert [0][..1] == [0];
      }
    }
    assert !Present(f, [0], 0, [0], 0, 4);
  }

  /** The search answers that the member has been stored, and on the run to the
      return it is gone. */
  lemma StoredMemberMayBeGone() returns (f: Func, refs: Referrers, p: seq<Block>)
    ensures WellFormed(f) && ReferrersOk(f, refs) && FieldsNest(f) && |f.defs| == 4 && ValidPos(f, Pos(0, 4))
    ensures FieldStoreReaches(f, refs, 0, [0], Pos(0, 4), {})
    ensures OnPath(f, p, 0, 5) && p == [0] && !Present(f, p, 0, [0], 0, 5)
  {
    hide FieldStoreReaches, Present, WellFormed;
    f, refs, p := STORED_THEN_CLEARED, CLEARED_REFS, [0];
    ClearedWellFormed();
    ClearedSized();
    ClearedAnswer();
    ClearedMember();
    forall v: Value, at: Pos | v < |refs|
      ensures at in refs[v] <==> RefersTo(f, at, v)
    {
      ClearedReferrers(v, at);
    }
  }

  // ----- a member lost before it is copied -----

  /** `t, t2 := new(T), new(T); t2.F = x; *t2 = T{}; *t = *t2; return t` */
  const CLEARED_THEN_COPIED := Func(
    Graph([[]], [[]], [None], [0]),
    [Alloc, Alloc, FieldAddr(1, 0), Param(0), Const(IntV(0)), Load(1)],
    [Some(Pos(0, 0)), Some(Pos(0, 1)), Some(Pos(0, 2)), None, None, Some(Pos(0, 5))],
    [[Define(0), Define(1), Define(2), Store(2, 3), Store(1, 4), Define(5), Store(0, 5), Effect]])

  const COPIED_REFS: Referrers :=
    [[Pos(0, 6)], [Pos(0, 2), Pos(0, 4), Pos(0, 5)], [Pos(0, 3)], [Pos(0, 3)], [Pos(0, 4)], [Pos(0, 6)]]

  lemma CopiedOperands()
    ensures OperandsInRange(CLEARED_THEN_COPIED)
  {
    assert Operands(CLEARED_THEN_COPIED.defs[2]) == [1] && Operands(CLEARED_THEN_COPIED.defs[5]) == [1];
  }

  lemma CopiedCode()
    ensures ValuesPlaced(CLEARED_THEN_COPIED) && CodeInRange(CLEARED_THEN_COPIED)
  {
  }

  lemma CopiedSized()
    ensures Sized(CLEARED_THEN_COPIED) && Wf(CLEARED_THEN_COPIED.g)
  {
    hide OperandsInRange, ValuesPlaced, CodeInRange;
    ReachSelf(CLEARED_THEN_COPIED.g.succs, 0);
    CopiedOperands();
    CopiedCode();
    assert Shaped(CLEARED_THEN_COPIED.g);
  }

  lemma CopiedOrdered()
    requires Sized(CLEARED_THEN_COPIED)
    ensures OperandsFirst(CLEARED_THEN_COPIED)
  {
    hide Shaped, ValuesPlaced, CodeInRange, OperandsInRange;
    assert Operands(CLEARED_THEN_COPIED.defs[2]) == [1] && Operands(CLEARED_THEN_COPIED.defs[5]) == [1];
  }

  lemma CopiedUses()
    requires Sized(CLEARED_THEN_COPIED)
    ensures UsesLater(CLEARED_THEN_COPIED)
  {
    hide Shaped, ValuesPlaced, CodeInRange, OperandsInRange, Dom;
    assert InstrOperands(CLEARED_THEN_COPIED.code[0][3]) == [2, 3];
    assert InstrOperands(CLEARED_THEN_COPIED.code[0][4]) == [1, 4];
    assert InstrOperands(CLEARED_THEN_COPIED.code[0][6]) == [0, 5];
  }

  lemma CopiedWellFormed()
    ensures WellFormed(CLEARED_THEN_COPIED)
  {
    hide Wf, Sized, OperandsFirst, UsesLater;
    CopiedSized();
    CopiedOrdered();
    CopiedUses();
  }

  lemma CopiedReferrers(v: Value, p: Pos)
    requires v < 6
    ensures p in COPIED_REFS[v] <==> RefersTo(CLEARED_THEN_COPIED, p, v)
  {
    var f := CLEARED_THEN_COPIED;
    assert Operands(f.defs[2]) == [1] && Operands(f.defs[5]) == [1];
    assert Operands(f.defs[0]) == [] && Operands(f.defs[1]) == [];
  }

  /** The storage copied from has been stored to by the time it is read. */
  lemma SourceAnswer()
    requires Sized(CLEARED_THEN_COPIED) && FieldsNest(CLEARED_THEN_COPIED)
    ensures FieldStoreReaches(CLEARED_THEN_COPIED, COPIED_REFS, 1, [0], Pos(0, 5), {0})
  {
    var f := CLEARED_THEN_COPIED;
    hide Sized, FieldsNest, WholeStoreFills;
    assert IsStoreTo(f, COPIED_REFS[2][0], 2) && Precedes(f, COPIED_REFS[2][0], Pos(0, 5));
    assert StoreReaches(f, COPIED_REFS, 2, Pos(0, 5));
    assert IsFieldOf(f, COPIED_REFS[1][0], 1, 0);
    assert FieldReaches(f, COPIED_REFS, 2, [0], Pos(0, 5), {0} + {1});
  }

  lemma CopiedAnswer()
    requires WellFormed(CLEARED_THEN_COPIED)
    ensures FieldsNest(CLEARED_THEN_COPIED)
    ensures FieldStoreReaches(CLEARED_THEN_COPIED, COPIED_REFS, 0, [0], Pos(0, 7), {})
  {
    var f := CLEARED_THEN_COPIED;
    SsaFieldsNest(f);
    hide WellFormed, Sized, FieldsNest;
    SourceAnswer();
    var store := COPIED_REFS[0][0];
    assert {} + {0} == {0} && [] + [0] == [0];
    assert Root(f, 1) == Some((1, []));
    assert StoredValue(f, store) == 5;
    assert StoredFills(f, COPIED_REFS, store, [0], {0});
    assert IsStoreTo(f, store, 0) && Precedes(f, store, Pos(0, 7));
    assert WholeStoreFills(f, COPIED_REFS, 0, [0], Pos(0, 7), {0});
  }

  lemma SourceMember()
    requires Sized(CLEARED_THEN_COPIED) && FieldsNest(CLEARED_THEN_COPIED)
    ensures OnPath(CLEARED_THEN_COPIED, [0], 0, 5) && !Present(CLEARED_THEN_COPIED, [0], 1, [0], 0, 5)
  {
    var f := CLEARED_THEN_COPIED;
    hide Sized, FieldsNest;
    assert [0][..0] == [];
    assert Touches(f, [0], 1, [0], 0, 4, 0);
    assert Disturbs(f, [0], 1, [0], 0, 4);
    forall n: nat
      ensures !Fills(f, [0], 1, [0], 0, 4, n)
    {
      if n == 1 {
        assert [0][..1] == [0];
      }
    }
  }

  lemma CopiedMember()
    requires Sized(CLEARED_THEN_COPIED) && FieldsNest(CLEARED_THEN_COPIED)
    ensures OnPath(CLEARED_THEN_COPIED, [0], 0, 8) && !Present(CLEARED_THEN_COPIED, [0], 0, [0], 0, 8)
  {
    var f := CLEARED_THEN_COPIED;
    hide Sized, FieldsNest;
    SourceMember();
    assert [0][..0] == [] && [0][0..] == [0] && [] + [0] == [0];
    assert Root(f, 1) == Some((1, []));
    assert ContentOf(f, Pos(0, 6), [0]) == ReadFrom(Pos(0, 5), 1, [0]);
    assert Touches(f, [0], 0, [0], 0, 6, 0);
    assert Disturbs(f, [0], 0, [0], 0, 6) && !Disturbs(f, [0], 0, [0], 0, 7);
    forall n: nat
      ensures !Fills(f, [0], 0, [0], 0, 6, n)
    {
      if n == 1 {
        assert [0][..1] == [0];
      }
    }
    assert !Present(f, [0], 0, [0], 0, 7);
  }

  /** The search follows the copy to the storage it was read from and asks only
      for a store there: it answers that the member has been stored, and what is
      returned is a copy of nothing, although nothing touched it since. */
  lemma CopiedMemberMayBeGone() returns (f: Func, refs: Referrers, p: seq<Block>)
    ensures WellFormed(f) && ReferrersOk(f, refs) && FieldsNest(f) && |f.defs| == 6 && ValidPos(f, Pos(0, 7))
    ensures FieldStoreReaches(f, refs, 0, [0], Pos(0, 7), {})
    ensures OnPath(f, p, 0, 8) && p == [0] && !Present(f, p, 0, [0], 0, 8)
    ensures Touches(f, p, 0, [0], 0, 6, 0) && Untouched(f, p, 0, [0], 0, 6, 0, 8)
  {
    hide FieldStoreReaches, Present, WellFormed;
    f, refs, p := CLEARED_THEN_COPIED, COPIED_REFS, [0];
    CopiedWellFormed();
    CopiedSized();
    CopiedAnswer();
    CopiedMember();
    assert [0][..0] == [];
    forall v: Value, at: Pos | v < |refs|
      ensures at in refs[v] <==> RefersTo(f, at, v)
    {
      CopiedReferrers(v, at);
    }
  }
}
