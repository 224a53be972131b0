/** What the guard search cannot miss: on a function without loops, a fact that
    every path to a block establishes. */
module NarrowComplete {
  import opened Options
  import opened Cfg
  import opened Ssa
  import opened Narrow

  ghost predicate Acyclic(g: Graph) {
    forall a: Block, b: Block | a < |g.succs| && b in g.succs[a] :: !Reach(g.succs, b, a)
  }

  /** A branch whose condition the grammar of guards knows, on the arm that
      establishes the fact, and still speaking of the subject at its use. */
  ghost predicate Establishes(f: Func, s: Subject, fact: Fact, positive: bool, p: Block, b: Block)
    requires Sized(f) && SubjectOk(f, s)
  {
    && IsBlock(f.g, p) && TerminatingIf(f, p).Some? && |f.g.succs[p]| >= 2
    && (b == f.g.succs[p][0] || b == f.g.succs[p][1])
    && Tells(f, CondOf(f, p), s, fact, b == f.g.succs[p][0], positive)
    && HoldsFrom(f, s, p)
  }

  ghost predicate Established(f: Func, s: Subject, fact: Fact, positive: bool, path: seq<Block>)
    requires Sized(f) && SubjectOk(f, s)
  {
    exists i :: 0 <= i < |path| - 1 && Establishes(f, s, fact, positive, path[i], path[i + 1])
  }

  lemma EstablishesProves(f: Func, s: Subject, fact: Fact, positive: bool, p: Block, b: Block)
    requires Sized(f) && SubjectOk(f, s) && Establishes(f, s, fact, positive, p, b)
    ensures IsBlock(f.g, p) && ArmProves(f, p, b, s, fact, positive)
  {
    hide HoldsFrom, Tells, BranchProves;
    BranchProvesExact(f, CondOf(f, p), s, fact, b == f.g.succs[p][0], positive);
    assert f.g.succs[p][..2][0] == f.g.succs[p][0] && f.g.succs[p][..2][1] == f.g.succs[p][1];
  }

  /** Whatever is being visited, as long as it lies ahead of the block. */
  lemma {:induction false} SearchFindsFrom(f: Func, block: Block, s: Subject, fact: Fact, positive: bool,
                                           visiting: set<Block>)
    requires WellFormed(f) && Acyclic(f.g) && SubjectOk(f, s) && IsBlock(f.g, block)
    requires forall path | Joins(f.g.succs, 0, path, block) :: Established(f, s, fact, positive, path)
    requires forall v | v in visiting :: v != block && Reach(f.g.succs, block, v)
    ensures Proves(f, block, s, fact, positive, visiting)
    decreases Blocks(f.g) - visiting
  {
    var first := FirstArrival(f.g, block);
    assert Established(f, s, fact, positive, first) && |first| > 1;
    assert first[|first| - 1] in f.g.succs[first[|first| - 2]] && first[|first| - 2] in f.g.preds[block];
    forall k | 0 <= k < |f.g.preds[block]|
      ensures EdgeProves(f, f.g.preds[block][k], block, s, fact, positive, visiting + {block})
    {
      var p := f.g.preds[block][k];
      assert p in f.g.preds[block] && block in f.g.succs[p];
      if Establishes(f, s, fact, positive, p, block) {
        EstablishesProves(f, s, fact, positive, p, block);
      } else {
        StillAhead(f, p, block, visiting);
        EstablishedBefore(f, s, fact, positive, p, block);
        SearchFindsFrom(f, p, s, fact, positive, visiting + {block});
      }
    }
  }

  lemma StillAhead(f: Func, p: Block, block: Block, visiting: set<Block>)
    requires WellFormed(f) && Acyclic(f.g) && IsBlock(f.g, p) && IsBlock(f.g, block) && block in f.g.succs[p]
    requires forall v | v in visiting :: v != block && Reach(f.g.succs, block, v)
    ensures forall v | v in visiting + {block} :: v != p && Reach(f.g.succs, p, v)
  {
    ReachEdge(f.g.succs, p, block);
    ReachSelf(f.g.succs, p);
    forall v | v in visiting + {block}
      ensures v != p && Reach(f.g.succs, p, v)
    {
      if v != block {
        ReachTransitive(f.g.succs, p, block, v);
      }
    }
  }

  lemma EstablishedBefore(f: Func, s: Subject, fact: Fact, positive: bool, p: Block, block: Block)
    requires WellFormed(f) && SubjectOk(f, s) && IsBlock(f.g, p) && IsBlock(f.g, block) && block in f.g.succs[p]
    requires !Establishes(f, s, fact, positive, p, block)
    requires forall path | Joins(f.g.succs, 0, path, block) :: Established(f, s, fact, positive, path)
    ensures forall path | Joins(f.g.succs, 0, path, p) :: Established(f, s, fact, positive, path)
  {
    hide Establishes;
    forall path | Joins(f.g.succs, 0, path, p)
      ensures Established(f, s, fact, positive, path)
    {
      var on := path + [p, block][1..];
      assert Joins(f.g.succs, p, [p, block], block);
      Splice(f.g.succs, 0, path, p, [p, block], block);
      assert Established(f, s, fact, positive, on);
      var i :| 0 <= i < |on| - 1 && Establishes(f, s, fact, positive, on[i], on[i + 1]);
      assert on[|path| - 1] == p && on[|path|] == block;
      assert i < |path| - 1 && on[i] == path[i] && on[i + 1] == path[i + 1];
    }
  }

  /** On a function without loops the search answers true whenever every path to
      the block takes some arm that establishes the fact, though the arms may
      belong to different guards on different paths. */
  lemma SearchFindsEstablished(f: Func, block: Block, s: Subject, fact: Fact, positive: bool)
    requires WellFormed(f) && Acyclic(f.g) && SubjectOk(f, s) && IsBlock(f.g, block)
    requires forall path | Joins(f.g.succs, 0, path, block) :: Established(f, s, fact, positive, path)
    ensures Proves(f, block, s, fact, positive, {})
  {
    SearchFindsFrom(f, block, s, fact, positive, {});
  }
}
