/** The guard search as the program runs it: worklists, walks and visited maps
    updated in place, each against the relation it computes. */
module NarrowSearch {
  import opened Options
  import opened Cfg
  import opened Ssa
  import opened Narrow
  import opened NarrowSound

  /** A map from blocks to true, shared by the calls of one search. */
  class BlockSet {
    var members: set<Block>

    constructor ()
      ensures members == {}
    {
      members := {};
    }
  }

  // ----- reachability -----

  lemma {:induction false} ClosedHoldsPath(adj: Edges, seen: set<Block>, p: seq<Block>, i: nat)
    requires IsPath(adj, p) && i < |p| && p[0] in seen
    requires forall b: Block | b in seen && b < |adj| :: forall c | c in adj[b] :: c in seen
    ensures p[i] in seen
  {
    if i > 0 {
      ClosedHoldsPath(adj, seen, p, i - 1);
    }
  }

  /** What has been seen leads only to what has been seen or is waiting. */
  predicate Frontier(adj: Edges, seen: set<Block>, stack: seq<Block>) {
    forall b: Block, c: Block | b in seen && b < |adj| && c in adj[b] :: c in seen || c in stack
  }

  lemma PopKeepsFrontier(adj: Edges, seen: set<Block>, rest: seq<Block>, block: Block)
    requires Frontier(adj, seen, rest + [block])
    ensures block in seen ==> Frontier(adj, seen, rest)
    ensures block < |adj| ==> Frontier(adj, seen + {block}, rest + adj[block])
  {
    forall b: Block, c: Block | b in seen && b < |adj| && c in adj[b]
      ensures c in seen || c == block || c in rest
    {
      assert c in rest + [block] ==> c in rest || c == block;
    }
  }

  /** The worklist returns exactly what the start reaches. */
  method ReachableBlocks(adj: Edges, start: Block) returns (seen: set<Block>)
    requires Closed(adj) && start < |adj|
    ensures forall b: Block :: b in seen <==> Reach(adj, start, b)
  {
    seen := {};
    var stack := [start];
    ReachSelf(adj, start);
    while |stack| > 0
      invariant forall b: Block | b in stack :: b < |adj| && Reach(adj, start, b)
      invariant seen <= Within(adj)
      invariant forall b | b in seen :: Reach(adj, start, b)
      invariant start in seen || start in stack
      invariant Frontier(adj, seen, stack)
      decreases Within(adj) - seen, |stack|
    {
      var block := stack[|stack| - 1];
      assert block in stack && stack == stack[..|stack| - 1] + [block];
      PopKeepsFrontier(adj, seen, stack[..|stack| - 1], block);
      stack := stack[..|stack| - 1];
      if block !in seen {
        forall c | c in adj[block]
          ensures c < |adj| && Reach(adj, start, c)
        {
          ReachEdge(adj, block, c);
          ReachTransitive(adj, start, block, c);
        }
        seen := seen + {block};
        stack := stack + adj[block];
      }
    }
    forall b: Block | Reach(adj, start, b)
      ensures b in seen
    {
      var p :| Joins(adj, start, p, b);
      ClosedHoldsPath(adj, seen, p, |p| - 1);
    }
  }

  function Reversed(p: seq<Block>): (q: seq<Block>)
    ensures |q| == |p| && forall i | 0 <= i < |p| :: q[i] == p[|p| - 1 - i]
  {
    if p == [] then [] else Reversed(p[1..]) + [p[0]]
  }

  lemma ReachMirrored(g: Graph, a: Block, b: Block)
    requires Wf(g)
    ensures Reach(g.succs, a, b) <==> Reach(g.preds, b, a)
  {
    if Reach(g.succs, a, b) {
      var p :| Joins(g.succs, a, p, b);
      JoinsReversed(g.succs, g.preds, a, p, b);
    }
    if Reach(g.preds, b, a) {
      var p :| Joins(g.preds, b, p, a);
      JoinsReversed(g.preds, g.succs, b, p, a);
    }
  }

  lemma JoinsReversed(fwd: Edges, back: Edges, a: Block, p: seq<Block>, b: Block)
    requires |fwd| == |back| && Joins(fwd, a, p, b)
    requires forall x: Block, y: Block | x < |fwd| && y < |fwd| && y in fwd[x] :: x in back[y]
    ensures Joins(back, b, Reversed(p), a)
  {
    var q := Reversed(p);
    forall i | 0 <= i < |q| - 1
      ensures q[i + 1] in back[q[i]]
    {
      var j := |p| - 2 - i;
      assert p[j + 1] in fwd[p[j]];
    }
  }

  method BlocksBetween(g: Graph, from: Block, to: Block) returns (span: set<Block>)
    requires Wf(g) && IsBlock(g, from) && IsBlock(g, to)
    ensures forall b: Block :: b in span <==> Reach(g.succs, from, b) && Reach(g.succs, b, to)
  {
    var forward := ReachableBlocks(g.succs, from);
    var backward := ReachableBlocks(g.preds, to);
    forall b: Block
      ensures Reach(g.succs, b, to) <==> Reach(g.preds, to, b)
    {
      ReachMirrored(g, b, to);
    }
    span := set b | b in forward && b in backward;
  }

  // ----- cycles -----

  /** b is reached from a by a path that stays in span after its start. */
  ghost predicate ReachIn(adj: Edges, span: set<Block>, a: Block, b: Block) {
    exists p :: Joins(adj, a, p, b) && forall i | 0 < i < |p| :: p[i] in span
  }

  lemma ReachInStep(adj: Edges, span: set<Block>, a: Block, c: Block, b: Block)
    requires a < |adj| && c in adj[a] && c in span && ReachIn(adj, span, c, b)
    ensures ReachIn(adj, span, a, b)
  {
    var p :| Joins(adj, c, p, b) && forall i | 0 < i < |p| :: p[i] in span;
    assert Joins(adj, a, [a] + p, b);
  }

  /** What a failed search leaves behind: every block it visited has all its
      successors in the span visited too. */
  ghost predicate Exhausted(adj: Edges, span: set<Block>, before: set<Block>, after: set<Block>) {
    forall b: Block, c: Block | b in after && b !in before && b < |adj| && c in adj[b] && c in span :: c in after
  }

  /** Depth-first search with a visited map that is never cleared. */
  method ReachesWithin(adj: Edges, start: Block, target: Block, span: set<Block>, visiting: BlockSet) returns (r: bool)
    requires Closed(adj) && start < |adj|
    requires target !in visiting.members
    modifies visiting
    ensures r ==> ReachIn(adj, span, start, target)
    ensures old(visiting.members) <= visiting.members
    ensures !r ==> start in visiting.members && target !in visiting.members
    ensures !r ==> Exhausted(adj, span, old(visiting.members), visiting.members)
    decreases Within(adj) - visiting.members
  {
    if start == target {
      assert Joins(adj, start, [start], target);
      return true;
    }
    if start in visiting.members {
      return false;
    }
    ghost var before := visiting.members;
    visiting.members := visiting.members + {start};
    var i := 0;
    while i < |adj[start]|
      invariant 0 <= i <= |adj[start]|
      invariant before + {start} <= visiting.members && target !in visiting.members
      invariant forall k | 0 <= k < i && adj[start][k] in span :: adj[start][k] in visiting.members
      invariant Exhausted(adj, span, before + {start}, visiting.members)
    {
      var succ := adj[start][i];
      if succ in span {
        var found := ReachesWithin(adj, succ, target, span, visiting);
        if found {
          ReachInStep(adj, span, start, succ, target);
          return true;
        }
      }
      i := i + 1;
    }
    return false;
  }

  /** A failed search from start means no path in the span at all. */
  lemma ExhaustedMeansUnreachable(adj: Edges, span: set<Block>, start: Block, target: Block, after: set<Block>)
    requires start in after && target !in after && Exhausted(adj, span, {}, after)
    ensures !ReachIn(adj, span, start, target)
  {
    forall p | Joins(adj, start, p, target)
      ensures !(forall i | 0 < i < |p| :: p[i] in span)
    {
      if forall i | 0 < i < |p| :: p[i] in span {
        StaysVisited(adj, span, after, p, |p| - 1);
      }
    }
  }

  lemma {:induction false} StaysVisited(adj: Edges, span: set<Block>, after: set<Block>, p: seq<Block>, i: nat)
    requires IsPath(adj, p) && i < |p| && p[0] in after && Exhausted(adj, span, {}, after)
    requires forall k | 0 < k < |p| :: p[k] in span
    ensures p[i] in after
  {
    if i > 0 {
      StaysVisited(adj, span, after, p, i - 1);
    }
  }

  ghost predicate CycleIn(adj: Edges, span: set<Block>, b: Block)
    requires b < |adj|
  {
    exists c: Block :: c in adj[b] && c in span && ReachIn(adj, span, c, b)
  }

  method CycleReachesItself(adj: Edges, block: Block, span: set<Block>) returns (r: bool)
    requires Closed(adj) && block < |adj|
    ensures r <==> CycleIn(adj, span, block)
  {
    var i := 0;
    while i < |adj[block]|
      invariant 0 <= i <= |adj[block]|
      invariant forall k | 0 <= k < i && adj[block][k] in span :: !ReachIn(adj, span, adj[block][k], block)
    {
      var succ := adj[block][i];
      if succ in span {
        var visiting := new BlockSet();
        var found := ReachesWithin(adj, succ, block, span, visiting);
        if found {
          return true;
        }
        ExhaustedMeansUnreachable(adj, span, succ, block, visiting.members);
      }
      i := i + 1;
    }
    return false;
  }

  /** Looking only inside the span misses no cycle: every block of a cycle
      through the use reaches the use and is reached from it. */
  lemma SpanHoldsCycles(g: Graph, from: Block, use: Block, span: set<Block>)
    requires Wf(g) && IsBlock(g, from) && IsBlock(g, use)
    requires forall b: Block :: b in span <==> Reach(g.succs, from, b) && Reach(g.succs, b, use)
    requires use in span
    ensures CycleIn(g.succs, span, use) <==> OnCycle(g.succs, use)
  {
    if CycleIn(g.succs, span, use) {
      var c: Block :| c in g.succs[use] && c in span && ReachIn(g.succs, span, c, use);
      assert Reach(g.succs, c, use);
    }
    if OnCycle(g.succs, use) {
      var c: Block :| c in g.succs[use] && Reach(g.succs, c, use);
      var p :| Joins(g.succs, c, p, use);
      ReachEdge(g.succs, use, c);
      ReachTransitive(g.succs, from, use, c);
      forall i | 0 <= i < |p|
        ensures p[i] in span
      {
        ReachAlong(g.succs, p, 0, i);
        ReachAlong(g.succs, p, i, |p| - 1);
        ReachTransitive(g.succs, from, c, p[i]);
      }
      assert ReachIn(g.succs, span, c, use);
    }
  }

  // ----- proofs about memory -----

  method ProofHoldsFrom(f: Func, s: Subject, guard: Block) returns (r: bool)
    requires WellFormed(f) && SubjectOk(f, s) && IsBlock(f.g, guard)
    ensures r <==> HoldsFrom(f, s, guard)
  {
    match s
    case ValueSubject(_) =>
      return true;
    case FieldSubject(_, _, useBlock, _) =>
      if useBlock.None? {
        return false;
      }
      var use := useBlock.value;
      var span := BlocksBetween(f.g, guard, use);
      ReachSelf(f.g.succs, use);
      if use in span {
        var cycle := CycleReachesItself(f.g.succs, use, span);
        SpanHoldsCycles(f.g, guard, use, span);
        if cycle {
          return false;
        }
      }
      var left := span;
      while left != {}
        invariant left <= span
        invariant forall b: Block | b in span && b !in left && b != guard :: b < |f.code| && !BlockWrites(f, s, b)
        decreases left
      {
        var block :| block in left;
        assert Reach(f.g.succs, guard, block);
        if block != guard && BlockWrites(f, s, block) {
          return false;
        }
        left := left - {block};
      }
      return true;
  }

  // ----- walks -----

  method Dominates(g: Graph, ancestor: Block, b: Block) returns (r: bool)
    requires Wf(g) && IsBlock(g, ancestor) && IsBlock(g, b)
    ensures r <==> Dom(g, ancestor, b)
  {
    ChainIsDominance(g, ancestor, b);
    var cur: Option<Block> := Some(b);
    while cur.Some?
      invariant cur.Some? ==> IsBlock(g, cur.value) && (OnChain(g, ancestor, b) <==> OnChain(g, ancestor, cur.value))
      invariant cur.None? ==> !OnChain(g, ancestor, b)
      decreases if cur.Some? then g.depth[cur.value] + 1 else 0
    {
      if cur.value == ancestor {
        return true;
      }
      cur := g.idom[cur.value];
    }
    return false;
  }

  method DominatorWalk(f: Func, block: Block, s: Subject, fact: Fact, positive: bool) returns (r: bool)
    requires WellFormed(f) && SubjectOk(f, s) && IsBlock(f.g, block)
    ensures r <==> WalkProves(f, block, block, s, fact, positive)
  {
    var cur := block;
    while true
      invariant IsBlock(f.g, cur)
      invariant WalkProves(f, block, block, s, fact, positive) <==> WalkProves(f, cur, block, s, fact, positive)
      decreases f.g.depth[cur]
    {
      if f.g.idom[cur].None? {
        return false;
      }
      var host := f.g.idom[cur].value;
      if TerminatingIf(f, host).Some? {
        var side := DominantSide(f, host, block);
        if side.Some? && BranchProves(f, CondOf(f, host), s, fact, side.value, positive) {
          var holds := ProofHoldsFrom(f, s, host);
          if holds {
            return true;
          }
        }
      }
      cur := host;
    }
    return false;
  }

  method SearchEdge(f: Func, p: Block, succ: Block, s: Subject, fact: Fact, positive: bool, visiting: BlockSet)
    returns (r: bool)
    requires WellFormed(f) && SubjectOk(f, s) && IsBlock(f.g, p)
    modifies visiting
    ensures r <==> EdgeProves(f, p, succ, s, fact, positive, old(visiting.members))
    ensures visiting.members == old(visiting.members)
    decreases Blocks(f.g) - visiting.members, 1
  {
    if TerminatingIf(f, p).Some? && |f.g.succs[p]| >= 2 && succ in f.g.succs[p][..2] {
      if BranchProves(f, CondOf(f, p), s, fact, succ == f.g.succs[p][0], positive) {
        var holds := ProofHoldsFrom(f, s, p);
        if holds {
          return true;
        }
      }
    }
    r := Search(f, p, s, fact, positive, visiting);
  }

  /** blockProvesFact is this search from an empty visited map. */
  method Search(f: Func, block: Block, s: Subject, fact: Fact, positive: bool, visiting: BlockSet) returns (r: bool)
    requires WellFormed(f) && SubjectOk(f, s) && IsBlock(f.g, block)
    modifies visiting
    ensures r <==> Proves(f, block, s, fact, positive, old(visiting.members))
    ensures visiting.members == old(visiting.members)
    decreases Blocks(f.g) - visiting.members, 0
  {
    if block in visiting.members {
      return false;
    }
    ghost var before := visiting.members;
    visiting.members := visiting.members + {block};
    r := DominatorWalk(f, block, s, fact, positive);
    if !r && |f.g.preds[block]| > 0 {
      r := true;
      var i := 0;
      while i < |f.g.preds[block]| && r
        invariant 0 <= i <= |f.g.preds[block]|
        invariant visiting.members == before + {block}
        invariant r ==> forall k | 0 <= k < i ::
          EdgeProves(f, f.g.preds[block][k], block, s, fact, positive, before + {block})
        invariant !r ==> !Proves(f, block, s, fact, positive, before)
      {
        r := SearchEdge(f, f.g.preds[block][i], block, s, fact, positive, visiting);
        i := i + 1;
      }
    }
    visiting.members := visiting.members - {block};
    assert visiting.members == before;
  }
}
