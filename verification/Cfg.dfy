/** Basic blocks, the paths through them, and the immediate-dominator tree.
    Block 0 is the function's entry. */
module Cfg {
  import opened Options

  type Block = nat

  /** Adjacency lists, indexed by block. */
  type Edges = seq<seq<Block>>

  /** `idom` and `depth` describe the dominator tree: a block's immediate
      dominator, and how far it sits below the entry. */
  datatype Graph = Graph(succs: Edges, preds: Edges, idom: seq<Option<Block>>, depth: seq<nat>)

  // ----- paths along an adjacency list -----

  predicate Closed(adj: Edges) {
    forall a, i | 0 <= a < |adj| && 0 <= i < |adj[a]| :: adj[a][i] < |adj|
  }

  predicate IsPath(adj: Edges, p: seq<Block>) {
    && |p| > 0
    && (forall i | 0 <= i < |p| :: p[i] < |adj|)
    && (forall i | 0 <= i < |p| - 1 :: p[i + 1] in adj[p[i]])
  }

  predicate Joins(adj: Edges, a: Block, p: seq<Block>, b: Block) {
    IsPath(adj, p) && p[0] == a && p[|p| - 1] == b
  }

  ghost predicate Reach(adj: Edges, a: Block, b: Block) {
    exists p :: Joins(adj, a, p, b)
  }

  /** a reaches b without meeting x. */
  ghost predicate ReachAvoiding(adj: Edges, a: Block, b: Block, x: Block) {
    exists p :: Joins(adj, a, p, b) && x !in p
  }

  lemma Splice(adj: Edges, a: Block, p: seq<Block>, b: Block, q: seq<Block>, c: Block)
    requires Joins(adj, a, p, b) && Joins(adj, b, q, c)
    ensures Joins(adj, a, p + q[1..], c)
  {
    var r := p + q[1..];
    forall i | 0 <= i < |r| - 1
      ensures r[i + 1] in adj[r[i]]
    {
      if i >= |p| - 1 {
        assert r[i] == q[i - (|p| - 1)];
        assert r[i + 1] == q[i - (|p| - 1) + 1];
      }
    }
  }

  lemma Cut(adj: Edges, p: seq<Block>, i: nat, j: nat)
    requires IsPath(adj, p) && i <= j < |p|
    ensures Joins(adj, p[i], p[i..j + 1], p[j])
  {
    var q := p[i..j + 1];
    forall k | 0 <= k < |q| - 1
      ensures q[k + 1] in adj[q[k]]
    {
      assert q[k] == p[i + k] && q[k + 1] == p[i + k + 1];
    }
  }

  lemma ReachTransitive(adj: Edges, a: Block, b: Block, c: Block)
    requires Reach(adj, a, b) && Reach(adj, b, c)
    ensures Reach(adj, a, c)
  {
    var p :| Joins(adj, a, p, b);
    var q :| Joins(adj, b, q, c);
    Splice(adj, a, p, b, q, c);
  }

  lemma ReachSelf(adj: Edges, a: Block)
    requires a < |adj|
    ensures Reach(adj, a, a)
  {
    assert Joins(adj, a, [a], a);
  }

  lemma ReachEdge(adj: Edges, a: Block, b: Block)
    requires a < |adj| && b < |adj| && b in adj[a]
    ensures Reach(adj, a, b)
  {
    assert Joins(adj, a, [a, b], b);
  }

  lemma ReachAlong(adj: Edges, p: seq<Block>, i: nat, j: nat)
    requires IsPath(adj, p) && i <= j < |p|
    ensures Reach(adj, p[i], p[j])
  {
    Cut(adj, p, i, j);
  }

  // ----- control-flow graphs -----

  predicate IsBlock(g: Graph, b: Block) {
    b < |g.succs|
  }

  predicate InRange(adj: Edges, b: Block) {
    b < |adj|
  }

  function Within(adj: Edges): set<Block> {
    set b: Block | b < |adj| && InRange(adj, b)
  }

  function Blocks(g: Graph): set<Block> {
    Within(g.succs)
  }

  /** What a walk along the lists needs: every entry is a block, and the
      dominator tree is a tree. */
  predicate Shaped(g: Graph) {
    && 0 < |g.succs| == |g.preds| == |g.idom| == |g.depth|
    && Closed(g.succs) && Closed(g.preds)
    && (forall b | 0 <= b < |g.idom| && g.idom[b].Some? ::
          g.idom[b].value < |g.succs| && g.depth[b] == g.depth[g.idom[b].value] + 1)
  }

  /** a dominates b: no path from the entry reaches b without meeting a. */
  ghost predicate Dom(g: Graph, a: Block, b: Block) {
    forall p :: Joins(g.succs, 0, p, b) ==> a in p
  }

  ghost predicate IsIdom(g: Graph, d: Block, b: Block) {
    && d != b
    && Dom(g, d, b)
    && (forall a: Block | a < |g.succs| && a != b && Dom(g, a, b) :: Dom(g, a, d))
  }

  /** The graphs the SSA builder hands over: predecessors mirror successors,
      nothing jumps to the entry, every block is reachable, and `idom` names
      each block's immediate dominator. */
  ghost predicate Wf(g: Graph) {
    && Shaped(g)
    && (forall a: Block, b: Block | a < |g.succs| && b < |g.succs| :: b in g.succs[a] <==> a in g.preds[b])
    && g.preds[0] == []
    && (forall b: Block | b < |g.succs| :: Reach(g.succs, 0, b))
    && g.idom[0] == None
    && (forall b: Block | 0 < b < |g.succs| :: g.idom[b].Some? && IsIdom(g, g.idom[b].value, b))
  }

  lemma DomTransitive(g: Graph, a: Block, b: Block, c: Block)
    requires Dom(g, a, b) && Dom(g, b, c)
    ensures Dom(g, a, c)
  {
    forall p | Joins(g.succs, 0, p, c)
      ensures a in p
    {
      var k :| 0 <= k < |p| && p[k] == b;
      Cut(g.succs, p, 0, k);
      assert p[0..k + 1] <= p;
    }
  }

  /** The source's walk up the idom chain. */
  predicate OnChain(g: Graph, a: Block, b: Block)
    requires Shaped(g) && IsBlock(g, b)
    decreases g.depth[b]
  {
    a == b || (g.idom[b].Some? && OnChain(g, a, g.idom[b].value))
  }

  /** The walk up the idom chain answers path dominance. */
  lemma {:induction false} ChainIsDominance(g: Graph, a: Block, b: Block)
    requires Wf(g) && IsBlock(g, a) && IsBlock(g, b)
    ensures OnChain(g, a, b) <==> Dom(g, a, b)
    decreases g.depth[b]
  {
    if a == b {
    } else if b == 0 {
      assert Joins(g.succs, 0, [0], 0);
    } else {
      var d := g.idom[b].value;
      assert IsIdom(g, d, b);
      ChainIsDominance(g, a, d);
      if OnChain(g, a, d) {
        DomTransitive(g, a, d, b);
      }
    }
  }

  lemma {:induction false} ChainDepth(g: Graph, a: Block, b: Block)
    requires Shaped(g) && IsBlock(g, b) && OnChain(g, a, b)
    ensures IsBlock(g, a) && g.depth[a] <= g.depth[b]
    ensures a != b ==> g.depth[a] < g.depth[b]
    decreases g.depth[b]
  {
    if a != b {
      ChainDepth(g, a, g.idom[b].value);
    }
  }

  lemma DomAntisymmetric(g: Graph, a: Block, b: Block)
    requires Wf(g) && IsBlock(g, a) && IsBlock(g, b)
    requires Dom(g, a, b) && Dom(g, b, a)
    ensures a == b
  {
    ChainIsDominance(g, a, b);
    ChainIsDominance(g, b, a);
    ChainDepth(g, a, b);
    ChainDepth(g, b, a);
  }

  lemma {:induction false} ChainComparable(g: Graph, a: Block, b: Block, c: Block)
    requires Shaped(g) && IsBlock(g, a) && IsBlock(g, b) && IsBlock(g, c)
    requires OnChain(g, a, c) && OnChain(g, b, c)
    ensures OnChain(g, a, b) || OnChain(g, b, a)
    decreases g.depth[c]
  {
    if a != c && b != c {
      ChainComparable(g, a, b, g.idom[c].value);
    }
  }

  /** Two blocks that dominate a third are ordered by dominance. */
  lemma DomComparable(g: Graph, a: Block, b: Block, c: Block)
    requires Wf(g) && IsBlock(g, a) && IsBlock(g, b) && IsBlock(g, c)
    requires Dom(g, a, c) && Dom(g, b, c)
    ensures Dom(g, a, b) || Dom(g, b, a)
  {
    ChainIsDominance(g, a, c);
    ChainIsDominance(g, b, c);
    ChainComparable(g, a, b, c);
    ChainIsDominance(g, a, b);
    ChainIsDominance(g, b, a);
  }

  lemma NotDominatedBack(g: Graph, a: Block, b: Block)
    requires Wf(g) && IsBlock(g, a) && IsBlock(g, b)
    requires Dom(g, a, b) && a != b
    ensures !Dom(g, b, a)
  {
    if Dom(g, b, a) {
      DomAntisymmetric(g, a, b);
    }
  }

  // ----- choosing paths -----

  lemma {:induction false} FirstIndex(q: seq<Block>, b: Block) returns (k: nat)
    requires b in q
    ensures k < |q| && q[k] == b
    ensures forall i | 0 <= i < k :: q[i] != b
  {
    if q[0] == b {
      k := 0;
    } else {
      k := FirstIndex(q[1..], b);
      k := k + 1;
      assert forall i | 1 <= i < k :: q[i] == q[1..][i - 1];
    }
  }

  lemma {:induction false} LastIndex(q: seq<Block>, b: Block) returns (k: nat)
    requires b in q
    ensures k < |q| && q[k] == b
    ensures forall i | k < i < |q| :: q[i] != b
  {
    var n := |q| - 1;
    if q[n] == b {
      k := n;
    } else {
      k := LastIndex(q[..n], b);
      assert forall i | k < i < n :: q[i] == q[..n][i];
    }
  }

  /** A path to b that meets b only at its end. */
  lemma FirstArrival(g: Graph, b: Block) returns (p: seq<Block>)
    requires Wf(g) && IsBlock(g, b)
    ensures Joins(g.succs, 0, p, b)
    ensures forall i | 0 <= i < |p| - 1 :: p[i] != b
  {
    assert Reach(g.succs, 0, b);
    var q :| Joins(g.succs, 0, q, b);
    var k := FirstIndex(q, b);
    Cut(g.succs, q, 0, k);
    p := q[0..k + 1];
  }

  /** A path to b that does not meet a, when a does not dominate b. */
  lemma AvoidingPath(g: Graph, a: Block, b: Block) returns (p: seq<Block>)
    requires !Dom(g, a, b)
    ensures Joins(g.succs, 0, p, b) && a !in p
  {
    p :| Joins(g.succs, 0, p, b) && a !in p;
  }

  /** A predecessor of b that x does not dominate. */
  lemma AvoidingPred(g: Graph, x: Block, b: Block) returns (o: Block)
    requires Wf(g) && IsBlock(g, b) && b != 0
    requires x == b || !Dom(g, x, b)
    ensures IsBlock(g, o) && o in g.preds[b] && !Dom(g, x, o)
  {
    var p;
    if x == b {
      p := FirstArrival(g, b);
    } else {
      p := AvoidingPath(g, x, b);
    }
    var n := |p| - 1;
    o := p[n - 1];
    Cut(g.succs, p, 0, n - 1);
    assert p[n] in g.succs[p[n - 1]];
    assert x !in p[0..n];
  }

  /** Between an execution of d and a later block that h dominates lies an
      execution of h, whenever d strictly dominates h. */
  lemma MeetsBetween(g: Graph, d: Block, h: Block, p: seq<Block>, j: nat, i: nat)
    requires Wf(g) && IsPath(g.succs, p) && j <= i < |p| && p[j] == d
    requires IsBlock(g, h) && d != h && Dom(g, d, h) && Dom(g, h, p[i])
    ensures exists k :: j < k <= i && p[k] == h
  {
    NotDominatedBack(g, d, h);
    var q := AvoidingPath(g, h, d);
    Cut(g.succs, p, j, i);
    var t := p[j..i + 1];
    Splice(g.succs, 0, q, d, t, p[i]);
    var r := q + t[1..];
    assert h in r;
    var k :| 0 <= k < |r| && r[k] == h;
    assert k >= |q|;
    assert r[k] == t[1..][k - |q|] == p[j + 1 + k - |q|];
  }

  // ----- edges that every path crosses -----

  predicate Crosses(p: seq<Block>, h: Block, s: Block) {
    exists k :: 0 <= k < |p| - 1 && p[k] == h && p[k + 1] == s
  }

  /** No way into s except from h, or round a loop that s itself heads. */
  ghost predicate EntersOnlyFrom(g: Graph, h: Block, s: Block)
    requires Shaped(g) && IsBlock(g, s)
  {
    forall p | p in g.preds[s] :: p == h || Dom(g, s, p)
  }

  lemma CrossesOnArrival(g: Graph, h: Block, s: Block, b: Block, p: seq<Block>)
    requires Wf(g) && IsBlock(g, h) && IsBlock(g, s) && IsBlock(g, b)
    requires s != 0 && Dom(g, s, b) && EntersOnlyFrom(g, h, s)
    requires Joins(g.succs, 0, p, b)
    ensures Crosses(p, h, s)
  {
    var k := FirstIndex(p, s);
    var o := p[k - 1];
    assert p[k] in g.succs[o] && o in g.preds[s];
    assert o == h by {
      if o != h {
        Cut(g.succs, p, 0, k - 1);
      }
    }
  }

  /** A path to b that enters s, for the only time, from o. */
  lemma EnteringFrom(g: Graph, o: Block, s: Block, b: Block) returns (w: seq<Block>)
    requires Wf(g) && IsBlock(g, o) && IsBlock(g, s) && IsBlock(g, b)
    requires s in g.succs[o] && !Dom(g, s, o) && Dom(g, s, b)
    ensures Joins(g.succs, 0, w, b)
    ensures forall c | 0 < c < |w| && w[c] == s :: w[c - 1] == o
  {
    var q := AvoidingPath(g, s, o);
    var t := FirstArrival(g, b);
    var k := LastIndex(t, s);
    Cut(g.succs, t, k, |t| - 1);
    var u := t[k..|t| - 1 + 1];
    assert Joins(g.succs, o, [o, s], s);
    Splice(g.succs, 0, q, o, [o, s], s);
    var v := q + [o, s][1..];
    Splice(g.succs, 0, v, s, u, b);
    w := v + u[1..];
    forall c | 0 <= c < |w| && c != |q|
      ensures w[c] != s
    {
      if c < |q| {
        assert w[c] == q[c];
      } else {
        assert w[c] == u[1..][c - |q| - 1] == t[k + c - |q|];
      }
    }
    assert w[|q| - 1] == o;
  }

  /** The exact condition under which an arm that dominates b also stands for
      having taken that arm: every path to b crosses the edge h -> s if and
      only if s is entered from h alone, loops through s aside. */
  lemma ArmIsCrossedIff(g: Graph, h: Block, s: Block, b: Block)
    requires Wf(g) && IsBlock(g, h) && IsBlock(g, s) && IsBlock(g, b)
    requires s in g.succs[h] && Dom(g, s, b)
    ensures (forall p | Joins(g.succs, 0, p, b) :: Crosses(p, h, s)) <==> EntersOnlyFrom(g, h, s)
  {
    assert s != 0;
    if EntersOnlyFrom(g, h, s) {
      forall p | Joins(g.succs, 0, p, b)
        ensures Crosses(p, h, s)
      {
        CrossesOnArrival(g, h, s, b, p);
      }
    } else {
      var o :| o in g.preds[s] && o != h && !Dom(g, s, o);
      var w := EnteringFrom(g, o, s, b);
      assert !Crosses(w, h, s);
    }
  }

  /** After the last visit to h, a run that reaches b has left h by s. */
  lemma LeavesByArm(g: Graph, h: Block, s: Block, p: seq<Block>, m: nat, i: nat)
    requires Wf(g) && IsPath(g.succs, p)
    requires m < i < |p| && p[m] == h && (forall k | m < k <= i :: p[k] != h)
    requires IsBlock(g, s) && s != 0 && Dom(g, s, p[i]) && EntersOnlyFrom(g, h, s)
    ensures p[m + 1] == s
  {
    var q := FirstArrival(g, h);
    Cut(g.succs, p, m, i);
    var t := p[m..i + 1];
    Splice(g.succs, 0, q, h, t, p[i]);
    var r := q + t[1..];
    CrossesOnArrival(g, h, s, p[i], r);
    forall c | 0 <= c < |r| && c != |q| - 1
      ensures r[c] != h
    {
      if c < |q| {
        assert r[c] == q[c];
      } else {
        assert r[c] == t[1..][c - |q|] == p[m + 1 + c - |q|];
      }
    }
    assert r[|q|] == t[1] == p[m + 1];
  }

  lemma EdgeFromIdom(g: Graph, cur: Block, s: Block)
    requires Wf(g) && IsBlock(g, cur) && IsBlock(g, s) && cur != 0
    requires s in g.succs[g.idom[cur].value] && Dom(g, cur, s)
    ensures s == cur
  {
    var host := g.idom[cur].value;
    assert IsIdom(g, host, cur);
    NotDominatedBack(g, host, cur);
    var q := AvoidingPath(g, cur, host);
    assert Joins(g.succs, host, [host, s], s);
    Splice(g.succs, 0, q, host, [host, s], s);
    assert cur in q + [host, s][1..];
  }

  /** For host = idom(cur) with cur dominating block, asking which successor of
      host dominates block and asking which dominates cur select the same arm. */
  lemma ArmQuestionsAgree(g: Graph, cur: Block, block: Block, s: Block)
    requires Wf(g) && IsBlock(g, cur) && IsBlock(g, block) && IsBlock(g, s)
    requires cur != 0 && Dom(g, cur, block)
    requires s in g.succs[g.idom[cur].value]
    ensures Dom(g, s, block) <==> Dom(g, s, cur)
  {
    if Dom(g, s, cur) {
      DomTransitive(g, s, cur, block);
    }
    if Dom(g, s, block) {
      DomComparable(g, s, cur, block);
      if Dom(g, cur, s) {
        EdgeFromIdom(g, cur, s);
      }
    }
  }
}
