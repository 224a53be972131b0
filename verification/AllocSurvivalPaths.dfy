/** When a member is there at a point of the function on every path to it. */
module AllocSurvivalPaths {
  import opened Options
  import opened Cfg
  import opened Ssa
  import opened NilFlow
  import opened AllocEscape
  import opened AllocSurvival

  // ----- paths that agree so far -----

  predicate Agree(p: seq<Block>, q: seq<Block>, i: nat) {
    i < |p| && i < |q| && forall k | 0 <= k <= i :: p[k] == q[k]
  }

  /** What is in the member depends on the path taken so far alone. */
  lemma {:induction false} PresentAgrees(f: Func, p: seq<Block>, q: seq<Block>, base: Value, path: seq<nat>,
                                         i: nat, x: nat)
    requires Sized(f) && FieldsNest(f) && OnPath(f, p, i, x) && IsPath(f.g.succs, q) && Agree(p, q, i)
    ensures OnPath(f, q, i, x) && (Present(f, p, base, path, i, x) <==> Present(f, q, base, path, i, x))
    decreases i, x, 0
  {
    hide Disturbs, FilledAt;
    if x == 0 {
      if i > 0 {
        PresentAgrees(f, p, q, base, path, i - 1, |f.code[p[i - 1]]|);
      }
    } else {
      DisturbsLikewise(f, p, i, q, i, base, path, x - 1);
      FilledAgrees(f, p, q, base, path, i, x - 1);
      PresentAgrees(f, p, q, base, path, i, x - 1);
    }
  }

  /** Whether an instruction disturbs the member depends on where it stands. */
  lemma DisturbsLikewise(f: Func, p: seq<Block>, i: nat, q: seq<Block>, j: nat, base: Value, path: seq<nat>, y: nat)
    requires i < |p| && j < |q| && p[i] == q[j]
    ensures Disturbs(f, p, base, path, i, y) <==> Disturbs(f, q, base, path, j, y)
  {
    assert forall n: nat :: Touches(f, p, base, path, i, y, n) <==> Touches(f, q, base, path, j, y, n);
  }

  lemma {:induction false} FilledAgrees(f: Func, p: seq<Block>, q: seq<Block>, base: Value, path: seq<nat>,
                                        j: nat, y: nat)
    requires Sized(f) && FieldsNest(f) && IsPath(f.g.succs, p) && IsPath(f.g.succs, q) && Agree(p, q, j)
    ensures FilledAt(f, p, base, path, j, y) <==> FilledAt(f, q, base, path, j, y)
    decreases j, y, 2
  {
    hide Touches, Fills;
    forall n: nat
      ensures Fills(f, p, base, path, j, y, n) <==> Fills(f, q, base, path, j, y, n)
    {
      FillsAgrees(f, p, q, base, path, j, y, n);
    }
  }

  lemma {:induction false} FillsAgrees(f: Func, p: seq<Block>, q: seq<Block>, base: Value, path: seq<nat>,
                                       j: nat, y: nat, n: nat)
    requires Sized(f) && FieldsNest(f) && IsPath(f.g.succs, p) && IsPath(f.g.succs, q) && Agree(p, q, j)
    ensures Fills(f, p, base, path, j, y, n) <==> Fills(f, q, base, path, j, y, n)
    decreases j, y, 1
  {
    hide Present, ContentOf;
    if Touches(f, p, base, path, j, y, n) && n != |path| {
      var content := ContentOf(f, Pos(p[j], y), path[n..]);
      if content.ReadFrom? {
        forall k: nat
          ensures LastRun(f, p, content.load, k, j, y) <==> LastRun(f, q, content.load, k, j, y)
          ensures LastRun(f, p, content.load, k, j, y) ==>
            OnPath(f, p, k, content.load.index) && OnPath(f, q, k, content.load.index)
            && (Present(f, p, content.alloc, content.whole, k, content.load.index)
                <==> Present(f, q, content.alloc, content.whole, k, content.load.index))
        {
          LastRunAgrees(f, p, q, content.load, k, j, y);
          if LastRun(f, p, content.load, k, j, y) {
            PresentAgrees(f, p, q, content.alloc, content.whole, k, content.load.index);
          }
        }
      }
    }
  }

  lemma LastRunAgrees(f: Func, p: seq<Block>, q: seq<Block>, load: Pos, k: nat, j: nat, y: nat)
    requires Agree(p, q, j)
    ensures LastRun(f, p, load, k, j, y) <==> LastRun(f, q, load, k, j, y)
    ensures LastRun(f, p, load, k, j, y) ==> k <= j
  {
  }

  // ----- an address is one depth down -----

  predicate Lower(f: Func, x: Value, v: Value)
    requires Sized(f) && IsValue(f, x) && IsValue(f, v) && f.at[x].Some? && f.at[v].Some?
  {
    var a, b := f.at[x].value, f.at[v].value;
    f.g.depth[a.block] < f.g.depth[b.block] || (f.g.depth[a.block] == f.g.depth[b.block] && a.index < b.index)
  }

  lemma {:induction false} AddressBelow(f: Func, addr: Value, base: Value, fs: seq<nat>)
    requires Sized(f) && FieldsNest(f) && IsValue(f, base) && Addresses(f, addr, base, fs) && fs != []
    ensures IsValue(f, addr) && f.at[addr].Some? && (f.at[base].Some? ==> Lower(f, base, addr))
    decreases |fs|
  {
    var up := f.defs[addr].base;
    assert Earlier(f, up, addr);
    if |fs| > 1 {
      AddressBelow(f, up, base, fs[..|fs| - 1]);
    }
  }

  lemma {:induction false} OneDepth(f: Func, addr: Value, base: Value, fs: seq<nat>, gs: seq<nat>)
    requires Sized(f) && FieldsNest(f) && IsValue(f, base)
    requires Addresses(f, addr, base, fs) && Addresses(f, addr, base, gs)
    ensures |fs| == |gs|
    decreases |fs|
  {
    if fs != [] {
      AddressBelow(f, addr, base, fs);
    }
    if gs != [] {
      AddressBelow(f, addr, base, gs);
    }
    if fs != [] && gs != [] {
      OneDepth(f, f.defs[addr].base, base, fs[..|fs| - 1], gs[..|gs| - 1]);
    }
  }

  lemma TouchesOnce(f: Func, p: seq<Block>, base: Value, path: seq<nat>, j: nat, y: nat, n: nat, m: nat)
    requires Sized(f) && FieldsNest(f) && IsValue(f, base)
    requires Touches(f, p, base, path, j, y, n) && Touches(f, p, base, path, j, y, m)
    ensures n == m
  {
    OneDepth(f, InstrAt(f, Pos(p[j], y)).addr, base, path[..n], path[..m]);
  }

  // ----- over all paths -----

  predicate IsPoint(f: Func, at: Pos)
    requires Sized(f)
  {
    IsBlock(f.g, at.block) && at.index <= |f.code[at.block]|
  }

  /** On every path to the point, the member is there when it is reached. */
  ghost predicate AlwaysPresent(f: Func, base: Value, path: seq<nat>, at: Pos)
    requires Sized(f) && FieldsNest(f) && IsPoint(f, at)
  {
    forall p | Joins(f.g.succs, 0, p, at.block) :: Present(f, p, base, path, |p| - 1, at.index)
  }

  /** The instruction makes a new allocation or touches the member. */
  ghost predicate DisturbsAt(f: Func, base: Value, path: seq<nat>, s: Pos) {
    Disturbs(f, [s.block], base, path, 0, s.index)
  }

  /** The instruction is a store that fills the member whichever way it is
      reached: a copy does if what it copies is always there at the read. */
  ghost predicate FillsAlways(f: Func, base: Value, path: seq<nat>, s: Pos)
    requires Sized(f) && FieldsNest(f)
  {
    exists n: nat :: FillsAlwaysAt(f, base, path, s, n)
  }

  ghost predicate FillsAlwaysAt(f: Func, base: Value, path: seq<nat>, s: Pos, n: nat)
    requires Sized(f) && FieldsNest(f)
  {
    && Touches(f, [s.block], base, path, 0, s.index, n)
    && (n == |path| ||
        match ContentOf(f, s, path[n..])
        case Built => true
        case Empty => false
        case ReadFrom(load, alloc, whole) => AlwaysPresent(f, alloc, whole, load))
  }

  /** q leads from s to the point, and nothing after s disturbs the member. */
  ghost predicate ClearRoute(f: Func, base: Value, path: seq<nat>, s: Pos, at: Pos, q: seq<Block>) {
    && Joins(f.g.succs, s.block, q, at.block) && Sooner(0, s.index, |q| - 1, at.index)
    && forall k: nat, z: nat | Sooner(0, s.index, k, z) && Sooner(k, z, |q| - 1, at.index) ::
         !Disturbs(f, q, base, path, k, z)
  }

  ghost predicate ReachesClear(f: Func, base: Value, path: seq<nat>, s: Pos, at: Pos) {
    exists q :: ClearRoute(f, base, path, s, at, q)
  }

  /** The exact condition under which a member survives to a point on every path:
      each instruction that touches it or makes the allocation anew, and from
      which the point is reached with nothing touching it on the way, fills it. */
  lemma SurvivalIsExact(f: Func, base: Value, path: seq<nat>, at: Pos)
    requires WellFormed(f) && FieldsNest(f) && IsValue(f, base) && f.at[base].Some? && IsPoint(f, at)
    requires ComputedBefore(f, base, at)
    ensures AlwaysPresent(f, base, path, at) <==>
      forall s: Pos | DisturbsAt(f, base, path, s) && ReachesClear(f, base, path, s, at) ::
        FillsAlways(f, base, path, s)
  {
    hide Present, Disturbs, DisturbsAt, ClearRoute, FillsAlways;
    if AlwaysPresent(f, base, path, at) {
      forall s: Pos | DisturbsAt(f, base, path, s) && ReachesClear(f, base, path, s, at)
        ensures FillsAlways(f, base, path, s)
      {
        var q :| ClearRoute(f, base, path, s, at, q);
        InFunction(f, base, path, s);
        forall p | Joins(f.g.succs, 0, p, s.block)
          ensures FilledAt(f, p, base, path, |p| - 1, s.index)
        {
          LastDisturberFills(f, base, path, s, at, q, p);
        }
        FilledOnAll(f, base, path, s);
      }
    } else {
      var p :| Joins(f.g.succs, 0, p, at.block) && !Present(f, p, base, path, |p| - 1, at.index);
      var s := EmptiedBy(f, base, path, at, p);
    }
  }

  lemma InFunction(f: Func, base: Value, path: seq<nat>, s: Pos)
    requires Sized(f) && DisturbsAt(f, base, path, s)
    ensures ValidPos(f, s)
  {
    assert Pos([s.block][0], s.index) == s;
  }

  // ----- from every path to each instruction -----

  /** Ahead of a clear route, the instruction has the last word. */
  lemma LastDisturberFills(f: Func, base: Value, path: seq<nat>, s: Pos, at: Pos, q: seq<Block>, p: seq<Block>)
    requires Sized(f) && FieldsNest(f) && IsPoint(f, at) && AlwaysPresent(f, base, path, at)
    requires DisturbsAt(f, base, path, s) && ClearRoute(f, base, path, s, at, q) && Joins(f.g.succs, 0, p, s.block)
    ensures FilledAt(f, p, base, path, |p| - 1, s.index)
  {
    hide Present, Disturbs, FilledAt, ClearRoute, DisturbsAt, AlwaysPresent, IsPath, Sized, FieldsNest;
    RouteJoins(f, base, path, s, at, q);
    Splice(f.g.succs, 0, p, s.block, q, at.block);
    var all := p + q[1..];
    var i, y := FilledLast(f, base, path, at, all);
    HasLastWord(f, base, path, s, at, q, p, i, y);
    FilledAgrees(f, all, p, base, path, i, y);
  }

  lemma FilledLast(f: Func, base: Value, path: seq<nat>, at: Pos, p: seq<Block>) returns (i: nat, y: nat)
    requires Sized(f) && FieldsNest(f) && IsPoint(f, at) && AlwaysPresent(f, base, path, at)
    requires Joins(f.g.succs, 0, p, at.block)
    ensures LastFilled(f, p, base, path, i, y, |p| - 1, at.index) && FilledAt(f, p, base, path, i, y)
  {
    hide Present, Disturbs, FilledAt;
    PresentIff(f, p, base, path, |p| - 1, at.index);
    i, y :| LastFilled(f, p, base, path, i, y, |p| - 1, at.index);
  }

  lemma RouteJoins(f: Func, base: Value, path: seq<nat>, s: Pos, at: Pos, q: seq<Block>)
    requires ClearRoute(f, base, path, s, at, q)
    ensures Joins(f.g.succs, s.block, q, at.block) && |q| > 0
  {
  }

  lemma HasLastWord(f: Func, base: Value, path: seq<nat>, s: Pos, at: Pos, q: seq<Block>, p: seq<Block>, i: nat, y: nat)
    requires Sized(f) && FieldsNest(f) && DisturbsAt(f, base, path, s) && ClearRoute(f, base, path, s, at, q)
    requires Joins(f.g.succs, 0, p, s.block) && IsPath(f.g.succs, p + q[1..])
    requires LastFilled(f, p + q[1..], base, path, i, y, |p + q[1..]| - 1, at.index)
    ensures i == |p| - 1 && y == s.index && Agree(p + q[1..], p, i)
  {
    hide Disturbs, FilledAt, Sized, FieldsNest;
    var all, j := p + q[1..], |p| - 1;
    DisturbsLikewise(f, all, j, [s.block], 0, base, path, s.index);
    Inside(f, all, base, path, i, y);
    if i >= j && i < |all| {
      assert all[i] == q[i - j];
      DisturbsLikewise(f, all, i, q, i - j, base, path, y);
    }
  }

  /** What is filled on every path is filled whichever way it is reached. */
  lemma FilledOnAll(f: Func, base: Value, path: seq<nat>, s: Pos)
    requires WellFormed(f) && FieldsNest(f) && IsValue(f, base) && ValidPos(f, s)
    requires forall p | Joins(f.g.succs, 0, p, s.block) :: FilledAt(f, p, base, path, |p| - 1, s.index)
    ensures FillsAlways(f, base, path, s)
  {
    hide Present;
    var first := FirstArrival(f.g, s.block);
    var n: nat :| Fills(f, first, base, path, |first| - 1, s.index, n);
    assert Touches(f, [s.block], base, path, 0, s.index, n);
    if n != |path| {
      var content := ContentOf(f, s, path[n..]);
      if content.ReadFrom? {
        forall p | Joins(f.g.succs, 0, p, content.load.block)
          ensures Present(f, p, content.alloc, content.whole, |p| - 1, content.load.index)
        {
          ReadOnPath(f, base, path, s, n, p);
        }
      }
    }
    assert FillsAlwaysAt(f, base, path, s, n);
  }

  /** Every path to the read goes on to the store of what was read. */
  lemma ReadOnPath(f: Func, base: Value, path: seq<nat>, s: Pos, n: nat, p: seq<Block>)
    requires WellFormed(f) && FieldsNest(f) && IsValue(f, base) && ValidPos(f, s)
    requires forall q | Joins(f.g.succs, 0, q, s.block) :: FilledAt(f, q, base, path, |q| - 1, s.index)
    requires Touches(f, [s.block], base, path, 0, s.index, n) && n < |path| && ContentOf(f, s, path[n..]).ReadFrom?
    requires Joins(f.g.succs, 0, p, ContentOf(f, s, path[n..]).load.block)
    ensures var c := ContentOf(f, s, path[n..]); Present(f, p, c.alloc, c.whole, |p| - 1, c.load.index)
  {
    hide Present;
    var c := ContentOf(f, s, path[n..]);
    hide LastRun, FilledAt, Touches;
    var q := OnToStore(f, s, StoredValue(f, s), p);
    FilledRead(f, base, path, s, n, q, |p| - 1);
    assert Agree(q, p, |p| - 1);
    PresentAgrees(f, q, p, c.alloc, c.whole, |p| - 1, c.load.index);
  }

  /** A copy that fills read the member. */
  lemma FilledRead(f: Func, base: Value, path: seq<nat>, s: Pos, n: nat, q: seq<Block>, k: nat)
    requires Sized(f) && FieldsNest(f) && IsValue(f, base) && ValidPos(f, s)
    requires IsPath(f.g.succs, q) && q[|q| - 1] == s.block && FilledAt(f, q, base, path, |q| - 1, s.index)
    requires Touches(f, [s.block], base, path, 0, s.index, n) && n < |path| && ContentOf(f, s, path[n..]).ReadFrom?
    requires LastRun(f, q, ContentOf(f, s, path[n..]).load, k, |q| - 1, s.index)
    ensures var c := ContentOf(f, s, path[n..]);
      OnPath(f, q, k, c.load.index) && Present(f, q, c.alloc, c.whole, k, c.load.index)
  {
    hide Present;
    var c, j := ContentOf(f, s, path[n..]), |q| - 1;
    var m: nat :| Fills(f, q, base, path, j, s.index, m);
    assert Touches(f, q, base, path, j, s.index, n);
    TouchesOnce(f, q, base, path, j, s.index, n, m);
    assert Pos(q[j], s.index) == s;
    var l: nat :| LastRun(f, q, c.load, l, j, s.index) && Present(f, q, c.alloc, c.whole, l, c.load.index);
    assert l == k;
  }

  /** A path to where v is computed goes on to where v is stored, without
      computing v again. */
  lemma OnToStore(f: Func, s: Pos, v: Value, p: seq<Block>) returns (q: seq<Block>)
    requires WellFormed(f) && ValidPos(f, s) && InstrAt(f, s).Store? && v == InstrAt(f, s).val
    requires IsValue(f, v) && f.at[v].Some? && Joins(f.g.succs, 0, p, f.at[v].value.block)
    ensures Joins(f.g.succs, 0, q, s.block) && |p| <= |q| && q[..|p|] == p
    ensures LastRun(f, q, f.at[v].value, |p| - 1, |q| - 1, s.index)
  {
    var load := f.at[v].value;
    assert v in InstrOperands(f.code[s.block][s.index]);
    assert ComputedBefore(f, v, s);
    if load.block == s.block {
      q := p;
    } else {
      var t := FirstArrival(f.g, s.block);
      var m := LastIndex(t, load.block);
      Cut(f.g.succs, t, m, |t| - 1);
      var r := t[m..|t| - 1 + 1];
      Splice(f.g.succs, 0, p, load.block, r, s.block);
      q := p + r[1..];
      assert forall l | |p| <= l < |q| :: q[l] == t[m + l - |p| + 1];
    }
  }

  // ----- from the instructions to every path -----

  /** The last instruction to disturb the member, if any does. */
  lemma {:induction false} LastDisturber(f: Func, p: seq<Block>, base: Value, path: seq<nat>,
                                         i: nat, x: nat, k: nat, z: nat)
    returns (j: nat, y: nat)
    requires Sized(f) && FieldsNest(f) && OnPath(f, p, i, x)
    requires Disturbs(f, p, base, path, k, z) && Sooner(k, z, i, x)
    ensures Disturbs(f, p, base, path, j, y) && Sooner(j, y, i, x)
    ensures forall l: nat, w: nat | Sooner(j, y, l, w) && Sooner(l, w, i, x) :: !Disturbs(f, p, base, path, l, w)
    decreases i, x
  {
    hide Disturbs;
    Inside(f, p, base, path, k, z);
    if x == 0 {
      var end := |f.code[p[i - 1]]|;
      j, y := LastDisturber(f, p, base, path, i - 1, end, k, z);
      forall l: nat, w: nat | Sooner(j, y, l, w) && Sooner(l, w, i, x)
        ensures !Disturbs(f, p, base, path, l, w)
      {
        Inside(f, p, base, path, l, w);
      }
    } else if Disturbs(f, p, base, path, i, x - 1) {
      j, y := i, x - 1;
    } else {
      j, y := LastDisturber(f, p, base, path, i, x - 1, k, z);
    }
  }

  /** A path that ends without the member has an instruction that disturbs it
      last and does not fill it on every path. */
  lemma EmptiedBy(f: Func, base: Value, path: seq<nat>, at: Pos, p: seq<Block>) returns (s: Pos)
    requires WellFormed(f) && FieldsNest(f) && IsValue(f, base) && f.at[base].Some? && IsPoint(f, at)
    requires ComputedBefore(f, base, at) && Joins(f.g.succs, 0, p, at.block)
    requires !Present(f, p, base, path, |p| - 1, at.index)
    ensures DisturbsAt(f, base, path, s) && ReachesClear(f, base, path, s, at) && !FillsAlways(f, base, path, s)
  {
    hide Present, Disturbs, FilledAt, FillsAlways;
    var k, z := MadeOnPath(f, base, path, at, p);
    var j, y := LastDisturber(f, p, base, path, |p| - 1, at.index, k, z);
    s := Pos(p[j], y);
    DisturbsLikewise(f, p, j, [s.block], 0, base, path, y);
    SuffixIsClear(f, base, path, s, at, p, j);
    if FillsAlways(f, base, path, s) {
      InFunction(f, base, path, s);
      FilledHere(f, base, path, s, p, j);
      assert LastFilled(f, p, base, path, j, y, |p| - 1, at.index);
      PresentIff(f, p, base, path, |p| - 1, at.index);
      assert false;
    }
  }

  lemma MadeOnPath(f: Func, base: Value, path: seq<nat>, at: Pos, p: seq<Block>) returns (k: nat, z: nat)
    requires WellFormed(f) && IsValue(f, base) && f.at[base].Some? && IsPoint(f, at)
    requires ComputedBefore(f, base, at) && Joins(f.g.succs, 0, p, at.block)
    ensures Disturbs(f, p, base, path, k, z) && Sooner(k, z, |p| - 1, at.index)
  {
    var made := f.at[base].value;
    z := made.index;
    if made.block == at.block {
      k := |p| - 1;
    } else {
      k := FirstIndex(p, made.block);
    }
    assert Pos(p[k], z) == made;
  }

  lemma SuffixIsClear(f: Func, base: Value, path: seq<nat>, s: Pos, at: Pos, p: seq<Block>, j: nat)
    requires Sized(f) && IsPoint(f, at) && Joins(f.g.succs, 0, p, at.block) && j < |p| && p[j] == s.block
    requires Sooner(j, s.index, |p| - 1, at.index)
    requires forall l: nat, w: nat | Sooner(j, s.index, l, w) && Sooner(l, w, |p| - 1, at.index) ::
      !Disturbs(f, p, base, path, l, w)
    ensures ReachesClear(f, base, path, s, at)
  {
    hide Disturbs;
    Cut(f.g.succs, p, j, |p| - 1);
    var q := p[j..|p| - 1 + 1];
    forall k: nat, z: nat | Sooner(0, s.index, k, z) && Sooner(k, z, |q| - 1, at.index)
      ensures !Disturbs(f, q, base, path, k, z)
    {
      assert q[k] == p[j + k];
      DisturbsLikewise(f, q, k, p, j + k, base, path, z);
    }
    assert ClearRoute(f, base, path, s, at, q);
  }

  lemma FilledHere(f: Func, base: Value, path: seq<nat>, s: Pos, p: seq<Block>, j: nat)
    requires WellFormed(f) && FieldsNest(f) && ValidPos(f, s) && FillsAlways(f, base, path, s)
    requires IsPath(f.g.succs, p) && p[0] == 0 && j < |p| && p[j] == s.block
    ensures FilledAt(f, p, base, path, j, s.index)
  {
    hide Present;
    var n: nat :| FillsAlwaysAt(f, base, path, s, n);
    assert Pos(p[j], s.index) == s;
    assert Touches(f, p, base, path, j, s.index, n);
    if n != |path| {
      var c := ContentOf(f, s, path[n..]);
      if c.ReadFrom? {
        var v := StoredValue(f, s);
        assert v in InstrOperands(f.code[s.block][s.index]);
        var k := LastComputed(f, p, v, s, j);
        ReadIsLast(f, p, v, k, j, s.index);
        Cut(f.g.succs, p, 0, k);
        assert Joins(f.g.succs, 0, p[0..k + 1], c.load.block);
        PresentAgrees(f, p[0..k + 1], p, c.alloc, c.whole, k, c.load.index);
      }
    }
    assert Fills(f, p, base, path, j, s.index, n);
  }

  lemma ReadIsLast(f: Func, p: seq<Block>, v: Value, k: nat, j: nat, y: nat)
    requires Sized(f) && IsValue(f, v) && f.at[v].Some?
    requires RunsAt(f, p, f.at[v].value, k, f.at[v].value.index) && NotAfter(k, f.at[v].value.index + 1, j, y)
    requires NotRedone(f, p, v, k, f.at[v].value.index, j, y)
    ensures LastRun(f, p, f.at[v].value, k, j, y)
  {
    forall l: nat | k < l < |p| && RunsAt(f, p, f.at[v].value, l, f.at[v].value.index)
      ensures !Sooner(l, f.at[v].value.index, j, y)
    {
    }
  }
}
