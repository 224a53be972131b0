/** Whether a member stored before an allocation escapes is still there when it
    escapes: the search asks for a store, not for what stores follow it. */
module AllocSurvival {
  import opened Options
  import opened Cfg
  import opened Ssa
  import opened NilFlow
  import opened AllocEscape

  // ----- what a run leaves in the member -----

  predicate Sooner(j: nat, y: nat, i: nat, x: nat) {
    j < i || (j == i && y < x)
  }

  predicate OnPath(f: Func, p: seq<Block>, i: nat, x: nat)
    requires Sized(f)
  {
    i < |p| && IsPath(f.g.succs, p) && x <= |f.code[p[i]]|
  }

  /** Instruction y of step j stores to the member, or to a value it is part of
      at depth n. */
  predicate Touches(f: Func, p: seq<Block>, base: Value, path: seq<nat>, j: nat, y: nat, n: nat) {
    && j < |p| && n <= |path| && ValidPos(f, Pos(p[j], y)) && InstrAt(f, Pos(p[j], y)).Store?
    && Addresses(f, InstrAt(f, Pos(p[j], y)).addr, base, path[..n])
  }

  /** The execution of the instruction at `load` that (j, y) sees the result of. */
  predicate LastRun(f: Func, p: seq<Block>, load: Pos, k: nat, j: nat, y: nat) {
    && RunsAt(f, p, load, k, load.index) && Sooner(k, load.index, j, y)
    && forall l | k < l < |p| && RunsAt(f, p, load, l, load.index) :: !Sooner(l, load.index, j, y)
  }

  /** What a stored value brings for a member at rest: one it was built with
      elsewhere, none if it is a constant, or what local storage held at whole
      when it was read. */
  datatype Content = Built | Empty | ReadFrom(load: Pos, alloc: Value, whole: seq<nat>)

  function ContentOf(f: Func, store: Pos, rest: seq<nat>): (c: Content)
    requires Sized(f) && FieldsNest(f) && ValidPos(f, store) && InstrAt(f, store).Store?
    ensures c.ReadFrom? ==>
      var v := StoredValue(f, store);
      f.at[v] == Some(c.load) && ValidPos(f, c.load) && InstrAt(f, c.load) == Define(v) && IsValue(f, c.alloc)
  {
    var v := StoredValue(f, store);
    match f.defs[v]
    case Const(_) => Empty
    case Load(addr) =>
      assert addr == Operands(f.defs[v])[0];
      (match Root(f, addr)
       case None => Built
       case Some((alloc, prefix)) => if f.at[v].None? then Built else ReadFrom(f.at[v].value, alloc, prefix + rest))
    case _ => Built
  }

  /** What it stores is the member, or carries one. */
  ghost predicate Fills(f: Func, p: seq<Block>, base: Value, path: seq<nat>, j: nat, y: nat, n: nat)
    requires Sized(f) && FieldsNest(f) && IsPath(f.g.succs, p)
    decreases j, y, 1
  {
    && Touches(f, p, base, path, j, y, n)
    && (n == |path| ||
        match ContentOf(f, Pos(p[j], y), path[n..])
        case Built => true
        case Empty => false
        case ReadFrom(load, alloc, whole) =>
          exists k: nat | LastRun(f, p, load, k, j, y) :: Present(f, p, alloc, whole, k, load.index))
  }

  ghost predicate FilledAt(f: Func, p: seq<Block>, base: Value, path: seq<nat>, j: nat, y: nat)
    requires Sized(f) && FieldsNest(f) && IsPath(f.g.succs, p)
    ensures FilledAt(f, p, base, path, j, y) ==> exists n: nat :: Touches(f, p, base, path, j, y, n)
    decreases j, y, 2
  {
    exists n: nat :: Fills(f, p, base, path, j, y, n)
  }

  /** Instruction y of step j makes a new allocation or touches the member. */
  ghost predicate Disturbs(f: Func, p: seq<Block>, base: Value, path: seq<nat>, j: nat, y: nat) {
    || (j < |p| && ValidPos(f, Pos(p[j], y)) && InstrAt(f, Pos(p[j], y)) == Define(base))
    || (exists n: nat :: Touches(f, p, base, path, j, y, n))
  }

  /** The member is there before instruction x of step i: an allocation starts
      without it, and a store that touches it leaves what was stored. */
  ghost predicate Present(f: Func, p: seq<Block>, base: Value, path: seq<nat>, i: nat, x: nat)
    requires Sized(f) && FieldsNest(f) && OnPath(f, p, i, x)
    decreases i, x, 0
  {
    if x == 0 then i > 0 && Present(f, p, base, path, i - 1, |f.code[p[i - 1]]|)
    else if Disturbs(f, p, base, path, i, x - 1) then FilledAt(f, p, base, path, i, x - 1)
    else Present(f, p, base, path, i, x - 1)
  }

  /** The last instruction before (i, x) to disturb the member filled it. */
  ghost predicate LastFilled(f: Func, p: seq<Block>, base: Value, path: seq<nat>, j: nat, y: nat, i: nat, x: nat)
    requires Sized(f) && FieldsNest(f) && IsPath(f.g.succs, p)
  {
    && Sooner(j, y, i, x) && FilledAt(f, p, base, path, j, y)
    && forall k: nat, z: nat | Sooner(j, y, k, z) && Sooner(k, z, i, x) :: !Disturbs(f, p, base, path, k, z)
  }

  ghost predicate EndsFilled(f: Func, p: seq<Block>, base: Value, path: seq<nat>, i: nat, x: nat)
    requires Sized(f) && FieldsNest(f) && IsPath(f.g.succs, p)
  {
    exists j: nat, y: nat :: LastFilled(f, p, base, path, j, y, i, x)
  }

  /** The member is there exactly when the last store to it or to what it is part
      of, in the allocation at hand, filled it. */
  lemma {:induction false} PresentIff(f: Func, p: seq<Block>, base: Value, path: seq<nat>, i: nat, x: nat)
    requires Sized(f) && FieldsNest(f) && OnPath(f, p, i, x)
    ensures Present(f, p, base, path, i, x) <==> EndsFilled(f, p, base, path, i, x)
    decreases i, x
  {
    hide Disturbs, FilledAt, EndsFilled;
    if x > 0 {
      PresentIff(f, p, base, path, i, x - 1);
      NextInstr(f, p, base, path, i, x - 1);
    } else if i > 0 {
      PresentIff(f, p, base, path, i - 1, |f.code[p[i - 1]]|);
      NextStep(f, p, base, path, i);
    } else {
      NothingBefore(f, p, base, path);
    }
  }

  lemma NothingBefore(f: Func, p: seq<Block>, base: Value, path: seq<nat>)
    requires Sized(f) && FieldsNest(f) && IsPath(f.g.succs, p)
    ensures !EndsFilled(f, p, base, path, 0, 0)
  {
  }

  lemma Inside(f: Func, p: seq<Block>, base: Value, path: seq<nat>, j: nat, y: nat)
    requires Sized(f) && FieldsNest(f) && IsPath(f.g.succs, p)
    ensures FilledAt(f, p, base, path, j, y) ==> Disturbs(f, p, base, path, j, y)
    ensures Disturbs(f, p, base, path, j, y) ==> j < |p| && p[j] < |f.code| && y < |f.code[p[j]]|
  {
  }

  lemma NextStep(f: Func, p: seq<Block>, base: Value, path: seq<nat>, i: nat)
    requires Sized(f) && FieldsNest(f) && i > 0 && OnPath(f, p, i, 0)
    ensures EndsFilled(f, p, base, path, i, 0) <==> EndsFilled(f, p, base, path, i - 1, |f.code[p[i - 1]]|)
  {
    hide Disturbs, FilledAt;
    var end := |f.code[p[i - 1]]|;
    forall j: nat, y: nat
      ensures LastFilled(f, p, base, path, j, y, i, 0) <==> LastFilled(f, p, base, path, j, y, i - 1, end)
    {
      forall k: nat, z: nat
        ensures FilledAt(f, p, base, path, k, z) ==> Disturbs(f, p, base, path, k, z)
        ensures Disturbs(f, p, base, path, k, z) ==> k < |p| && p[k] < |f.code| && z < |f.code[p[k]]|
      {
        Inside(f, p, base, path, k, z);
      }
    }
    if EndsFilled(f, p, base, path, i, 0) {
      var j: nat, y: nat :| LastFilled(f, p, base, path, j, y, i, 0);
      assert LastFilled(f, p, base, path, j, y, i - 1, end);
    }
    if EndsFilled(f, p, base, path, i - 1, end) {
      var j: nat, y: nat :| LastFilled(f, p, base, path, j, y, i - 1, end);
      assert LastFilled(f, p, base, path, j, y, i, 0);
    }
  }

  lemma NextInstr(f: Func, p: seq<Block>, base: Value, path: seq<nat>, i: nat, x: nat)
    requires Sized(f) && FieldsNest(f) && OnPath(f, p, i, x + 1)
    ensures EndsFilled(f, p, base, path, i, x + 1) <==>
      if Disturbs(f, p, base, path, i, x) then FilledAt(f, p, base, path, i, x) else EndsFilled(f, p, base, path, i, x)
  {
    hide Disturbs, FilledAt;
    Inside(f, p, base, path, i, x);
    var next := x + 1;
    if FilledAt(f, p, base, path, i, x) {
      assert LastFilled(f, p, base, path, i, x, i, next);
    }
    forall j: nat, y: nat | !Disturbs(f, p, base, path, i, x)
      ensures LastFilled(f, p, base, path, j, y, i, next) <==> LastFilled(f, p, base, path, j, y, i, x)
    {
      assert Sooner(j, y, i, next) && (j != i || y != x) ==> Sooner(j, y, i, x);
    }
    if Disturbs(f, p, base, path, i, x) {
      forall j: nat, y: nat | LastFilled(f, p, base, path, j, y, i, next)
        ensures j == i && y == x
      {
        assert Sooner(j, y, i, x) || (j == i && y == x);
      }
    }
  }

  // ----- what the search's answer is worth -----

  /** The store a member comes from, and where that stored a value read from
      local storage, the read and the store behind it. */
  datatype Link = Link(step: nat, index: nat, depth: nat, copied: Option<Copy>)

  datatype Copy = Copy(read: nat, behind: Link)

  /** The member at (i, x) comes down the chain: each store brings it, none of
      the allocations is made anew in between. */
  ghost predicate Follows(f: Func, p: seq<Block>, base: Value, path: seq<nat>, i: nat, x: nat, l: Link)
    requires Sized(f) && FieldsNest(f)
    decreases l
  {
    && Sooner(l.step, l.index, i, x) && Touches(f, p, base, path, l.step, l.index, l.depth)
    && Unmade(f, p, base, l.step, l.index, i, x)
    && (l.depth == |path| ||
        match ContentOf(f, Pos(p[l.step], l.index), path[l.depth..])
        case Built => true
        case Empty => false
        case ReadFrom(load, alloc, whole) =>
          && l.copied.Some? && LastRun(f, p, load, l.copied.value.read, l.step, l.index)
          && Follows(f, p, alloc, whole, l.copied.value.read, load.index, l.copied.value.behind))
  }

  predicate Makes(f: Func, p: seq<Block>, base: Value, j: nat, y: nat) {
    j < |p| && ValidPos(f, Pos(p[j], y)) && InstrAt(f, Pos(p[j], y)) == Define(base)
  }

  ghost predicate Unmade(f: Func, p: seq<Block>, base: Value, j: nat, y: nat, i: nat, x: nat) {
    forall k: nat, z: nat | Sooner(j, y, k, z) && Sooner(k, z, i, x) :: !Makes(f, p, base, k, z)
  }

  /** Nothing after (j, y) and before (i, x) stores to the member or to what it
      is part of. */
  ghost predicate Untouched(f: Func, p: seq<Block>, base: Value, path: seq<nat>, j: nat, y: nat, i: nat, x: nat) {
    forall k: nat, z: nat, n: nat | Sooner(j, y, k, z) && Sooner(k, z, i, x) :: !Touches(f, p, base, path, k, z, n)
  }

  /** Each link of the chain is the last store to what it filled: up to (i, x)
      the first, up to the read of it each one behind. */
  ghost predicate UntouchedAlong(f: Func, p: seq<Block>, base: Value, path: seq<nat>, i: nat, x: nat, l: Link)
    requires Sized(f) && FieldsNest(f) && Follows(f, p, base, path, i, x, l)
    decreases l
  {
    && Untouched(f, p, base, path, l.step, l.index, i, x)
    && (l.depth == |path| ||
        match ContentOf(f, Pos(p[l.step], l.index), path[l.depth..])
        case ReadFrom(load, alloc, whole) =>
          UntouchedAlong(f, p, alloc, whole, l.copied.value.read, load.index, l.copied.value.behind)
        case _ => true)
  }

  lemma {:induction false} ChainBrings(f: Func, p: seq<Block>, base: Value, path: seq<nat>, i: nat, x: nat, l: Link)
    requires Sized(f) && FieldsNest(f) && OnPath(f, p, i, x)
    requires Follows(f, p, base, path, i, x, l) && UntouchedAlong(f, p, base, path, i, x, l)
    ensures Present(f, p, base, path, i, x)
    decreases l
  {
    hide Present, Makes;
    if l.depth != |path| {
      var content := ContentOf(f, Pos(p[l.step], l.index), path[l.depth..]);
      if content.ReadFrom? {
        ChainBrings(f, p, content.alloc, content.whole, l.copied.value.read, content.load.index, l.copied.value.behind);
      }
    }
    assert Fills(f, p, base, path, l.step, l.index, l.depth);
    FollowsClear(f, p, base, path, i, x, l);
    PresentIff(f, p, base, path, i, x);
  }

  lemma FollowsClear(f: Func, p: seq<Block>, base: Value, path: seq<nat>, i: nat, x: nat, l: Link)
    requires Sized(f) && FieldsNest(f) && IsPath(f.g.succs, p) && Follows(f, p, base, path, i, x, l)
    requires Untouched(f, p, base, path, l.step, l.index, i, x) && FilledAt(f, p, base, path, l.step, l.index)
    ensures EndsFilled(f, p, base, path, i, x)
  {
    hide Touches, FilledAt;
    forall k: nat, z: nat | Sooner(l.step, l.index, k, z) && Sooner(k, z, i, x)
      ensures !Disturbs(f, p, base, path, k, z)
    {
      assert !Makes(f, p, base, k, z);
    }
    assert LastFilled(f, p, base, path, l.step, l.index, i, x);
  }

  lemma {:induction false} BroughtByChain(f: Func, p: seq<Block>, base: Value, path: seq<nat>, i: nat, x: nat)
    returns (l: Link)
    requires Sized(f) && FieldsNest(f) && OnPath(f, p, i, x) && Present(f, p, base, path, i, x)
    ensures Follows(f, p, base, path, i, x, l) && UntouchedAlong(f, p, base, path, i, x, l)
    decreases i, x
  {
    hide Present;
    PresentIff(f, p, base, path, i, x);
    var j: nat, y: nat :| LastFilled(f, p, base, path, j, y, i, x);
    assert FilledAt(f, p, base, path, j, y);
    var n: nat :| Fills(f, p, base, path, j, y, n);
    ClearOfBoth(f, p, base, path, j, y, i, x);
    l := Link(j, y, n, None);
    if n != |path| {
      var content := ContentOf(f, Pos(p[j], y), path[n..]);
      if content.ReadFrom? {
        var k: nat :| LastRun(f, p, content.load, k, j, y)
          && Present(f, p, content.alloc, content.whole, k, content.load.index);
        var behind := BroughtByChain(f, p, content.alloc, content.whole, k, content.load.index);
        l := Link(j, y, n, Some(Copy(k, behind)));
      }
    }
  }

  lemma ClearOfBoth(f: Func, p: seq<Block>, base: Value, path: seq<nat>, j: nat, y: nat, i: nat, x: nat)
    requires Sized(f) && FieldsNest(f) && IsPath(f.g.succs, p) && LastFilled(f, p, base, path, j, y, i, x)
    ensures Unmade(f, p, base, j, y, i, x) && Untouched(f, p, base, path, j, y, i, x)
  {
    hide Touches, FilledAt;
    forall k: nat, z: nat | Sooner(j, y, k, z) && Sooner(k, z, i, x)
      ensures !Makes(f, p, base, k, z) && forall n: nat :: !Touches(f, p, base, path, k, z, n)
    {
      assert !Disturbs(f, p, base, path, k, z);
    }
  }

  /** The member is there exactly when it came down some chain of stores and
      copies, each the last to touch what it filled before that was read. */
  lemma PresentIffChain(f: Func, p: seq<Block>, base: Value, path: seq<nat>, i: nat, x: nat)
    requires Sized(f) && FieldsNest(f) && OnPath(f, p, i, x)
    ensures Present(f, p, base, path, i, x) <==>
      exists l :: Follows(f, p, base, path, i, x, l) && UntouchedAlong(f, p, base, path, i, x, l)
  {
    hide Present, Follows, UntouchedAlong;
    if Present(f, p, base, path, i, x) {
      var l := BroughtByChain(f, p, base, path, i, x);
    }
    if l :| Follows(f, p, base, path, i, x, l) && UntouchedAlong(f, p, base, path, i, x, l) {
      ChainBrings(f, p, base, path, i, x, l);
    }
  }

  /** What has been stored came down some chain. */
  lemma {:induction false} CoveredFollows(f: Func, p: seq<Block>, base: Value, path: seq<nat>, i: nat, x: nat)
    returns (l: Link)
    requires WellFormed(f) && FieldsNest(f) && IsValue(f, base) && IsPath(f.g.succs, p)
    requires Covered(f, p, base, path, i, x)
    ensures Follows(f, p, base, path, i, x + 1, l)
    decreases i, x
  {
    var j: nat, y: nat, n: nat :| StoredBy(f, p, base, path, i, x, j, y, n);
    NotRedoneIsUnmade(f, p, base, j, y, i, x);
    l := Link(j, y, n, None);
    if n != |path| {
      var content := ContentOf(f, Pos(p[j], y), path[n..]);
      assert Carries(f, p, StoredValue(f, Pos(p[j], y)), path[n..], i, x, j, y);
      assert !content.Empty?;
      if content.ReadFrom? {
        var k := ReadBehind(f, p, path, i, x, j, y, n);
        var behind := CoveredFollows(f, p, content.alloc, content.whole, k, content.load.index);
        FollowsToRead(f, p, content.alloc, content.whole, k, content.load, behind);
        l := Link(j, y, n, Some(Copy(k, behind)));
      }
    }
  }

  lemma NotRedoneIsUnmade(f: Func, p: seq<Block>, base: Value, j: nat, y: nat, i: nat, x: nat)
    requires WellFormed(f) && IsValue(f, base) && NotRedone(f, p, base, j, y, i, x)
    ensures Unmade(f, p, base, j, y, i, x + 1)
  {
    forall k: nat, z: nat | Sooner(j, y, k, z) && Sooner(k, z, i, x + 1)
      ensures !Makes(f, p, base, k, z)
    {
      if Makes(f, p, base, k, z) {
        assert f.at[base] == Some(Pos(p[k], z));
        assert RunsAt(f, p, f.at[base].value, k, z);
      }
    }
  }

  lemma ReadBehind(f: Func, p: seq<Block>, path: seq<nat>, i: nat, x: nat, j: nat, y: nat, n: nat) returns (k: nat)
    requires WellFormed(f) && FieldsNest(f) && j < |p| && n < |path| && NotAfter(j, y, i, x)
    requires ValidPos(f, Pos(p[j], y)) && InstrAt(f, Pos(p[j], y)).Store?
    requires Carries(f, p, StoredValue(f, Pos(p[j], y)), path[n..], i, x, j, y)
    requires ContentOf(f, Pos(p[j], y), path[n..]).ReadFrom?
    ensures var c := ContentOf(f, Pos(p[j], y), path[n..]);
      LastRun(f, p, c.load, k, j, y) && Covered(f, p, c.alloc, c.whole, k, c.load.index)
  {
    var c := ContentOf(f, Pos(p[j], y), path[n..]);
    var v := StoredValue(f, Pos(p[j], y));
    assert f.defs[v].addr == Operands(f.defs[v])[0];
    k :| RunsAt(f, p, c.load, k, c.load.index) && NotAfter(k, c.load.index + 1, j, y)
      && NotRedone(f, p, v, k, c.load.index, j, y) && Covered(f, p, c.alloc, c.whole, k, c.load.index);
    forall l: nat | k < l < |p| && RunsAt(f, p, c.load, l, c.load.index)
      ensures !Sooner(l, c.load.index, j, y)
    {
      assert RunsAt(f, p, f.at[v].value, l, f.at[v].value.index);
    }
  }

  /** The read itself stores nothing. */
  lemma FollowsToRead(f: Func, p: seq<Block>, base: Value, path: seq<nat>, k: nat, load: Pos, l: Link)
    requires Sized(f) && FieldsNest(f) && RunsAt(f, p, load, k, load.index) && ValidPos(f, load)
    requires InstrAt(f, load).Define? && Follows(f, p, base, path, k, load.index + 1, l)
    ensures Follows(f, p, base, path, k, load.index, l)
  {
    assert Pos(p[k], load.index) == load;
  }

  /** Where the search answers true, every run to the escape shows the chain of
      stores behind the answer; and the member is there at the escape if each of
      them is the last to touch what it filled, in the allocation at hand before
      the escape and in each one copied from before it was read. */
  lemma SurvivesUntouched(f: Func, refs: Referrers, base: Value, path: seq<nat>, escape: Pos, p: seq<Block>, i: nat)
    returns (l: Link)
    requires WellFormed(f) && ReferrersOk(f, refs) && IsValue(f, base) && |path| > 0 && ValidPos(f, escape)
    requires IsPath(f.g.succs, p) && p[0] == 0 && i < |p| && p[i] == escape.block
    requires FieldsNest(f) && FieldStoreReaches(f, refs, base, path, escape, {})
    ensures Follows(f, p, base, path, i, escape.index + 1, l)
    ensures UntouchedAlong(f, p, base, path, i, escape.index + 1, l) ==> Present(f, p, base, path, i, escape.index + 1)
  {
    hide FieldStoreReaches, Follows, UntouchedAlong, Present;
    FieldStoreReachesSound(f, refs, base, path, escape, p, i);
    l := CoveredFollows(f, p, base, path, i, escape.index);
    if UntouchedAlong(f, p, base, path, i, escape.index + 1, l) {
      ChainBrings(f, p, base, path, i, escape.index + 1, l);
    }
  }
}
