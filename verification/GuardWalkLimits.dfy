/** Both walks take the dominating side of a guard for the arm taken, and are
    wrong where that side is a merge. */
module GuardWalkLimits {
  import opened Options
  import opened Cfg
  import opened Ssa
  import opened Narrow
  import opened NarrowLimits
  import opened GuardWalks

  /** `if x == nil { log() }; x == nil`: decided false, and true on a run. */
  lemma NilDecisionWrongAtMerge() returns (f: Func, r: seq<Step>)
    ensures WellFormed(f) && |f.defs| == 3 && ValidRun(f, r) && |r| == 3 && r[2].block == 2
    ensures NilDecision(f, 2, 2, 0, OpEq) == Some((0, false)) && r[1].env[0] == NilV
  {
    f := GuardWithoutElse(Eql, NilV);
    GuardWithoutElseWellFormed(Eql, NilV);
    r := ThroughThenArm(NilV, NilV);
    ThroughThenArmRuns(Eql, NilV, NilV);
    MergeIsTheElseArm(Eql, NilV);
    assert CondOf(f, 0) == 2 && ReadOperand(f, 2, ValueSubject(0), FactNil) == Some(0);
  }

  /** `if x < 0 { log() }; use(x)`: the interval starts at 0, and a run arrives
      with -1. */
  lemma RangeWrongAtMerge() returns (f: Func, r: seq<Step>)
    ensures WellFormed(f) && |f.defs| == 3 && f.defs[0].Param? && ValidRun(f, r) && |r| == 3 && r[2].block == 2
    ensures IsMachineInt(r[2].env[0]) && !InBound(RangeFrom(f, 2, 0, Bound(None, None)), r[2].env[0].n)
  {
    f := GuardWithoutElse(Lss, IntV(0));
    GuardWithoutElseWellFormed(Lss, IntV(0));
    r := ThroughThenArm(IntV(-1), IntV(0));
    ThroughThenArmRuns(Lss, IntV(-1), IntV(0));
    MergeIsTheElseArm(Lss, IntV(0));
    assert CondOf(f, 0) == 2 && IntComparison(f, 2, 0) == Some((Lss, 0));
    assert BoundAt(f, 0, 2, 0) == Some(Bound(Some(0), None));
    assert RangeFrom(f, 2, 0, Bound(None, None)) == RangeFrom(f, 0, 0, Bound(Some(0), None)) == Bound(Some(0), None);
  }
}
