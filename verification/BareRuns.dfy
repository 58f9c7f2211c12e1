/**
 * Runs of the code as it is released: installations without the overlap check of
 * db/version_set.cc:724-738, which only debug builds make.
 */
module BareRuns {
  import opened Versions
  import opened Levels
  import opened Database
  import opened Runs

  ghost predicate BareStep(s: State, t: State) {
    Step(s, t) || exists merged, outputs :: InstallStep(s, t, merged, outputs)
  }

  /** An installation whose outputs overlap files that stay at level+1. */
  ghost predicate Misfit(s: State, t: State) {
    exists merged, outputs ::
      InstallStep(s, t, merged, outputs) && !Fits(s.version, s.running.value.level, s.running.value.inputs1, outputs)
  }

  ghost predicate IsBareRun(run: seq<State>) {
    && run != [] && Begins(run[0])
    && forall i :: 0 <= i < |run| - 1 ==> BareStepAt(run, i)
  }

  ghost predicate BareStepAt(run: seq<State>, i: nat)
    requires i + 1 < |run|
  {
    BareStep(run[i], run[i + 1])
  }

  ghost predicate MisfitAt(run: seq<State>, i: nat)
    requires i + 1 < |run|
  {
    Misfit(run[i], run[i + 1])
  }

  /** All installations among the first `n` steps fit. */
  ghost predicate AlwaysFits(run: seq<State>, n: nat)
    requires n < |run|
  {
    forall i :: 0 <= i < n ==> !MisfitAt(run, i)
  }

  lemma FittingStep(s: State, t: State)
    requires BareStep(s, t) && !Misfit(s, t)
    ensures Step(s, t)
  {
    if !Step(s, t) {
      var merged, outputs :| InstallStep(s, t, merged, outputs);
      assert CheckedInstall(s, t, merged, outputs);
    }
  }

  /** As long as the installations fit, the check would have passed. */
  lemma FittingIsRun(run: seq<State>, n: nat)
    requires IsBareRun(run) && n < |run| && AlwaysFits(run, n)
    ensures IsRun(run[..n + 1])
  {
    var part := run[..n + 1];
    forall i | 0 <= i < |part| - 1 ensures StepAt(part, i) {
      assert BareStepAt(run, i) && !MisfitAt(run, i);
      FittingStep(run[i], run[i + 1]);
    }
  }

  lemma {:induction false} FirstMisfit(run: seq<State>, n: nat) returns (i: nat)
    requires n < |run| && !AlwaysFits(run, n)
    ensures i < n && MisfitAt(run, i) && AlwaysFits(run, i)
  {
    var j: nat :| j < n && MisfitAt(run, j);
    if AlwaysFits(run, j) {
      i := j;
    } else {
      i := FirstMisfit(run, j);
    }
  }

  lemma MisfitIsSeen(run: seq<State>, i: nat)
    requires IsBareRun(run) && i + 1 < |run| && AlwaysFits(run, i) && MisfitAt(run, i)
    ensures !ValidVersion(run[i + 1].version)
  {
    FittingIsRun(run, i);
    RunKeepsLevels(run[..i + 1], i);
    var s, t := run[i], run[i + 1];
    var merged, outputs :|
      InstallStep(s, t, merged, outputs) && !Fits(s.version, s.running.value.level, s.running.value.inputs1, outputs);
    InstallValidExactly(s, t, merged, outputs);
  }

  ghost predicate AllLevelsValid(run: seq<State>) {
    forall n :: 0 <= n < |run| ==> ValidVersion(run[n].version)
  }

  /** For every run of the released code: its levels are always valid if and only if every installation fits. */
  lemma LevelsValidExactly(run: seq<State>)
    requires IsBareRun(run)
    ensures AllLevelsValid(run) <==> AlwaysFits(run, |run| - 1)
  {
    if AlwaysFits(run, |run| - 1) {
      FittingIsRun(run, |run| - 1);
      assert run[..|run|] == run;
      forall n | 0 <= n < |run| ensures ValidVersion(run[n].version) {
        RunKeepsLevels(run, n);
      }
    } else {
      var i := FirstMisfit(run, |run| - 1);
      MisfitIsSeen(run, i);
    }
  }

  /** Valid levels and right reads at all moments: every installation fits and none brings a key back. */
  lemma BareReadsFollowExactly(run: seq<State>)
    requires IsBareRun(run)
    ensures AllLevelsValid(run) && AllReadsFollow(run) <==> AlwaysFits(run, |run| - 1) && NeverSpoils(run, |run| - 1)
  {
    LevelsValidExactly(run);
    if AlwaysFits(run, |run| - 1) {
      FittingIsRun(run, |run| - 1);
      assert run[..|run|] == run;
      ReadsFollowExactly(run);
    }
  }
}
