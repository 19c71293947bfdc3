/**
 Exactly which runs are metered exactly: `resume` and `restart` (packages/control-plane/src/orchestrator.ts:743-872) can be
 applied to rows on which they make the replayed time and the time in use part ways.
 */
module MeteringExact {
  import opened Prelude
  import opened UsageReplay
  import opened ReplayMeaning
  import opened Lifecycle
  import opened Metering

  /** A step that is not clean throws its own instance off by the next tick. */
  lemma {:induction false} UncleanStep(front: seq<Timed>, step: Timed)
    requires Synced(front, step.action.id) && (front == [] || LastAt(front) < step.at)
    requires !Clean(After(front), step.action)
    ensures var run := front + [step];
            var m := MeterOf(run, step.action.id);
            m.total + OpenPart(m, step.at + 1) != ReadyTime(run, step.action.id, step.at + 1)
  {
    hide Fold, Own, Apply;
    var run, id := front + [step], step.action.id;
    assert run[..|run| - 1] == front;
    ReachableShaped(front);
    SyncedAgrees(front, id, step.at);
    StepMeter(After(front), step.at, step.action, id);
  }

  lemma {:induction false} OthersStaySynced(front: seq<Timed>, step: Timed, id: string)
    requires Synced(front, id) && Follows(front, step.at) && id != step.action.id
    ensures Synced(front + [step], id)
  {
    hide Fold, Own, Apply;
    var run := front + [step];
    assert run[..|run| - 1] == front;
    ReachableShaped(front);
    SyncedAgrees(front, id, step.at);
    StepMeter(After(front), step.at, step.action, id);
  }

  lemma {:induction false} UncleanStepShows(front: seq<Timed>, step: Timed)
    requires forall id :: Synced(front, id)
    requires (front == [] || LastAt(front) < step.at) && !Clean(After(front), step.action)
    ensures !ExactAt(front + [step], step.at + 1)
  {
    hide Fold, Own, After, ReadyTime, Synced;
    var run, to := front + [step], step.at + 1;
    EventsOfRows(run);
    var ids := After(run).rows.Keys;
    ReplayWiden(After(run).events, ids, to);
    forall id | id != step.action.id
      ensures ReplayTime(After(run).events, to)(id) == ReadyTimes(run, to)(id)
    {
      OthersStaySynced(front, step, id);
      SyncedAgrees(run, id, to);
    }
    UncleanStep(front, step);
    UncleanActsOnRow(front, step);
    SumUpdate(ids, ReadyTimes(run, to), ReplayTime(After(run).events, to), step.action.id);
  }

  lemma {:induction false} UncleanActsOnRow(front: seq<Timed>, step: Timed)
    requires !Clean(After(front), step.action)
    ensures step.action.id in After(front + [step]).rows
  {
    var run := front + [step];
    assert run[..|run| - 1] == front;
  }

  /** Under a clock that ticks between steps, replay is exact throughout a run if and only if every `resume` and
      `restart` in it was clean. */
  lemma {:induction false} MetersExactlyIffClean(run: seq<Timed>)
    requires Ticking(run)
    ensures MetersExactly(run) <==> AllClean(run)
  {
    hide After, Synced, ExactAt, Clean;
    if AllClean(run) {
      forall n, to | 0 <= n <= |run| && (n > 0 ==> run[n - 1].at <= to)
        ensures ExactAt(run[..n], to)
      {
        PrefixClean(run, n);
        MeteringAgrees(run[..n], to);
      }
    } else {
      var n := FirstUnclean(run);
      PrefixClean(run, n);
      forall id
        ensures Synced(run[..n], id)
      {
        CleanRunSynced(run[..n], id);
      }
      UncleanStepShows(run[..n], run[n]);
      assert run[..n] + [run[n]] == run[..n + 1];
      assert !ExactAt(run[..n + 1], run[n].at + 1);
    }
  }

  lemma {:induction false} PrefixClean(run: seq<Timed>, n: nat)
    requires n <= |run| && forall i :: 0 <= i < n ==> Clean(After(run[..i]), run[i].action)
    ensures AllClean(run[..n])
  {
    forall i | 0 <= i < n
      ensures Clean(After(run[..n][..i]), run[..n][i].action)
    {
      assert run[..n][..i] == run[..i];
    }
  }

  ghost function FirstUnclean(run: seq<Timed>): (n: nat)
    requires !AllClean(run)
    ensures n < |run| && !Clean(After(run[..n]), run[n].action)
    ensures forall i :: 0 <= i < n ==> Clean(After(run[..i]), run[i].action)
  {
    FirstUncleanFrom(run, 0)
  }

  ghost function FirstUncleanFrom(run: seq<Timed>, k: nat): (n: nat)
    requires k <= |run| && !AllClean(run)
    requires forall i :: 0 <= i < k ==> Clean(After(run[..i]), run[i].action)
    ensures n < |run| && !Clean(After(run[..n]), run[n].action)
    ensures forall i :: 0 <= i < n ==> Clean(After(run[..i]), run[i].action)
    decreases |run| - k
  {
    if !Clean(After(run[..k]), run[k].action) then k else FirstUncleanFrom(run, k + 1)
  }
}
