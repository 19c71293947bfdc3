/**
 Metering against the lifecycle: the compute time a report replays from the emitted events
 (packages/control-plane/src/routes/reports.ts:681-704), compared with the time instances really spent `ready` and
 claimed. The two agree on every run exactly when `resume` is only applied to claimed rows that are not ready and
 `restart` never to a claimed row that is not ready.
 */
module Metering {
  import opened Prelude
  import opened UsageReplay
  import opened ReplayMeaning
  import opened Lifecycle

  datatype Timed = Timed(at: int, action: Action)

  function After(run: seq<Timed>): State {
    if run == [] then Empty else
      var last := run[|run| - 1];
      Apply(After(run[..|run| - 1]), last.at, last.action)
  }

  function LastAt(run: seq<Timed>): int
    requires run != []
  {
    run[|run| - 1].at
  }

  ghost predicate InOrder(run: seq<Timed>) {
    forall i, j :: 0 <= i < j < |run| ==> run[i].at <= run[j].at
  }

  ghost predicate Ticking(run: seq<Timed>) {
    forall i, j :: 0 <= i < j < |run| ==> run[i].at < run[j].at
  }

  /** A student is using the instance: it is ready and out of the warm pool. */
  predicate InUse(s: State, id: string) {
    id in s.rows && s.rows[id].status == Ready && !s.rows[id].isPrewarm
  }

  /** Time instance `id` really spent ready and claimed, up to `to`. */
  function ReadyTime(run: seq<Timed>, id: string, to: int): int {
    if run == [] then 0 else
      ReadyTime(run[..|run| - 1], id, LastAt(run)) + if InUse(After(run), id) then to - LastAt(run) else 0
  }

  ghost function ReadyTimes(run: seq<Timed>, to: int): string -> int {
    id => ReadyTime(run, id, to)
  }

  ghost function ReadyTotal(run: seq<Timed>, to: int): int {
    SumOver(After(run).rows.Keys, ReadyTimes(run, to))
  }

  /** What a caller of `resume` and `restart` can check on the row before calling. */
  predicate Clean(s: State, a: Action) {
    match a
    case Resume(id) => Accepts(s, a) ==> !s.rows[id].isPrewarm && s.rows[id].status != Ready
    case Restart(id) => Accepts(s, a) ==> s.rows[id].isPrewarm || s.rows[id].status == Ready
    case _ => true
  }

  ghost predicate AllClean(run: seq<Timed>) {
    forall i :: 0 <= i < |run| ==> Clean(After(run[..i]), run[i].action)
  }

  // ---------- every reachable row ----------

  /** A ready row has its container; a row still being provisioned has none yet. */
  ghost predicate Shaped(s: State) {
    && (forall id :: id in s.rows ==>
          (s.rows[id].status == Ready ==> s.rows[id].hasRuntime) && (s.rows[id].provisioning ==> !s.rows[id].hasRuntime))
    && (forall i :: 0 <= i < |s.events| ==> s.events[i].inst in s.rows)
  }

  lemma {:induction false} ReachableShaped(run: seq<Timed>)
    ensures Shaped(After(run))
  {
    if run != [] {
      ReachableShaped(run[..|run| - 1]);
    }
  }

  // ---------- one instance ----------

  function MeterOf(run: seq<Timed>, id: string): Meter {
    Fold(Own(After(run).events, id))
  }

  /** The open interval of the replay is the interval the instance is in use, and so far the two times are equal. */
  ghost predicate Synced(run: seq<Timed>, id: string) {
    var m := MeterOf(run, id);
    && (m.open.Some? <==> InUse(After(run), id))
    && (run == [] ==> m == Meter(None, 0))
    && (run != [] ==> (m.open.Some? ==> m.open.value.at <= LastAt(run))
                      && m.total + OpenPart(m, LastAt(run)) == ReadyTime(run, id, LastAt(run)))
  }

  lemma {:induction false} SyncedAgrees(run: seq<Timed>, id: string, to: int)
    requires Synced(run, id) && (run != [] ==> LastAt(run) <= to)
    ensures var m := MeterOf(run, id); m.total + OpenPart(m, to) == ReadyTime(run, id, to)
  {
    hide MeterOf, After;
  }

  lemma OwnEmit(s: State, who: string, kind: Kind, now: int, id: string)
    requires who in s.rows
    ensures Fold(Own(Emit(s, who, kind, now).events, id)) ==
            if who == id then StepOne(Fold(Own(s.events, id)), Event(id, Some(s.rows[id].tmpl), kind, now))
            else Fold(Own(s.events, id))
  {
    var e := Event(who, Some(s.rows[who].tmpl), kind, now);
    var evs := s.events + [e];
    FoldOwnSnoc(evs, |s.events|, id);
    assert evs[..|s.events|] == s.events && evs[..|s.events| + 1] == evs;
  }

  /** What a step does to one instance: its meter, and whether it is in use. */
  lemma StepMeter(s: State, now: int, a: Action, id: string)
    requires Shaped(s)
    ensures var m, m' := Fold(Own(s.events, id)), Fold(Own(Apply(s, now, a).events, id));
            if !Accepts(s, a) || a.id != id then m' == m && InUse(Apply(s, now, a), id) == InUse(s, id)
            else match a
              case BeginProvision(_, _, _, _) => m' == m && !InUse(s, id) && !InUse(Apply(s, now, a), id)
              case FinishProvision(_) =>
                && !InUse(s, id) && InUse(Apply(s, now, a), id) == !s.rows[id].isPrewarm
                && (if s.rows[id].isPrewarm then m' == m else m'.open.Some? && m'.open.value.at == now && m'.total == m.total)
              case FailProvision(_) => m' == m && !InUse(s, id) && !InUse(Apply(s, now, a), id)
              case ClaimPrewarm(_, _) =>
                !InUse(s, id) && InUse(Apply(s, now, a), id) && m'.open.Some? && m'.open.value.at == now && m'.total == m.total
              case Suspend(_) => !InUse(Apply(s, now, a), id) && m' == Meter(None, m.total + OpenPart(m, now))
              case Resume(_) =>
                && InUse(Apply(s, now, a), id) == !s.rows[id].isPrewarm
                && m'.open.Some? && m'.open.value.at == now && m'.total == m.total
              case Restart(_) => InUse(Apply(s, now, a), id) == !s.rows[id].isPrewarm && m' == m
              case Destroy(_) => !InUse(Apply(s, now, a), id) && m' == Meter(None, m.total + OpenPart(m, now))
  {
    hide Fold, Own;
    if Accepts(s, a) {
      var row := Apply(s, now, a).rows[a.id];
      var put := Put(s, a.id, row);
      match a
      case FinishProvision(_) => OwnEmit(put, a.id, InstanceReady, now, id);
      case ClaimPrewarm(_, _) => OwnEmit(put, a.id, InstanceReady, now, id);
      case Suspend(_) => OwnEmit(put, a.id, InstancePaused, now, id);
      case Resume(_) => OwnEmit(put, a.id, InstanceResumed, now, id);
      case Destroy(_) => OwnEmit(put, a.id, InstanceTerminated, now, id);
      case _ =>
    }
  }

  ghost predicate Follows(front: seq<Timed>, at: int) {
    front == [] || LastAt(front) <= at
  }

  lemma {:induction false} SyncedStep(front: seq<Timed>, step: Timed, id: string)
    requires Synced(front, id) && Follows(front, step.at) && Clean(After(front), step.action)
    ensures Synced(front + [step], id)
  {
    hide Fold, Own, Apply;
    var run := front + [step];
    assert run[..|run| - 1] == front;
    ReachableShaped(front);
    SyncedAgrees(front, id, step.at);
    StepMeter(After(front), step.at, step.action, id);
  }

  lemma {:induction false} CleanRunSynced(run: seq<Timed>, id: string)
    requires InOrder(run) && AllClean(run)
    ensures Synced(run, id)
  {
    if run != [] {
      var front, step := run[..|run| - 1], run[|run| - 1];
      forall i | 0 <= i < |front|
        ensures Clean(After(front[..i]), front[i].action)
      {
        assert front[..i] == run[..i];
      }
      CleanRunSynced(front, id);
      SyncedStep(front, step, id);
      assert front + [step] == run;
    }
  }

  // ---------- all instances ----------

  lemma EventsOfRows(run: seq<Timed>)
    ensures Ids(After(run).events) <= After(run).rows.Keys
  {
    ReachableShaped(run);
  }

  /** Metering agrees with the lifecycle: on a clean run the replayed time is the time really ready and claimed. */
  lemma {:induction false} MeteringAgrees(run: seq<Timed>, to: int)
    requires InOrder(run) && AllClean(run) && (run != [] ==> LastAt(run) <= to)
    ensures ExactAt(run, to)
  {
    hide Fold, Own, After, ReadyTime;
    EventsOfRows(run);
    ReplayWiden(After(run).events, After(run).rows.Keys, to);
    forall id
      ensures ReplayTime(After(run).events, to)(id) == ReadyTimes(run, to)(id)
    {
      CleanRunSynced(run, id);
      SyncedAgrees(run, id, to);
    }
    SumCongruent(After(run).rows.Keys, ReplayTime(After(run).events, to), ReadyTimes(run, to));
  }

  // ---------- exactly the clean runs ----------

  /** A report whose window ends at `to` and covers the run reports the time instances were really in use. */
  ghost predicate ExactAt(run: seq<Timed>, to: int) {
    Replay(After(run).events, to) == ReadyTotal(run, to)
  }

  ghost predicate MetersExactly(run: seq<Timed>) {
    forall n, to :: 0 <= n <= |run| && (n > 0 ==> run[n - 1].at <= to) ==> ExactAt(run[..n], to)
  }
}
