/**
 What the promise chain guarantees over all its runs: their order, what the file shows, and that every call settles
 (packages/control-plane/src/runtime/guacamole.ts:274-313).
 */
module RegenGuarantees {
  import opened Prelude
  import opened UserMapping
  import opened RegenChain

  /** At every point of every run at most one call is between its start and its settling. */
  lemma AtMostOneRunning(rows: seq<RenderRow>, run: seq<Step>, d: Option<string>, s: State, i: nat, j: nat)
    requires Exec(Init(rows), run, d) == Some(s) && Busy(s, i) && Busy(s, j)
    ensures i == j
  {
    hide UserMappingXml, Exec, InLine, Fresh;
    InitSound(rows, d);
    RunSound(Init(rows), run, d);
    OneBusy(s, i, j);
  }

  lemma InitSound(rows: seq<RenderRow>, d: Option<string>)
    ensures InLine(Init(rows)) && Fresh(Init(rows), d)
  {
    hide UserMappingXml;
  }

  /** Every prefix of a run is a run, and its next step is enabled where it ends. */
  lemma {:induction false} ExecPrefix(s: State, run: seq<Step>, d: Option<string>, a: nat)
    requires Exec(s, run, d).Some? && a < |run|
    ensures Exec(s, run[..a], d).Some? && Enabled(Exec(s, run[..a], d).value, run[a])
    ensures Exec(Exec(s, run[..a], d).value, run[a..], d) == Exec(s, run, d)
    decreases |run|
  {
    hide Next, Enabled;
    if a > 0 {
      ExecPrefix(Next(s, run[0], d), run[1..], d, a - 1);
      assert run[..a][1..] == run[1..][..a - 1] && run[a..] == run[1..][a - 1..];
    } else {
      assert run[0..] == run;
    }
  }

  /** A call that has settled never waits again. */
  lemma {:induction false} SettledStays(s: State, run: seq<Step>, d: Option<string>, j: nat)
    requires Exec(s, run, d).Some? && Settled(s, j)
    ensures Settled(Exec(s, run, d).value, j)
    decreases |run|
  {
    hide UserMappingXml, Exec;
    if run == [] {
      ExecNothing(s, d);
    } else {
      ExecStep(s, run, d);
      SettledStays(Next(s, run[0], d), run[1..], d, j);
    }
  }

  lemma ExecNothing(s: State, d: Option<string>)
    ensures Exec(s, [], d) == Some(s)
  {
  }

  lemma ExecStep(s: State, run: seq<Step>, d: Option<string>)
    requires run != [] && Exec(s, run, d).Some?
    ensures Enabled(s, run[0]) && Exec(s, run, d) == Exec(Next(s, run[0], d), run[1..], d)
  {
    hide Next, Enabled;
  }

  /**
   In every run, failed calls included: when a call starts, each earlier call that was made has settled, and so started
   before it.
   */
  lemma StartsInCallOrder(rows: seq<RenderRow>, run: seq<Step>, d: Option<string>, a: nat, i: nat, j: nat)
    requires Exec(Init(rows), run, d).Some? && a < |run| && run[a] == Start(i) && j < i
    ensures Exec(Init(rows), run[..a], d).Some? && Settled(Exec(Init(rows), run[..a], d).value, j)
    ensures forall b :: a <= b < |run| ==> run[b] != Start(j)
  {
    hide UserMappingXml, Exec, InLine, Fresh;
    ExecPrefix(Init(rows), run, d, a);
    var s := Exec(Init(rows), run[..a], d).value;
    InitSound(rows, d);
    RunSound(Init(rows), run[..a], d);
    StartedAfterAll(s, i, j);
    forall b | a <= b < |run| ensures run[b] != Start(j) {
      var rest := run[a..];
      ExecPrefix(s, rest, d, b - a);
      SettledStays(s, rest[..b - a], d, j);
      assert rest[b - a] == run[b];
    }
  }

  lemma StartedAfterAll(s: State, i: nat, j: nat)
    requires InLine(s) && Enabled(s, Start(i)) && j < i
    ensures Settled(s, j)
  {
    assert s.calls[i].after == Some(i - 1);
    if j < i - 1 { LineOrder(s, i - 1, j); }
  }

  // ---------- what the file shows ----------

  /** Whatever ran before: if the last call was made after the last commit and succeeded, the file is current. */
  lemma {:induction false} LatestCommitterWins(rows: seq<RenderRow>, run: seq<Step>, d: Option<string>, s: State)
    requires Exec(Init(rows), run, d) == Some(s)
    requires s.calls != [] && s.calls[|s.calls| - 1].phase.Done?
    requires s.calls[|s.calls| - 1].seen == |s.history| - 1
    ensures |s.history| > 0 && s.file == Some(UserMappingXml(s.history[|s.history| - 1], d))
    ensures forall i :: 0 <= i < |s.calls| ==> Settled(s, i)
  {
    hide UserMappingXml, Exec;
    RunSound(Init(rows), run, d);
    forall i | 0 <= i < |s.calls| ensures Settled(s, i) {
      if i < |s.calls| - 1 { LineOrder(s, |s.calls| - 1, i); }
    }
  }

  /** From the moment a call succeeds, the file shows a state at least as new as the one its caller had committed. */
  lemma {:induction false} SuccessIsVisible(rows: seq<RenderRow>, run: seq<Step>, d: Option<string>, s: State, i: nat) returns (shown: nat)
    requires Exec(Init(rows), run, d) == Some(s)
    requires i < |s.calls| && s.calls[i].phase.Done?
    ensures s.calls[i].seen <= s.calls[i].phase.snapshot <= shown < |s.history|
    ensures s.file == Some(UserMappingXml(s.history[shown], d))
  {
    hide UserMappingXml, Exec;
    RunSound(Init(rows), run, d);
    shown := s.written[|s.written| - 1];
  }

  /** The snapshots on disk succeed each other in the order they were taken, and never go back. */
  lemma {:induction false} WritesNeverGoBack(s: State, run: seq<Step>, d: Option<string>)
    requires InLine(s) && Fresh(s, d) && Exec(s, run, d).Some?
    ensures s.written <= Exec(s, run, d).value.written
    ensures var w := Exec(s, run, d).value.written; forall k, l :: 0 <= k < l < |w| ==> w[k] <= w[l]
    decreases |run|
  {
    hide UserMappingXml, InLine;
    if run != [] {
      StepInLine(s, run[0], d);
      StepFresh(s, run[0], d);
      WritesNeverGoBack(Next(s, run[0], d), run[1..], d);
    }
  }

  // ---------- a failure does not poison the chain ----------

  function Rank(p: Phase): nat {
    match p
    case Waiting => 3
    case Running => 2
    case Holding(_) => 1
    case _ => 0
  }

  function Outstanding(calls: seq<Call>): nat {
    if calls == [] then 0 else Rank(calls[0].phase) + Outstanding(calls[1..])
  }

  lemma {:induction false} OutstandingUpdate(calls: seq<Call>, i: nat, c: Call)
    requires i < |calls|
    ensures Outstanding(calls[i := c]) == Outstanding(calls) - Rank(calls[i].phase) + Rank(c.phase)
  {
    if i == 0 {
      assert calls[i := c][1..] == calls[1..];
    } else {
      assert calls[i := c][1..] == calls[1..][i - 1 := c];
      OutstandingUpdate(calls[1..], i - 1, c);
    }
  }

  /** Every step of the chain itself uses up some of the work that outstanding calls have left. */
  lemma {:induction false} ChainStepDecreases(s: State, step: Step, d: Option<string>)
    requires Enabled(s, step) && !step.Commit? && !step.Regenerate?
    ensures Outstanding(Next(s, step, d).calls) < Outstanding(s.calls)
  {
    hide UserMappingXml;
    OutstandingUpdate(s.calls, step.i, Next(s, step, d).calls[step.i]);
  }

  /** However calls have failed, an unsettled call means that a step which makes progress is enabled. */
  lemma {:induction false} NeverStuck(s: State, d: Option<string>, i: nat) returns (step: Step)
    requires InLine(s) && Fresh(s, d) && i < |s.calls| && !Settled(s, i)
    ensures Enabled(s, step) && (step.Start? || step.Read? || step.Write?)
  {
    hide UserMappingXml;
    if i > 0 && !Settled(s, i - 1) {
      step := NeverStuck(s, d, i - 1);
    } else {
      match s.calls[i].phase
      case Waiting => step := Start(i);
      case Running => step := Read(i);
      case Holding(_) => step := Write(i);
    }
  }

  /** No new commit and no new call. */
  predicate ChainOnly(run: seq<Step>) {
    run == [] || (!run[0].Commit? && !run[0].Regenerate? && ChainOnly(run[1..]))
  }

  /** So a run without new commits and calls ends, and it can only end with every promise settled. */
  lemma {:induction false} EveryCallSettles(s: State, run: seq<Step>, d: Option<string>)
    requires InLine(s) && Fresh(s, d) && Exec(s, run, d).Some?
    requires ChainOnly(run)
    ensures |run| + Outstanding(Exec(s, run, d).value.calls) <= Outstanding(s.calls)
    ensures var t := Exec(s, run, d).value;
            (forall i :: 0 <= i < |t.calls| ==> Settled(t, i))
            || exists step :: Enabled(t, step) && !step.Commit? && !step.Regenerate?
    decreases |run|
  {
    hide UserMappingXml, InLine, Fresh;
    if run == [] {
      if i: nat :| i < |s.calls| && !Settled(s, i) {
        var step := NeverStuck(s, d, i);
      }
    } else {
      StepInLine(s, run[0], d);
      StepFresh(s, run[0], d);
      ChainStepDecreases(s, run[0], d);
      EveryCallSettles(Next(s, run[0], d), run[1..], d);
    }
  }
}
