/**
 The promise chain behind regenerateUserMapping (packages/control-plane/src/runtime/guacamole.ts:292-371). Each call
 hangs its run on the promise currently stored in `regenChain` and stores its own in its place; a failed run settles
 its link of the chain like a successful one. Commits, calls, starts, snapshot reads, file writes and failures are
 separate steps in any order the chain allows.
 */
module RegenChain {
  import opened Prelude
  import opened UserMapping

  datatype Phase =
    | Waiting                              // the predecessor's promise has not settled
    | Running                              // started, snapshot not read yet
    | Holding(snapshot: nat)               // snapshot read, file not written yet
    | Done(snapshot: nat)
    | Skipped                              // Guacamole is unconfigured or disabled: resolved, nothing written
    | Rejected

  /** `after`: the call whose promise `regenChain` held. `seen`: the latest commit when the call was made. */
  datatype Call = Call(after: Option<nat>, seen: nat, phase: Phase)

  /** `history` are the successive committed states of the database; `written` the snapshots put on disk, in order. */
  datatype State = State(history: seq<seq<RenderRow>>, calls: seq<Call>, regenChain: Option<nat>,
                         file: Option<string>, written: seq<nat>)

  datatype Step =
    | Commit(rows: seq<RenderRow>)
    | Regenerate
    | Start(i: nat)
    | Skip(i: nat)
    | Read(i: nat)
    | Write(i: nat)
    | Fail(i: nat, wrote: bool)            // a remote write may fail after the file was moved into place

  function Init(rows: seq<RenderRow>): State {
    State([rows], [], None, None, [])
  }

  predicate Settled(s: State, i: nat) {
    i < |s.calls| && (s.calls[i].phase.Done? || s.calls[i].phase.Skipped? || s.calls[i].phase.Rejected?)
  }

  predicate Busy(s: State, i: nat) {
    i < |s.calls| && (s.calls[i].phase.Running? || s.calls[i].phase.Holding?)
  }

  predicate Enabled(s: State, step: Step) {
    match step
    case Commit(_) => true
    case Regenerate => |s.history| > 0
    case Start(i) => i < |s.calls| && s.calls[i].phase.Waiting?
                     && (s.calls[i].after.None? || Settled(s, s.calls[i].after.value))
    case Skip(i) => i < |s.calls| && s.calls[i].phase.Running?
    case Read(i) => i < |s.calls| && s.calls[i].phase.Running? && |s.history| > 0
    case Write(i) => i < |s.calls| && s.calls[i].phase.Holding? && s.calls[i].phase.snapshot < |s.history|
    case Fail(i, wrote) => Busy(s, i) && (wrote ==> s.calls[i].phase.Holding? && s.calls[i].phase.snapshot < |s.history|)
  }

  function SetPhase(s: State, i: nat, p: Phase): State
    requires i < |s.calls|
  {
    s.(calls := s.calls[i := s.calls[i].(phase := p)])
  }

  function PutFile(s: State, snapshot: nat, defaultRdpHost: Option<string>): State
    requires snapshot < |s.history|
  {
    s.(file := Some(UserMappingXml(s.history[snapshot], defaultRdpHost)), written := s.written + [snapshot])
  }

  function Next(s: State, step: Step, defaultRdpHost: Option<string>): State
    requires Enabled(s, step)
  {
    match step
    case Commit(rows) => s.(history := s.history + [rows])
    case Regenerate =>
      s.(calls := s.calls + [Call(s.regenChain, |s.history| - 1, Waiting)], regenChain := Some(|s.calls|))
    case Start(i) => SetPhase(s, i, Running)
    case Skip(i) => SetPhase(s, i, Skipped)
    case Read(i) => SetPhase(s, i, Holding(|s.history| - 1))
    case Write(i) =>
      var snapshot := s.calls[i].phase.snapshot;
      SetPhase(PutFile(s, snapshot, defaultRdpHost), i, Done(snapshot))
    case Fail(i, wrote) =>
      SetPhase(if wrote then PutFile(s, s.calls[i].phase.snapshot, defaultRdpHost) else s, i, Rejected)
  }

  /** The state after the steps of a run, if every one of them is enabled when its turn comes. */
  function Exec(s: State, run: seq<Step>, d: Option<string>): Option<State>
    decreases |run|
  {
    if run == [] then Some(s)
    else if !Enabled(s, run[0]) then None
    else Exec(Next(s, run[0], d), run[1..], d)
  }

  // ---------- the invariant ----------

  /** Calls form one line, and only its settled prefix may be followed by a call that has started. */
  ghost predicate InLine(s: State) {
    && |s.history| > 0
    && s.regenChain == (if s.calls == [] then None else Some(|s.calls| - 1))
    && (forall i :: 0 <= i < |s.calls| ==> s.calls[i].after == if i == 0 then None else Some(i - 1))
    && (forall i, j :: 0 <= j < i < |s.calls| && !s.calls[i].phase.Waiting? ==> Settled(s, j))
  }

  /** Snapshots are taken after the call that asked for them, and never older than what is already on disk. */
  ghost predicate Fresh(s: State, d: Option<string>) {
    var latest := |s.history| - 1;
    && (forall i :: 0 <= i < |s.calls| ==> s.calls[i].seen <= latest)
    && (forall i :: 0 <= i < |s.calls| && (s.calls[i].phase.Holding? || s.calls[i].phase.Done?) ==>
          s.calls[i].seen <= s.calls[i].phase.snapshot <= latest)
    && (forall i, k :: 0 <= i < |s.calls| && s.calls[i].phase.Holding? && 0 <= k < |s.written| ==>
          s.written[k] <= s.calls[i].phase.snapshot)
    && (forall i :: 0 <= i < |s.calls| && s.calls[i].phase.Done? ==>
          s.written != [] && s.calls[i].phase.snapshot <= s.written[|s.written| - 1])
    && (forall k :: 0 <= k < |s.written| ==> s.written[k] <= latest)
    && (forall k, l :: 0 <= k < l < |s.written| ==> s.written[k] <= s.written[l])
    && s.file == (if s.written == [] then None else Some(UserMappingXml(s.history[s.written[|s.written| - 1]], d)))
  }

  /** No call leaves `Waiting` before every earlier call has settled, failed ones included. */
  lemma LineOrder(s: State, i: nat, j: nat)
    requires InLine(s) && j < i < |s.calls|
    ensures s.calls[i].phase.Waiting? || Settled(s, j)
  {
  }

  /** A call that is first in line may move on. */
  lemma {:induction false} MoveInLine(s: State, i: nat, p: Phase)
    requires InLine(s) && i < |s.calls| && !Settled(s, i) && !p.Waiting?
    requires forall j :: 0 <= j < i ==> Settled(s, j)
    ensures InLine(SetPhase(s, i, p))
  {
    var t := SetPhase(s, i, p);
    forall k: nat, j: nat | j < k < |t.calls| && !t.calls[k].phase.Waiting?
      ensures Settled(t, j)
    {
      if k > i {
        LineOrder(s, k, i);
      } else {
        assert Settled(s, j);
        assert t.calls[j] == s.calls[j];
      }
    }
  }

  lemma {:induction false} StepInLine(s: State, step: Step, d: Option<string>)
    requires Enabled(s, step) && InLine(s)
    ensures InLine(Next(s, step, d))
  {
    hide UserMappingXml;
    match step
    case Commit(_) =>
      var t := Next(s, step, d);
      forall k, j | 0 <= j < k < |t.calls| && !t.calls[k].phase.Waiting? ensures Settled(t, j) {
        assert Settled(s, j);
      }
    case Regenerate =>
      var t := Next(s, step, d);
      forall k, j | 0 <= j < k < |t.calls| && !t.calls[k].phase.Waiting? ensures Settled(t, j) {
        assert t.calls[k] == s.calls[k];
        assert Settled(s, j);
      }
    case Start(i) =>
      forall j | 0 <= j < i ensures Settled(s, j) {
        assert s.calls[i].after == Some(i - 1);
        if j < i - 1 { assert !s.calls[i - 1].phase.Waiting?; }
      }
      MoveInLine(s, i, Running);
    case Skip(i) => MoveInLine(s, i, Skipped);
    case Read(i) => MoveInLine(s, i, Holding(|s.history| - 1));
    case Write(i) =>
      var snapshot := s.calls[i].phase.snapshot;
      PutFileInLine(s, snapshot, d);
      MoveInLine(PutFile(s, snapshot, d), i, Done(snapshot));
    case Fail(i, wrote) =>
      var t := if wrote then PutFile(s, s.calls[i].phase.snapshot, d) else s;
      if wrote { PutFileInLine(s, s.calls[i].phase.snapshot, d); }
      assert forall j :: 0 <= j < i ==> Settled(s, j);
      MoveInLine(t, i, Rejected);
  }

  lemma {:induction false} PutFileInLine(s: State, snapshot: nat, d: Option<string>)
    requires InLine(s) && snapshot < |s.history|
    ensures InLine(PutFile(s, snapshot, d))
    ensures forall j :: Settled(s, j) <==> Settled(PutFile(s, snapshot, d), j)
  {
    hide UserMappingXml;
    var t := PutFile(s, snapshot, d);
    forall k, j | 0 <= j < k < |t.calls| && !t.calls[k].phase.Waiting? ensures Settled(t, j) {
      assert Settled(s, j);
    }
  }

  lemma OneBusy(s: State, i: nat, j: nat)
    requires InLine(s) && Busy(s, i) && Busy(s, j)
    ensures i == j
  {
    if i < j {
      LineOrder(s, j, i);
    } else if j < i {
      LineOrder(s, i, j);
    }
  }

  lemma {:induction false} PutFileFresh(s: State, i: nat, d: Option<string>)
    requires InLine(s) && Fresh(s, d) && i < |s.calls| && s.calls[i].phase.Holding?
    requires s.calls[i].phase.snapshot < |s.history|
    ensures Fresh(PutFile(s, s.calls[i].phase.snapshot, d), d)
  {
    hide UserMappingXml;
    var snapshot := s.calls[i].phase.snapshot;
    var t := PutFile(s, snapshot, d);
    forall j, k | 0 <= j < |t.calls| && t.calls[j].phase.Holding? && 0 <= k < |t.written|
      ensures t.written[k] <= t.calls[j].phase.snapshot
    {
      if k == |s.written| { OneBusy(s, i, j); }
    }
    forall k, l | 0 <= k < l < |t.written| ensures t.written[k] <= t.written[l] {
      if l == |s.written| { assert s.written[k] <= s.calls[i].phase.snapshot; }
    }
    forall j | 0 <= j < |s.calls| && s.calls[j].phase.Done?
      ensures s.calls[j].phase.snapshot <= t.written[|t.written| - 1]
    {
      assert s.written[|s.written| - 1] <= s.calls[i].phase.snapshot;
    }
  }

  lemma {:induction false} SetPhaseFresh(s: State, i: nat, p: Phase, d: Option<string>)
    requires Fresh(s, d) && i < |s.calls| && |s.history| > 0
    requires p.Holding? ==> p.snapshot == |s.history| - 1
    requires p.Done? ==> s.calls[i].phase == Holding(p.snapshot) && s.written != [] && p.snapshot == s.written[|s.written| - 1]
    ensures Fresh(SetPhase(s, i, p), d)
  {
    hide UserMappingXml;
  }

  lemma {:induction false} GrowFresh(s: State, step: Step, d: Option<string>)
    requires Enabled(s, step) && InLine(s) && Fresh(s, d) && (step.Commit? || step.Regenerate?)
    ensures Fresh(Next(s, step, d), d)
  {
    hide UserMappingXml;
  }

  lemma {:induction false} StepFresh(s: State, step: Step, d: Option<string>)
    requires Enabled(s, step) && InLine(s) && Fresh(s, d)
    ensures Fresh(Next(s, step, d), d)
  {
    hide UserMappingXml, Fresh;
    match step
    case Commit(_) => GrowFresh(s, step, d);
    case Regenerate => GrowFresh(s, step, d);
    case Start(i) => SetPhaseFresh(s, i, Running, d);
    case Skip(i) => SetPhaseFresh(s, i, Skipped, d);
    case Read(i) => SetPhaseFresh(s, i, Holding(|s.history| - 1), d);
    case Write(i) =>
      var snapshot := s.calls[i].phase.snapshot;
      PutFileFresh(s, i, d);
      SetPhaseFresh(PutFile(s, snapshot, d), i, Done(snapshot), d);
    case Fail(i, wrote) =>
      if wrote {
        PutFileFresh(s, i, d);
        SetPhaseFresh(PutFile(s, s.calls[i].phase.snapshot, d), i, Rejected, d);
      } else {
        SetPhaseFresh(s, i, Rejected, d);
      }
  }

  lemma {:induction false} RunSound(s: State, run: seq<Step>, d: Option<string>)
    requires InLine(s) && Fresh(s, d) && Exec(s, run, d).Some?
    ensures InLine(Exec(s, run, d).value) && Fresh(Exec(s, run, d).value, d)
    decreases |run|
  {
    hide InLine, Fresh;
    if run != [] {
      StepInLine(s, run[0], d);
      StepFresh(s, run[0], d);
      RunSound(Next(s, run[0], d), run[1..], d);
    }
  }
}
