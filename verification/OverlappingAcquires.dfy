/**
 Acquires that overlap (packages/control-plane/src/orchestrator.ts:192-237, 239-282, 448-461). An acquire looks for a live
 row, awaits, tries to claim a warm one, awaits, and inserts a fresh row; any other acquire, of the same student or another,
 and any status change may run in between.
 */
module OverlappingAcquires {
  import opened Prelude
  import opened Acquire

  /** `Looked`: found no live row. `Unclaimed`: the claim came back without a row. */
  datatype Slot = Free | Looked(q: Request) | Unclaimed(q: Request)

  /** One slot per acquire that may be in flight. */
  datatype State = State(rows: seq<Row>, slots: seq<Slot>)

  datatype Step =
    | Look(w: nat, q: Request)
    | Claim(w: nat, k: nat)          // the row the database locked
    | Miss(w: nat)                   // nothing claimable, or every claimable row locked by another claim
    | Insert(w: nat)
    | GiveUp(w: nat)                 // placement throws before the insert
    | Stock(templateId: string, node: Option<string>, expiresAt: int)
    | Move(i: nat, status: Status)

  predicate Enabled(s: State, step: Step) {
    match step
    case Look(w, _) => w < |s.slots| && s.slots[w].Free?
    case Claim(w, k) => w < |s.slots| && s.slots[w].Looked? && k < |s.rows| && Warm(s.rows[k], s.slots[w].q)
    case Miss(w) => w < |s.slots| && s.slots[w].Looked?
    case Insert(w) => w < |s.slots| && s.slots[w].Unclaimed?
    case GiveUp(w) => w < |s.slots| && s.slots[w].Unclaimed?
    case Stock(_, _, _) => true
    case Move(i, _) => i < |s.rows|
  }

  function Next(s: State, step: Step): State
    requires Enabled(s, step)
  {
    match step
    case Look(w, q) =>
      (match Existing(s.rows, q.templateId, q.userIdHash)
       case Some(i) => s.(rows := s.rows[i := s.rows[i].(expiresAt := Max(s.rows[i].expiresAt, q.expiresAt))])
       case None => s.(slots := s.slots[w := Looked(q)]))
    case Claim(w, k) => State(s.rows[k := Claimed(s.rows[k], s.slots[w].q)], s.slots[w := Free])
    case Miss(w) => s.(slots := s.slots[w := Unclaimed(s.slots[w].q)])
    case Insert(w) => State(s.rows + [Fresh(s.slots[w].q)], s.slots[w := Free])
    case GiveUp(w) => s.(slots := s.slots[w := Free])
    case Stock(t, node, expiresAt) => s.(rows := s.rows + [Row(t, None, Provisioning, true, node, None, expiresAt)])
    case Move(i, status) => s.(rows := s.rows[i := s.rows[i].(status := status)])
  }

  ghost predicate Runs(s: State, steps: seq<Step>)
    decreases |steps|
  {
    steps == [] || (Enabled(s, steps[0]) && Runs(Next(s, steps[0]), steps[1..]))
  }

  ghost function After(s: State, steps: seq<Step>): State
    requires Runs(s, steps)
    decreases |steps|
  {
    if steps == [] then s else After(Next(s, steps[0]), steps[1..])
  }

  // ---------- one live row, exactly when ----------

  /** A row is claimed or inserted for a student who has a live one, or a dead row is revived beside a live one. */
  ghost predicate Duplicates(s: State, step: Step) {
    match step
    case Claim(w, _) => w < |s.slots| && s.slots[w].Looked? && HasLive(s.rows, s.slots[w].q)
    case Insert(w) => w < |s.slots| && s.slots[w].Unclaimed? && HasLive(s.rows, s.slots[w].q)
    case Move(i, status) => Doubles(s.rows, Acquire.Move(i, status))
    case _ => false
  }

  predicate HasLive(rows: seq<Row>, q: Request) {
    Existing(rows, q.templateId, q.userIdHash).Some?
  }

  lemma InsertKeepsIff(rows: seq<Row>, q: Request)
    requires OneLive(rows)
    ensures OneLive(rows + [Fresh(q)]) <==> !HasLive(rows, q)
  {
    var rows' := rows + [Fresh(q)];
    if HasLive(rows, q) {
      var i := Existing(rows, q.templateId, q.userIdHash).value;
      assert Live(rows'[i], q.templateId, q.userIdHash) && Live(rows'[|rows|], q.templateId, q.userIdHash);
    } else {
      forall i, j, t, u | 0 <= i < |rows'| && 0 <= j < |rows'| && Live(rows'[i], t, u) && Live(rows'[j], t, u) ensures i == j {
        if i < |rows| && j < |rows| { assert Live(rows[i], t, u) && Live(rows[j], t, u); }
      }
    }
  }

  lemma ClaimKeepsIff(rows: seq<Row>, q: Request, k: nat)
    requires OneLive(rows) && k < |rows| && Warm(rows[k], q)
    ensures OneLive(rows[k := Claimed(rows[k], q)]) <==> !HasLive(rows, q)
  {
    hide NonEmpty;
    var rows' := rows[k := Claimed(rows[k], q)];
    assert Live(rows'[k], q.templateId, q.userIdHash);
    if HasLive(rows, q) {
      var i := Existing(rows, q.templateId, q.userIdHash).value;
      assert Live(rows'[i], q.templateId, q.userIdHash) && i != k;
    } else {
      forall i, j, t, u | 0 <= i < |rows'| && 0 <= j < |rows'| && Live(rows'[i], t, u) && Live(rows'[j], t, u) ensures i == j {
        if i != k && j != k { assert Live(rows[i], t, u) && Live(rows[j], t, u); }
      }
    }
  }

  lemma SameLive(rows: seq<Row>, rows': seq<Row>)
    requires |rows'| == |rows| && OneLive(rows)
    requires forall i, t, u :: 0 <= i < |rows| && Live(rows'[i], t, u) ==> Live(rows[i], t, u)
    ensures OneLive(rows')
  {
  }

  lemma StockKeeps(rows: seq<Row>, r: Row)
    requires OneLive(rows) && r.isPrewarm
    ensures OneLive(rows + [r])
  {
    var rows' := rows + [r];
    forall i, j, t, u | 0 <= i < |rows'| && 0 <= j < |rows'| && Live(rows'[i], t, u) && Live(rows'[j], t, u) ensures i == j {
      assert Live(rows[i], t, u) && Live(rows[j], t, u);
    }
  }

  lemma StepKeepsOneLiveIff(s: State, step: Step)
    requires OneLive(s.rows) && Enabled(s, step)
    ensures OneLive(Next(s, step).rows) <==> !Duplicates(s, step)
  {
    hide OneLive, Doubles, Warm, Existing, Live;
    match step
    case Look(w, q) => LookKeeps(s.rows, q);
    case Claim(w, k) => ClaimKeepsIff(s.rows, s.slots[w].q, k);
    case Miss(_) =>
    case Insert(w) => InsertKeepsIff(s.rows, s.slots[w].q);
    case GiveUp(_) =>
    case Stock(t, node, expiresAt) => StockKeeps(s.rows, Row(t, None, Provisioning, true, node, None, expiresAt));
    case Move(i, status) => MoveKeepsIff(s.rows, i, status, Next(s, step).rows);
  }

  lemma LookKeeps(rows: seq<Row>, q: Request)
    requires OneLive(rows)
    ensures match Existing(rows, q.templateId, q.userIdHash)
            case Some(i) => OneLive(rows[i := rows[i].(expiresAt := Max(rows[i].expiresAt, q.expiresAt))])
            case None => true
  {
    match Existing(rows, q.templateId, q.userIdHash)
    case Some(i) => SameLive(rows, rows[i := rows[i].(expiresAt := Max(rows[i].expiresAt, q.expiresAt))]);
    case None =>
  }

  ghost predicate AlwaysOneLive(s: State, steps: seq<Step>)
    requires Runs(s, steps)
    decreases |steps|
  {
    OneLive(s.rows) && (steps == [] || AlwaysOneLive(Next(s, steps[0]), steps[1..]))
  }

  ghost predicate NeverDuplicates(s: State, steps: seq<Step>)
    requires Runs(s, steps)
    decreases |steps|
  {
    steps == [] || (!Duplicates(s, steps[0]) && NeverDuplicates(Next(s, steps[0]), steps[1..]))
  }

  /**
   With acquires of any students interleaved: no student ever has two live rows for a template if and only if nothing is
   claimed or inserted for a student who has one by then, and no dead row is revived beside a live one.
   */
  lemma {:induction false} OneLiveThroughoutIff(s: State, steps: seq<Step>)
    requires Runs(s, steps) && OneLive(s.rows)
    ensures AlwaysOneLive(s, steps) <==> NeverDuplicates(s, steps)
    decreases |steps|
  {
    hide OneLive, Duplicates, Next, Enabled;
    if steps != [] {
      var t := Next(s, steps[0]);
      StepKeepsOneLiveIff(s, steps[0]);
      if OneLive(t.rows) { OneLiveThroughoutIff(t, steps[1..]); } else { NotAlways(t, steps[1..]); }
    }
  }

  lemma NotAlways(s: State, steps: seq<Step>)
    requires Runs(s, steps) && !OneLive(s.rows)
    ensures !AlwaysOneLive(s, steps)
  {
    hide OneLive;
  }

  // ---------- how many live rows overlap can leave ----------

  function Lives(rows: seq<Row>, t: string, u: string): nat {
    if rows == [] then 0 else
      var n := |rows| - 1;
      Lives(rows[..n], t, u) + if Live(rows[n], t, u) then 1 else 0
  }

  predicate BusyFor(slot: Slot, t: string, u: string) {
    !slot.Free? && slot.q.templateId == t && slot.q.userIdHash == u
  }

  function Busy(slots: seq<Slot>, t: string, u: string): (b: nat)
    ensures b <= |slots|
  {
    if slots == [] then 0 else
      var n := |slots| - 1;
      Busy(slots[..n], t, u) + if BusyFor(slots[n], t, u) then 1 else 0
  }

  /** A dead row of the student is made live again. */
  predicate Revives(s: State, step: Step, t: string, u: string) {
    step.Move? && step.i < |s.rows| && !Live(s.rows[step.i], t, u) && Live(s.rows[step.i].(status := step.status), t, u)
  }

  ghost function Revivals(s: State, steps: seq<Step>, t: string, u: string): nat
    requires Runs(s, steps)
    decreases |steps|
  {
    if steps == [] then 0 else
      (if Revives(s, steps[0], t, u) then 1 else 0) + Revivals(Next(s, steps[0]), steps[1..], t, u)
  }

  lemma {:induction false} LivesUpdate(rows: seq<Row>, i: nat, r: Row, t: string, u: string)
    requires i < |rows|
    ensures Lives(rows[i := r], t, u) ==
            Lives(rows, t, u) + (if Live(r, t, u) then 1 else 0) - (if Live(rows[i], t, u) then 1 else 0)
  {
    hide Live;
    var n := |rows| - 1;
    if i == n {
      assert rows[i := r][..n] == rows[..n];
    } else {
      assert rows[i := r][..n] == rows[..n][i := r];
      LivesUpdate(rows[..n], i, r, t, u);
    }
  }

  lemma LivesSnoc(rows: seq<Row>, r: Row, t: string, u: string)
    ensures Lives(rows + [r], t, u) == Lives(rows, t, u) + if Live(r, t, u) then 1 else 0
  {
    assert (rows + [r])[..|rows|] == rows;
  }

  lemma {:induction false} BusyUpdate(slots: seq<Slot>, w: nat, slot: Slot, t: string, u: string)
    requires w < |slots|
    ensures Busy(slots[w := slot], t, u) ==
            Busy(slots, t, u) + (if BusyFor(slot, t, u) then 1 else 0) - (if BusyFor(slots[w], t, u) then 1 else 0)
  {
    hide BusyFor;
    var n := |slots| - 1;
    if w == n {
      assert slots[w := slot][..n] == slots[..n];
    } else {
      assert slots[w := slot][..n] == slots[..n][w := slot];
      BusyUpdate(slots[..n], w, slot, t, u);
    }
  }

  lemma {:induction false} NoLives(rows: seq<Row>, t: string, u: string)
    requires forall k :: 0 <= k < |rows| ==> !Live(rows[k], t, u)
    ensures Lives(rows, t, u) == 0
  {
    hide Live;
    if rows != [] { NoLives(rows[..|rows| - 1], t, u); }
  }

  /** Live rows plus acquires under way only grow by a look that found nothing, and by a revival. */
  lemma StepBound(s: State, step: Step, t: string, u: string)
    requires Enabled(s, step)
    ensures var a := Next(s, step);
            Lives(a.rows, t, u) + Busy(a.slots, t, u) <=
              Max(|s.slots|, Lives(s.rows, t, u) + Busy(s.slots, t, u)) + if Revives(s, step, t, u) then 1 else 0
  {
    hide NonEmpty, Lives, Busy;
    match step
    case Look(w, q) => LookBound(s, w, q, t, u);
    case Claim(w, k) =>
      LivesUpdate(s.rows, k, Claimed(s.rows[k], s.slots[w].q), t, u);
      BusyUpdate(s.slots, w, Free, t, u);
    case Miss(w) => BusyUpdate(s.slots, w, Unclaimed(s.slots[w].q), t, u);
    case Insert(w) =>
      LivesSnoc(s.rows, Fresh(s.slots[w].q), t, u);
      BusyUpdate(s.slots, w, Free, t, u);
    case GiveUp(w) => BusyUpdate(s.slots, w, Free, t, u);
    case Stock(tmpl, node, expiresAt) => LivesSnoc(s.rows, Row(tmpl, None, Provisioning, true, node, None, expiresAt), t, u);
    case Move(i, status) => LivesUpdate(s.rows, i, s.rows[i].(status := status), t, u);
  }

  lemma LookBound(s: State, w: nat, q: Request, t: string, u: string)
    requires Enabled(s, Look(w, q))
    ensures var a := Next(s, Look(w, q));
            Lives(a.rows, t, u) + Busy(a.slots, t, u) <= Max(|s.slots|, Lives(s.rows, t, u) + Busy(s.slots, t, u))
  {
    hide Lives, Busy;
    match Existing(s.rows, q.templateId, q.userIdHash)
    case Some(i) => LivesUpdate(s.rows, i, s.rows[i].(expiresAt := Max(s.rows[i].expiresAt, q.expiresAt)), t, u);
    case None =>
      BusyUpdate(s.slots, w, Looked(q), t, u);
      if BusyFor(Looked(q), t, u) { NoLives(s.rows, t, u); }
  }

  /** With k acquires in flight at a time a student has at most k live rows for a template, plus one per revival. */
  lemma LiveRowsBounded(s: State, steps: seq<Step>, t: string, u: string)
    requires Runs(s, steps) && Lives(s.rows, t, u) + Busy(s.slots, t, u) <= |s.slots|
    ensures |After(s, steps).slots| == |s.slots|
    ensures Lives(After(s, steps).rows, t, u) <= |s.slots| + Revivals(s, steps, t, u)
  {
    BoundCarried(s, steps, t, u, 0);
  }

  lemma {:induction false} BoundCarried(s: State, steps: seq<Step>, t: string, u: string, extra: nat)
    requires Runs(s, steps) && Lives(s.rows, t, u) + Busy(s.slots, t, u) <= |s.slots| + extra
    ensures |After(s, steps).slots| == |s.slots|
    ensures Lives(After(s, steps).rows, t, u) <= |s.slots| + extra + Revivals(s, steps, t, u)
    decreases |steps|
  {
    hide Lives, Busy, Revives, Enabled;
    if steps != [] {
      StepBound(s, steps[0], t, u);
      SlotsKept(s, steps[0]);
      BoundCarried(Next(s, steps[0]), steps[1..], t, u, extra + if Revives(s, steps[0], t, u) then 1 else 0);
    }
  }

  lemma SlotsKept(s: State, step: Step)
    requires Enabled(s, step)
    ensures |Next(s, step).slots| == |s.slots|
  {
  }

  // ---------- the bound is attained ----------

  lemma {:induction false} RunAppend(s: State, a: seq<Step>, b: seq<Step>)
    requires Runs(s, a) && Runs(After(s, a), b)
    ensures Runs(s, a + b) && After(s, a + b) == After(After(s, a), b)
    decreases |a|
  {
    hide Next, Enabled;
    if a == [] {
      assert a + b == b;
    } else {
      assert (a + b)[1..] == a[1..] + b;
      RunAppend(Next(s, a[0]), a[1..], b);
    }
  }

  /** Every slot looks before anyone inserts. */
  lemma {:induction false} AllLook(s: State, q: Request, w: nat) returns (steps: seq<Step>)
    requires w <= |s.slots| && !HasLive(s.rows, q)
    requires forall k :: 0 <= k < |s.slots| ==> s.slots[k] == if k < w then Unclaimed(q) else Free
    ensures Runs(s, steps) && After(s, steps) == State(s.rows, seq(|s.slots|, (_: nat) => Unclaimed(q)))
    decreases |s.slots| - w
  {
    if w == |s.slots| {
      steps := [];
    } else {
      var look, miss := Look(w, q), Miss(w);
      var t := Next(Next(s, look), miss);
      var rest := AllLook(t, q, w + 1);
      steps := [look, miss] + rest;
      assert steps[1..] == [miss] + rest && ([miss] + rest)[1..] == rest;
    }
  }

  /** Then each of them inserts. */
  lemma {:induction false} AllInsert(s: State, q: Request, w: nat) returns (steps: seq<Step>)
    requires w <= |s.slots| && forall k :: w <= k < |s.slots| ==> s.slots[k] == Unclaimed(q)
    ensures Runs(s, steps)
    ensures Lives(After(s, steps).rows, q.templateId, q.userIdHash) ==
            Lives(s.rows, q.templateId, q.userIdHash) + |s.slots| - w
    decreases |s.slots| - w
  {
    if w == |s.slots| {
      steps := [];
    } else {
      LivesSnoc(s.rows, Fresh(s.slots[w].q), q.templateId, q.userIdHash);
      var rest := AllInsert(Next(s, Insert(w)), q, w + 1);
      steps := [Insert(w)] + rest;
      assert steps[1..] == rest;
    }
  }

  /** k acquires of a student without a live row can leave k live rows. */
  lemma BoundAttained(s: State, q: Request) returns (steps: seq<Step>)
    requires !HasLive(s.rows, q) && forall k :: 0 <= k < |s.slots| ==> s.slots[k].Free?
    ensures Runs(s, steps) && Lives(After(s, steps).rows, q.templateId, q.userIdHash) == |s.slots|
  {
    var looks := AllLook(s, q, 0);
    var t := After(s, looks);
    var inserts := AllInsert(t, q, 0);
    RunAppend(s, looks, inserts);
    NoLives(s.rows, q.templateId, q.userIdHash);
    steps := looks + inserts;
  }
}
