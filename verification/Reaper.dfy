/**
 The reaper of packages/control-plane/src/reaper.ts: one tick of the three lifetime rules over the LabInstance rows.
 `down` is the set of rows whose operation throws before it changes anything; such a row never stops the rest.
 */
module Reaper {
  import opened Prelude
  import opened UsageReplay
  import opened Lifecycle
  import opened Metering

  /** Rows handled per rule and tick. */
  const BATCH := 50

  /** Rule 1: past its expiry. */
  predicate Expired(r: Row, now: int) {
    r.expiresAt < now && !r.isPrewarm && r.status !in {Terminated, Terminating, Failed}
  }

  /** Rule 2: running without student activity; a lab never touched counts from its creation. */
  predicate IdleTooLong(r: Row, suspendBefore: int) {
    && !r.isPrewarm && r.status in {Ready, Idle}
    && r.lastActivityAt.GetOr(r.createdAt) < suspendBefore
  }

  /** Rule 3: suspended and forgotten. */
  predicate Forgotten(r: Row, hardKillBefore: int) {
    !r.isPrewarm && r.status == Paused && r.suspendedAt.Some? && r.suspendedAt.value < hardKillBefore
  }

  datatype Rule = Expiry | Inactivity | HardInactivity

  predicate Due(rule: Rule, r: Row, now: int, idle: nat, hard: nat) {
    match rule
    case Expiry => Expired(r, now)
    case Inactivity => IdleTooLong(r, now - idle)
    case HardInactivity => Forgotten(r, now - hard)
  }

  function DueIds(rule: Rule, rows: map<string, Row>, now: int, idle: nat, hard: nat): set<string> {
    set id | id in rows && Due(rule, rows[id], now, idle, hard)
  }

  function Remedy(rule: Rule, id: string): Action {
    if rule == Inactivity then Suspend(id) else Destroy(id)
  }

  function ApplyAll(s: State, now: int, acts: seq<Action>): State {
    if acts == [] then s else Apply(ApplyAll(s, now, acts[..|acts| - 1]), now, acts[|acts| - 1])
  }

  predicate Acted(acts: seq<Action>, id: string) {
    exists i :: 0 <= i < |acts| && acts[i].id == id
  }

  ghost predicate Remedies(rule: Rule, acts: seq<Action>) {
    forall i :: 0 <= i < |acts| ==> acts[i] == Remedy(rule, acts[i].id)
  }

  function RowAfter(rule: Rule, r: Row, now: int): Row {
    if rule != Inactivity then r.(status := Terminated)
    else if r.hasRuntime && r.status !in {Paused, Terminated, Failed} then r.(status := Paused, suspendedAt := Some(now))
    else r
  }

  /** A rule's operations change the rows they name, each once, and no other. */
  lemma {:induction false} RemediesOnRows(rule: Rule, s: State, now: int, acts: seq<Action>)
    requires Remedies(rule, acts)
    ensures ApplyAll(s, now, acts).rows.Keys == s.rows.Keys
    ensures forall id :: id in s.rows ==>
              ApplyAll(s, now, acts).rows[id] == if Acted(acts, id) then RowAfter(rule, s.rows[id], now) else s.rows[id]
  {
    if acts != [] {
      var front, last := acts[..|acts| - 1], acts[|acts| - 1];
      RemediesOnRows(rule, s, now, front);
      forall id
        ensures Acted(acts, id) <==> Acted(front, id) || id == last.id
      {
        if Acted(front, id) {
          var i :| 0 <= i < |front| && front[i].id == id;
          assert acts[i].id == id;
        }
        if last.id == id {
          assert acts[|acts| - 1].id == id;
        }
      }
    }
  }

  /** The rows a phase took, `BATCH` of them or all, and the operations that did not throw: one per row taken. */
  ghost predicate Examined(due: set<string>, seen: set<string>, acts: seq<Action>, down: set<string>) {
    seen <= due && |seen| == Min(BATCH, |due|) && ActedOnce(seen, acts, down)
  }

  ghost predicate ActedOnce(seen: set<string>, acts: seq<Action>, down: set<string>) {
    |acts| == |seen - down| && forall id :: Acted(acts, id) <==> id in seen && id !in down
  }

  ghost predicate Swept(rule: Rule, s: State, acts: seq<Action>, now: int, idle: nat, hard: nat, down: set<string>) {
    Remedies(rule, acts) && exists seen: set<string> :: Examined(DueIds(rule, s.rows, now, idle, hard), seen, acts, down)
  }

  /** Due rows that fit in one batch are all taken, so every one that is up is acted on; no other row ever is. */
  lemma SweptActs(rule: Rule, s: State, acts: seq<Action>, now: int, idle: nat, hard: nat, down: set<string>, id: string)
    requires Swept(rule, s, acts, now, idle, hard, down)
    ensures var due := DueIds(rule, s.rows, now, idle, hard);
            && |acts| <= BATCH
            && (Acted(acts, id) ==> id in due && id !in down)
            && (|due| <= BATCH && id in due && id !in down ==> Acted(acts, id))
  {
    hide DueIds, Acted, Remedies;
    var due := DueIds(rule, s.rows, now, idle, hard);
    var seen: set<string> :| Examined(due, seen, acts, down);
    SubsetSize(seen - down, seen);
    if |due| <= BATCH && id in due && id !in seen { SubsetSize(seen, due - {id}); }
  }

  lemma ActedSnoc(acts: seq<Action>, a: Action)
    ensures forall id :: Acted(acts + [a], id) <==> Acted(acts, id) || id == a.id
  {
    forall id
      ensures Acted(acts + [a], id) <==> Acted(acts, id) || id == a.id
    {
      if Acted(acts, id) {
        var i :| 0 <= i < |acts| && acts[i].id == id;
        assert (acts + [a])[i].id == id;
      }
      assert (acts + [a])[|acts|].id == a.id;
    }
  }

  lemma ApplyAllSnoc(s: State, now: int, acts: seq<Action>, a: Action)
    ensures ApplyAll(s, now, acts + [a]) == Apply(ApplyAll(s, now, acts), now, a)
  {
    assert (acts + [a])[..|acts|] == acts;
  }

  lemma NoneActed(s: State, now: int)
    ensures ApplyAll(s, now, []) == s && forall id :: !Acted([], id)
  {
  }

  /** One query-then-loop phase: `BATCH` of the due rows or all, in the order the database returns them. */
  method Sweep(o: Orchestrator, rule: Rule, now: int, idle: nat, hard: nat, down: set<string>)
    returns (ghost acts: seq<Action>)
    modifies o
    ensures o.View() == ApplyAll(old(o.View()), now, acts)
    ensures Swept(rule, old(o.View()), acts, now, idle, hard, down)
  {
    hide Apply, Accepts, ApplyAll, Acted, Due, DueIds, ActedOnce, Remedies, Remedy;
    ghost var before := o.View();
    NoneActed(before, now);
    var due := DueIds(rule, o.rows, now, idle, hard);
    DueAreRows(rule, before.rows, now, idle, hard);
    var left, taken := due, 0;
    acts := [];
    ghost var seen: set<string> := {};
    StartActed(rule, down);
    while left != {} && taken < BATCH
      invariant left <= due <= o.rows.Keys && seen == due - left
      invariant taken == |seen| <= BATCH && |seen| + |left| == |due|
      invariant Remedies(rule, acts) && o.View() == ApplyAll(before, now, acts) && ActedOnce(seen, acts, down)
      decreases |left|
    {
      var id :| id in left;
      TakeOne(rule, seen, acts, down, id);
      RemediesSnoc(rule, acts, id);
      ApplyAllSnoc(before, now, acts, Remedy(rule, id));
      var threw := Act(o, rule, id, id !in down, now);
      if id !in down {
        acts := acts + [Remedy(rule, id)];
      }
      left, taken, seen := left - {id}, taken + 1, seen + {id};
    }
    assert Examined(due, seen, acts, down);
    assert DueIds(rule, before.rows, now, idle, hard) == due;
    SweptIs(rule, before, acts, now, idle, hard, down, seen);
  }

  lemma SweptIs(rule: Rule, s: State, acts: seq<Action>, now: int, idle: nat, hard: nat, down: set<string>, seen: set<string>)
    requires Remedies(rule, acts) && Examined(DueIds(rule, s.rows, now, idle, hard), seen, acts, down)
    ensures Swept(rule, s, acts, now, idle, hard, down)
  {
  }

  lemma StartActed(rule: Rule, down: set<string>)
    ensures ActedOnce({}, [], down) && Remedies(rule, [])
  {
  }

  /** One more row taken, and acted on unless it is down. */
  lemma TakeOne(rule: Rule, seen: set<string>, acts: seq<Action>, down: set<string>, id: string)
    requires ActedOnce(seen, acts, down) && id !in seen
    ensures ActedOnce(seen + {id}, if id in down then acts else acts + [Remedy(rule, id)], down)
  {
    hide Acted;
    ActedSnoc(acts, Remedy(rule, id));
    if id in down {
      assert seen + {id} - down == seen - down;
    } else {
      assert seen + {id} - down == (seen - down) + {id};
    }
  }

  lemma RemediesSnoc(rule: Rule, acts: seq<Action>, id: string)
    requires Remedies(rule, acts)
    ensures Remedies(rule, acts + [Remedy(rule, id)])
  {
  }

  /** The operation of a rule inside its try block. */
  method Act(o: Orchestrator, rule: Rule, id: string, runtimeOk: bool, now: int) returns (threw: bool)
    requires id in o.rows
    modifies o
    ensures o.View() == if runtimeOk then Apply(old(o.View()), now, Remedy(rule, id)) else old(o.View())
    ensures o.rows.Keys == old(o.rows.Keys)
  {
    if rule == Inactivity {
      threw := o.SuspendInstance(id, runtimeOk, now);
    } else {
      threw := o.DestroyInstance(id, runtimeOk, now);
    }
  }

  lemma DueAreRows(rule: Rule, rows: map<string, Row>, now: int, idle: nat, hard: nat)
    ensures DueIds(rule, rows, now, idle, hard) <= rows.Keys
  {
    hide Due;
  }

  /** What a tick may do to a row: nothing, or the remedy of a rule the row was caught by. */
  predicate Reaped(before: Row, after: Row, now: int, idle: nat, hard: nat) {
    || after == before
    || ((Expired(before, now) || Forgotten(before, now - hard)) && after == before.(status := Terminated))
    || (IdleTooLong(before, now - idle) && after == before.(status := Paused, suspendedAt := Some(now)))
  }

  lemma {:induction false} ApplyAllAppend(s: State, now: int, a: seq<Action>, b: seq<Action>)
    ensures ApplyAll(s, now, a + b) == ApplyAll(ApplyAll(s, now, a), now, b)
    decreases |b|
  {
    if b == [] {
      assert a + b == a;
    } else {
      assert (a + b)[..|a + b| - 1] == a + b[..|b| - 1];
      ApplyAllAppend(s, now, a, b[..|b| - 1]);
    }
  }

  lemma {:induction false} SubsetSize<T>(s: set<T>, t: set<T>)
    requires s <= t
    ensures |s| <= |t|
    decreases |s|
  {
    if s != {} {
      var x :| x in s;
      SubsetSize(s - {x}, t - {x});
    }
  }

  /** The effect of one phase on one row. */
  lemma SweepRow(rule: Rule, s: State, acts: seq<Action>, now: int, idle: nat, hard: nat, down: set<string>, id: string)
    requires Swept(rule, s, acts, now, idle, hard, down) && id in s.rows
    ensures id in ApplyAll(s, now, acts).rows
    ensures var r, r' := s.rows[id], ApplyAll(s, now, acts).rows[id];
            && (r' == r || (Due(rule, r, now, idle, hard) && r' == RowAfter(rule, r, now)))
            && (|DueIds(rule, s.rows, now, idle, hard)| <= BATCH && Due(rule, r, now, idle, hard) && id !in down ==>
                  r' == RowAfter(rule, r, now))
  {
    hide Due, RowAfter, Swept;
    RemediesOnRows(rule, s, now, acts) by { SweptRemedies(rule, s, acts, now, idle, hard, down); }
    SweptActs(rule, s, acts, now, idle, hard, down, id);
  }

  lemma SweptRemedies(rule: Rule, s: State, acts: seq<Action>, now: int, idle: nat, hard: nat, down: set<string>)
    requires Swept(rule, s, acts, now, idle, hard, down)
    ensures Remedies(rule, acts)
  {
  }

  /** The remedy of one rule makes no row due for another. */
  lemma RemedyMakesNoneDue(rule: Rule, later: Rule, r: Row, now: int, idle: nat, hard: nat)
    requires rule != later && Due(rule, r, now, idle, hard) && Due(later, RowAfter(rule, r, now), now, idle, hard)
    ensures Due(later, r, now, idle, hard)
  {
  }

  /** Another phase finds nothing due that was not due before. */
  lemma DueOnlyShrinks(rule: Rule, later: Rule, s: State, acts: seq<Action>, now: int, idle: nat, hard: nat, down: set<string>)
    requires Swept(rule, s, acts, now, idle, hard, down) && rule != later
    ensures DueIds(later, ApplyAll(s, now, acts).rows, now, idle, hard) <= DueIds(later, s.rows, now, idle, hard)
    ensures |DueIds(later, ApplyAll(s, now, acts).rows, now, idle, hard)| <= |DueIds(later, s.rows, now, idle, hard)|
  {
    hide Due, RowAfter, Swept, ApplyAll;
    RemediesOnRows(rule, s, now, acts) by { SweptRemedies(rule, s, acts, now, idle, hard, down); }
    forall id | id in DueIds(later, ApplyAll(s, now, acts).rows, now, idle, hard)
      ensures id in DueIds(later, s.rows, now, idle, hard)
    {
      SweepRow(rule, s, acts, now, idle, hard, down, id);
      if ApplyAll(s, now, acts).rows[id] != s.rows[id] {
        RemedyMakesNoneDue(rule, later, s.rows[id], now, idle, hard);
      }
    }
    SubsetSize(DueIds(later, ApplyAll(s, now, acts).rows, now, idle, hard), DueIds(later, s.rows, now, idle, hard));
  }

  /** The three phases in turn. */
  ghost predicate Ticked(s: State, a1: seq<Action>, a2: seq<Action>, a3: seq<Action>,
                         now: int, idle: nat, hard: nat, down: set<string>) {
    var s1 := ApplyAll(s, now, a1);
    && Swept(Expiry, s, a1, now, idle, hard, down)
    && Swept(Inactivity, s1, a2, now, idle, hard, down)
    && Swept(HardInactivity, ApplyAll(s1, now, a2), a3, now, idle, hard, down)
  }

  lemma TickRow(s: State, a1: seq<Action>, a2: seq<Action>, a3: seq<Action>,
                now: int, idle: nat, hard: nat, down: set<string>, id: string)
    requires Ticked(s, a1, a2, a3, now, idle, hard, down) && id in s.rows
    ensures var s3 := ApplyAll(ApplyAll(ApplyAll(s, now, a1), now, a2), now, a3);
            && id in s3.rows
            && Reaped(s.rows[id], s3.rows[id], now, idle, hard)
            && (Handled(Expiry, s, now, idle, hard, down, id) ==> s3.rows[id].status == Terminated)
            && (Handled(Inactivity, s, now, idle, hard, down, id) && s.rows[id].hasRuntime ==>
                  s3.rows[id].status in {Paused, Terminated})
            && (Handled(HardInactivity, s, now, idle, hard, down, id) ==> s3.rows[id].status == Terminated)
  {
    hide Swept, DueIds, ApplyAll;
    var s1 := ApplyAll(s, now, a1);
    var s2 := ApplyAll(s1, now, a2);
    assert Swept(Expiry, s, a1, now, idle, hard, down) && Swept(Inactivity, s1, a2, now, idle, hard, down)
        && Swept(HardInactivity, s2, a3, now, idle, hard, down);
    SweepRow(Expiry, s, a1, now, idle, hard, down, id);
    SweepRow(Inactivity, s1, a2, now, idle, hard, down, id);
    SweepRow(HardInactivity, s2, a3, now, idle, hard, down, id);
    DueOnlyShrinks(Expiry, Inactivity, s, a1, now, idle, hard, down);
    DueOnlyShrinks(Expiry, HardInactivity, s, a1, now, idle, hard, down);
    DueOnlyShrinks(Inactivity, HardInactivity, s1, a2, now, idle, hard, down);
  }

  /** A row caught by a rule whose due rows fit in one batch, and whose operation does not throw. */
  ghost predicate Handled(rule: Rule, s: State, now: int, idle: nat, hard: nat, down: set<string>, id: string) {
    && |DueIds(rule, s.rows, now, idle, hard)| <= BATCH
    && id in s.rows && Due(rule, s.rows[id], now, idle, hard) && id !in down
  }

  /** One tick. Only rows caught by a rule change, and every row caught by a rule is dealt with unless the rule's batch
      was full or the row's operation threw. */
  method ReconcileOnce(o: Orchestrator, now: int, idle: nat, hard: nat, down: set<string>)
    returns (ghost a1: seq<Action>, ghost a2: seq<Action>, ghost a3: seq<Action>)
    modifies o
    ensures Ticked(old(o.View()), a1, a2, a3, now, idle, hard, down)
    ensures o.View() == ApplyAll(ApplyAll(ApplyAll(old(o.View()), now, a1), now, a2), now, a3)
            == ApplyAll(old(o.View()), now, a1 + a2 + a3)
    ensures var acts := a1 + a2 + a3; forall i :: 0 <= i < |acts| ==> acts[i].Suspend? || acts[i].Destroy?
    ensures forall id :: id in old(o.rows) ==> id in o.rows && Reaped(old(o.rows)[id], o.rows[id], now, idle, hard)
    ensures forall id :: Handled(Expiry, old(o.View()), now, idle, hard, down, id) ==> o.rows[id].status == Terminated
    ensures forall id :: Handled(Inactivity, old(o.View()), now, idle, hard, down, id) && old(o.rows)[id].hasRuntime ==>
              o.rows[id].status in {Paused, Terminated}
    ensures forall id :: Handled(HardInactivity, old(o.View()), now, idle, hard, down, id) ==> o.rows[id].status == Terminated
  {
    hide Swept, Reaped, ApplyAll, Due, DueIds;
    ghost var s := o.View();
    a1 := Sweep(o, Expiry, now, idle, hard, down);
    a2 := Sweep(o, Inactivity, now, idle, hard, down);
    a3 := Sweep(o, HardInactivity, now, idle, hard, down);
    ApplyAllAppend(s, now, a1, a2);
    ApplyAllAppend(s, now, a1 + a2, a3);
    OnlyRemedies(s, a1, a2, a3, now, idle, hard, down);
    forall id | id in s.rows
      ensures id in o.rows && Reaped(s.rows[id], o.rows[id], now, idle, hard)
      ensures Handled(Expiry, s, now, idle, hard, down, id) ==> o.rows[id].status == Terminated
      ensures Handled(Inactivity, s, now, idle, hard, down, id) && s.rows[id].hasRuntime ==>
                o.rows[id].status in {Paused, Terminated}
      ensures Handled(HardInactivity, s, now, idle, hard, down, id) ==> o.rows[id].status == Terminated
    {
      TickRow(s, a1, a2, a3, now, idle, hard, down, id);
    }
  }

  lemma OnlyRemedies(s: State, a1: seq<Action>, a2: seq<Action>, a3: seq<Action>,
                     now: int, idle: nat, hard: nat, down: set<string>)
    requires Ticked(s, a1, a2, a3, now, idle, hard, down)
    ensures forall i :: 0 <= i < |a1 + a2 + a3| ==> (a1 + a2 + a3)[i].Suspend? || (a1 + a2 + a3)[i].Destroy?
  {
  }

  // ---------- reaping never disturbs metering ----------

  function Stamp(acts: seq<Action>, now: int): seq<Timed> {
    seq(|acts|, i requires 0 <= i < |acts| => Timed(now, acts[i]))
  }

  lemma {:induction false} AfterStamp(run: seq<Timed>, acts: seq<Action>, now: int)
    ensures After(run + Stamp(acts, now)) == ApplyAll(After(run), now, acts)
    decreases |acts|
  {
    if acts == [] {
      assert run + Stamp(acts, now) == run;
    } else {
      var front := acts[..|acts| - 1];
      AfterStamp(run, front, now);
      var all := run + Stamp(acts, now);
      assert all[..|all| - 1] == run + Stamp(front, now);
    }
  }

  /** Whatever state a clean run has reached, a tick of the reaper leaves the replayed time exact. */
  lemma {:induction false} TickKeepsMetering(run: seq<Timed>, acts: seq<Action>, now: int, to: int)
    requires InOrder(run) && AllClean(run) && (run != [] ==> LastAt(run) <= now) && now <= to
    requires forall i :: 0 <= i < |acts| ==> acts[i].Suspend? || acts[i].Destroy?
    ensures ExactAt(run + Stamp(acts, now), to)
    ensures After(run + Stamp(acts, now)) == ApplyAll(After(run), now, acts)
  {
    hide After;
    AfterStamp(run, acts, now);
    var all := run + Stamp(acts, now);
    forall i | 0 <= i < |all|
      ensures Clean(After(all[..i]), all[i].action)
    {
      if i < |run| {
        assert all[..i] == run[..i];
      }
    }
    MeteringAgrees(all, to);
  }
}
