/**
 Concurrent provisions through the ring (packages/control-plane/src/runtime/nodes.ts:322-356 and
 packages/control-plane/src/orchestrator.ts:437-461). A provision reads the live-row counts, later walks the ring over
 what it read, later still inserts its row. Each of the three is one step and any other provision may run in between.
 */
module InFlight {
  import opened Prelude
  import opened RingScheduler

  datatype Flight =
    | Free
    | Snapped(cands: seq<Node>, seen: seq<Row>)
    | Chosen(id: string)

  datatype State = State(rows: seq<Row>, flights: seq<Flight>)

  datatype Step =
    | Snapshot(w: nat, whitelist: seq<string>, cutoff: int)
    | Choose(w: nat, cursor: nat)          // the walk reads and moves its pool's cursor in one go; any value is allowed
    | InsertRow(w: nat)
    | SetStatus(i: nat, status: Status)    // some row moves on; a dead row stays dead

  predicate Enabled(s: State, step: Step) {
    match step
    case Snapshot(w, _, _) => w < |s.flights| && s.flights[w].Free?
    case Choose(w, _) => w < |s.flights| && s.flights[w].Snapped?
    case InsertRow(w) => w < |s.flights| && s.flights[w].Chosen?
    case SetStatus(i, st) => i < |s.rows| && (Live(s.rows[i].(status := st)) ==> Live(s.rows[i]))
  }

  function Next(table: seq<Node>, s: State, step: Step): State
    requires Enabled(s, step)
  {
    match step
    case Snapshot(w, whitelist, cutoff) =>
      s.(flights := s.flights[w := Snapped(Candidates(table, whitelist, cutoff), s.rows)])
    case Choose(w, cursor) =>
      var f := s.flights[w];
      var p := RingPick(f.cands, f.seen, cursor);
      s.(flights := s.flights[w := if p.slot.None? then Free else Chosen(f.cands[p.slot.value].id)])
    case InsertRow(w) =>
      State(s.rows + [Row(Some(s.flights[w].id), Provisioning)], s.flights[w := Free])
    case SetStatus(i, st) =>
      s.(rows := s.rows[i := s.rows[i].(status := st)])
  }

  predicate Runs(table: seq<Node>, s: State, run: seq<Step>)
    decreases |run|
  {
    run == [] || (Enabled(s, run[0]) && Runs(table, Next(table, s, run[0]), run[1..]))
  }

  function After(table: seq<Node>, s: State, run: seq<Step>): State
    requires Runs(table, s, run)
    decreases |run|
  {
    if run == [] then s else After(table, Next(table, s, run[0]), run[1..])
  }

  /** The flight may still put a row on node `x`: it chose it already, or saw it below its cap. */
  predicate Threatens(f: Flight, x: Node) {
    match f
    case Free => false
    case Snapped(cands, seen) => x in cands && !Full(x, seen)
    case Chosen(id) => id == x.id
  }

  function Threats(flights: seq<Flight>, x: Node): (c: nat)
    ensures c <= |flights|
  {
    if flights == [] then 0 else
      (if Threatens(flights[0], x) then 1 else 0) + Threats(flights[1..], x)
  }

  lemma {:induction false} ThreatsUpdate(flights: seq<Flight>, w: nat, f: Flight, x: Node)
    requires w < |flights|
    ensures Threats(flights[w := f], x) ==
            Threats(flights, x) + (if Threatens(f, x) then 1 else 0) - (if Threatens(flights[w], x) then 1 else 0)
  {
    if w == 0 {
      assert flights[0 := f][1..] == flights[1..];
    } else {
      ThreatsUpdate(flights[1..], w - 1, f, x);
      assert flights[w := f][1..] == flights[1..][w - 1 := f];
    }
  }

  lemma {:induction false} LoadUpdate(rows: seq<Row>, i: nat, r: Row, id: string)
    requires i < |rows|
    requires r.nodeId == rows[i].nodeId && (Live(r) ==> Live(rows[i]))
    ensures Load(rows[i := r], id) <= Load(rows, id)
  {
    var n := |rows| - 1;
    if i == n {
      assert rows[i := r][..n] == rows[..n];
    } else {
      LoadUpdate(rows[..n], i, r, id);
      assert rows[i := r][..n] == rows[..n][i := r];
    }
  }

  /** The invariant: rows already on the node plus rows that may still land there. */
  ghost predicate Bounded(s: State, x: Node) {
    && Load(s.rows, x.id) + Threats(s.flights, x) <= x.capacityMax - 1 + |s.flights|
    && forall w :: 0 <= w < |s.flights| && s.flights[w].Snapped? ==>
         DistinctIds(s.flights[w].cands) && forall n :: n in s.flights[w].cands && n.id == x.id ==> n == x
  }

  lemma StepKeepsBound(table: seq<Node>, s: State, step: Step, x: Node)
    requires x in table && DistinctIds(table) && x.capacityMax > 0
    requires Enabled(s, step) && Bounded(s, x)
    ensures Bounded(Next(table, s, step), x)
  {
    match step
    case Snapshot(w, whitelist, cutoff) =>
      ThreatsUpdate(s.flights, w, Snapped(Candidates(table, whitelist, cutoff), s.rows), x);
      CandidatesDistinct(table, whitelist, cutoff);
    case Choose(w, cursor) =>
      var f := s.flights[w];
      PickSound(f.cands, f.seen, cursor);
      var p := RingPick(f.cands, f.seen, cursor);
      ThreatsUpdate(s.flights, w, if p.slot.None? then Free else Chosen(f.cands[p.slot.value].id), x);
    case InsertRow(w) =>
      ThreatsUpdate(s.flights, w, Free, x);
      var r := Row(Some(s.flights[w].id), Provisioning);
      assert (s.rows + [r])[..|s.rows|] == s.rows;
    case SetStatus(i, st) =>
      LoadUpdate(s.rows, i, s.rows[i].(status := st), x.id);
  }

  lemma {:induction false} RunKeepsBound(table: seq<Node>, s: State, run: seq<Step>, x: Node)
    requires x in table && DistinctIds(table) && x.capacityMax > 0
    requires Runs(table, s, run) && Bounded(s, x)
    ensures Bounded(After(table, s, run), x) && |After(table, s, run).flights| == |s.flights|
    decreases |run|
  {
    if run != [] {
      StepKeepsBound(table, s, run[0], x);
      RunKeepsBound(table, Next(table, s, run[0]), run[1..], x);
    }
  }

  lemma {:induction false} FreeNoThreats(flights: seq<Flight>, x: Node)
    requires forall f :: f in flights ==> f.Free?
    ensures Threats(flights, x) == 0
  {
    if flights != [] {
      assert flights[0] in flights;
      FreeNoThreats(flights[1..], x);
    }
  }

  /** With `k` provisions in flight, a node that starts below its cap never holds more than `capacityMax + k - 1` live rows. */
  lemma BoundedOvershoot(table: seq<Node>, s: State, run: seq<Step>, x: Node)
    requires x in table && DistinctIds(table) && x.capacityMax > 0
    requires Load(s.rows, x.id) < x.capacityMax && forall f :: f in s.flights ==> f.Free?
    requires Runs(table, s, run)
    ensures Load(After(table, s, run).rows, x.id) <= x.capacityMax + |s.flights| - 1
  {
    FreeNoThreats(s.flights, x);
    assert forall w :: 0 <= w < |s.flights| ==> s.flights[w] in s.flights;
    RunKeepsBound(table, s, run, x);
  }

  // ---------- the bound is attained ----------

  lemma {:induction false} RunAppend(table: seq<Node>, s: State, a: seq<Step>, b: seq<Step>)
    requires Runs(table, s, a) && Runs(table, After(table, s, a), b)
    ensures Runs(table, s, a + b) && After(table, s, a + b) == After(table, After(table, s, a), b)
    decreases |a|
  {
    if a == [] {
      assert a + b == b;
    } else {
      RunAppend(table, Next(table, s, a[0]), a[1..], b);
      assert (a + b)[1..] == a[1..] + b;
    }
  }

  function Seen(x: Node, rows: seq<Row>): Flight {
    Snapped([x], rows)
  }

  /** Every free flight takes its snapshot before anyone inserts. */
  lemma {:induction false} SnapAll(x: Node, s: State, w: nat) returns (run: seq<Step>)
    requires x.enabled && x.lastSeenAt.None? && w <= |s.flights|
    requires forall i :: 0 <= i < |s.flights| ==> s.flights[i] == if i < w then Seen(x, s.rows) else Free
    ensures Runs([x], s, run) && After([x], s, run).rows == s.rows
    ensures |After([x], s, run).flights| == |s.flights|
    ensures forall f :: f in After([x], s, run).flights ==> f == Seen(x, s.rows)
    decreases |s.flights| - w
  {
    if w == |s.flights| {
      run := [];
    } else {
      assert Candidates([x], [], 0) == [x];
      var step := Snapshot(w, [], 0);
      var rest := SnapAll(x, Next([x], s, step), w + 1);
      run := [step] + rest;
    }
  }

  /** Then each of them lands, all on the strength of the same old count. */
  lemma {:induction false} LandAll(x: Node, s: State, w: nat, seen: seq<Row>) returns (run: seq<Step>)
    requires w <= |s.flights| && !Full(x, seen)
    requires forall i :: w <= i < |s.flights| ==> s.flights[i] == Seen(x, seen)
    ensures Runs([x], s, run)
    ensures Load(After([x], s, run).rows, x.id) == Load(s.rows, x.id) + |s.flights| - w
    decreases |s.flights| - w
  {
    if w == |s.flights| {
      run := [];
    } else {
      SingleCandidate([x], seen, 0);
      var s1 := Next([x], s, Choose(w, 0));
      var s2 := Next([x], s1, InsertRow(w));
      assert s2.rows[..|s.rows|] == s.rows;
      var rest := LandAll(x, s2, w + 1, seen);
      run := [Choose(w, 0), InsertRow(w)] + rest;
      assert run[1..] == [InsertRow(w)] + rest && run[1..][1..] == rest;
      assert Runs([x], s1, run[1..]);
    }
  }

  /** The bound is tight: a node one below its cap can be pushed to `capacityMax + k - 1` by `k` provisions. */
  lemma OvershootAttained(x: Node, s: State) returns (run: seq<Step>)
    requires x.enabled && x.lastSeenAt.None? && x.capacityMax > 0
    requires Load(s.rows, x.id) == x.capacityMax - 1 && forall f :: f in s.flights ==> f.Free?
    ensures Runs([x], s, run)
    ensures Load(After([x], s, run).rows, x.id) == x.capacityMax + |s.flights| - 1
  {
    var snaps := SnapAll(x, s, 0);
    var mid := After([x], s, snaps);
    assert forall i :: 0 <= i < |mid.flights| ==> mid.flights[i] in mid.flights;
    var lands := LandAll(x, mid, 0, s.rows);
    RunAppend([x], s, snaps, lands);
    run := snaps + lands;
  }
}
