/**
 Acquiring an instance for a student (packages/control-plane/src/orchestrator.ts:158-294, 344-367, 448-461): reuse the
 student's own live row, else claim a warm one, else provision. Rows are numbered in order of creation.
 */
module Acquire {
  import opened Prelude

  datatype Row = Row(templateId: string, userIdHash: Option<string>, status: Status, isPrewarm: bool,
                     nodeId: Option<string>, volumeName: Option<string>, expiresAt: int)

  /** `volume`: the student's volume name, None when the template has no volumes. `node`: where a fresh row is placed. */
  datatype Request = Request(templateId: string, userIdHash: string, expiresAt: int, nodeIds: seq<string>,
                             volume: Option<string>, node: Option<string>)

  predicate Reusable(s: Status) {
    s in {Pending, Provisioning, Ready, Idle, Paused}
  }

  /** A live row of the student for the template. */
  predicate Live(r: Row, templateId: string, userIdHash: string) {
    r.templateId == templateId && r.userIdHash == Some(userIdHash) && !r.isPrewarm && Reusable(r.status)
  }

  predicate Warm(r: Row, q: Request) {
    var pinned := NonEmpty(q.nodeIds);
    r.templateId == q.templateId && r.isPrewarm && r.status == Ready
    && (pinned == [] || (r.nodeId.Some? && r.nodeId.value in pinned))
  }

  /** The latest created row that is live for the student. */
  function Existing(rows: seq<Row>, t: string, u: string): (i: Option<nat>)
    ensures i.Some? ==> i.value < |rows| && Live(rows[i.value], t, u)
    ensures i.Some? ==> forall k :: i.value < k < |rows| ==> !Live(rows[k], t, u)
    ensures i.None? ==> forall k :: 0 <= k < |rows| ==> !Live(rows[k], t, u)
  {
    if rows == [] then None
    else if Live(rows[|rows| - 1], t, u) then Some(|rows| - 1)
    else Existing(rows[..|rows| - 1], t, u)
  }

  ghost predicate Claimable(rows: seq<Row>, q: Request, k: nat) {
    k < |rows| && Warm(rows[k], q)
  }

  function Claimed(r: Row, q: Request): Row {
    r.(isPrewarm := false, userIdHash := Some(q.userIdHash), expiresAt := q.expiresAt)
  }

  function Fresh(q: Request): Row {
    Row(q.templateId, Some(q.userIdHash), Provisioning, false, q.node, q.volume, q.expiresAt)
  }

  /** The rows and the answered row after an acquire that was not disturbed; `k` is the warm row the database locked. */
  ghost predicate Acquired(rows: seq<Row>, q: Request, rows': seq<Row>, answer: nat) {
    match Existing(rows, q.templateId, q.userIdHash)
    case Some(i) => answer == i && rows' == rows[i := rows[i].(expiresAt := Max(rows[i].expiresAt, q.expiresAt))]
    case None =>
      if exists k :: Claimable(rows, q, k) then Claimable(rows, q, answer) && rows' == rows[answer := Claimed(rows[answer], q)]
      else answer == |rows| && rows' == rows + [Fresh(q)]
  }

  class Roster {
    var rows: seq<Row>

    constructor ()
      ensures rows == []
    {
      rows := [];
    }

    /** The atomic UPDATE of one warm row. */
    method ClaimPrewarm(q: Request) returns (claimed: Option<nat>)
      modifies this
      ensures claimed.Some? <==> exists k :: Claimable(old(rows), q, k)
      ensures claimed.Some? ==> Claimable(old(rows), q, claimed.value)
                                && rows == old(rows)[claimed.value := Claimed(old(rows)[claimed.value], q)]
      ensures claimed.None? ==> rows == old(rows)
    {
      for i := 0 to |rows|
        invariant rows == old(rows)
        invariant forall k :: 0 <= k < i ==> !Warm(rows[k], q)
      {
        if Warm(rows[i], q) {
          assert Claimable(rows, q, i);
          rows := rows[i := rows[i].(isPrewarm := false, userIdHash := Some(q.userIdHash), expiresAt := q.expiresAt)];
          return Some(i);
        }
      }
      claimed := None;
    }

    method AcquireInstance(q: Request) returns (answer: nat)
      modifies this
      ensures Acquired(old(rows), q, rows, answer)
    {
      var existing := Existing(rows, q.templateId, q.userIdHash);
      if existing.Some? {
        var i := existing.value;
        if rows[i].expiresAt < q.expiresAt {
          rows := rows[i := rows[i].(expiresAt := q.expiresAt)];
        }
        assert rows == old(rows)[i := old(rows)[i].(expiresAt := Max(old(rows)[i].expiresAt, q.expiresAt))];
        return i;
      }
      var claimed := ClaimPrewarm(q);
      if claimed.Some? { return claimed.value; }
      rows := rows + [Row(q.templateId, Some(q.userIdHash), Provisioning, false, q.node, q.volume, q.expiresAt)];
      answer := |rows| - 1;
    }
  }

  // ---------- the three answers, in the fields of the rows ----------

  /** Not the student's for the template, or on its way out, or failed. */
  ghost predicate Unusable(r: Row, q: Request) {
    || r.templateId != q.templateId || r.userIdHash != Some(q.userIdHash) || r.isPrewarm
    || r.status in {Terminating, Terminated, Failed}
  }

  /** A row of the student that can still be used is answered, the latest if there are several; only its expiry moves. */
  lemma ReusesLatest(rows: seq<Row>, q: Request, rows': seq<Row>, answer: nat, i: nat)
    requires Acquired(rows, q, rows', answer) && i < |rows|
    requires rows[i].templateId == q.templateId && rows[i].userIdHash == Some(q.userIdHash) && !rows[i].isPrewarm
    requires rows[i].status in {Pending, Provisioning, Ready, Idle, Paused}
    requires forall k :: i < k < |rows| ==> Unusable(rows[k], q)
    ensures answer == i && |rows'| == |rows| && forall k :: 0 <= k < |rows| && k != i ==> rows'[k] == rows[k]
    ensures rows'[i] == rows[i].(expiresAt := rows'[i].expiresAt)
    ensures rows'[i].expiresAt == if rows[i].expiresAt < q.expiresAt then q.expiresAt else rows[i].expiresAt
  {
    assert Live(rows[i], q.templateId, q.userIdHash);
  }

  /** The request names no node, or the row is on one it names. */
  ghost predicate Placed(nodeId: Option<string>, nodeIds: seq<string>) {
    (forall id :: id in nodeIds ==> id == "") || (nodeId.Some? && nodeId.value != "" && nodeId.value in nodeIds)
  }

  lemma PlacedIff(nodeId: Option<string>, nodeIds: seq<string>)
    ensures Placed(nodeId, nodeIds) <==>
            NonEmpty(nodeIds) == [] || (nodeId.Some? && nodeId.value in NonEmpty(nodeIds))
  {
    if NonEmpty(nodeIds) != [] { assert NonEmpty(nodeIds)[0] in NonEmpty(nodeIds); }
  }

  /** Nothing the student owns for the template can be used. */
  ghost predicate NothingUsable(rows: seq<Row>, q: Request) {
    forall k :: 0 <= k < |rows| ==> Unusable(rows[k], q)
  }

  lemma NothingToReuse(rows: seq<Row>, q: Request)
    ensures NothingUsable(rows, q) <==> Existing(rows, q.templateId, q.userIdHash).None?
  {
    hide Live, Unusable;
    forall k | 0 <= k < |rows| ensures Live(rows[k], q.templateId, q.userIdHash) <==> !Unusable(rows[k], q) {
      LiveIff(rows[k], q);
    }
  }

  lemma LiveIff(r: Row, q: Request)
    ensures Live(r, q.templateId, q.userIdHash) <==> !Unusable(r, q)
  {
    match r.status
    case Pending | Provisioning | Ready | Idle | Paused =>
    case Terminating | Terminated | Failed =>
  }

  /** Otherwise a ready warm row of the template becomes the student's, where and as it is. */
  lemma ClaimsWarm(rows: seq<Row>, q: Request, rows': seq<Row>, answer: nat, k: nat)
    requires Acquired(rows, q, rows', answer) && NothingUsable(rows, q) && k < |rows|
    requires rows[k].isPrewarm && rows[k].status == Ready && rows[k].templateId == q.templateId
             && Placed(rows[k].nodeId, q.nodeIds)
    ensures answer < |rows| == |rows'| && forall i :: 0 <= i < |rows| && i != answer ==> rows'[i] == rows[i]
    ensures rows[answer].isPrewarm && rows[answer].status == Ready && rows[answer].templateId == q.templateId
            && Placed(rows[answer].nodeId, q.nodeIds)
    ensures rows'[answer] == Row(q.templateId, Some(q.userIdHash), Ready, false, rows[answer].nodeId,
                                 rows[answer].volumeName, q.expiresAt)
  {
    hide NonEmpty;
    NothingToReuse(rows, q);
    PlacedIff(rows[k].nodeId, q.nodeIds);
    assert Claimable(rows, q, k);
    PlacedIff(rows[answer].nodeId, q.nodeIds);
  }

  /** And only if there is none, a row is provisioned, for the student from the start. */
  lemma ProvisionsFresh(rows: seq<Row>, q: Request, rows': seq<Row>, answer: nat)
    requires Acquired(rows, q, rows', answer) && NothingUsable(rows, q)
    requires forall k :: 0 <= k < |rows| && rows[k].isPrewarm && rows[k].status == Ready && rows[k].templateId == q.templateId
                         ==> !Placed(rows[k].nodeId, q.nodeIds)
    ensures answer == |rows| && |rows'| == |rows| + 1 && rows'[..|rows|] == rows
    ensures rows'[answer] == Row(q.templateId, Some(q.userIdHash), Provisioning, false, q.node, q.volume, q.expiresAt)
  {
    hide NonEmpty;
    NothingToReuse(rows, q);
    forall k | 0 <= k < |rows| ensures !Claimable(rows, q, k) { PlacedIff(rows[k].nodeId, q.nodeIds); }
  }

  // ---------- one live instance per student and template ----------

  ghost predicate OneLive(rows: seq<Row>) {
    forall i, j, t, u :: 0 <= i < |rows| && 0 <= j < |rows| && Live(rows[i], t, u) && Live(rows[j], t, u) ==> i == j
  }

  /** Warm rows belong to nobody and carry no volume. */
  ghost predicate PoolClean(rows: seq<Row>) {
    forall i :: 0 <= i < |rows| && rows[i].isPrewarm ==> rows[i].userIdHash.None? && rows[i].volumeName.None?
  }

  /** Whoever acquires ends up with exactly one live row, the one answered; nobody else's live rows change. */
  lemma AcquireGivesTheOne(rows: seq<Row>, q: Request, rows': seq<Row>, answer: nat)
    requires OneLive(rows) && PoolClean(rows) && Acquired(rows, q, rows', answer)
    ensures OneLive(rows') && PoolClean(rows')
    ensures answer < |rows'| && Live(rows'[answer], q.templateId, q.userIdHash) && rows'[answer].expiresAt >= q.expiresAt
    ensures forall i :: 0 <= i < |rows| && i != answer ==> rows'[i] == rows[i]
  {
    hide NonEmpty;
    forall i, j, t, u | 0 <= i < |rows'| && 0 <= j < |rows'| && Live(rows'[i], t, u) && Live(rows'[j], t, u)
      ensures i == j
    {
      if i != answer && j != answer {
        assert Live(rows[i], t, u) && Live(rows[j], t, u);
      }
    }
  }

  /** What the data of the student does: a fresh row mounts the volume, a claimed one does not. */
  lemma VolumeMountedIff(rows: seq<Row>, q: Request, rows': seq<Row>, answer: nat)
    requires PoolClean(rows) && Acquired(rows, q, rows', answer) && q.volume.Some?
    requires Existing(rows, q.templateId, q.userIdHash).None?
    ensures rows'[answer].volumeName == q.volume <==> !exists k :: Claimable(rows, q, k)
  {
  }

  /** A request that names nodes gets a warm row only from one of them. */
  lemma ClaimHonoursNodes(rows: seq<Row>, q: Request, rows': seq<Row>, answer: nat)
    requires Acquired(rows, q, rows', answer) && Existing(rows, q.templateId, q.userIdHash).None? && answer < |rows|
    ensures (exists id :: id in q.nodeIds && id != "") ==> rows'[answer].nodeId.Some? && rows'[answer].nodeId.value in q.nodeIds
  {
    if id :| id in q.nodeIds && id != "" {
      assert id in NonEmpty(q.nodeIds);
    }
  }

  datatype Step =
    | Take(q: Request, answer: nat)
    | Stock(templateId: string, node: Option<string>, expiresAt: int)      // a new prewarm row
    | Move(i: nat, status: Status)                                         // provision, suspend, resume, restart, destroy

  ghost predicate Steps(rows: seq<Row>, step: Step, rows': seq<Row>) {
    match step
    case Take(q, answer) => Acquired(rows, q, rows', answer)
    case Stock(t, node, expiresAt) => rows' == rows + [Row(t, None, Provisioning, true, node, None, expiresAt)]
    case Move(i, status) => i < |rows| && rows' == rows[i := rows[i].(status := status)]
  }

  /** A dead row is made live again while its student has another live row for the template. */
  ghost predicate Doubles(rows: seq<Row>, step: Step) {
    && step.Move? && step.i < |rows| && Reusable(step.status) && !Reusable(rows[step.i].status)
    && !rows[step.i].isPrewarm && rows[step.i].userIdHash.Some?
    && Existing(rows, rows[step.i].templateId, rows[step.i].userIdHash.value).Some?
  }

  /** Exactly the restarts and resumes of a dead row beside a live one break it. */
  lemma StepKeepsOneLiveIff(rows: seq<Row>, step: Step, rows': seq<Row>)
    requires OneLive(rows) && PoolClean(rows) && Steps(rows, step, rows')
    ensures PoolClean(rows')
    ensures OneLive(rows') <==> !Doubles(rows, step)
  {
    match step
    case Take(q, answer) => AcquireGivesTheOne(rows, q, rows', answer);
    case Stock(t, node, expiresAt) =>
      forall i, j, s, u | 0 <= i < |rows'| && 0 <= j < |rows'| && Live(rows'[i], s, u) && Live(rows'[j], s, u) ensures i == j {
        assert Live(rows[i], s, u) && Live(rows[j], s, u);
      }
    case Move(i, status) => MoveKeepsIff(rows, i, status, rows');
  }

  lemma MoveKeepsIff(rows: seq<Row>, k: nat, status: Status, rows': seq<Row>)
    requires OneLive(rows) && k < |rows| && rows' == rows[k := rows[k].(status := status)]
    ensures OneLive(rows') <==> !Doubles(rows, Move(k, status))
  {
    if Doubles(rows, Move(k, status)) {
      var t, u := rows[k].templateId, rows[k].userIdHash.value;
      var other := Existing(rows, t, u).value;
      assert Live(rows'[k], t, u) && Live(rows'[other], t, u) && other != k;
    } else {
      forall i, j, t, u | 0 <= i < |rows'| && 0 <= j < |rows'| && Live(rows'[i], t, u) && Live(rows'[j], t, u) ensures i == j {
        if i != k && j != k {
          assert Live(rows[i], t, u) && Live(rows[j], t, u);
        }
      }
    }
  }

  /** A history: the successive tables, and the steps between them. */
  ghost predicate History(tables: seq<seq<Row>>, steps: seq<Step>) {
    |tables| == |steps| + 1 && tables[0] == [] && forall n :: 0 <= n < |steps| ==> Steps(tables[n], steps[n], tables[n + 1])
  }

  /** From an empty table, every student has at most one live row throughout if and only if no step doubles one. */
  lemma OneLiveThroughoutIff(tables: seq<seq<Row>>, steps: seq<Step>)
    requires History(tables, steps)
    ensures (forall n :: 0 <= n < |tables| ==> OneLive(tables[n]))
            <==> (forall n :: 0 <= n < |steps| ==> !Doubles(tables[n], steps[n]))
  {
    hide OneLive, Doubles, Steps, PoolClean;
    PoolStaysClean(tables, steps, |steps|);
    if forall n :: 0 <= n < |tables| ==> OneLive(tables[n]) {
      forall n | 0 <= n < |steps| ensures !Doubles(tables[n], steps[n]) {
        StepKeepsOneLiveIff(tables[n], steps[n], tables[n + 1]);
      }
    }
    if forall n :: 0 <= n < |steps| ==> !Doubles(tables[n], steps[n]) {
      forall n | 0 <= n < |tables| ensures OneLive(tables[n]) { OneLiveUpTo(tables, steps, n); }
    }
  }

  lemma {:induction false} PoolStaysClean(tables: seq<seq<Row>>, steps: seq<Step>, n: nat)
    requires History(tables, steps) && n < |tables|
    ensures forall m :: 0 <= m <= n ==> PoolClean(tables[m])
  {
    if n > 0 {
      PoolStaysClean(tables, steps, n - 1);
      assert Steps(tables[n - 1], steps[n - 1], tables[n]);
      StepKeepsPool(tables[n - 1], steps[n - 1], tables[n]);
    }
  }

  lemma StepKeepsPool(rows: seq<Row>, step: Step, rows': seq<Row>)
    requires PoolClean(rows) && Steps(rows, step, rows')
    ensures PoolClean(rows')
  {
  }

  lemma {:induction false} OneLiveUpTo(tables: seq<seq<Row>>, steps: seq<Step>, n: nat)
    requires History(tables, steps) && n < |tables|
    requires forall m :: 0 <= m < |steps| ==> !Doubles(tables[m], steps[m])
    ensures OneLive(tables[n])
  {
    hide Doubles, Steps, PoolClean, Live;
    if n > 0 {
      OneLiveUpTo(tables, steps, n - 1);
      PoolStaysClean(tables, steps, n - 1);
      StepKeepsOneLiveIff(tables[n - 1], steps[n - 1], tables[n]);
    }
  }
}
