/**
 The ring scheduler of packages/control-plane/src/runtime/nodes.ts: strict round-robin over the
 enabled and healthy candidates, one cursor per pool, nodes at capacity skipped.
 The node table is given in the order the query asks for (by name).
 */
module RingScheduler {
  import opened Prelude
  import opened PoolKeys

  datatype Node = Node(id: string, enabled: bool, lastSeenAt: Option<int>, capacityMax: int, isDefault: bool)

  /** What the scheduler sees of a LabInstance row. */
  datatype Row = Row(nodeId: Option<string>, status: Status)

  predicate Live(r: Row) {
    r.status != Terminated && r.status != Failed
  }

  /** Live rows on a node: the count the scheduler compares with `capacityMax`. */
  function Load(rows: seq<Row>, id: string): nat {
    if rows == [] then 0 else
      var last := rows[|rows| - 1];
      Load(rows[..|rows| - 1], id) + if last.nodeId == Some(id) && Live(last) then 1 else 0
  }

  predicate Full(n: Node, rows: seq<Row>) {
    n.capacityMax > 0 && Load(rows, n.id) >= n.capacityMax
  }

  predicate Eligible(n: Node, whitelist: seq<string>, cutoff: int) {
    && n.enabled
    && (n.lastSeenAt.None? || n.lastSeenAt.value >= cutoff)
    && (whitelist == [] || n.id in whitelist)
  }

  function Candidates(nodes: seq<Node>, whitelist: seq<string>, cutoff: int): (r: seq<Node>)
    ensures forall n :: n in r <==> n in nodes && Eligible(n, whitelist, cutoff)
  {
    if nodes == [] then [] else
      (if Eligible(nodes[0], whitelist, cutoff) then [nodes[0]] else []) + Candidates(nodes[1..], whitelist, cutoff)
  }

  ghost predicate DistinctIds(nodes: seq<Node>) {
    forall i, j :: 0 <= i < j < |nodes| ==> nodes[i].id != nodes[j].id
  }

  lemma {:induction false} CandidatesDistinct(nodes: seq<Node>, whitelist: seq<string>, cutoff: int)
    requires DistinctIds(nodes)
    ensures DistinctIds(Candidates(nodes, whitelist, cutoff))
  {
    if nodes != [] {
      CandidatesDistinct(nodes[1..], whitelist, cutoff);
      forall n | n in Candidates(nodes[1..], whitelist, cutoff)
        ensures n.id != nodes[0].id
      {
        var k :| 0 <= k < |nodes[1..]| && nodes[1..][k] == n;
        assert nodes[k + 1] == n;
      }
    }
  }

  // ---------- the ring ----------

  /** `x % n`, by going round the ring (see WrapIsMod). */
  function Wrap(x: nat, n: nat): (r: nat)
    requires n > 0
    ensures r < n
  {
    if x < n then x else Wrap(x - n, n)
  }

  /** Slot reached `steps` places after the cursor on a ring of `n` slots. */
  function Slot(cursor: nat, steps: nat, n: nat): (s: nat)
    requires n > 0
    ensures s < n
  {
    Wrap(cursor + steps, n)
  }

  /** How many steps from the cursor to the first slot that is not full, searching from `from` on; one lap at most. */
  function FirstFree(cands: seq<Node>, rows: seq<Row>, cursor: nat, from: nat): (r: Option<nat>)
    requires from <= |cands|
    ensures r.Some? ==> from <= r.value < |cands| && !Full(cands[Slot(cursor, r.value, |cands|)], rows)
    ensures forall j :: from <= j < r.GetOr(|cands|) ==> Full(cands[Slot(cursor, j, |cands|)], rows)
    decreases |cands| - from
  {
    if from == |cands| then None
    else if !Full(cands[Slot(cursor, from, |cands|)], rows) then Some(from)
    else FirstFree(cands, rows, cursor, from + 1)
  }

  /** The slot a pick takes, and where the pool's cursor stands afterwards. A one-node pool leaves its cursor alone. */
  datatype Pick = Pick(slot: Option<nat>, cursor: nat)

  function RingPick(cands: seq<Node>, rows: seq<Row>, cursor: nat): (p: Pick)
    ensures p.slot.Some? ==> p.slot.value < |cands|
  {
    match FirstFree(cands, rows, cursor, 0)
    case None => Pick(None, cursor)
    case Some(steps) =>
      var idx := Slot(cursor, steps, |cands|);
      Pick(Some(idx), if |cands| == 1 then cursor else Wrap(idx + 1, |cands|))
  }

  /** A pick takes a candidate that is not full; it takes none exactly when every candidate is full. */
  lemma PickSound(cands: seq<Node>, rows: seq<Row>, cursor: nat)
    ensures var p := RingPick(cands, rows, cursor);
            && (p.slot.Some? ==> p.slot.value < |cands| && !Full(cands[p.slot.value], rows))
            && (p.slot.None? <==> forall n :: n in cands ==> Full(n, rows))
  {
    if FirstFree(cands, rows, cursor, 0).None? {
      forall n | n in cands
        ensures Full(n, rows)
      {
        var k :| 0 <= k < |cands| && cands[k] == n;
        var j := StepsTo(cursor, k, |cands|);
        StepsReach(cursor, k, |cands|);
        assert Full(cands[Slot(cursor, j, |cands|)], rows);
      }
    }
  }

  /** Distance along the ring from the cursor to a slot. */
  function StepsTo(cursor: nat, slot: nat, n: nat): (d: nat)
    requires slot < n
    ensures d < n
  {
    var c := Wrap(cursor, n);
    if slot >= c then slot - c else slot + n - c
  }

  lemma {:induction false} WrapOffset(c: nat, d: nat, n: nat)
    requires d < n
    ensures Wrap(c + d, n) == if Wrap(c, n) + d < n then Wrap(c, n) + d else Wrap(c, n) + d - n
  {
    if c >= n {
      WrapOffset(c - n, d, n);
    }
  }

  lemma {:induction false} WrapIsMod(x: nat, n: nat)
    requires n > 0
    ensures Wrap(x, n) == x % n
  {
    if x >= n {
      WrapIsMod(x - n, n);
      var q, r := (x - n) / n, (x - n) % n;
      assert x == (q + 1) * n + r;
      ModUnique(x, q + 1, r, n);
    }
  }

  lemma MulApart(p: nat, q: nat, n: nat)
    requires p > q
    ensures p * n >= q * n + n
  {
    assert p * n == (p - q - 1) * n + q * n + n;
  }

  lemma ModUnique(x: nat, q: nat, r: nat, n: nat)
    requires n > 0 && r < n && x == q * n + r
    ensures x % n == r
  {
    var q', r' := x / n, x % n;
    assert x == q' * n + r';
    if q > q' {
      MulApart(q, q', n);
    } else if q < q' {
      MulApart(q', q, n);
    }
  }

  lemma StepsReach(cursor: nat, slot: nat, n: nat)
    requires slot < n
    ensures Slot(cursor, StepsTo(cursor, slot, n), n) == slot
  {
    WrapOffset(cursor, StepsTo(cursor, slot, n), n);
  }

  /** Moving the cursor just past the slot `d` steps ahead brings every later slot `d + 1` steps closer. */
  lemma StepsAfter(cursor: nat, d: nat, slot: nat, n: nat)
    requires slot < n && d < n
    ensures var next := Wrap(Slot(cursor, d, n) + 1, n);
            StepsTo(next, slot, n) ==
              if StepsTo(cursor, slot, n) > d then StepsTo(cursor, slot, n) - d - 1
              else StepsTo(cursor, slot, n) - d - 1 + n
  {
    WrapOffset(cursor, d, n);
  }

  lemma SingleCandidate(cands: seq<Node>, rows: seq<Row>, cursor: nat)
    requires |cands| == 1
    ensures RingPick(cands, rows, cursor) == Pick(if Full(cands[0], rows) then None else Some(0), cursor)
  {
    assert Slot(cursor, 0, 1) == 0;
  }

  /** The load of a node is the number of its rows that are neither terminated nor failed. */
  lemma {:induction false} LoadCounts(rows: seq<Row>, id: string)
    ensures Load(rows, id) ==
            |set i: nat | i < |rows| && rows[i].nodeId == Some(id) && rows[i].status != Terminated && rows[i].status != Failed|
  {
    var all := set i: nat | i < |rows| && rows[i].nodeId == Some(id) && rows[i].status != Terminated && rows[i].status != Failed;
    if rows == [] {
      assert all == {};
    } else {
      var n := |rows| - 1;
      LoadCounts(rows[..n], id);
      var front := set i: nat | i < |rows[..n]| && rows[..n][i].nodeId == Some(id)
                              && rows[..n][i].status != Terminated && rows[..n][i].status != Failed;
      assert all == front + if n in all then {n} else {};
      assert n !in front;
    }
  }

  /** The ring keeps the order of the node table. */
  lemma {:induction false} CandidatesInOrder(a: seq<Node>, b: seq<Node>, whitelist: seq<string>, cutoff: int)
    ensures Candidates(a + b, whitelist, cutoff) == Candidates(a, whitelist, cutoff) + Candidates(b, whitelist, cutoff)
  {
    hide Eligible;
    if a == [] {
      assert a + b == b;
    } else {
      assert (a + b)[1..] == a[1..] + b && (a + b)[0] == a[0];
      CandidatesInOrder(a[1..], b, whitelist, cutoff);
    }
  }

  /** The node can take a lab: enabled, seen since the cutoff or never, in the whitelist if there is one, and below its cap. */
  ghost predicate CanTake(n: Node, rows: seq<Row>, whitelist: seq<string>, cutoff: int) {
    && n.enabled
    && (n.lastSeenAt == None || n.lastSeenAt.value >= cutoff)
    && (|whitelist| > 0 ==> n.id in whitelist)
    && (n.capacityMax <= 0
        || |set i: nat | i < |rows| && rows[i].nodeId == Some(n.id) && rows[i].status != Terminated && rows[i].status != Failed|
           < n.capacityMax)
  }

  /** A pick over a node table answers a node of the table that can take a lab, and none exactly if no node can. */
  lemma PickAnswers(nodes: seq<Node>, rows: seq<Row>, whitelist: seq<string>, cutoff: int, cursor: nat)
    ensures var cands := Candidates(nodes, whitelist, cutoff);
            var slot := RingPick(cands, rows, cursor).slot;
            && (slot.Some? ==> slot.value < |cands| && cands[slot.value] in nodes
                               && CanTake(cands[slot.value], rows, whitelist, cutoff))
            && (slot.None? <==> forall n :: n in nodes ==> !CanTake(n, rows, whitelist, cutoff))
  {
    hide Load, RingPick;
    var cands := Candidates(nodes, whitelist, cutoff);
    PickSound(cands, rows, cursor);
    forall n ensures CanTake(n, rows, whitelist, cutoff) <==> Eligible(n, whitelist, cutoff) && !Full(n, rows) {
      LoadCounts(rows, n.id);
    }
  }

  // ---------- the scheduler object ----------

  function Lookup(m: map<string, nat>, key: string): nat {
    if key in m then m[key] else 0
  }

  /** Rows of the `groupBy` query as a map: one entry per node with at least one live row. */
  method GroupLoads(cands: seq<Node>, rows: seq<Row>) returns (loads: map<string, nat>)
    ensures forall n :: n in cands ==> Lookup(loads, n.id) == Load(rows, n.id)
  {
    loads := map[];
    var ids := set n | n in cands :: n.id;
    for i := 0 to |rows|
      invariant forall id :: Lookup(loads, id) == if id in ids then Load(rows[..i], id) else 0
    {
      assert rows[..i + 1][..i] == rows[..i];
      var r := rows[i];
      if r.nodeId.Some? && Live(r) && r.nodeId.value in ids {
        loads := loads[r.nodeId.value := Lookup(loads, r.nodeId.value) + 1];
      }
    }
    assert rows[..|rows|] == rows;
  }

  /** The walk from the cursor, one lap at most, over the loads that were fetched. */
  method WalkRing(candidates: seq<Node>, loadMap: map<string, nat>, ghost rows: seq<Row>, cursor: nat)
    returns (slot: Option<nat>, next: nat)
    requires |candidates| > 1
    requires forall n :: n in candidates && n.capacityMax > 0 ==> Lookup(loadMap, n.id) == Load(rows, n.id)
    ensures Pick(slot, next) == RingPick(candidates, rows, cursor)
  {
    var i := 0;
    while i < |candidates|
      invariant 0 <= i <= |candidates|
      invariant FirstFree(candidates, rows, cursor, 0) == FirstFree(candidates, rows, cursor, i)
    {
      var idx := Slot(cursor, i, |candidates|);
      var cand := candidates[idx];
      var load := Lookup(loadMap, cand.id);
      if !(cand.capacityMax > 0 && load >= cand.capacityMax) {
        return Some(idx), Wrap(idx + 1, |candidates|);
      }
      i := i + 1;
    }
    return None, cursor;
  }

  class Scheduler {
    var rrCursor: nat
    var rrCursorsByPool: map<string, nat>

    constructor ()
      ensures forall key :: CursorOf(key) == 0
    {
      rrCursor, rrCursorsByPool := 0, map[];
    }

    function CursorOf(key: string): nat
      reads this
    {
      if key == FLEET then rrCursor else Lookup(rrCursorsByPool, key)
    }

    /** `pickLeastLoadedNode`. Loads are fetched only when some candidate has a cap. */
    method PickLeastLoadedNode(nodes: seq<Node>, rows: seq<Row>, whitelist: seq<string>, cutoff: int)
      returns (picked: Option<Node>)
      modifies this
      ensures var cands := Candidates(nodes, whitelist, cutoff);
              var p := RingPick(cands, rows, old(CursorOf(PoolKey(whitelist))));
              && picked == (if p.slot.Some? then Some(cands[p.slot.value]) else None)
              && CursorOf(PoolKey(whitelist)) == p.cursor
      ensures forall k :: k != PoolKey(whitelist) ==> CursorOf(k) == old(CursorOf(k))
    {
      hide PoolKey, Load, Candidates, FirstFree;
      var key := PoolKey(whitelist);
      var candidates := Candidates(nodes, whitelist, cutoff);
      if |candidates| == 0 {
        return None;
      }
      if |candidates| == 1 {
        var only := candidates[0];
        SingleCandidate(candidates, rows, CursorOf(key));
        if only.capacityMax > 0 {
          var load := Load(rows, only.id);
          if load >= only.capacityMax {
            return None;
          }
        }
        return Some(only);
      }
      var anyCapped := exists n :: n in candidates && n.capacityMax > 0;
      var loadMap: map<string, nat> := map[];
      if anyCapped {
        loadMap := GroupLoads(candidates, rows);
      }
      var cursor := if key == FLEET then rrCursor else Lookup(rrCursorsByPool, key);
      var slot, next := WalkRing(candidates, loadMap, rows, cursor);
      if slot.None? {
        return None;
      }
      if key == FLEET {
        rrCursor := next;
      } else {
        rrCursorsByPool := rrCursorsByPool[key := next];
      }
      return Some(candidates[slot.value]);
    }
  }

  // ---------- fairness ----------

  /** One pick in a run over several pools: the pool picked from, and the instance rows at that moment. */
  datatype PoolPick = PoolPick(pool: string, rows: seq<Row>)

  /** A pool's cursor after the picks, every pool starting from its entry in `start`. */
  function CursorAfter(pools: map<string, seq<Node>>, start: map<string, nat>, picks: seq<PoolPick>, pool: string): nat
  {
    if picks == [] then (if pool in start then start[pool] else 0) else
      var before := CursorAfter(pools, start, picks[..|picks| - 1], pool);
      var e := picks[|picks| - 1];
      if e.pool == pool && pool in pools then RingPick(pools[pool], e.rows, before).cursor else before
  }

  /** How often the picks from a pool took its slot `a`. */
  function Hits(pools: map<string, seq<Node>>, start: map<string, nat>, picks: seq<PoolPick>, pool: string, a: nat): nat
  {
    if picks == [] then 0 else
      var front := picks[..|picks| - 1];
      var e := picks[|picks| - 1];
      Hits(pools, start, front, pool, a)
      + if e.pool == pool && pool in pools
           && RingPick(pools[pool], e.rows, CursorAfter(pools, start, front, pool)).slot == Some(a) then 1 else 0
  }

  /** Slot `a` comes before slot `b` when walking the ring from the cursor. */
  predicate Ahead(cursor: nat, a: nat, b: nat, n: nat)
    requires a < n && b < n
  {
    StepsTo(cursor, a, n) < StepsTo(cursor, b, n)
  }

  /** Any pick stops at or before the first of two free slots, so afterwards the order of the two swaps only if one was taken. */
  lemma PickSwapsOrder(cands: seq<Node>, rows: seq<Row>, cursor: nat, a: nat, b: nat)
    requires a < |cands| && b < |cands| && a != b
    requires !Full(cands[a], rows) && !Full(cands[b], rows)
    requires Ahead(cursor, a, b, |cands|)
    ensures var p := RingPick(cands, rows, cursor);
            && p.slot.Some? && p.slot != Some(b)
            && Ahead(p.cursor, a, b, |cands|) == (p.slot != Some(a))
  {
    var n := |cands|;
    StepsReach(cursor, a, n);
    StepsReach(cursor, b, n);
    var steps := FirstFree(cands, rows, cursor, 0).value;
    assert steps <= StepsTo(cursor, a, n);
    StepsAfter(cursor, steps, a, n);
    StepsAfter(cursor, steps, b, n);
    if steps == StepsTo(cursor, a, n) {
      assert Slot(cursor, steps, n) == a;
    } else {
      WrapOffset(cursor, steps, n);
    }
  }

  lemma {:induction false} FairInvariant(pools: map<string, seq<Node>>, start: map<string, nat>, picks: seq<PoolPick>,
                                         pool: string, a: nat, b: nat)
    requires pool in pools && a < |pools[pool]| && b < |pools[pool]| && a != b
    requires forall i :: 0 <= i < |picks| && picks[i].pool == pool ==>
               !Full(pools[pool][a], picks[i].rows) && !Full(pools[pool][b], picks[i].rows)
    requires Ahead(if pool in start then start[pool] else 0, a, b, |pools[pool]|)
    ensures var ha, hb := Hits(pools, start, picks, pool, a), Hits(pools, start, picks, pool, b);
            ha == if Ahead(CursorAfter(pools, start, picks, pool), a, b, |pools[pool]|) then hb else hb + 1
  {
    if picks != [] {
      var front, e := picks[..|picks| - 1], picks[|picks| - 1];
      FairInvariant(pools, start, front, pool, a, b);
      if e.pool == pool {
        var cursor, n := CursorAfter(pools, start, front, pool), |pools[pool]|;
        if Ahead(cursor, a, b, n) {
          PickSwapsOrder(pools[pool], e.rows, cursor, a, b);
        } else {
          StepsReach(cursor, a, n);
          StepsReach(cursor, b, n);
          PickSwapsOrder(pools[pool], e.rows, cursor, b, a);
          var next := RingPick(pools[pool], e.rows, cursor).cursor;
          StepsReach(next, a, n);
          StepsReach(next, b, n);
        }
      }
    }
  }

  /** Fairness: two nodes of a pool that are never full when that pool is picked from share its picks evenly to within one,
      whatever other pools do, whichever other nodes fill up, wherever the cursors started. */
  lemma Fairness(pools: map<string, seq<Node>>, start: map<string, nat>, picks: seq<PoolPick>, pool: string, a: nat, b: nat)
    requires pool in pools && a < |pools[pool]| && b < |pools[pool]|
    requires forall i :: 0 <= i < |picks| && picks[i].pool == pool ==>
               !Full(pools[pool][a], picks[i].rows) && !Full(pools[pool][b], picks[i].rows)
    ensures -1 <= Hits(pools, start, picks, pool, a) - Hits(pools, start, picks, pool, b) <= 1
  {
    if a != b {
      var c := if pool in start then start[pool] else 0;
      StepsReach(c, a, |pools[pool]|);
      StepsReach(c, b, |pools[pool]|);
      if Ahead(c, a, b, |pools[pool]|) {
        FairInvariant(pools, start, picks, pool, a, b);
      } else {
        FairInvariant(pools, start, picks, pool, b, a);
      }
    }
  }

  // ---------- exact capacity ----------

  /** Free places of a pool: what is left under each cap. */
  function FreePlaces(cands: seq<Node>, rows: seq<Row>): nat {
    if cands == [] then 0 else
      Max(0, cands[0].capacityMax - Load(rows, cands[0].id)) + FreePlaces(cands[1..], rows)
  }

  /** Provision `k` times: each pick that succeeds inserts its `provisioning` row. */
  datatype Filled = Filled(rows: seq<Row>, cursor: nat, placed: nat)

  function Fill(cands: seq<Node>, rows: seq<Row>, cursor: nat, k: nat): Filled {
    if k == 0 then Filled(rows, cursor, 0) else
      var s := Fill(cands, rows, cursor, k - 1);
      match RingPick(cands, s.rows, s.cursor)
      case Pick(None, c) => s.(cursor := c)
      case Pick(Some(slot), c) => Filled(s.rows + [Row(Some(cands[slot].id), Provisioning)], c, s.placed + 1)
  }

  lemma {:induction false} FreePlacesUnaffected(cands: seq<Node>, rows: seq<Row>, r: Row)
    requires forall n :: n in cands ==> r.nodeId != Some(n.id)
    ensures FreePlaces(cands, rows + [r]) == FreePlaces(cands, rows)
  {
    if cands != [] {
      assert (rows + [r])[..|rows|] == rows;
      assert cands[0] in cands;
      FreePlacesUnaffected(cands[1..], rows, r);
    }
  }

  lemma {:induction false} InsertTakesOnePlace(cands: seq<Node>, rows: seq<Row>, slot: nat)
    requires DistinctIds(cands) && slot < |cands|
    requires cands[slot].capacityMax > 0 && !Full(cands[slot], rows)
    ensures FreePlaces(cands, rows + [Row(Some(cands[slot].id), Provisioning)]) == FreePlaces(cands, rows) - 1
  {
    var r := Row(Some(cands[slot].id), Provisioning);
    assert (rows + [r])[..|rows|] == rows;
    if slot == 0 {
      FreePlacesUnaffected(cands[1..], rows, r);
    } else {
      InsertTakesOnePlace(cands[1..], rows, slot - 1);
    }
  }

  lemma {:induction false} NoFreePlaces(cands: seq<Node>, rows: seq<Row>)
    requires forall n :: n in cands ==> n.capacityMax > 0
    ensures FreePlaces(cands, rows) == 0 <==> forall n :: n in cands ==> Full(n, rows)
  {
    if cands != [] {
      NoFreePlaces(cands[1..], rows);
      assert cands[0] in cands && forall n :: n in cands ==> n == cands[0] || n in cands[1..];
      assert FreePlaces(cands, rows) == 0 <==> Full(cands[0], rows) && FreePlaces(cands[1..], rows) == 0;
    }
  }

  /** On an all-capped pool a pick finds a node exactly while places are left, and filling it uses up one place. */
  lemma PickThenInsert(cands: seq<Node>, rows: seq<Row>, cursor: nat)
    requires DistinctIds(cands) && forall n :: n in cands ==> n.capacityMax > 0
    ensures var slot := RingPick(cands, rows, cursor).slot;
            && (slot.Some? <==> FreePlaces(cands, rows) > 0)
            && (slot.Some? ==>
                  FreePlaces(cands, rows + [Row(Some(cands[slot.value].id), Provisioning)]) == FreePlaces(cands, rows) - 1)
  {
    PickSound(cands, rows, cursor);
    NoFreePlaces(cands, rows);
    var slot := RingPick(cands, rows, cursor).slot;
    if slot.Some? {
      assert cands[slot.value] in cands;
      InsertTakesOnePlace(cands, rows, slot.value);
    }
  }

  /** Exact capacity: on a pool where every node has a cap, exactly as many picks succeed as there are free places,
      from any cursor, and from then on every pick returns none. */
  lemma {:induction false} ExactCapacity(cands: seq<Node>, rows: seq<Row>, cursor: nat, k: nat)
    requires DistinctIds(cands) && forall n :: n in cands ==> n.capacityMax > 0
    ensures var s := Fill(cands, rows, cursor, k);
            && s.placed == Min(k, FreePlaces(cands, rows))
            && FreePlaces(cands, s.rows) == FreePlaces(cands, rows) - s.placed
            && (RingPick(cands, s.rows, s.cursor).slot.None? <==> k >= FreePlaces(cands, rows))
  {
    hide FreePlaces, RingPick, Load;
    var s := Fill(cands, rows, cursor, k);
    if k > 0 {
      ExactCapacity(cands, rows, cursor, k - 1);
      var b := Fill(cands, rows, cursor, k - 1);
      PickThenInsert(cands, b.rows, b.cursor);
    }
    PickThenInsert(cands, s.rows, s.cursor);
  }
}
