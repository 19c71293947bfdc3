/**
 The placement order of a fresh instance (packages/control-plane/src/runtime/nodes.ts:169-268): request override, pins,
 ring pick, default node, only node. Only the ring pick looks at health and capacity.
 */
module NodePlacement {
  import opened Prelude
  import opened RingScheduler
  import PoolKeys

  datatype Problem = PinnedNodeDisabled | AllowedPoolExhausted

  /** `Nowhere`: null, for which the caller uses the local docker socket. */
  datatype Answer = Placed(node: Node) | Nowhere | Throws(problem: Problem)

  /** What the placement reads: the request's nodes, the pins, the template's pool, and the scheduler mode. */
  datatype Wish = Wish(overrideNodeIds: seq<string>, tenantPin: Option<string>, templatePin: Option<string>,
                       allowedNodeIds: seq<string>, spread: bool)

  /** `tenant?.defaultNodeId ?? template?.defaultNodeId`; the empty string counts as no pin. */
  function Pin(w: Wish): Option<string> {
    var p := if w.tenantPin.Some? then w.tenantPin else w.templatePin;
    if p == Some("") then None else p
  }

  function ById(nodes: seq<Node>, id: string): Option<Node> {
    if nodes == [] then None else if nodes[0].id == id then Some(nodes[0]) else ById(nodes[1..], id)
  }

  function DefaultNode(nodes: seq<Node>): Option<Node> {
    if nodes == [] then None
    else if nodes[0].enabled && nodes[0].isDefault then Some(nodes[0]) else DefaultNode(nodes[1..])
  }

  function EnabledNodes(nodes: seq<Node>): (r: seq<Node>)
    ensures forall n :: n in r <==> n in nodes && n.enabled
  {
    if nodes == [] then [] else (if nodes[0].enabled then [nodes[0]] else []) + EnabledNodes(nodes[1..])
  }

  /** A healthy node of the pool with room. */
  predicate Free(n: Node, nodes: seq<Node>, rows: seq<Row>, whitelist: seq<string>, cutoff: int) {
    n in nodes && Eligible(n, whitelist, cutoff) && !Full(n, rows)
  }

  ghost predicate SomeFree(nodes: seq<Node>, rows: seq<Row>, whitelist: seq<string>, cutoff: int) {
    exists n :: n in nodes && Free(n, nodes, rows, whitelist, cutoff)
  }

  /** What follows when no ring pick succeeded: the default node, else the only enabled one. */
  function LastResort(nodes: seq<Node>): Answer {
    if DefaultNode(nodes).Some? then Placed(DefaultNode(nodes).value)
    else if |EnabledNodes(nodes)| == 1 then Placed(EnabledNodes(nodes)[0])
    else Nowhere
  }

  /** The answers the documented order allows. */
  ghost predicate Allowed(a: Answer, nodes: seq<Node>, rows: seq<Row>, w: Wish, cutoff: int) {
    var override := NonEmpty(w.overrideNodeIds);
    var pinned := if Pin(w).Some? then ById(nodes, Pin(w).value) else None;
    var pool := NonEmpty(w.allowedNodeIds);
    if override != [] then
      if SomeFree(nodes, rows, override, cutoff) then a.Placed? && Free(a.node, nodes, rows, override, cutoff)
      else if DefaultNode(nodes).Some? then a == Placed(DefaultNode(nodes).value)
      else if SomeFree(nodes, rows, [], cutoff) then a.Placed? && Free(a.node, nodes, rows, [], cutoff)
      else a == LastResort(nodes)
    else if pinned.Some? then a == (if pinned.value.enabled then Placed(pinned.value) else Throws(PinnedNodeDisabled))
    else if w.spread && SomeFree(nodes, rows, pool, cutoff) then a.Placed? && Free(a.node, nodes, rows, pool, cutoff)
    else if w.spread && pool != [] then a == Throws(AllowedPoolExhausted)
    else a == LastResort(nodes)
  }

  /** A ring pick succeeds exactly when a healthy node of the pool has room, and answers such a node. */
  method Pick(s: Scheduler, nodes: seq<Node>, rows: seq<Row>, whitelist: seq<string>, cutoff: int) returns (picked: Option<Node>)
    modifies s
    ensures picked.Some? <==> SomeFree(nodes, rows, whitelist, cutoff)
    ensures picked.Some? ==> Free(picked.value, nodes, rows, whitelist, cutoff)
  {
    hide Full, Eligible, RingPick, SomeFree;
    ghost var cands := Candidates(nodes, whitelist, cutoff);
    ghost var cursor := s.CursorOf(PoolKeys.PoolKey(whitelist));
    PickSound(cands, rows, cursor);
    picked := s.PickLeastLoadedNode(nodes, rows, whitelist, cutoff);
    FreeCandidates(nodes, rows, whitelist, cutoff);
    if picked.Some? { assert picked.value in cands; }
  }

  lemma FreeCandidates(nodes: seq<Node>, rows: seq<Row>, whitelist: seq<string>, cutoff: int)
    ensures SomeFree(nodes, rows, whitelist, cutoff) <==> exists n :: n in Candidates(nodes, whitelist, cutoff) && !Full(n, rows)
    ensures forall n :: n in Candidates(nodes, whitelist, cutoff) && !Full(n, rows) ==> Free(n, nodes, rows, whitelist, cutoff)
  {
    hide Full, Eligible;
    if n :| n in nodes && Free(n, nodes, rows, whitelist, cutoff) {
      assert n in Candidates(nodes, whitelist, cutoff);
    }
  }

  method ResolveNodeForProvision(s: Scheduler, nodes: seq<Node>, rows: seq<Row>, w: Wish, cutoff: int) returns (a: Answer)
    modifies s
    ensures Allowed(a, nodes, rows, w, cutoff)
  {
    hide SomeFree, Free, NonEmpty, EnabledNodes, DefaultNode, ById;
    var override := NonEmpty(w.overrideNodeIds);
    if |override| > 0 {
      var picked := Pick(s, nodes, rows, override, cutoff);
      if picked.Some? { return Placed(picked.value); }
      var def0 := DefaultNode(nodes);
      if def0.Some? { return Placed(def0.value); }
      var spreadAll := Pick(s, nodes, rows, [], cutoff);
      if spreadAll.Some? { return Placed(spreadAll.value); }
      var enabled0 := EnabledNodes(nodes);
      if |enabled0| == 1 { return Placed(enabled0[0]); }
      return Nowhere;
    }
    var candidateId := Pin(w);
    if candidateId.Some? {
      var pinned := ById(nodes, candidateId.value);
      if pinned.Some? && !pinned.value.enabled { return Throws(PinnedNodeDisabled); }
      if pinned.Some? { return Placed(pinned.value); }
    }
    var allowed := NonEmpty(w.allowedNodeIds);
    if w.spread {
      var spread := Pick(s, nodes, rows, allowed, cutoff);
      if spread.Some? { return Placed(spread.value); }
      if |allowed| > 0 { return Throws(AllowedPoolExhausted); }
    }
    var def := DefaultNode(nodes);
    if def.Some? { return Placed(def.value); }
    var enabled := EnabledNodes(nodes);
    if |enabled| == 1 { return Placed(enabled[0]); }
    a := Nowhere;
  }

  lemma {:induction false} DefaultIs(nodes: seq<Node>)
    ensures DefaultNode(nodes).Some? ==> DefaultNode(nodes).value in nodes && DefaultNode(nodes).value.enabled
                                         && DefaultNode(nodes).value.isDefault
    ensures DefaultNode(nodes).None? ==> forall n :: n in nodes ==> !(n.enabled && n.isDefault)
  {
    if nodes != [] { DefaultIs(nodes[1..]); }
  }

  lemma {:induction false} ByIdIs(nodes: seq<Node>, id: string)
    ensures ById(nodes, id).Some? ==> ById(nodes, id).value in nodes && ById(nodes, id).value.id == id
  {
    if nodes != [] { ByIdIs(nodes[1..], id); }
  }

  /** The ring gets to answer: an override or a `spread` pool with room, or the fleet after an override without default. */
  ghost predicate RingAnswers(nodes: seq<Node>, rows: seq<Row>, w: Wish, cutoff: int) {
    var override := NonEmpty(w.overrideNodeIds);
    if override != [] then
      SomeFree(nodes, rows, override, cutoff) || (DefaultNode(nodes).None? && SomeFree(nodes, rows, [], cutoff))
    else PinnedNode(nodes, w).None? && w.spread && SomeFree(nodes, rows, NonEmpty(w.allowedNodeIds), cutoff)
  }

  function PinnedNode(nodes: seq<Node>, w: Wish): Option<Node> {
    if NonEmpty(w.overrideNodeIds) == [] && Pin(w).Some? then ById(nodes, Pin(w).value) else None
  }

  /** The node that is answered without a look at health and load when the ring does not answer: pin, default, only one. */
  ghost function Fiat(nodes: seq<Node>, w: Wish): Option<Node> {
    if PinnedNode(nodes, w).Some? then
      if PinnedNode(nodes, w).value.enabled then PinnedNode(nodes, w) else None
    else if NonEmpty(w.overrideNodeIds) == [] && w.spread && NonEmpty(w.allowedNodeIds) != [] then None
    else if DefaultNode(nodes).Some? then DefaultNode(nodes)
    else if |EnabledNodes(nodes)| == 1 then Some(EnabledNodes(nodes)[0])
    else None
  }

  lemma RingAnswersFree(a: Answer, nodes: seq<Node>, rows: seq<Row>, w: Wish, cutoff: int)
    requires Allowed(a, nodes, rows, w, cutoff) && RingAnswers(nodes, rows, w, cutoff)
    ensures a.Placed? && a.node in nodes && a.node.enabled && !Full(a.node, rows)
  {
    hide SomeFree, Full, NonEmpty;
  }

  lemma FiatAnswers(a: Answer, nodes: seq<Node>, rows: seq<Row>, w: Wish, cutoff: int)
    requires Allowed(a, nodes, rows, w, cutoff) && !RingAnswers(nodes, rows, w, cutoff)
    ensures Fiat(nodes, w) == if a.Placed? then Some(a.node) else None
    ensures a.Placed? ==> a.node in nodes && a.node.enabled
  {
    hide SomeFree, Full, NonEmpty, Free;
    DefaultIs(nodes);
    if Pin(w).Some? { ByIdIs(nodes, Pin(w).value); }
    FirstEnabled(nodes);
  }

  lemma FirstEnabled(nodes: seq<Node>)
    ensures |EnabledNodes(nodes)| == 1 ==> EnabledNodes(nodes)[0] in nodes && EnabledNodes(nodes)[0].enabled
  {
    if |EnabledNodes(nodes)| == 1 { assert EnabledNodes(nodes)[0] in EnabledNodes(nodes); }
  }

  /**
   Whoever is answered exists and is enabled. The answer is a full node exactly when the ring does not get to answer and
   the pin, the default node or the only enabled node that then stands in for it is full.
   */
  lemma FullOnlyByFiat(a: Answer, nodes: seq<Node>, rows: seq<Row>, w: Wish, cutoff: int)
    requires Allowed(a, nodes, rows, w, cutoff)
    ensures a.Placed? ==> a.node in nodes && a.node.enabled
    ensures (a.Placed? && Full(a.node, rows))
            <==> !RingAnswers(nodes, rows, w, cutoff) && Fiat(nodes, w).Some? && Full(Fiat(nodes, w).value, rows)
  {
    hide Allowed, RingAnswers, Fiat, Full;
    if RingAnswers(nodes, rows, w, cutoff) {
      RingAnswersFree(a, nodes, rows, w, cutoff);
    } else {
      FiatAnswers(a, nodes, rows, w, cutoff);
    }
  }

  lemma {:induction false} ByIdFinds(nodes: seq<Node>, n: Node)
    requires n in nodes && DistinctIds(nodes)
    ensures ById(nodes, n.id) == Some(n)
  {
    if nodes[0] != n {
      var k :| 0 < k < |nodes| && nodes[k] == n;
      assert nodes[1..][k - 1] == n;
      ByIdFinds(nodes[1..], n);
    }
  }

  lemma {:induction false} ByIdMisses(nodes: seq<Node>, id: string)
    requires forall n :: n in nodes ==> n.id != id
    ensures ById(nodes, id).None?
  {
    if nodes != [] { ByIdMisses(nodes[1..], id); }
  }

  /** Without an override the tenant's pin decides, and the template's if the tenant has none; a disabled pin is an error. */
  lemma PinDecides(a: Answer, nodes: seq<Node>, rows: seq<Row>, w: Wish, cutoff: int, n: Node)
    requires Allowed(a, nodes, rows, w, cutoff) && DistinctIds(nodes) && n in nodes && n.id != ""
    requires forall id :: id in w.overrideNodeIds ==> id == ""
    requires w.tenantPin == Some(n.id) || (w.tenantPin.None? && w.templatePin == Some(n.id))
    ensures a == if n.enabled then Placed(n) else Throws(PinnedNodeDisabled)
  {
    hide SomeFree, Full, Free, ById, NonEmpty, LastResort;
    ByIdFinds(nodes, n);
    NoneLeft(w.overrideNodeIds);
  }

  lemma NoneLeft(ids: seq<string>)
    requires forall id :: id in ids ==> id == ""
    ensures NonEmpty(ids) == []
  {
    if NonEmpty(ids) != [] { assert NonEmpty(ids)[0] in NonEmpty(ids); }
  }

  /** The pin that counts names nothing: no tenant pin but the empty string, or a node that is gone. */
  predicate NoPin(nodes: seq<Node>, w: Wish) {
    var p := if w.tenantPin.Some? then w.tenantPin else w.templatePin;
    p.None? || p.value == "" || forall n :: n in nodes ==> n.id != p.value
  }

  /**
   Without override and pin: under `spread` a node of the pool that can take a lab, and an error if there is none in a pool
   that was named; otherwise an enabled default node, else the only enabled node, else none.
   */
  lemma UnpinnedDecides(a: Answer, nodes: seq<Node>, rows: seq<Row>, w: Wish, cutoff: int)
    requires Allowed(a, nodes, rows, w, cutoff) && NoPin(nodes, w)
    requires forall id :: id in w.overrideNodeIds ==> id == ""
    ensures var pool := NonEmpty(w.allowedNodeIds);
            if w.spread && exists n :: n in nodes && CanTake(n, rows, pool, cutoff) then
              a.Placed? && a.node in nodes && CanTake(a.node, rows, pool, cutoff)
            else if w.spread && exists id :: id in w.allowedNodeIds && id != "" then a == Throws(AllowedPoolExhausted)
            else if exists n :: n in nodes && n.enabled && n.isDefault then
              a.Placed? && a.node in nodes && a.node.enabled && a.node.isDefault
            else if |EnabledNodes(nodes)| == 1 then a.Placed? && a.node in nodes && a.node.enabled
            else a == Nowhere
  {
    hide Full, ById, NonEmpty, EnabledNodes, DefaultNode;
    NoneLeft(w.overrideNodeIds);
    if Pin(w).Some? { ByIdMisses(nodes, Pin(w).value); }
    DefaultIs(nodes);
    FirstEnabled(nodes);
    FreeMeans(nodes, rows, NonEmpty(w.allowedNodeIds), cutoff);
    SomeNamed(w.allowedNodeIds);
  }

  /**
   With an override: a named node that can take a lab; if there is none an enabled default node, whatever its load; then
   any node that can take a lab, then the only enabled one, then none. Neither pin is looked at.
   */
  lemma OverrideDecides(a: Answer, nodes: seq<Node>, rows: seq<Row>, w: Wish, cutoff: int)
    requires Allowed(a, nodes, rows, w, cutoff)
    requires exists id :: id in w.overrideNodeIds && id != ""
    ensures if exists n :: n in nodes && CanTake(n, rows, NonEmpty(w.overrideNodeIds), cutoff) then
              a.Placed? && a.node in nodes && a.node.id in w.overrideNodeIds && CanTake(a.node, rows, [], cutoff)
            else if exists n :: n in nodes && n.enabled && n.isDefault then
              a.Placed? && a.node in nodes && a.node.enabled && a.node.isDefault
            else if exists n :: n in nodes && CanTake(n, rows, [], cutoff) then
              a.Placed? && a.node in nodes && CanTake(a.node, rows, [], cutoff)
            else if |EnabledNodes(nodes)| == 1 then a.Placed? && a.node in nodes && a.node.enabled
            else a == Nowhere
  {
    hide Full, ById, EnabledNodes, DefaultNode, NonEmpty;
    DefaultIs(nodes);
    FirstEnabled(nodes);
    SomeNamed(w.overrideNodeIds);
    FreeMeans(nodes, rows, NonEmpty(w.overrideNodeIds), cutoff);
    FreeMeans(nodes, rows, [], cutoff);
  }

  lemma FreeMeans(nodes: seq<Node>, rows: seq<Row>, whitelist: seq<string>, cutoff: int)
    ensures forall n :: n in nodes ==> (Free(n, nodes, rows, whitelist, cutoff) <==> CanTake(n, rows, whitelist, cutoff))
  {
    hide Load;
    forall n | n in nodes ensures Free(n, nodes, rows, whitelist, cutoff) <==> CanTake(n, rows, whitelist, cutoff) {
      LoadCounts(rows, n.id);
    }
  }

  lemma SomeNamed(ids: seq<string>)
    ensures NonEmpty(ids) != [] <==> exists id :: id in ids && id != ""
  {
    if NonEmpty(ids) != [] { assert NonEmpty(ids)[0] in NonEmpty(ids); }
  }

  /** The template's pool is never widened: without override and pin, under `spread`, the answer is in it or a throw. */
  lemma PoolNeverWidened(a: Answer, nodes: seq<Node>, rows: seq<Row>, w: Wish, cutoff: int)
    requires Allowed(a, nodes, rows, w, cutoff) && w.spread
    requires NonEmpty(w.overrideNodeIds) == [] && Pin(w).None? && NonEmpty(w.allowedNodeIds) != []
    ensures a.Throws? || (a.Placed? && a.node.id in w.allowedNodeIds && !Full(a.node, rows))
    ensures a.Throws? <==> !SomeFree(nodes, rows, NonEmpty(w.allowedNodeIds), cutoff)
  {
    hide SomeFree, Full;
  }

  /**
   An exhausted override, with room elsewhere in the fleet: the answer is a fleet node with room exactly if there is no
   default node, or the default node is healthy and has room itself.
   */
  lemma ExhaustedOverrideReachesFleetIff(a: Answer, nodes: seq<Node>, rows: seq<Row>, w: Wish, cutoff: int)
    requires Allowed(a, nodes, rows, w, cutoff) && NonEmpty(w.overrideNodeIds) != []
    requires !SomeFree(nodes, rows, NonEmpty(w.overrideNodeIds), cutoff) && SomeFree(nodes, rows, [], cutoff)
    ensures (a.Placed? && Free(a.node, nodes, rows, [], cutoff))
            <==> DefaultNode(nodes).None? || Free(DefaultNode(nodes).value, nodes, rows, [], cutoff)
  {
    hide SomeFree, Free, NonEmpty;
  }

  /** A default node hides the fleet from an exhausted override: it is answered even when it is full and others are not. */
  lemma DefaultShadowsFleet(full: Node, other: Node, rows: seq<Row>, w: Wish, cutoff: int, a: Answer)
    requires full.enabled && full.isDefault && Full(full, rows)
    requires other.enabled && other.lastSeenAt.None? && !Full(other, rows) && other.id != full.id && other.id != ""
    requires w.overrideNodeIds == [full.id] && full.id != ""
    requires Allowed(a, [full, other], rows, w, cutoff)
    ensures a == Placed(full) && SomeFree([full, other], rows, [], cutoff)
  {
    hide Full;
    assert NonEmpty(w.overrideNodeIds) == [full.id];
    assert Free(other, [full, other], rows, [], cutoff);
  }
}
