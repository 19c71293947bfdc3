/**
 Which rows a drift pass looks at and what it stores in them, in the fields of the rows and of the daemon's port table
 (packages/control-plane/src/orchestrator.ts:71-128, 886-931).
 */
module DriftFields {
  import opened Prelude
  import opened UserMapping
  import opened PortDrift

  /** The daemon publishes the container port on the host port. */
  predicate Publishes(ports: seq<Entry>, containerPort: nat, p: nat) {
    exists i :: 0 <= i < |ports| && ports[i].key == Decimal(containerPort) + "/tcp"
                && ports[i].bindings != [] && ports[i].bindings[0] == Some(p) && p > 0
  }

  ghost predicate DistinctKeys(ports: seq<Entry>) {
    forall i, j :: 0 <= i < j < |ports| ==> ports[i].key != ports[j].key
  }

  lemma PublishedIs(ports: seq<Entry>, containerPort: nat, p: nat)
    requires DistinctKeys(ports) && Publishes(ports, containerPort, p)
    ensures PortKey(containerPort) in PortMap(ports) && PortMap(ports)[PortKey(containerPort)] == p
  {
    hide PortMap, Decimal;
    PortMapExact(ports, PortKey(containerPort), p);
    var i :| 0 <= i < |ports| && ports[i].key == Decimal(containerPort) + "/tcp"
             && ports[i].bindings != [] && ports[i].bindings[0] == Some(p) && p > 0;
    assert Published(ports[i]) == Some(p);
  }

  lemma UnpublishedIff(ports: seq<Entry>, containerPort: nat)
    requires DistinctKeys(ports)
    ensures PortKey(containerPort) in PortMap(ports) <==> exists p: nat :: Publishes(ports, containerPort, p)
  {
    hide PortMap, Decimal;
    var key := PortKey(containerPort);
    if key in PortMap(ports) {
      PortMapExact(ports, key, PortMap(ports)[key]);
      PortsPositive(ports, key);
      assert Publishes(ports, containerPort, PortMap(ports)[key]);
    }
    if p: nat :| Publishes(ports, containerPort, p) { PublishedIs(ports, containerPort, p); }
  }

  /**
   Pending, provisioning, ready, idle or paused, with a container: after a pass in which every such row has a runtime, the
   row points at the host port published for its template's port, at the node's proxy host.
   */
  lemma PassRepairs(rows: seq<Row>, fleet: Fleet, i: nat, containerPort: nat, host: string, ports: seq<Entry>, p: nat)
    requires i < |rows| && rows[i].runtimeId.Some? && rows[i].runtimeId.value != ""
    requires rows[i].status in {Pending, Provisioning, Ready, Idle, Paused}
    requires forall r :: r in rows && r.runtimeId.Some? && r.status in {Pending, Provisioning, Ready, Idle, Paused} ==>
               !fleet(r.runtimeId.value).NoRuntime?
    requires fleet(rows[i].runtimeId.value) == Running(host, ports) && host != "" && DistinctKeys(ports)
    requires rows[i].port == Some(containerPort) && containerPort != 0 && Publishes(ports, containerPort, p)
    ensures |Pass(rows, fleet)| == |rows|
    ensures Pass(rows, fleet)[i].hostPort == Some(p) && Pass(rows, fleet)[i].upstream == Some(host + ":" + Decimal(p))
  {
    hide Decimal, Pass, PortMap, Publishes;
    PublishedIs(ports, containerPort, p);
    PassConverges(rows, fleet, i);
  }

  /** The RDP port of such a row follows the daemon; one that is not published stays as it was. */
  lemma PassFollowsRdp(rows: seq<Row>, fleet: Fleet, i: nat, containerPort: nat, host: string, ports: seq<Entry>)
    requires i < |rows| && rows[i].runtimeId.Some? && rows[i].runtimeId.value != ""
    requires rows[i].status in {Pending, Provisioning, Ready, Idle, Paused}
    requires forall r :: r in rows && r.runtimeId.Some? && r.status in {Pending, Provisioning, Ready, Idle, Paused} ==>
               !fleet(r.runtimeId.value).NoRuntime?
    requires fleet(rows[i].runtimeId.value) == Running(host, ports) && DistinctKeys(ports)
    requires rows[i].rdpContainerPort == Some(containerPort) && containerPort != 0
    ensures |Pass(rows, fleet)| == |rows|
    ensures forall p: nat :: Publishes(ports, containerPort, p) ==> Pass(rows, fleet)[i].rdpHostPort == Some(p)
    ensures (forall p: nat :: !Publishes(ports, containerPort, p)) ==> Pass(rows, fleet)[i].rdpHostPort == rows[i].rdpHostPort
  {
    hide Decimal, Pass, PortMap, FirstPort, NextHostPort, NextUpstream;
    PassIs(rows, fleet, i);
    assert Completes(rows[..i + 1], fleet);
    UnpublishedIff(ports, containerPort);
    var key := PortKey(containerPort);
    forall p: nat | Publishes(ports, containerPort, p) ensures key in PortMap(ports) && PortMap(ports)[key] == p && p > 0 {
      PublishedIs(ports, containerPort, p);
      PortsPositive(ports, key);
    }
  }

  /** Rows of any other status, or without a container, are not changed. */
  lemma PassIgnoresOthers(rows: seq<Row>, fleet: Fleet, i: nat)
    requires i < |rows|
    requires rows[i].runtimeId.None? || rows[i].status !in {Pending, Provisioning, Ready, Idle, Paused}
    ensures |Pass(rows, fleet)| == |rows| && Pass(rows, fleet)[i] == rows[i]
  {
    hide Pass;
    PassIs(rows, fleet, i);
  }

  /** Nor is a row whose container is gone or cannot be inspected. */
  lemma PassKeepsUninspected(rows: seq<Row>, fleet: Fleet, i: nat)
    requires i < |rows| && rows[i].runtimeId.Some? && !fleet(rows[i].runtimeId.value).Running?
    ensures |Pass(rows, fleet)| == |rows| && Pass(rows, fleet)[i] == rows[i]
  {
    hide Pass;
    PassIs(rows, fleet, i);
  }

  /** A row with a container in one of the five statuses whose runtime cannot be built ends the pass: it and all later rows stay. */
  lemma {:induction false} PassEndsThere(rows: seq<Row>, fleet: Fleet, k: nat, i: nat)
    requires k <= i < |rows| && rows[k].runtimeId.Some? && fleet(rows[k].runtimeId.value).NoRuntime?
    requires rows[k].status in {Pending, Provisioning, Ready, Idle, Paused}
    ensures |Pass(rows, fleet)| == |rows| && Pass(rows, fleet)[i] == rows[i]
  {
    hide PassRow;
    if k > 0 { PassEndsThere(rows[1..], fleet, k - 1, i - 1); }
  }

  /** `checked` counts exactly the rows with a container in one of the five statuses. */
  lemma {:induction false} CheckedCounts(rows: seq<Row>)
    ensures ActiveCount(rows) == |set i: nat | i < |rows| && rows[i].runtimeId.Some?
                                     && rows[i].status in {Pending, Provisioning, Ready, Idle, Paused}|
  {
    var all := set i: nat | i < |rows| && rows[i].runtimeId.Some? && rows[i].status in {Pending, Provisioning, Ready, Idle, Paused};
    if rows == [] {
      assert all == {};
    } else {
      var n := |rows| - 1;
      CheckedCounts(rows[..n]);
      var front := set i: nat | i < |rows[..n]| && rows[..n][i].runtimeId.Some?
                              && rows[..n][i].status in {Pending, Provisioning, Ready, Idle, Paused};
      assert all == front + if n in all then {n} else {};
      assert n !in front;
    }
  }

  /** Without the template's own port the first published one is stored, and with none the host port stays. */
  lemma SyncFallsBack(r: Row, host: string, ports: seq<Entry>, k: nat, p: nat)
    requires r.runtimeId.Some? && r.runtimeId.value != "" && host != ""
    requires r.port.Some? && r.port.value != 0 && DistinctKeys(ports) && forall q: nat :: !Publishes(ports, r.port.value, q)
    requires k <= |ports| && forall i :: 0 <= i < k ==>
               ports[i].bindings == [] || ports[i].bindings[0].None? || ports[i].bindings[0].value <= 0
    requires k < |ports| ==> ports[k].bindings != [] && ports[k].bindings[0] == Some(p) && p > 0
    ensures var t := SyncRow(r, Running(host, ports));
            if k < |ports| then t.hostPort == Some(p) && t.upstream == Some(host + ":" + Decimal(p))
            else t.hostPort == r.hostPort
  {
    hide Decimal, LastIndexOf, PortMap;
    UnpublishedIff(ports, r.port.value);
    FirstPublished(ports, k, p);
    if k < |ports| { WithPortReplaces(host, p, p); }
  }

  lemma {:induction false} FirstPublished(ports: seq<Entry>, k: nat, p: nat)
    requires k <= |ports| && forall i :: 0 <= i < k ==> Published(ports[i]).None?
    requires k < |ports| ==> Published(ports[k]) == Some(p)
    ensures FirstPort(ports) == if k < |ports| then Some(p) else None
  {
    if ports != [] {
      var n := |ports| - 1;
      if k == |ports| {
        FirstPublished(ports[..n], n, p);
      } else {
        FirstPublished(ports[..n], k, p);
      }
    }
  }
}
