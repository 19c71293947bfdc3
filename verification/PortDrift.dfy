/**
 Repair of stored ports and upstreams (packages/control-plane/src/orchestrator.ts:48-152, 886-945 and
 packages/control-plane/src/runtime/docker.ts:375-411). Docker hands out new host ports when a container starts; a pass
 re-inspects every active instance and stores what the daemon reports.
 */
module PortDrift {
  import opened Prelude
  import opened UserMapping

  /** One entry of the daemon's port table: the value of `Number(HostPort)` per binding, None when it is not finite. */
  datatype Entry = Entry(key: string, bindings: seq<Option<int>>)

  datatype Info = Info(hostPort: Option<nat>, upstream: Option<string>, allHostPorts: map<string, nat>)

  /** `NoRuntime`: no client can be built for the node, which ends the whole pass. `Gone`: the daemon answers 404. */
  datatype Daemon = NoRuntime | Throws | Gone | Running(proxyHost: string, ports: seq<Entry>)

  datatype Row = Row(runtimeId: Option<string>, status: Status, hostPort: Option<nat>, upstream: Option<string>,
                     rdpHostPort: Option<nat>, guacamoleUser: bool, port: Option<nat>, rdpContainerPort: Option<nat>)

  function PortKey(port: nat): string {
    Decimal(port) + "/tcp"
  }

  // ---------- inspecting a container ----------

  function Published(e: Entry): Option<nat> {
    if e.bindings == [] || e.bindings[0].None? || e.bindings[0].value <= 0 then None else Some(e.bindings[0].value)
  }

  function PortMap(ports: seq<Entry>): map<string, nat> {
    if ports == [] then map[] else
      var m := PortMap(ports[..|ports| - 1]);
      var e := ports[|ports| - 1];
      if Published(e).Some? then m[e.key := Published(e).value] else m
  }

  function FirstPort(ports: seq<Entry>): Option<nat> {
    if ports == [] then None
    else if FirstPort(ports[..|ports| - 1]).Some? then FirstPort(ports[..|ports| - 1])
    else Published(ports[|ports| - 1])
  }

  function Upstream(host: string, port: nat): string {
    host + ":" + Decimal(port)
  }

  function InfoOf(proxyHost: string, ports: seq<Entry>): Info {
    var first := FirstPort(ports);
    Info(first, if first.Some? then Some(Upstream(proxyHost, first.value)) else None, PortMap(ports))
  }

  method InspectInstance(proxyHost: string, ports: seq<Entry>) returns (info: Info)
    ensures info == InfoOf(proxyHost, ports)
  {
    var hostPort: Option<nat> := None;
    var allHostPorts: map<string, nat> := map[];
    for i := 0 to |ports|
      invariant hostPort == FirstPort(ports[..i]) && allHostPorts == PortMap(ports[..i])
    {
      assert ports[..i + 1][..i] == ports[..i];
      var e := ports[i];
      if |e.bindings| == 0 { continue; }
      var p := e.bindings[0];
      if p.None? || p.value <= 0 { continue; }
      allHostPorts := allHostPorts[e.key := p.value];
      if hostPort.None? { hostPort := Some(p.value); }
    }
    assert ports[..|ports|] == ports;
    info := if hostPort.Some? then Info(hostPort, Some(Upstream(proxyHost, hostPort.value)), allHostPorts)
            else Info(None, None, allHostPorts);
  }

  /** The map holds exactly the first bindings that carry a positive port. */
  lemma {:induction false} PortMapExact(ports: seq<Entry>, key: string, p: nat)
    requires forall i, j :: 0 <= i < j < |ports| ==> ports[i].key != ports[j].key
    ensures (key in PortMap(ports) && PortMap(ports)[key] == p)
            <==> exists i :: 0 <= i < |ports| && ports[i].key == key && Published(ports[i]) == Some(p)
  {
    if ports != [] {
      var n := |ports| - 1;
      PortMapExact(ports[..n], key, p);
      if ports[n].key == key { KeyAbsent(ports[..n], key); }
    }
  }

  lemma {:induction false} KeyAbsent(ports: seq<Entry>, key: string)
    requires forall i :: 0 <= i < |ports| ==> ports[i].key != key
    ensures key !in PortMap(ports)
  {
    if ports != [] { KeyAbsent(ports[..|ports| - 1], key); }
  }

  /** Something is published exactly when the map is not empty. */
  lemma {:induction false} FirstPortExists(ports: seq<Entry>)
    ensures FirstPort(ports).Some? <==> PortMap(ports) != map[]
  {
    if ports != [] {
      FirstPortExists(ports[..|ports| - 1]);
      var e := ports[|ports| - 1];
      if Published(e).Some? { assert e.key in PortMap(ports); }
    }
  }

  // ---------- the upstream string ----------

  function LastIndexOf(s: string, c: char): (i: int)
    ensures -1 <= i < |s|
  {
    if s == "" then -1
    else if s[|s| - 1] == c then |s| - 1
    else LastIndexOf(s[..|s| - 1], c)
  }

  function WithPort(u: Option<string>, port: nat): Option<string> {
    if !Present(u) then None else
      var i := LastIndexOf(u.value, ':');
      if i <= 0 then None else Some(Upstream(u.value[..i], port))
  }

  lemma {:induction false} DecimalDigits(n: nat)
    ensures Decimal(n) != "" && forall k :: 0 <= k < |Decimal(n)| ==> Decimal(n)[k] != ':'
  {
    if n >= 10 { DecimalDigits(n / 10); }
  }

  lemma {:induction false} LastIndexSuffix(a: string, c: char, b: string)
    requires forall k :: 0 <= k < |b| ==> b[k] != c
    ensures LastIndexOf(a + [c] + b, c) == |a|
    decreases |b|
  {
    if b == "" {
      assert a + [c] + b == a + [c];
    } else {
      var n := |b| - 1;
      assert (a + [c] + b)[..|a| + 1 + n] == a + [c] + b[..n];
      LastIndexSuffix(a, c, b[..n]);
    }
  }

  /** Whatever the host looks like, colons included, the last colon is the one in front of the port. */
  lemma UpstreamColon(host: string, port: nat)
    ensures LastIndexOf(Upstream(host, port), ':') == |host|
  {
    DecimalDigits(port);
    LastIndexSuffix(host, ':', Decimal(port));
    assert Upstream(host, port) == host + [':'] + Decimal(port);
  }

  lemma WithPortReplaces(host: string, p: nat, q: nat)
    ensures WithPort(Some(Upstream(host, p)), q) == if host == "" then None else Some(Upstream(host, q))
  {
    hide Decimal, LastIndexOf;
    UpstreamColon(host, p);
    assert Upstream(host, p)[..|host|] == host;
  }

  // ---------- one row ----------

  /** `??` */
  function OrElse<T>(a: Option<T>, b: Option<T>): Option<T> {
    if a.Some? then a else b
  }

  function PrimaryPort(r: Row, info: Info): Option<nat> {
    if r.port.Some? && r.port.value != 0 && PortKey(r.port.value) in info.allHostPorts
    then Some(info.allHostPorts[PortKey(r.port.value)]) else None
  }

  function NextHostPort(r: Row, info: Info): Option<nat> {
    OrElse(PrimaryPort(r, info), OrElse(info.hostPort, r.hostPort))
  }

  function NextUpstream(r: Row, info: Info): Option<string> {
    var p := NextHostPort(r, info);
    if p.None? then r.upstream
    else OrElse(WithPort(OrElse(info.upstream, r.upstream), p.value), OrElse(info.upstream, r.upstream))
  }

  function NextRdp(r: Row, info: Info): Option<nat> {
    if r.rdpContainerPort.Some? && r.rdpContainerPort.value != 0 && PortKey(r.rdpContainerPort.value) in info.allHostPorts
       && info.allHostPorts[PortKey(r.rdpContainerPort.value)] != 0
    then Some(info.allHostPorts[PortKey(r.rdpContainerPort.value)]) else r.rdpHostPort
  }

  function Synced(r: Row, info: Info): Row {
    var http := NextHostPort(r, info).Some? && NextUpstream(r, info).Some?;
    r.(hostPort := if http then NextHostPort(r, info) else r.hostPort,
       upstream := if http then NextUpstream(r, info) else r.upstream,
       rdpHostPort := NextRdp(r, info))
  }

  /** The row after a sync; one that failed or found nothing leaves it alone. */
  function SyncRow(r: Row, d: Daemon): Row {
    if Present(r.runtimeId) && d.Running? then Synced(r, InfoOf(d.proxyHost, d.ports)) else r
  }

  /**
   After a sync the stored port is the one published for the template's own container port. The stored upstream then
   points at it too, except when the node has an empty proxy host and another port is listed first.
   */
  lemma SyncedPointsAtTemplatePort(r: Row, d: Daemon)
    requires Present(r.runtimeId) && d.Running? && r.port.Some? && r.port.value != 0
    requires PortKey(r.port.value) in PortMap(d.ports)
    ensures var p := PortMap(d.ports)[PortKey(r.port.value)];
            && SyncRow(r, d).hostPort == Some(p)
            && (SyncRow(r, d).upstream == Some(Upstream(d.proxyHost, p))
                <==> d.proxyHost != "" || FirstPort(d.ports) == Some(p))
  {
    hide Decimal, LastIndexOf, PortMap, FirstPort, Upstream;
    var p := PortMap(d.ports)[PortKey(r.port.value)];
    FirstPortExists(d.ports);
    var first := FirstPort(d.ports).value;
    WithPortReplaces(d.proxyHost, first, p);
    UpstreamInjective(d.proxyHost, first, p);
  }

  lemma {:induction false} DecimalInjective(m: nat, n: nat)
    requires Decimal(m) == Decimal(n)
    ensures m == n
  {
    DecimalDigits(m / 10);
    DecimalDigits(n / 10);
    if m >= 10 && n >= 10 {
      SnocInjective(Decimal(m / 10), Digit(m % 10), Decimal(n / 10), Digit(n % 10));
      DecimalInjective(m / 10, n / 10);
    }
  }

  lemma SnocInjective(a: string, x: char, b: string, y: char)
    requires a + [x] == b + [y]
    ensures a == b && x == y
  {
    assert a == (a + [x])[..|a + [x]| - 1];
    assert b == (b + [y])[..|b + [y]| - 1];
    assert x == (a + [x])[|a|] && y == (b + [y])[|b|];
  }

  lemma UpstreamInjective(host: string, p: nat, q: nat)
    ensures Upstream(host, p) == Upstream(host, q) <==> p == q
  {
    hide Decimal;
    assert Upstream(host, p)[|host| + 1..] == Decimal(p);
    assert Upstream(host, q)[|host| + 1..] == Decimal(q);
    if Decimal(p) == Decimal(q) { DecimalInjective(p, q); }
  }

  /** The RDP port follows the daemon as well. */
  lemma SyncedFollowsRdp(r: Row, d: Daemon)
    requires Present(r.runtimeId) && d.Running? && r.rdpContainerPort.Some? && r.rdpContainerPort.value != 0
    requires PortKey(r.rdpContainerPort.value) in PortMap(d.ports)
    ensures SyncRow(r, d).rdpHostPort == Some(PortMap(d.ports)[PortKey(r.rdpContainerPort.value)])
  {
    hide Decimal, LastIndexOf;
    PortsPositive(d.ports, PortKey(r.rdpContainerPort.value));
  }

  lemma {:induction false} PortsPositive(ports: seq<Entry>, key: string)
    requires key in PortMap(ports)
    ensures PortMap(ports)[key] > 0
  {
    var n := |ports| - 1;
    if !(ports[n].key == key && Published(ports[n]).Some?) { PortsPositive(ports[..n], key); }
  }

  /** Syncing a second time against the same daemon changes nothing, whatever the daemon reports. */
  lemma SyncFixpoint(r: Row, d: Daemon)
    ensures SyncRow(SyncRow(r, d), d) == SyncRow(r, d)
  {
    hide Decimal, LastIndexOf, PortMap, FirstPort, Upstream, PortKey, WithPort;
    if Present(r.runtimeId) && d.Running? {
      var info := InfoOf(d.proxyHost, d.ports);
      if info.upstream.None? && r.hostPort.Some? { WithPortTwice(r.upstream, r.hostPort.value); }
      FirstPortExists(d.ports);
    }
  }

  lemma WithPortTwice(u: Option<string>, p: nat)
    ensures WithPort(u, p).Some? ==> WithPort(WithPort(u, p), p) == WithPort(u, p)
  {
    hide Decimal, LastIndexOf, Upstream;
    if WithPort(u, p).Some? {
      var host := u.value[..LastIndexOf(u.value, ':')];
      WithPortReplaces(host, p, p);
    }
  }

  // ---------- a whole pass ----------

  predicate Active(r: Row) {
    r.runtimeId.Some? && r.status in {Pending, Provisioning, Ready, Idle, Paused}
  }

  /** What each container's daemon answers, by runtime id, for the duration of a pass. */
  type Fleet = string -> Daemon

  /** Building the client for a row is not guarded: when it throws the pass is over. */
  predicate Stops(r: Row, fleet: Fleet) {
    Active(r) && fleet(r.runtimeId.value).NoRuntime?
  }

  function PassRow(r: Row, fleet: Fleet): Row {
    if Active(r) then SyncRow(r, fleet(r.runtimeId.value)) else r
  }

  function Pass(rows: seq<Row>, fleet: Fleet): seq<Row> {
    if rows == [] || Stops(rows[0], fleet) then rows else [PassRow(rows[0], fleet)] + Pass(rows[1..], fleet)
  }

  function Completes(rows: seq<Row>, fleet: Fleet): bool {
    forall r :: r in rows ==> !Stops(r, fleet)
  }

  /** Rows that differ between two versions of the table. */
  function Changed(a: seq<Row>, b: seq<Row>): nat
    requires |a| == |b|
  {
    if a == [] then 0 else
      var n := |a| - 1;
      Changed(a[..n], b[..n]) + if a[n] != b[n] then 1 else 0
  }

  lemma {:induction false} PassIs(rows: seq<Row>, fleet: Fleet, i: nat)
    requires i < |rows|
    ensures |Pass(rows, fleet)| == |rows|
    ensures Completes(rows[..i + 1], fleet) ==> Pass(rows, fleet)[i] == PassRow(rows[i], fleet)
    ensures Pass(rows, fleet)[i] == PassRow(rows[i], fleet) || Pass(rows, fleet)[i] == rows[i]
  {
    hide PassRow, Stops;
    if Stops(rows[0], fleet) {
      assert rows[0] in rows[..i + 1];
    } else if i > 0 {
      PassIs(rows[1..], fleet, i - 1);
      if Completes(rows[..i + 1], fleet) {
        forall r | r in rows[1..][..i] ensures !Stops(r, fleet) { assert r in rows[..i + 1]; }
      }
    } else {
      if |rows| > 1 { PassIs(rows[1..], fleet, 0); }
    }
  }

  /** Where a pass stops at row `k`, the rows before it are synced and the others are as they were. */
  lemma {:induction false} PassStopsAt(rows: seq<Row>, fleet: Fleet, k: nat, j: nat)
    requires k <= |rows| && j < |rows| && Completes(rows[..k], fleet) && (k < |rows| ==> Stops(rows[k], fleet))
    ensures |Pass(rows, fleet)| == |rows|
    ensures Pass(rows, fleet)[j] == if j < k then PassRow(rows[j], fleet) else rows[j]
  {
    hide PassRow, Stops;
    if k > 0 {
      assert rows[0] in rows[..k];
      forall r | r in rows[1..][..k - 1] ensures !Stops(r, fleet) { assert r in rows[..k]; }
      if j > 0 {
        PassStopsAt(rows[1..], fleet, k - 1, j - 1);
      } else if |rows| > 1 {
        PassStopsAt(rows[1..], fleet, k - 1, 0);
      }
    }
  }

  /** Nothing a pass writes changes which rows it looks at or where it stops. */
  lemma PassRowKeeps(r: Row, fleet: Fleet)
    ensures Active(PassRow(r, fleet)) == Active(r) && Stops(PassRow(r, fleet), fleet) == Stops(r, fleet)
    ensures PassRow(PassRow(r, fleet), fleet) == PassRow(r, fleet)
  {
    hide InfoOf, Synced;
    if Active(r) {
      SyncKeepsIdentity(r, fleet(r.runtimeId.value));
      SyncFixpoint(r, fleet(r.runtimeId.value));
    }
  }

  lemma SyncKeepsIdentity(r: Row, d: Daemon)
    ensures SyncRow(r, d).runtimeId == r.runtimeId && SyncRow(r, d).status == r.status
    ensures SyncRow(r, d).port == r.port && SyncRow(r, d).rdpContainerPort == r.rdpContainerPort
    ensures SyncRow(r, d).guacamoleUser == r.guacamoleUser
  {
    hide InfoOf, NextHostPort, NextUpstream, NextRdp;
  }

  /** A second pass against unchanged daemons writes nothing, also when the first one stopped half-way. */
  lemma {:induction false} SecondPassWritesNothing(rows: seq<Row>, fleet: Fleet)
    ensures Pass(Pass(rows, fleet), fleet) == Pass(rows, fleet)
  {
    hide PassRow, Stops;
    if rows != [] && !Stops(rows[0], fleet) {
      PassRowKeeps(rows[0], fleet);
      SecondPassWritesNothing(rows[1..], fleet);
      assert Pass(rows, fleet)[1..] == Pass(rows[1..], fleet);
    }
  }

  /** After a pass that completes, every active row with a published template port points at exactly that port. */
  lemma PassConverges(rows: seq<Row>, fleet: Fleet, i: nat)
    requires i < |rows| && Completes(rows, fleet) && Active(rows[i])
    requires rows[i].runtimeId.value != "" && rows[i].port.Some? && rows[i].port.value != 0
    requires var d := fleet(rows[i].runtimeId.value);
             d.Running? && d.proxyHost != "" && PortKey(rows[i].port.value) in PortMap(d.ports)
    ensures |Pass(rows, fleet)| == |rows|
    ensures var d := fleet(rows[i].runtimeId.value);
            var p := PortMap(d.ports)[PortKey(rows[i].port.value)];
            Pass(rows, fleet)[i].hostPort == Some(p) && Pass(rows, fleet)[i].upstream == Some(Upstream(d.proxyHost, p))
  {
    hide Decimal, Pass, PortMap, FirstPort, Upstream, SyncRow;
    PassIs(rows, fleet, i);
    SyncedPointsAtTemplatePort(rows[i], fleet(rows[i].runtimeId.value));
    assert Completes(rows[..i + 1], fleet);
  }

  // ---------- the Guacamole mapping after a pass ----------

  /** The RDP port of some row with Guacamole credentials differs between two versions of the table. */
  predicate GuacDrift(a: seq<Row>, b: seq<Row>)
    requires |a| == |b|
  {
    exists k :: 0 <= k < |b| && b[k].guacamoleUser && b[k].rdpHostPort != a[k].rdpHostPort
  }

  function RdpPorts(rows: seq<Row>): seq<Option<nat>> {
    seq(|rows|, i requires 0 <= i < |rows| => rows[i].rdpHostPort)
  }

  /** The RDP ports the mapping was last rendered with are the stored ones, where anyone uses them. */
  predicate Agrees(rows: seq<Row>, mapped: seq<Option<nat>>) {
    |mapped| == |rows| && forall k :: 0 <= k < |rows| && rows[k].guacamoleUser ==> mapped[k] == rows[k].rdpHostPort
  }

  lemma PassShape(rows: seq<Row>, fleet: Fleet)
    ensures |Pass(rows, fleet)| == |rows|
    ensures forall k :: 0 <= k < |rows| ==> Pass(rows, fleet)[k].guacamoleUser == rows[k].guacamoleUser
  {
    hide Pass, SyncRow;
    if rows == [] {
      PassSoFar(rows, rows, fleet, 0);
    } else {
      PassIs(rows, fleet, 0);
    }
    forall k: nat | k < |rows|
      ensures |Pass(rows, fleet)| == |rows| && Pass(rows, fleet)[k].guacamoleUser == rows[k].guacamoleUser
    {
      PassIs(rows, fleet, k);
      if Active(rows[k]) { SyncKeepsIdentity(rows[k], fleet(rows[k].runtimeId.value)); }
    }
  }

  /** The mapping is rendered again only by a pass that drifted, was not ended by an exception, and regenerated. */
  function MappedAfter(rows: seq<Row>, mapped: seq<Option<nat>>, fleet: Fleet, regenerates: bool): seq<Option<nat>> {
    PassShape(rows, fleet);
    if Completes(rows, fleet) && regenerates && GuacDrift(rows, Pass(rows, fleet)) then RdpPorts(Pass(rows, fleet)) else mapped
  }

  /** A pass keeps mapping and table in agreement exactly if it drifted no used RDP port or rendered the mapping again. */
  lemma PassAgreesIff(rows: seq<Row>, mapped: seq<Option<nat>>, fleet: Fleet, regenerates: bool)
    requires Agrees(rows, mapped)
    ensures |Pass(rows, fleet)| == |rows|
    ensures Agrees(Pass(rows, fleet), MappedAfter(rows, mapped, fleet, regenerates))
            <==> !GuacDrift(rows, Pass(rows, fleet)) || (Completes(rows, fleet) && regenerates)
  {
    hide Pass, Completes;
    PassShape(rows, fleet);
  }

  /** Passes one after the other against the same daemons; `regenerates` says of each whether its regeneration works. */
  function Passes(rows: seq<Row>, mapped: seq<Option<nat>>, fleet: Fleet, regenerates: seq<bool>): (seq<Row>, seq<Option<nat>>)
    decreases |regenerates|
  {
    if regenerates == [] then (rows, mapped)
    else Passes(Pass(rows, fleet), MappedAfter(rows, mapped, fleet, regenerates[0]), fleet, regenerates[1..])
  }

  lemma {:induction false} SettledPasses(rows: seq<Row>, mapped: seq<Option<nat>>, fleet: Fleet, regenerates: seq<bool>)
    requires Pass(rows, fleet) == rows
    ensures Passes(rows, mapped, fleet, regenerates) == (rows, mapped)
    decreases |regenerates|
  {
    hide Pass, Completes;
    if regenerates != [] { SettledPasses(rows, mapped, fleet, regenerates[1..]); }
  }

  /**
   A second pass repairs nothing: after any number of passes the mapping agrees with the stored ports if and only if the
   first one drifted no used port or rendered the mapping again. A regeneration that failed then is not made up for.
   */
  lemma StaleMappingStays(rows: seq<Row>, mapped: seq<Option<nat>>, fleet: Fleet, regenerates: seq<bool>)
    requires Agrees(rows, mapped) && regenerates != []
    ensures |Pass(rows, fleet)| == |rows|
    ensures var (rows', mapped') := Passes(rows, mapped, fleet, regenerates);
            Agrees(rows', mapped') <==> !GuacDrift(rows, Pass(rows, fleet)) || (Completes(rows, fleet) && regenerates[0])
  {
    hide Pass, Completes, Agrees, MappedAfter, GuacDrift;
    SecondPassWritesNothing(rows, fleet);
    SettledPasses(Pass(rows, fleet), MappedAfter(rows, mapped, fleet, regenerates[0]), fleet, regenerates[1..]);
    PassAgreesIff(rows, mapped, fleet, regenerates[0]);
  }

  // ---------- the reconciler ----------

  datatype Report = Report(checked: nat, drifted: nat, guacamoleResynced: bool)

  datatype SyncResult = SyncResult(hostPort: Option<nat>, upstream: Option<string>, rdpHostPort: Option<nat>, rdpDrifted: bool)

  function ActiveCount(rows: seq<Row>): nat {
    if rows == [] then 0 else
      var n := |rows| - 1;
      ActiveCount(rows[..n]) + if Active(rows[n]) then 1 else 0
  }

  class Reconciler {
    var rows: seq<Row>
    var mapped: seq<Option<nat>>

    constructor (rows: seq<Row>)
      ensures this.rows == rows && Agrees(rows, mapped)
    {
      this.rows, mapped := rows, RdpPorts(rows);
    }

    method SyncInstanceUpstream(k: nat, d: Daemon) returns (res: SyncResult)
      requires k < |rows| && !d.NoRuntime?
      modifies this`rows
      ensures rows == old(rows)[k := SyncRow(old(rows)[k], d)]
      ensures res == SyncResult(rows[k].hostPort, rows[k].upstream, rows[k].rdpHostPort,
                                rows[k].rdpHostPort != old(rows)[k].rdpHostPort)
    {
      hide Decimal, LastIndexOf, PortMap, FirstPort;
      var inst := rows[k];
      res := SyncResult(inst.hostPort, inst.upstream, inst.rdpHostPort, false);
      if !Present(inst.runtimeId) { return; }
      if !d.Running? { return; }
      var info := InspectInstance(d.proxyHost, d.ports);
      var primaryFromMap := PrimaryPort(inst, info);
      var nextHostPort := OrElse(primaryFromMap, OrElse(info.hostPort, inst.hostPort));
      var nextUpstream := inst.upstream;
      if nextHostPort.Some? {
        var u := OrElse(info.upstream, inst.upstream);
        nextUpstream := OrElse(WithPort(u, nextHostPort.value), u);
      }
      var nextRdp := inst.rdpHostPort;
      var rdpDrifted := false;
      if inst.rdpContainerPort.Some? && inst.rdpContainerPort.value != 0 {
        var key := PortKey(inst.rdpContainerPort.value);
        if key in info.allHostPorts && info.allHostPorts[key] != 0 && Some(info.allHostPorts[key]) != inst.rdpHostPort {
          nextRdp := Some(info.allHostPorts[key]);
          rdpDrifted := true;
        }
      }
      var httpDrifted := nextHostPort.Some? && nextUpstream.Some?
                         && (nextHostPort != inst.hostPort || nextUpstream != inst.upstream);
      if !httpDrifted && !rdpDrifted { return; }
      var data := inst;
      if httpDrifted { data := data.(hostPort := nextHostPort, upstream := nextUpstream); }
      if rdpDrifted { data := data.(rdpHostPort := nextRdp); }
      rows := rows[k := data];
      res := SyncResult(if httpDrifted then nextHostPort else inst.hostPort,
                        if httpDrifted then nextUpstream else inst.upstream, nextRdp, rdpDrifted);
    }

    /** `drifted` counts exactly the rows changed; None when the pass was ended by an exception. */
    method ReconcileActiveInstanceNetworkingDrift(fleet: Fleet, regenerates: bool) returns (report: Option<Report>)
      modifies this
      ensures rows == Pass(old(rows), fleet) && |rows| == |old(rows)|
      ensures report.Some? <==> Completes(old(rows), fleet)
      ensures report.Some? ==> report.value.drifted == Changed(old(rows), rows)
      ensures report.Some? ==> report.value.checked == ActiveCount(old(rows))
      ensures report.Some? ==> (report.value.guacamoleResynced <==> regenerates && GuacDrift(old(rows), rows))
      ensures mapped == MappedAfter(old(rows), old(mapped), fleet, regenerates)
    {
      hide Pass, Completes, Changed, ActiveCount, GuacDrift;
      var completed, checked, drifted, needsGuacResync := ReconcileRows(fleet);
      if !completed { return None; }
      var guacamoleResynced := false;
      if needsGuacResync && regenerates {
        mapped := RdpPorts(rows);
        guacamoleResynced := true;
      }
      report := Some(Report(checked, drifted, guacamoleResynced));
    }

    method ReconcileRows(fleet: Fleet) returns (completed: bool, checked: nat, drifted: nat, needsGuacResync: bool)
      modifies this`rows
      ensures rows == Pass(old(rows), fleet) && |rows| == |old(rows)|
      ensures completed <==> Completes(old(rows), fleet)
      ensures completed ==> drifted == Changed(old(rows), rows) && checked == ActiveCount(old(rows))
      ensures completed ==> (needsGuacResync <==> GuacDrift(old(rows), rows))
    {
      hide PassRow, Stops, Active, Pass, Changed, ActiveCount, Completes;
      checked, drifted, needsGuacResync := 0, 0, false;
      ghost var before := rows;
      var k := 0;
      NothingCounted(before, rows, fleet);
      while k < |rows|
        invariant k <= |rows| == |before| && forall j :: k <= j < |rows| ==> rows[j] == before[j]
        invariant forall j :: 0 <= j < k ==> rows[j] == PassRow(before[j], fleet)
        invariant Completes(before[..k], fleet)
        invariant drifted == Changed(before[..k], rows[..k]) && checked == ActiveCount(before[..k])
        invariant needsGuacResync <==>
                  exists j :: 0 <= j < k && rows[j].guacamoleUser && rows[j].rdpHostPort != before[j].rdpHostPort
      {
        if Stops(rows[k], fleet) {
          PassSoFar(before, rows, fleet, k);
          EndsEarly(before, fleet, k);
          return false, checked, drifted, needsGuacResync;
        }
        ghost var was := rows;
        PassRowIdle(rows[k], fleet);
        if Active(rows[k]) {
          var changed, rdpDrifted := ReconcileRow(k, fleet);
          if changed { drifted := drifted + 1; }
          if rdpDrifted && rows[k].guacamoleUser { needsGuacResync := true; }
          checked := checked + 1;
        }
        assert rows[..k] == was[..k];
        CountStep(before, rows, fleet, k);
        k := k + 1;
      }
      assert rows[..k] == rows && before[..k] == before;
      PassSoFar(before, rows, fleet, k);
      completed := true;
    }

    method ReconcileRow(k: nat, fleet: Fleet) returns (changed: bool, rdpDrifted: bool)
      requires k < |rows| && Active(rows[k]) && !Stops(rows[k], fleet)
      modifies this`rows
      ensures rows == old(rows)[k := PassRow(old(rows)[k], fleet)]
      ensures changed <==> rows[k] != old(rows)[k]
      ensures rdpDrifted <==> rows[k].rdpHostPort != old(rows)[k].rdpHostPort
      ensures rows[k].guacamoleUser == old(rows)[k].guacamoleUser
    {
      hide NextHostPort, NextUpstream, NextRdp, InfoOf;
      var inst := rows[k];
      var synced := SyncInstanceUpstream(k, fleet(inst.runtimeId.value));
      var changedHost := synced.hostPort != inst.hostPort || synced.upstream != inst.upstream;
      changed, rdpDrifted := changedHost || synced.rdpDrifted, synced.rdpDrifted;
      assert rows[k] == inst.(hostPort := rows[k].hostPort, upstream := rows[k].upstream, rdpHostPort := rows[k].rdpHostPort);
    }
  }

  lemma {:induction false} PassSoFar(before: seq<Row>, now: seq<Row>, fleet: Fleet, k: nat)
    requires k <= |before| == |now| && Completes(before[..k], fleet) && (k < |before| ==> Stops(before[k], fleet))
    requires forall j :: 0 <= j < k ==> now[j] == PassRow(before[j], fleet)
    requires forall j :: k <= j < |now| ==> now[j] == before[j]
    ensures now == Pass(before, fleet)
  {
    hide PassRow, Stops, Completes;
    if before != [] {
      PassStopsAt(before, fleet, k, 0);
      forall j: nat | j < |now| ensures now[j] == Pass(before, fleet)[j] {
        PassStopsAt(before, fleet, k, j);
      }
    }
  }

  lemma NothingCounted(before: seq<Row>, now: seq<Row>, fleet: Fleet)
    ensures Changed(before[..0], now[..0]) == 0 && ActiveCount(before[..0]) == 0 && Completes(before[..0], fleet)
  {
  }

  lemma PassRowIdle(r: Row, fleet: Fleet)
    ensures !Active(r) ==> PassRow(r, fleet) == r
  {
  }

  lemma EndsEarly(before: seq<Row>, fleet: Fleet, k: nat)
    requires k < |before| && Stops(before[k], fleet)
    ensures !Completes(before, fleet)
  {
    hide Stops;
    assert before[k] in before;
  }

  /** The counts one row further on. */
  lemma CountStep(before: seq<Row>, now: seq<Row>, fleet: Fleet, k: nat)
    requires k < |before| == |now|
    ensures Changed(before[..k + 1], now[..k + 1]) == Changed(before[..k], now[..k]) + if before[k] != now[k] then 1 else 0
    ensures ActiveCount(before[..k + 1]) == ActiveCount(before[..k]) + if Active(before[k]) then 1 else 0
    ensures Completes(before[..k], fleet) && !Stops(before[k], fleet) ==> Completes(before[..k + 1], fleet)
  {
    hide Active, Stops;
    assert before[..k + 1] == before[..k] + [before[k]] && before[..k + 1][..k] == before[..k];
    assert now[..k + 1][..k] == now[..k];
  }
}
