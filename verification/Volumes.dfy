/**
 Where a student's volume lives (packages/control-plane/src/orchestrator.ts:380-461, 528-549, 643-665 and
 packages/control-plane/src/runtime/docker.ts:97-103, 303-323, 493-511). Volumes are local to a daemon; before a
 provision every enabled node is probed for the volume, and a holder beats whatever the scheduler would say.
 */
module Volumes {
  import opened Prelude

  /** A node and the docker daemon its connection settings lead to. Nodes in local mode lead to LOCAL. */
  datatype Node = Node(id: string, enabled: bool, daemon: nat)

  /** The daemon behind the local socket, which also serves rows without a node. */
  const LOCAL: nat := 0

  datatype Row = Row(templateId: string, userIdHash: string, volumeName: string, nodeId: Option<string>)

  /** `nodes` in the order of the probe query, `rows` in order of creation, `volumes` as pairs of daemon and name. */
  datatype World = World(nodes: seq<Node>, rows: seq<Row>, volumes: set<(nat, string)>)

  /** What resolveNodeForProvision answers when no holder was found: it throws, or names a node, or none. */
  datatype Fallback = Throws | Answer(node: Option<Node>)

  /** `reachable`: nodes whose daemon answers the probe. `reaches`: the run gets as far as ensuring its volumes. */
  datatype Request = Request(templateId: string, userIdHash: string, volumeName: string, persistPaths: nat,
                             reachable: set<string>, fallback: Fallback, reaches: bool)

  predicate Holds(w: World, n: Node, volume: string, reachable: set<string>) {
    n.enabled && n.id in reachable && (n.daemon, volume) in w.volumes
  }

  function Holders(w: World, nodes: seq<Node>, volume: string, reachable: set<string>): (h: seq<Node>)
    ensures forall n :: n in h <==> n in nodes && n.enabled && n.id in reachable && (n.daemon, volume) in w.volumes
  {
    if nodes == [] then [] else
      Holders(w, nodes[..|nodes| - 1], volume, reachable)
      + if Holds(w, nodes[|nodes| - 1], volume, reachable) then [nodes[|nodes| - 1]] else []
  }

  predicate SameVolume(r: Row, q: Request) {
    r.templateId == q.templateId && r.userIdHash == q.userIdHash && r.volumeName == q.volumeName
  }

  /** The node of the most recent row of the same template, user and volume that has one. */
  function PriorNode(rows: seq<Row>, q: Request): (p: Option<string>)
    ensures p.Some? ==> exists i :: 0 <= i < |rows| && SameVolume(rows[i], q) && rows[i].nodeId == p
                                    && forall k :: i < k < |rows| && SameVolume(rows[k], q) ==> rows[k].nodeId.None?
    ensures p.None? ==> forall i :: 0 <= i < |rows| && SameVolume(rows[i], q) ==> rows[i].nodeId.None?
    decreases |rows|
  {
    if rows == [] then None else
      var last := rows[|rows| - 1];
      if SameVolume(last, q) && last.nodeId.Some? then last.nodeId else PriorNode(rows[..|rows| - 1], q)
  }

  /** The first holder with that id, else the first holder. */
  function Preferred(holders: seq<Node>, prior: Option<string>): (n: Node)
    requires holders != []
    ensures n in holders
    ensures (exists h :: h in holders && prior == Some(h.id)) ==> prior == Some(n.id)
    ensures (forall h :: h in holders ==> prior != Some(h.id)) ==> n == holders[0]
  {
    if prior == Some(holders[0].id) then holders[0]
    else if exists h :: h in holders[1..] && prior == Some(h.id) then Preferred(holders[1..], prior)
    else holders[0]
  }

  /** The node the new row is pinned to; a throw leaves no row behind. */
  function Choice(w: World, q: Request): Fallback {
    var holders := Holders(w, w.nodes, q.volumeName, q.reachable);
    if |holders| == 1 then Answer(Some(holders[0]))
    else if |holders| > 1 then Answer(Some(Preferred(holders, PriorNode(w.rows, q))))
    else q.fallback
  }

  function DaemonOf(n: Option<Node>): nat {
    if n.Some? then n.value.daemon else LOCAL
  }

  /** Whether, and on which daemon, the provision ensures the volume. */
  function Lands(w: World, q: Request): Option<nat> {
    if Choice(w, q).Throws? || !q.reaches || q.persistPaths == 0 then None else Some(DaemonOf(Choice(w, q).node))
  }

  function Provision(w: World, q: Request): World {
    if Choice(w, q).Throws? then w else
      var n := Choice(w, q).node;
      var row := Row(q.templateId, q.userIdHash, q.volumeName, if n.Some? then Some(n.value.id) else None);
      w.(rows := w.rows + [row],
         volumes := if Lands(w, q).Some? then w.volumes + {(Lands(w, q).value, q.volumeName)} else w.volumes)
  }

  // ---------- the placement as the orchestrator runs it ----------

  class Placement {
    var nodes: seq<Node>
    var rows: seq<Row>
    var volumes: set<(nat, string)>

    constructor (nodes: seq<Node>)
      ensures Value() == World(nodes, [], {})
    {
      this.nodes, rows, volumes := nodes, [], {};
    }

    function Value(): World
      reads this
    {
      World(nodes, rows, volumes)
    }

    /** Probe the enabled nodes; an unreachable one counts as not holding the volume. */
    method Probe(volume: string, reachable: set<string>) returns (holders: seq<Node>)
      ensures holders == Holders(Value(), nodes, volume, reachable)
    {
      holders := [];
      for i := 0 to |nodes|
        invariant holders == Holders(Value(), nodes[..i], volume, reachable)
      {
        assert nodes[..i + 1][..i] == nodes[..i];
        var c := nodes[i];
        if !c.enabled { continue; }
        var has := c.id in reachable && (c.daemon, volume) in volumes;
        if has { holders := holders + [c]; }
      }
      assert nodes[..|nodes|] == nodes;
    }

    /** `holders.find(...) ?? holders[0]` */
    method Prefer(holders: seq<Node>, prior: Option<string>) returns (n: Node)
      requires holders != []
      ensures n == Preferred(holders, prior)
    {
      for i := 0 to |holders|
        invariant forall k :: 0 <= k < i ==> prior != Some(holders[k].id)
      {
        if prior == Some(holders[i].id) {
          PreferredFirst(holders, prior, i);
          return holders[i];
        }
      }
      return holders[0];
    }

    method EnsureVolume(daemon: nat, name: string)
      modifies this`volumes
      ensures volumes == old(volumes) + {(daemon, name)}
    {
      if (daemon, name) in volumes { return; }
      volumes := volumes + {(daemon, name)};
    }

    method ProvisionNew(q: Request) returns (threw: bool)
      modifies this
      ensures Value() == Provision(old(Value()), q)
      ensures threw <==> Choice(old(Value()), q).Throws?
    {
      hide Holders, PriorNode, Preferred, Holds;
      var holders := Probe(q.volumeName, q.reachable);
      var node: Option<Node> := None;
      if |holders| == 1 {
        node := Some(holders[0]);
      } else if |holders| > 1 {
        var n := Prefer(holders, PriorNode(rows, q));
        node := Some(n);
      }
      if node.None? {
        if q.fallback.Throws? { return true; }
        node := q.fallback.node;
      }
      rows := rows + [Row(q.templateId, q.userIdHash, q.volumeName, if node.Some? then Some(node.value.id) else None)];
      threw := false;
      if q.reaches {
        for path := 0 to q.persistPaths
          invariant nodes == old(nodes) && rows == Provision(old(Value()), q).rows
          invariant volumes == old(volumes) + if path > 0 then {(DaemonOf(node), q.volumeName)} else {}
        {
          EnsureVolume(DaemonOf(node), q.volumeName);
        }
      }
    }
  }

  lemma {:induction false} PreferredFirst(holders: seq<Node>, prior: Option<string>, i: nat)
    requires i < |holders| && prior == Some(holders[i].id)
    requires forall k :: 0 <= k < i ==> prior != Some(holders[k].id)
    ensures Preferred(holders, prior) == holders[i]
  {
    if i > 0 {
      assert holders[i] in holders[1..] by { assert holders[1..][i - 1] == holders[i]; }
      forall k | 0 <= k < i - 1 ensures prior != Some(holders[1..][k].id) {
        assert holders[1..][k] == holders[k + 1];
      }
      PreferredFirst(holders[1..], prior, i - 1);
    }
  }

  // ---------- one home per volume ----------

  ghost function Homes(w: World, volume: string): set<nat> {
    set p | p in w.volumes && p.1 == volume :: p.0
  }

  ghost predicate OneHome(w: World, volume: string) {
    forall d, e :: d in Homes(w, volume) && e in Homes(w, volume) ==> d == e
  }

  /** Some enabled node whose daemon answers holds the volume. */
  ghost predicate Visible(w: World, q: Request) {
    exists n :: n in w.nodes && Holds(w, n, q.volumeName, q.reachable)
  }

  /** The choice is a holder whenever one can be seen, however many there are; only otherwise does the scheduler decide. */
  lemma ChoiceIsHolder(w: World, q: Request)
    ensures Visible(w, q) ==> Choice(w, q).Answer? && Choice(w, q).node.Some?
                              && Choice(w, q).node.value in w.nodes && Holds(w, Choice(w, q).node.value, q.volumeName, q.reachable)
    ensures !Visible(w, q) ==> Choice(w, q) == q.fallback
  {
    var h := Holders(w, w.nodes, q.volumeName, q.reachable);
    if Visible(w, q) {
      var n :| n in w.nodes && Holds(w, n, q.volumeName, q.reachable);
      assert n in h;
      assert Choice(w, q).node.value in h;
    } else {
      SomeMember(h);
    }
  }

  lemma SomeMember(h: seq<Node>)
    ensures |h| > 0 ==> exists n :: n in h
  {
    if |h| > 0 { assert h[0] in h; }
  }

  /** With several holders, the node of the volume's latest row wins if it is one of them. */
  lemma PriorHolderWins(w: World, q: Request, n: Node)
    requires n in w.nodes && Holds(w, n, q.volumeName, q.reachable) && PriorNode(w.rows, q) == Some(n.id)
    ensures Choice(w, q).Answer? && Choice(w, q).node.Some? && Choice(w, q).node.value.id == n.id
  {
    var h := Holders(w, w.nodes, q.volumeName, q.reachable);
    assert n in h;
    if |h| == 1 { assert h[0] == n; }
  }

  lemma HomesAfter(w: World, q: Request, volume: string)
    ensures Homes(Provision(w, q), volume) ==
            Homes(w, volume) + if Lands(w, q).Some? && volume == q.volumeName then {Lands(w, q).value} else {}
  {
    var t := Provision(w, q);
    forall d: nat ensures d in Homes(t, volume) <==>
      d in Homes(w, volume) || (Lands(w, q) == Some(d) && volume == q.volumeName)
    {
      assert d in Homes(t, volume) <==> (d, volume) in t.volumes by { InHomes(t, volume, d); }
      assert d in Homes(w, volume) <==> (d, volume) in w.volumes by { InHomes(w, volume, d); }
    }
  }

  lemma InHomes(w: World, volume: string, d: nat)
    ensures d in Homes(w, volume) <==> (d, volume) in w.volumes
  {
    if (d, volume) in w.volumes { assert (d, volume).0 in Homes(w, volume); }
  }

  /**
   The exact condition under which a provision keeps the volume in one place: it ensures no volume, or there is no copy
   yet, or the copy can be seen, or the scheduler happens to name the daemon that has it.
   */
  ghost predicate Safe(w: World, q: Request) {
    || !q.reaches || q.persistPaths == 0
    || Homes(w, q.volumeName) == {}
    || Visible(w, q)
    || q.fallback.Throws?
    || DaemonOf(q.fallback.node) in Homes(w, q.volumeName)
  }

  lemma OneHomeIffSafe(w: World, q: Request)
    requires OneHome(w, q.volumeName)
    ensures OneHome(Provision(w, q), q.volumeName) <==> Safe(w, q)
    ensures Safe(w, q) && Homes(w, q.volumeName) != {} ==> Homes(Provision(w, q), q.volumeName) == Homes(w, q.volumeName)
  {
    hide Provision, Choice, Holders;
    HomesAfter(w, q, q.volumeName);
    ChoiceIsHolder(w, q);
    if Visible(w, q) {
      InHomes(w, q.volumeName, Choice(w, q).node.value.daemon);
    } else if !Safe(w, q) {
      var d :| d in Homes(w, q.volumeName);
      assert Lands(w, q).value in Homes(Provision(w, q), q.volumeName);
      assert d in Homes(Provision(w, q), q.volumeName);
    }
  }

  /** A provision that ensures the volume does so on the daemon that already has it, if that copy can be seen. */
  lemma ReprovisionLandsHome(w: World, q: Request, home: nat)
    requires OneHome(w, q.volumeName) && home in Homes(w, q.volumeName) && Visible(w, q)
    requires q.reaches && q.persistPaths > 0
    ensures Lands(w, q) == Some(home)
  {
    hide Holders, Homes;
    ChoiceIsHolder(w, q);
    InHomes(w, q.volumeName, Choice(w, q).node.value.daemon);
  }

  // ---------- whole histories ----------

  /** `Drop`: destroy with `deleteVolume`, which a missing volume or one in use (404, 409) turns into nothing. */
  datatype Step =
    | Provide(q: Request)
    | Drop(row: Row, removed: bool)
    | EditNodes(nodes: seq<Node>)

  /** runtimeFor: the local daemon for rows without a node, and for nodes that no longer exist. */
  function RowDaemon(nodes: seq<Node>, nodeId: Option<string>): nat {
    if nodes == [] || nodeId.None? then LOCAL
    else if nodes[0].id == nodeId.value then nodes[0].daemon
    else RowDaemon(nodes[1..], nodeId)
  }

  function Next(w: World, step: Step): World {
    match step
    case Provide(q) => Provision(w, q)
    case Drop(row, removed) =>
      if removed then w.(volumes := w.volumes - {(RowDaemon(w.nodes, row.nodeId), row.volumeName)}) else w
    case EditNodes(nodes) => w.(nodes := nodes)
  }

  function Run(w: World, steps: seq<Step>): World
    decreases |steps|
  {
    if steps == [] then w else Run(Next(w, steps[0]), steps[1..])
  }

  ghost predicate SafeRun(w: World, steps: seq<Step>, volume: string)
    decreases |steps|
  {
    steps == []
    || ((steps[0].Provide? && steps[0].q.volumeName == volume ==> Safe(w, steps[0].q))
        && SafeRun(Next(w, steps[0]), steps[1..], volume))
  }

  lemma StepHomes(w: World, step: Step, volume: string)
    requires OneHome(w, volume)
    requires step.Provide? && step.q.volumeName == volume ==> Safe(w, step.q)
    ensures OneHome(Next(w, step), volume)
    ensures Homes(w, volume) != {} && !(step.Drop? && step.removed && step.row.volumeName == volume) ==>
              Homes(Next(w, step), volume) == Homes(w, volume)
  {
    hide Provision, RowDaemon, Safe;
    match step
    case Provide(q) =>
      if q.volumeName == volume {
        OneHomeIffSafe(w, q);
      } else {
        HomesAfter(w, q, volume);
      }
    case Drop(row, removed) =>
      var t := Next(w, step);
      forall d: nat ensures d in Homes(t, volume) ==> d in Homes(w, volume) {
        InHomes(t, volume, d);
        InHomes(w, volume, d);
      }
      if !(removed && row.volumeName == volume) {
        forall d: nat ensures d in Homes(t, volume) <==> d in Homes(w, volume) {
          InHomes(t, volume, d);
          InHomes(w, volume, d);
        }
      }
    case EditNodes(nodes) => assert Homes(Next(w, step), volume) == Homes(w, volume);
  }

  /** Over every safe history a volume is never in two places, and stays where it is until it is deleted. */
  lemma {:induction false} OneHomeForever(w: World, steps: seq<Step>, volume: string)
    requires OneHome(w, volume) && SafeRun(w, steps, volume)
    ensures OneHome(Run(w, steps), volume)
    ensures Homes(w, volume) != {}
            && (forall k :: 0 <= k < |steps| ==> !(steps[k].Drop? && steps[k].removed && steps[k].row.volumeName == volume)) ==>
              Homes(Run(w, steps), volume) == Homes(w, volume)
    decreases |steps|
  {
    hide Next, Safe, OneHome, Homes;
    if steps != [] {
      StepHomes(w, steps[0], volume);
      OneHomeForever(Next(w, steps[0]), steps[1..], volume);
    }
  }

  /** All nodes are enabled and answer, and the scheduler names one of them. */
  ghost predicate Healthy(w: World, q: Request) {
    && (forall n :: n in w.nodes ==> n.enabled && n.id in q.reachable)
    && (q.fallback.Answer? ==> q.fallback.node.Some? && q.fallback.node.value in w.nodes)
  }

  /** Every copy of the volume is on the daemon of some node. */
  ghost predicate OnKnownNodes(w: World, volume: string) {
    forall d :: d in Homes(w, volume) ==> exists n :: n in w.nodes && n.daemon == d
  }

  lemma HealthyIsSafe(w: World, q: Request)
    requires Healthy(w, q) && OnKnownNodes(w, q.volumeName)
    ensures Safe(w, q) && OnKnownNodes(Provision(w, q), q.volumeName)
  {
    hide Holders, Choice;
    if d :| d in Homes(w, q.volumeName) {
      var n :| n in w.nodes && n.daemon == d;
      InHomes(w, q.volumeName, d);
      assert Holds(w, n, q.volumeName, q.reachable);
    }
    HomesAfter(w, q, q.volumeName);
    ChoiceIsHolder(w, q);
  }

  /** A fleet of nodes that are all enabled and answering needs no further condition. */
  lemma {:induction false} HealthyFleetKeepsVolumes(w: World, steps: seq<Step>, volume: string)
    requires OneHome(w, volume) && OnKnownNodes(w, volume)
    requires forall k :: 0 <= k < |steps| ==> !steps[k].EditNodes?
    requires forall k :: 0 <= k < |steps| && steps[k].Provide? ==> Healthy(w, steps[k].q)
    ensures SafeRun(w, steps, volume) && OneHome(Run(w, steps), volume)
    decreases |steps|
  {
    hide Safe, Homes, Choice, Lands, RowDaemon;
    if steps != [] {
      var t := Next(w, steps[0]);
      if steps[0].Provide? && steps[0].q.volumeName == volume { HealthyIsSafe(w, steps[0].q); }
      StepHomes(w, steps[0], volume);
      StepKnown(w, steps[0], volume);
      forall k | 0 <= k < |steps[1..]| && steps[1..][k].Provide? ensures Healthy(t, steps[1..][k].q) {
        assert steps[1..][k] == steps[k + 1];
      }
      HealthyFleetKeepsVolumes(t, steps[1..], volume);
    }
  }

  lemma StepKnown(w: World, step: Step, volume: string)
    requires OnKnownNodes(w, volume) && !step.EditNodes?
    requires step.Provide? ==> Healthy(w, step.q)
    ensures OnKnownNodes(Next(w, step), volume)
  {
    hide Choice, RowDaemon, Safe, Healthy;
    match step
    case Provide(q) =>
      if q.volumeName == volume { HealthyIsSafe(w, q); } else { HomesAfter(w, q, volume); }
    case Drop(row, removed) =>
      forall d | d in Homes(Next(w, step), volume) ensures d in Homes(w, volume) {
        InHomes(w, volume, d);
        InHomes(Next(w, step), volume, d);
      }
  }

  // ---------- the row remembers where the volume is ----------

  ghost predicate DistinctIds(nodes: seq<Node>) {
    forall i, j :: 0 <= i < j < |nodes| ==> nodes[i].id != nodes[j].id
  }

  lemma {:induction false} RowDaemonFinds(nodes: seq<Node>, n: Node)
    requires n in nodes && DistinctIds(nodes)
    ensures RowDaemon(nodes, Some(n.id)) == n.daemon
  {
    if nodes[0] != n {
      var k :| 0 < k < |nodes| && nodes[k] == n;
      assert nodes[1..][k - 1] == n;
      RowDaemonFinds(nodes[1..], n);
    }
  }

  lemma {:induction false} RowDaemonLost(nodes: seq<Node>, id: Option<string>)
    requires id.Some? ==> forall n :: n in nodes ==> n.id != id.value
    ensures RowDaemon(nodes, id) == LOCAL
  {
    if nodes != [] { RowDaemonLost(nodes[1..], id); }
  }

  /** The row a provision leaves: its key, its volume, and the node it was pinned to. */
  lemma ProvisionRecords(w: World, q: Request)
    ensures var t := Provision(w, q);
            if Choice(w, q).Throws? then t == w
            else && t.nodes == w.nodes && |t.rows| == |w.rows| + 1 && t.rows[..|w.rows|] == w.rows
                 && var r := t.rows[|w.rows|];
                    && r.templateId == q.templateId && r.userIdHash == q.userIdHash && r.volumeName == q.volumeName
                    && (Choice(w, q).node.Some? ==> r.nodeId == Some(Choice(w, q).node.value.id))
                    && (Choice(w, q).node.None? ==> r.nodeId.None?)
  {
    hide Holders, PriorNode, Choice;
  }

  /** Deleting the volume through the row of a provision reaches the daemon that provision made it on, and only that copy. */
  lemma DropReachesItsDaemon(w: World, q: Request)
    requires DistinctIds(w.nodes) && Lands(w, q).Some?
    requires q.fallback.Answer? && q.fallback.node.Some? ==> q.fallback.node.value in w.nodes
    ensures var t := Provision(w, q);
            && |t.rows| == |w.rows| + 1
            && Next(t, Drop(t.rows[|w.rows|], true)).volumes == t.volumes - {(Lands(w, q).value, q.volumeName)}
            && (Lands(w, q).value, q.volumeName) in t.volumes
  {
    hide Holders, PriorNode, RowDaemon;
    ChoiceIsHolder(w, q);
    ProvisionRecords(w, q);
    if Choice(w, q).node.Some? {
      RowDaemonFinds(w.nodes, Choice(w, q).node.value);
    } else {
      RowDaemonLost(w.nodes, None);
    }
  }

  /** The next provision of the volume prefers the node of this one, if that node then shows the volume. */
  lemma NextPrefersThisNode(w: World, q: Request, again: Request, n: Node)
    requires Choice(w, q) == Answer(Some(n)) && n in w.nodes
    requires again.templateId == q.templateId && again.userIdHash == q.userIdHash && again.volumeName == q.volumeName
    requires n.enabled && n.id in again.reachable && (n.daemon, q.volumeName) in Provision(w, q).volumes
    ensures Choice(Provision(w, q), again).Answer? && Choice(Provision(w, q), again).node.Some?
    ensures Choice(Provision(w, q), again).node.value.id == n.id
  {
    hide Holders, Choice;
    var t := Provision(w, q);
    ProvisionRecords(w, q);
    LatestIsPrior(t.rows, again);
    PriorHolderWins(t, again, n);
  }

  lemma LatestIsPrior(rows: seq<Row>, q: Request)
    requires rows != [] && SameVolume(rows[|rows| - 1], q) && rows[|rows| - 1].nodeId.Some?
    ensures PriorNode(rows, q) == rows[|rows| - 1].nodeId
  {
  }

  lemma {:induction false} HoldersInOrder(w: World, a: seq<Node>, b: seq<Node>, volume: string, reachable: set<string>)
    ensures Holders(w, a + b, volume, reachable) == Holders(w, a, volume, reachable) + Holders(w, b, volume, reachable)
    decreases |b|
  {
    hide Holds;
    if b == [] {
      assert a + b == a;
    } else {
      var n := |b| - 1;
      assert (a + b)[..|a + b| - 1] == a + b[..n] && (a + b)[|a + b| - 1] == b[n];
      HoldersInOrder(w, a, b[..n], volume, reachable);
    }
  }

  /** With no holder on record the first one in the order of the probe is taken. */
  lemma FirstHolderElse(w: World, q: Request, k: nat)
    requires k < |w.nodes| && Holds(w, w.nodes[k], q.volumeName, q.reachable)
    requires forall i :: 0 <= i < k ==> !Holds(w, w.nodes[i], q.volumeName, q.reachable)
    requires forall n :: n in w.nodes && Holds(w, n, q.volumeName, q.reachable) ==> PriorNode(w.rows, q) != Some(n.id)
    ensures Choice(w, q) == Answer(Some(w.nodes[k]))
  {
    hide PriorNode, Preferred, Holders;
    var h := Holders(w, w.nodes, q.volumeName, q.reachable);
    FirstHolder(w, k, q.volumeName, q.reachable);
    if |h| > 1 {
      var p := PriorNode(w.rows, q);
      forall n | n in h ensures p != Some(n.id) {
        assert n in w.nodes && Holds(w, n, q.volumeName, q.reachable);
      }
      assert Preferred(h, p) == h[0];
    }
  }

  lemma FirstHolder(w: World, k: nat, volume: string, reachable: set<string>)
    requires k < |w.nodes| && Holds(w, w.nodes[k], volume, reachable)
    requires forall i :: 0 <= i < k ==> !Holds(w, w.nodes[i], volume, reachable)
    ensures var h := Holders(w, w.nodes, volume, reachable); h != [] && h[0] == w.nodes[k]
  {
    hide Holds, Holders;
    var front, back := w.nodes[..k + 1], w.nodes[k + 1..];
    assert front[..k] == w.nodes[..k];
    assert w.nodes == front + back;
    HoldersInOrder(w, front, back, volume, reachable);
    LastHolder(w, front, volume, reachable);
    NoHolders(w, front[..k], volume, reachable);
  }

  lemma LastHolder(w: World, nodes: seq<Node>, volume: string, reachable: set<string>)
    requires nodes != [] && Holds(w, nodes[|nodes| - 1], volume, reachable)
    ensures Holders(w, nodes, volume, reachable) ==
            Holders(w, nodes[..|nodes| - 1], volume, reachable) + [nodes[|nodes| - 1]]
  {
    hide Holds;
  }

  lemma NoHolders(w: World, nodes: seq<Node>, volume: string, reachable: set<string>)
    requires forall i :: 0 <= i < |nodes| ==> !Holds(w, nodes[i], volume, reachable)
    ensures Holders(w, nodes, volume, reachable) == []
  {
    if Holders(w, nodes, volume, reachable) != [] {
      assert Holders(w, nodes, volume, reachable)[0] in Holders(w, nodes, volume, reachable);
    }
  }

  // ---------- where the guarantee ends ----------

  /** The daemon with the volume does not answer: the probe passes over it and a second copy appears elsewhere. */
  lemma UnreachableHolder(a: Node, b: Node, q: Request)
    requires a.enabled && b.enabled && a.daemon != b.daemon && a.id != b.id
    requires q.reachable == {b.id} && q.fallback == Answer(Some(b)) && q.reaches && q.persistPaths > 0
    ensures var w := World([a, b], [], {(a.daemon, q.volumeName)});
            OneHome(w, q.volumeName) && !OneHome(Provision(w, q), q.volumeName)
  {
    var w := World([a, b], [], {(a.daemon, q.volumeName)});
    InHomes(w, q.volumeName, a.daemon);
    InHomes(w, q.volumeName, b.daemon);
    OneHomeIffSafe(w, q);
  }

  /** A volume made on the local socket before any node existed is lost from sight once only remote nodes are listed. */
  lemma LocalVolumeForgotten(q: Request, remote: Node, r: Request)
    requires q.fallback == Answer(None) && q.reaches && q.persistPaths > 0
    requires remote.enabled && remote.daemon != LOCAL
    requires r.volumeName == q.volumeName && r.fallback == Answer(Some(remote)) && r.reaches && r.persistPaths > 0
    ensures !OneHome(Run(World([], [], {}), [Provide(q), EditNodes([remote]), Provide(r)]), q.volumeName)
  {
    var w0 := World([], [], {});
    var w1 := Provision(w0, q);
    var w2 := w1.(nodes := [remote]);
    var steps := [Provide(q), EditNodes([remote]), Provide(r)];
    assert Run(w0, steps) == Run(w1, steps[1..]);
    assert Run(w1, steps[1..]) == Run(w2, steps[1..][1..]);
    assert Run(w2, steps[1..][1..]) == Run(Provision(w2, r), steps[1..][1..][1..]);
    assert w2.volumes == {(LOCAL, q.volumeName)};
    InHomes(w2, q.volumeName, LOCAL);
    InHomes(w2, q.volumeName, remote.daemon);
    OneHomeIffSafe(w2, r);
  }
}
