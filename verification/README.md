# LabForge control plane: a verified model

LabForge's control plane places lab containers on a fleet of docker hosts, moves their database rows through a lifecycle,
meters their use, hands out launch URLs, and keeps a Guacamole gateway in step with the labs that are alive. This project
models the parts of it that are hard to get right, one module per component, and proves what they are for. All statements
are for every input, every run or every interleaving of the steps named.

| module | what it models |
|---|---|
| `RingScheduler`, `PoolKeys`, `InFlight`, `NodePlacement` | round-robin with one cursor per pool and per-node caps; the cursor keys; concurrent provisions on stale counts; the placement order around the ring |
| `UsageReplay`, `ReplayMeaning`, `CostReport` | compute time replayed from usage events; what a replay means and how windows split; the cost report's filter and clipping |
| `Acquire`, `OverlappingAcquires` | which instance a student gets, whether it is the only live one, and what overlapping acquires can do |
| `Lifecycle`, `Metering`, `MeteringExact`, `Reaper`, `Grace`, `Backlog` | instance rows and the events they emit; replay against the time really in use; the reaper's three rules as lifecycle steps, what each operation leaves them, and whether they keep up |
| `Volumes` | where a student's volume lives, over provisions, deletions and edits of the node table |
| `PortDrift`, `DriftFields` | repair of stored ports and upstreams from what the daemons report; which rows a pass repairs, and to what |
| `UserMapping`, `XmlReader`, `LockStep`, `MappingRoundTrip`, `MappingReadBack`, `ServedRows` | the user-mapping file and the JDBC rows, compared through an XML reader; who gets a connection to which host |
| `RegenChain`, `RegenGuarantees` | the promise chain that serialises regenerations |
| `GuacamoleJdbc`, `StableIds`, `GuacamoleProvisioner` | the upsert-and-prune transaction on the Guacamole tables, its histories, and its statements |
| `LaunchTokens`, `OverlappingRedeems` | launch URLs: create, preview, redeem, prepare, extend, regenerate, revoke, batch operations; redeems that overlap with them and each other |
| `PreparePool` | the bounded worker pool of a batch prepare |
| `GuacCodec`, `DockerLogs` | the two length-prefixed framings, and the capping of exec output |
| `Prelude` | options, the instance status enum, sums over finite sets |

Code that updates objects or variables in place is a class or a method with loops, proved equal to a function on values;
the lemmas are about those functions. Protocols whose steps interleave at awaits (`InFlight`, `RegenChain`, `PreparePool`,
`OverlappingRedeems`, `OverlappingAcquires`) are state machines over those steps.

Inputs that come from outside are parameters: the node, row and launch tables as a query returned them, the clock, what a
daemon answers, which operations throw, random ids and jtis (assumed fresh where a statement says so), salts.

## Where the code differs from what is said about it

- A `resume` on a row that is already ready, or a `restart` of a claimed row that is not ready, makes metering and reality
  differ; `MeteringExact.MetersExactlyIffClean` is the exact condition. `restart` on a terminated row writes `ready`.
- A student is said to get the same data back every time; an instance claimed from the warm pool has no volume
  (`Acquire.VolumeMountedIff`).
- A launch is described as single-use in the schema comment on `tokenJti`; the code keeps the jti and lets the URL be
  reused.
- The first redeem is said to stamp a launch and to be billed. Overlapping ones are each billed
  (`OverlappingRedeems.BilledOnceIff` says exactly when), and one that overlaps a regenerate can use up the new URL's
  redemption without any event (`OverlappingRedeems.PaidThroughoutIff`).
- A student is said to get the row he already has; overlapping acquires can leave as many live rows as there are
  (`OverlappingAcquires.OneLiveThroughoutIff`, `OverlappingAcquires.BoundAttained`).
- A claim of a warm row does not stamp activity, so the reaper counts the student's idle time from the provision of the
  warm row until a first request stamps it, and may suspend the lab on the next tick (`Grace.ClaimGrantsNoIdleTime`).
- The keep set is said to hold every live instance. An instance whose template spec does not parse is dropped before it is
  built, and loses its connection id; `StableIds.KeepsConnectionIffParsed` is the exact condition.
- A failed regeneration after a drift pass is said to be best effort. No later pass makes up for it
  (`PortDrift.StaleMappingStays`).
- The reaper takes 50 due rows in no order; 50 that stay due can hold up all others for good (`Backlog.DrainsIff`).
- A probe that fails is documented as not proving a volume absent, and a second copy as never wanted; when the only
  holder does not answer, the caller goes on and makes one (`Volumes.OneHomeIffSafe` says when; `Volumes.UnreachableHolder`
  is an input).
- `capacityMax` binds the ring only; `NodePlacement.FullOnlyByFiat` says exactly when a full node is answered. An exhausted
  override meets the default node before the rest of the fleet (`NodePlacement.ExhaustedOverrideReachesFleetIff`;
  `NodePlacement.DefaultShadowsFleet` is an input).
- Log output that is not multiplexed is said to be returned as it is; fewer than eight bytes of it are lost
  (`DockerLogs.UnframedReturnedIff`).
- The instruction encoder counts bytes and the parser characters, so only the last element of an instruction may hold
  wide characters (`GuacCodec.RoundTripExactly`).
- With an empty proxy host a stored upstream can name another published port (`PortDrift.SyncedPointsAtTemplatePort`).

## Model

| member | source | states |
|---|---|---|
| RingScheduler.Candidates | packages/control-plane/src/runtime/nodes.ts:299-306 | The candidates are exactly the nodes that are enabled, fresh enough or never seen, and in the whitelist if there is one. |
| RingScheduler.CandidatesDistinct | packages/control-plane/src/runtime/nodes.ts:299-306 | A node table without repeated ids gives a ring without repeated ids. |
| RingScheduler.FirstFree | packages/control-plane/src/runtime/nodes.ts:347-352 | The walk stops at the first slot after the cursor that is below its cap; every slot it passed is full. |
| RingScheduler.PickSound | packages/control-plane/src/runtime/nodes.ts:347-359 | A pick answers a candidate below its cap, and answers none exactly when every candidate is full. |
| RingScheduler.LoadCounts | packages/control-plane/src/runtime/nodes.ts:321-336 | The load of a node is the number of its rows that are neither terminated nor failed. |
| RingScheduler.CandidatesInOrder | packages/control-plane/src/runtime/nodes.ts:299-306 | The ring keeps the order of the node table. |
| RingScheduler.PickAnswers | packages/control-plane/src/runtime/nodes.ts:296-359 | Over any node table: the pick is an enabled node, never seen or seen at or after the cutoff, in the whitelist if there is one, with fewer live rows than its cap if it has one; and none exactly if there is no such node. |
| RingScheduler.GroupLoads | packages/control-plane/src/runtime/nodes.ts:321-336 | The fetched load map gives every candidate its number of live rows. |
| RingScheduler.WalkRing | packages/control-plane/src/runtime/nodes.ts:345-359 | The index loop takes the slot, and leaves the cursor, that the ring pick prescribes. |
| RingScheduler.SingleCandidate | packages/control-plane/src/runtime/nodes.ts:308-318 | The separate branch for a pool of one is the ring pick, except that the cursor stays. |
| RingScheduler.Scheduler.PickLeastLoadedNode | packages/control-plane/src/runtime/nodes.ts:296-359 | One call makes one ring pick with the cursor of its own pool and moves that cursor only; all other pools keep theirs. |
| RingScheduler.WrapIsMod | packages/control-plane/src/runtime/nodes.ts:348-353 | The ring arithmetic used in the proofs is the remainder operator of the code. |
| RingScheduler.PickSwapsOrder | packages/control-plane/src/runtime/nodes.ts:345-357 | Of two nodes with room, the one nearer to the cursor is never overtaken: a pick changes which is nearer only by taking the nearer one. |
| RingScheduler.FairInvariant | packages/control-plane/src/runtime/nodes.ts:288-294 | The difference of two nodes' counts is fixed by which of them was nearer to the cursor at the start and which is now. |
| RingScheduler.Fairness | packages/control-plane/src/runtime/nodes.ts:288-359 | Two nodes of a pool that are never full when it is picked from get counts from it differing by at most one, for all interleavings with other pools, all starting cursors, and whatever other nodes fill up. |
| RingScheduler.PickThenInsert | packages/control-plane/src/runtime/nodes.ts:339-359 | On an all-capped pool a pick succeeds exactly while places are left, and inserting the row uses up exactly one. |
| RingScheduler.ExactCapacity | packages/control-plane/src/runtime/nodes.ts:296-359 | On an all-capped pool exactly the sum of max(0, cap - load) picks succeed, from any cursor, and then every pick answers none. |
| PoolKeys.PoolKeyIdentifiesPool | packages/control-plane/src/runtime/nodes.ts:341-343 | Two whitelists share a cursor key exactly when they are the same ids in some order, for ids without commas. |
| InFlight.StepKeepsBound | packages/control-plane/src/runtime/nodes.ts:322-359 | Load plus stale snapshots that still allow the node stays at most cap - 1 + k over every snapshot, walk, insert or status change. |
| InFlight.RunKeepsBound | packages/control-plane/src/orchestrator.ts:437-461 | The bound holds over every run of interleaved provisions. |
| InFlight.BoundedOvershoot | packages/control-plane/src/runtime/nodes.ts:322-359 | With k provisions in flight a node that starts below its cap never has more than capacityMax + k - 1 live rows. |
| InFlight.OvershootAttained | packages/control-plane/src/runtime/nodes.ts:322-359 | The bound is tight: for every k there is a run that reaches it. |
| NodePlacement.ResolveNodeForProvision | packages/control-plane/src/runtime/nodes.ts:169-268 | Override, pin, ring, default, only node: which answer is given in each case, including the two errors and null. |
| NodePlacement.Pick | packages/control-plane/src/runtime/nodes.ts:192-214 | A pick succeeds exactly when some healthy node of the pool has room. |
| NodePlacement.OverrideDecides | packages/control-plane/src/runtime/nodes.ts:192-214 | With an override: a named node that can take a lab, else an enabled default node, else any node that can, else the only enabled one, else null; neither pin is looked at. |
| NodePlacement.PinDecides | packages/control-plane/src/runtime/nodes.ts:216-234 | Without an override the tenant's pin decides, and the template's only if the tenant has none; a pinned node that is disabled is an error. |
| NodePlacement.UnpinnedDecides | packages/control-plane/src/runtime/nodes.ts:235-268 | Without override and pin, in the fields of nodes and rows: which node, which error, or null. |
| NodePlacement.FullOnlyByFiat | packages/control-plane/src/runtime/nodes.ts:192-268 | Whoever is answered exists and is enabled; a full node is answered if and only if the ring does not get to answer and the pin, default or only node that stands in for it is full. |
| NodePlacement.PoolNeverWidened | packages/control-plane/src/runtime/nodes.ts:235-247 | Under `spread`, without override and pin, the answer is a pool member below its cap, and the error comes exactly when there is none. |
| NodePlacement.ExhaustedOverrideReachesFleetIff | packages/control-plane/src/runtime/nodes.ts:192-208 | After an exhausted override, with room elsewhere, a fleet node with room is answered if and only if there is no default node or it is itself healthy with room. |
| UsageReplay.CountOpen | packages/control-plane/src/routes/reports.ts:157-159 | Instances still open count up to the end of the window, whatever the order of the map. |
| UsageReplay.ReplayOverview | packages/control-plane/src/routes/reports.ts:139-159 | The single pass with a map of open starts equals the sum of separate replays of each instance's own events. |
| UsageReplay.Tally | packages/control-plane/src/routes/reports.ts:681-696 | After the pass the map holds each instance's open start and each template its closed intervals. |
| UsageReplay.CreditOpen | packages/control-plane/src/routes/reports.ts:697-703 | The closing loop credits each template the open time of its instances and nothing else. |
| UsageReplay.ReplayByTemplate | packages/control-plane/src/routes/reports.ts:681-704 | Each template gets exactly its intervals; when every event carries a template, the template totals sum to the overview total. |
| ReplayMeaning.ReplayCountsMilliseconds | packages/control-plane/src/routes/reports.ts:681-704 | A millisecond counts exactly when the instance's latest event is a start and the next one is a stop or missing, so an instance never gets more than the window. |
| ReplayMeaning.IntervalAdds | packages/control-plane/src/routes/reports.ts:681-696 | A start and the stop after it add the time between them, credited to the start's template, or the stop's if the start has none. |
| ReplayMeaning.OpenIntervalAdds | packages/control-plane/src/routes/reports.ts:697-703 | A start without a stop runs to the end of the window, for its own template only. |
| ReplayMeaning.StrayStopAdds | packages/control-plane/src/routes/reports.ts:686-695 | A stop that closes nothing adds nothing. |
| ReplayMeaning.OneRunAdds | packages/control-plane/src/routes/reports.ts:681-703 | One more instance that ran once adds its time to the overview and to the line of its template, and changes no other line. |
| ReplayMeaning.CutInstance | packages/control-plane/src/routes/reports.ts:669-704 | For one instance the whole window never exceeds the two parts plus the carried time, with equality exactly if it is not open at the cut with a start as its next event. |
| ReplayMeaning.WindowSplit | packages/control-plane/src/routes/reports.ts:669-704 | Hours over [a,c) equal hours over [a,b) plus [b,c) plus the time instances open at b run on, exactly unless some instance open at b starts again before it stops; never more. |
| ReplayMeaning.AlternatingSplits | packages/control-plane/src/routes/reports.ts:669-704 | Streams in which starts and stops alternate split exactly at every cut. |
| Lifecycle.Orchestrator.BeginProvision | packages/control-plane/src/orchestrator.ts:448-461 | The row is inserted as provisioning, before the runtime is called. |
| Lifecycle.Orchestrator.CompleteProvision | packages/control-plane/src/orchestrator.ts:550-616 | Success makes the row ready and emits `instance_ready` unless it is a prewarm; failure marks it failed and emits nothing. |
| Lifecycle.Orchestrator.ClaimPrewarm | packages/control-plane/src/orchestrator.ts:239-294 | The conditional update takes one warm row that is still ready, or none; a claim emits `instance_ready`. |
| Lifecycle.Orchestrator.SuspendInstance | packages/control-plane/src/orchestrator.ts:718-737 | Rows without container and rows already paused, terminated or failed are left alone; the others pause and emit, or throw untouched when the runtime fails. |
| Lifecycle.Orchestrator.ResumeInstance | packages/control-plane/src/orchestrator.ts:743-810 | Throws exactly for a missing row, one without container, or a container that does not start, leaving the row as it was; otherwise the row is ready, no longer suspended, active as of now, and `instance_resumed` is emitted, whatever its status was. |
| Lifecycle.Orchestrator.RestartInstance | packages/control-plane/src/orchestrator.ts:832-872 | A row with a container becomes ready, no longer suspended and active as of now unless the runtime fails, whatever its status was; no event is emitted and no other row changes. |
| Lifecycle.Orchestrator.DestroyInstance | packages/control-plane/src/orchestrator.ts:650-712 | The row is terminated and `instance_terminated` emitted, also when it was terminated before; only a client that cannot be built makes it throw. |
| Grace.ActivationGrantsIdleTime | packages/control-plane/src/orchestrator.ts:770-778 | A lab just provisioned, resumed or restarted is not due for inactivity until more than the idle time has passed, and is due from then on. |
| Grace.SuspensionGrantsHardTime | packages/control-plane/src/orchestrator.ts:726-737 | A suspended lab is not due for the hard limit until more than that time has passed since, and is due from then on. |
| Grace.ClaimGrantsNoIdleTime | packages/control-plane/src/orchestrator.ts:268-282 | A claim leaves the activity stamp alone: the student's new lab is due as soon as the warm row's own last activity is older than the idle time. |
| Grace.DestroyedNeverDue | packages/control-plane/src/orchestrator.ts:698-712 | A destroyed row is never due again. |
| Metering.ReachableShaped | packages/control-plane/src/orchestrator.ts:448-461 | In every reachable state rows, container flags and provisioning flags fit together. |
| Metering.SyncedStep | packages/control-plane/src/routes/reports.ts:681-704 | A clean step keeps one instance's replayed meter equal to its time in use. |
| Metering.MeteringAgrees | packages/control-plane/src/routes/reports.ts:681-704 | On every run where resume acts on claimed rows that are not ready and restart never on a claimed row that is not ready, the replayed time is the time really ready and claimed, summed over instances. |
| MeteringExact.UncleanStep | packages/control-plane/src/orchestrator.ts:832-872 | Any other resume or restart makes replay and reality differ by the next tick. |
| MeteringExact.UncleanStepShows | packages/control-plane/src/orchestrator.ts:770-799 | The difference shows in the total over all instances. |
| MeteringExact.MetersExactlyIffClean | packages/control-plane/src/orchestrator.ts:743-872 | Replay is exact throughout a run if and only if every resume and restart in it was clean. |
| Reaper.RemediesOnRows | packages/control-plane/src/reaper.ts:48-136 | The operations of one rule change the rows they name, and no others. |
| Reaper.Sweep | packages/control-plane/src/reaper.ts:57-136 | One query-then-loop phase takes exactly min(50, due) distinct due rows and acts once on each whose operation does not throw, as a run of lifecycle steps. |
| Reaper.SweptActs | packages/control-plane/src/reaper.ts:57-136 | A phase acts on at most 50 rows, only on due ones, and on every due one that does not throw if they fit in one batch. |
| Reaper.TickRow | packages/control-plane/src/reaper.ts:48-136 | The effect of the three phases together on one row: unchanged, paused or terminated, by the rule that caught it. |
| Grace.TickTerminatesExpired | packages/control-plane/src/reaper.ts:48-77 | In a tick a claimed row past its expiry and not over is terminated, if at most 50 such rows wait and its operation does not throw. |
| Grace.TickSuspendsIdle | packages/control-plane/src/reaper.ts:79-111 | In a tick a claimed ready or idle row with a container, untouched for longer than the idle time (from its creation if never touched), ends paused or terminated, under the same proviso. |
| Grace.TickTerminatesForgotten | packages/control-plane/src/reaper.ts:113-136 | In a tick a claimed row paused for longer than the hard limit is terminated, under the same proviso. |
| Grace.TickSparesTheRest | packages/control-plane/src/reaper.ts:48-136 | Warm rows, rows that are over, and labs within all three limits are left exactly as they were. |
| Reaper.ReconcileOnce | packages/control-plane/src/reaper.ts:48-137 | The three phases as runs of lifecycle steps: only rows caught by a rule change; every expired, idle or long idle row is dealt with unless the rule's batch was full or its operation threw. |
| Reaper.TickKeepsMetering | packages/control-plane/src/reaper.ts:48-137 | A tick after any clean run leaves the replayed time exact. |
| Backlog.SweepProgress | packages/control-plane/src/reaper.ts:55-136 | While fewer than 50 due rows are blocked, a sweep takes at least one row off a backlog. |
| Backlog.BacklogShrinks | packages/control-plane/src/reaper.ts:48-136 | Over any sequence of sweeps of the three rules, each round of a rule with fewer than 50 blocked rows shrinks its backlog until it is gone. |
| Backlog.SweepStalls | packages/control-plane/src/reaper.ts:55-136 | Fifty blocked rows can fill the query, and then a sweep changes no row. |
| Backlog.DrainsIff | packages/control-plane/src/reaper.ts:55-136 | A backlog is sure to be worked off, in as many rounds as it has rows, if and only if it is empty or fewer than 50 due rows are blocked. |
| Acquire.Existing | packages/control-plane/src/orchestrator.ts:197-205 | The latest created live row of the student for the template; none only if there is none. |
| Acquire.Roster.ClaimPrewarm | packages/control-plane/src/orchestrator.ts:239-282 | One warm row, of the named nodes if any are named, is claimed exactly if there is one. |
| Acquire.Roster.AcquireInstance | packages/control-plane/src/orchestrator.ts:192-237 | Reuse and extend, else claim, else insert a provisioning row. |
| Acquire.ReusesLatest | packages/control-plane/src/orchestrator.ts:165-219 | The student's latest pending, provisioning, ready, idle or paused row for the template is answered; only its expiry moves, to the later one. |
| Acquire.ClaimsWarm | packages/control-plane/src/orchestrator.ts:239-282 | With nothing usable, a ready warm row of the template on a named node becomes the student's: ready, claimed, with the new expiry, its node and volume as they were. |
| Acquire.ProvisionsFresh | packages/control-plane/src/orchestrator.ts:228-236 | With nothing usable and no such warm row, a provisioning row of the student is added with the request's node, volume and expiry. |
| Acquire.AcquireGivesTheOne | packages/control-plane/src/orchestrator.ts:183-191 | Whoever acquires ends up with exactly one live row, the one answered, valid long enough; nobody else's rows change. |
| Acquire.VolumeMountedIff | packages/control-plane/src/orchestrator.ts:355-367 | Without a live row to reuse, the answered row mounts the student's volume exactly if no warm row could be claimed. |
| Acquire.ClaimHonoursNodes | packages/control-plane/src/orchestrator.ts:248-266 | A request that names nodes gets a warm row only from one of them. |
| Acquire.StepKeepsOneLiveIff | packages/control-plane/src/orchestrator.ts:192-237 | A step keeps one live row per student and template exactly unless it revives a dead row beside a live one. |
| Acquire.OneLiveThroughoutIff | packages/control-plane/src/orchestrator.ts:183-237 | From an empty table, acquires one at a time: every student has at most one live row per template throughout if and only if no step revives a dead row beside a live one. |
| OverlappingAcquires.StepKeepsOneLiveIff | packages/control-plane/src/orchestrator.ts:197-282 | With looks, claims and inserts of any acquires interleaved, a step keeps one live row per student exactly unless it claims or inserts for a student who has one, or revives a dead row beside one. |
| OverlappingAcquires.OneLiveThroughoutIff | packages/control-plane/src/orchestrator.ts:192-237 | Over any interleaving no student ever has two live rows if and only if no such step occurs. |
| OverlappingAcquires.LiveRowsBounded | packages/control-plane/src/orchestrator.ts:192-237 | With k acquires in flight a student has at most k live rows for a template, plus one per revival. |
| OverlappingAcquires.BoundAttained | packages/control-plane/src/orchestrator.ts:192-237 | k acquires of a student without a live row can leave k. |
| Volumes.Holders | packages/control-plane/src/orchestrator.ts:384-402 | The probe finds exactly the enabled nodes that answer and have the volume. |
| Volumes.Placement.Probe | packages/control-plane/src/orchestrator.ts:388-402 | The probe loop, an unreachable node counting as not holding. |
| Volumes.Preferred | packages/control-plane/src/orchestrator.ts:406-424 | Among holders, the one of the prior row if it is one of them. |
| Volumes.Placement.ProvisionNew | packages/control-plane/src/orchestrator.ts:380-461 | Holders first, scheduler otherwise; the row records the node, and each mounted path ensures the volume there. |
| Volumes.ChoiceIsHolder | packages/control-plane/src/orchestrator.ts:403-436 | If any holder can be seen the choice is a holder, however many there are; only otherwise does the scheduler decide. |
| Volumes.PriorHolderWins | packages/control-plane/src/orchestrator.ts:409-424 | With several holders the node of the latest row of that template, user and volume wins if it is one of them. |
| Volumes.FirstHolderElse | packages/control-plane/src/orchestrator.ts:406-424 | With no holder on record the first one in the order of the probe is taken. |
| Volumes.ProvisionRecords | packages/control-plane/src/orchestrator.ts:448-461 | The row a provision leaves carries its template, user and volume and the node that was chosen; a throw leaves no row. |
| Volumes.NextPrefersThisNode | packages/control-plane/src/orchestrator.ts:409-424 | The next provision of the volume goes to the node of this one, if that node then shows the volume. |
| Volumes.DropReachesItsDaemon | packages/control-plane/src/orchestrator.ts:664-670 | Deleting the volume through the row of a provision reaches the daemon that provision made it on, and only that copy. |
| Volumes.HomesAfter | packages/control-plane/src/runtime/docker.ts:97-103 | A provision adds at most the daemon it landed on to the places that have the volume, and touches no other volume. |
| Volumes.OneHomeIffSafe | packages/control-plane/src/orchestrator.ts:380-443 | A volume stays in one place exactly if none is ensured, there was no copy, the copy can be seen, or the scheduler names the daemon that has it. |
| Volumes.ReprovisionLandsHome | packages/control-plane/src/orchestrator.ts:369-436 | A re-provision lands on the daemon that has the volume whenever that copy can be seen. |
| Volumes.StepHomes | packages/control-plane/src/runtime/docker.ts:303-323 | Every safe provision, every destroy with or without its volume, and every edit of the node table keeps one home. |
| Volumes.OneHomeForever | packages/control-plane/src/orchestrator.ts:369-443 | Over every safe history a volume is never in two places, and stays where it is until it is deleted. |
| Volumes.HealthyFleetKeepsVolumes | packages/control-plane/src/orchestrator.ts:380-443 | If all nodes are enabled and answer at every provision and the scheduler names one of them, every history is safe, failed provisions and destroys included. |
| Volumes.UnreachableHolder | packages/control-plane/src/orchestrator.ts:396-400 | When the only holder does not answer, a second copy is made elsewhere. |
| Volumes.LocalVolumeForgotten | packages/control-plane/src/orchestrator.ts:437-443 | A volume made on the local socket while there were no nodes is lost from sight once only remote nodes are listed. |
| PortDrift.InspectInstance | packages/control-plane/src/runtime/docker.ts:382-411 | The loop over the port table yields the first published port and the map of all of them. |
| PortDrift.PortMapExact | packages/control-plane/src/runtime/docker.ts:391-396 | The map holds exactly the first bindings that carry a positive port. |
| PortDrift.WithPortReplaces | packages/control-plane/src/orchestrator.ts:87-92 | Replacing the port behind the last colon gives the same host with the new port, also for hosts with colons; an empty host gives null. |
| PortDrift.SyncedPointsAtTemplatePort | packages/control-plane/src/orchestrator.ts:81-128 | After a sync hostPort is the port published for the template's own port; upstream points at it too exactly if the proxy host is not empty or that port is listed first. |
| PortDrift.SyncedFollowsRdp | packages/control-plane/src/orchestrator.ts:103-115 | The stored RDP port follows the daemon. |
| PortDrift.SyncFixpoint | packages/control-plane/src/orchestrator.ts:48-152 | Syncing again against the same daemon changes nothing, whatever the daemon reported. |
| PortDrift.SecondPassWritesNothing | packages/control-plane/src/orchestrator.ts:886-945 | A second pass against unchanged daemons writes nothing, also after a pass that was ended by an exception. |
| PortDrift.PassAgreesIff | packages/control-plane/src/orchestrator.ts:919-941 | A pass keeps the Guacamole mapping in agreement with the stored ports exactly if it drifted no used port, or completed and regenerated. |
| PortDrift.StaleMappingStays | packages/control-plane/src/orchestrator.ts:919-941 | After any number of passes against unchanged daemons the mapping agrees if and only if it did after the first: a regeneration that failed is not made up for. |
| PortDrift.PassConverges | packages/control-plane/src/orchestrator.ts:886-945 | After a completed pass every active row with a published template port points at exactly that port; `DriftFields.PassRepairs` has the condition in the fields of the row. |
| DriftFields.PassRepairs | packages/control-plane/src/orchestrator.ts:886-931 | A row with a runtime, pending, provisioning, ready, idle or paused, whose daemon publishes its template's port stores that port and the upstream at it after a pass in which every runtime could be built. |
| DriftFields.PassFollowsRdp | packages/control-plane/src/orchestrator.ts:103-115 | The RDP port of such a row follows the daemon; one that is not published stays. |
| DriftFields.PassIgnoresOthers | packages/control-plane/src/orchestrator.ts:886-895 | Rows without a runtime, or of any other status, are not changed. |
| DriftFields.CheckedCounts | packages/control-plane/src/orchestrator.ts:886-905 | `checked` is the number of rows with a runtime in one of the five statuses. |
| DriftFields.PassKeepsUninspected | packages/control-plane/src/orchestrator.ts:48-80 | A row whose container is gone or cannot be inspected is not changed. |
| DriftFields.PassEndsThere | packages/control-plane/src/orchestrator.ts:907-917 | A row of the five statuses whose runtime cannot be built ends the pass: it and all later rows stay as they were. |
| DriftFields.SyncFallsBack | packages/control-plane/src/orchestrator.ts:81-128 | When the template's own port is not published the first published one is stored, and with none the row keeps its host port. |
| PortDrift.PassStopsAt | packages/control-plane/src/orchestrator.ts:911-917 | When no runtime can be built for a row the pass ends there: earlier rows are synced, later ones untouched. |
| PortDrift.Reconciler.SyncInstanceUpstream | packages/control-plane/src/orchestrator.ts:48-152 | One sync, with its result record and its early returns. |
| PortDrift.Reconciler.ReconcileActiveInstanceNetworkingDrift | packages/control-plane/src/orchestrator.ts:886-945 | One pass: the new table, `drifted` as the exact number of rows changed, `checked`, and when the mapping is rendered again. |
| PortDrift.Reconciler.ReconcileRows | packages/control-plane/src/orchestrator.ts:907-931 | The loop over the rows, up to the first one without a runtime; `DriftFields` says what it does to which rows. |
| UserMapping.RowsToJdbc | packages/control-plane/src/runtime/guacamole.ts:378-400 | The loop with its skip guards projects exactly the renderable rows, in order; `ServedRows` says which they are and what host each gets. |
| UserMapping.RenderUserMappingXml | packages/control-plane/src/runtime/guacamole.ts:137-183 | The line-by-line renderer yields the file of the renderable rows; `ServedRows.StudentFindsConnection` reads it back. |
| ServedRows.ProxyHostServes | packages/control-plane/src/runtime/guacamole.ts:384-387 | A row with user, password, RDP port and RDP user whose node has a proxy host gets a connection with these and that host, whatever the default. |
| ServedRows.DefaultHostServes | packages/control-plane/src/runtime/guacamole.ts:384-387 | Without a proxy host it gets the default host. |
| ServedRows.ServedIff | packages/control-plane/src/runtime/guacamole.ts:378-400 | An instance has a connection exactly if it is complete and one of the two hosts is there. |
| ServedRows.ParamsAre | packages/control-plane/src/runtime/guacamoleJdbc.ts:165-179 | The parameters of a connection one by one; the password only when the template has one. |
| ServedRows.StudentFindsConnection | packages/control-plane/src/runtime/guacamole.ts:137-183 | Reading the rendered file finds, for every complete row with a host, its user and password and an RDP connection of its id to that host and port, if no value needs normalising. |
| LockStep.EscapeIsMap | packages/control-plane/src/runtime/guacamole.ts:107-114 | The five sequential replacements equal mapping each character once. |
| LockStep.LexEscaped | packages/control-plane/src/runtime/guacamole.ts:107-114 | A reader gets an escaped text back up to end-of-line normalisation. |
| MappingRoundTrip.BlockIsEntry | packages/control-plane/src/runtime/guacamole.ts:142-178 | The block written for a row is the one its JDBC row calls for. |
| MappingReadBack.ReadBack | packages/control-plane/src/runtime/guacamole.ts:137-183 | Reading any rendered file back yields the JDBC connections, each value as an XML reader normalises it. |
| MappingReadBack.LockStepExactly | packages/control-plane/src/runtime/guacamole.ts:137-183 | The file read back is, connection by connection and parameter by parameter, what the JDBC path inserts if and only if no value holds a character that sections 2.11 and 3.3.3 of XML 1.0 normalise. |
| RegenChain.StepInLine | packages/control-plane/src/runtime/guacamole.ts:292-313 | Every commit, call, start, read, write and failure keeps the calls in one line of which only a settled prefix is followed by a started call. |
| RegenChain.StepFresh | packages/control-plane/src/runtime/guacamole.ts:292-371 | Every step keeps snapshots no older than the call that took them, and the file equal to the latest written snapshot. |
| RegenChain.RunSound | packages/control-plane/src/runtime/guacamole.ts:292-371 | Both invariants hold over every run. |
| RegenGuarantees.StartsInCallOrder | packages/control-plane/src/runtime/guacamole.ts:304-313 | In every run, failures included: when a call starts, every earlier call has settled, and none of them starts later. |
| RegenGuarantees.AtMostOneRunning | packages/control-plane/src/runtime/guacamole.ts:304-313 | At every point of every run at most one call is between its start and its settling. |
| RegenGuarantees.LatestCommitterWins | packages/control-plane/src/runtime/guacamole.ts:274-313 | If the last call was made after the last commit and succeeded, the file is the rendering of the current database, whatever ran before. |
| RegenGuarantees.SuccessIsVisible | packages/control-plane/src/runtime/guacamole.ts:284-313 | Once a call succeeded, the file shows a state at least as new as the one its caller had committed, for good. |
| RegenGuarantees.WritesNeverGoBack | packages/control-plane/src/runtime/guacamole.ts:277-282 | The snapshots written to disk only ever get newer. |
| RegenGuarantees.NeverStuck | packages/control-plane/src/runtime/guacamole.ts:308-313 | However calls have failed, an unsettled call means that a step that makes progress is enabled. |
| RegenGuarantees.EveryCallSettles | packages/control-plane/src/runtime/guacamole.ts:308-313 | Without new calls a run is bounded, and can be extended until every promise is settled. |
| GuacamoleJdbc.UpsertEffect | packages/control-plane/src/runtime/guacamoleJdbc.ts:107-188 | One upsert writes one user, one connection and one permission, reuses their ids if they exist, changes nothing else, and leaves the flags of an existing login alone. |
| GuacamoleJdbc.NewUserCanLogIn | packages/control-plane/src/runtime/guacamoleJdbc.ts:111-131 | A user the database did not have has, after the upsert, a login with the row's password that is neither disabled nor expired. |
| GuacamoleJdbc.ConnectionIsSingleSession | packages/control-plane/src/runtime/guacamoleJdbc.ts:136-179 | The row's connection, new or old, is top-level RDP with the row's parameters and one session at a time, in all and per user. |
| GuacamoleJdbc.UpsertAllConns | packages/control-plane/src/runtime/guacamoleJdbc.ts:222-226 | After all upserts every old connection has its old id, with the parameters of the last row naming it, and new ids are new. |
| GuacamoleJdbc.UpsertAllUsers | packages/control-plane/src/runtime/guacamoleJdbc.ts:111-131 | Users named by rows get the last such row's password; nobody else changes. |
| GuacamoleJdbc.UpsertAllGrants | packages/control-plane/src/runtime/guacamoleJdbc.ts:181-186 | Exactly the pairs of the rows are granted READ. |
| GuacamoleJdbc.LastRow | packages/control-plane/src/runtime/guacamoleJdbc.ts:222-226 | The row that decides a connection is one of the given rows, and is missing only if none names it. |
| GuacamoleProvisioner.Provisioner.UpsertEntity | packages/control-plane/src/runtime/guacamoleJdbc.ts:111-131 | Entity and login, with the serial drawn even on conflict; a new login is neither disabled nor expired. |
| GuacamoleProvisioner.Provisioner.WriteConnection | packages/control-plane/src/runtime/guacamoleJdbc.ts:136-163 | Look-up by name, then update or insert. |
| GuacamoleProvisioner.Provisioner.RebuildParams | packages/control-plane/src/runtime/guacamoleJdbc.ts:165-179 | The parameter rows are deleted and inserted again one by one. |
| GuacamoleProvisioner.Provisioner.UpsertConnection | packages/control-plane/src/runtime/guacamoleJdbc.ts:107-189 | The whole upsert, answering the id of the connection of that name. |
| GuacamoleProvisioner.Provisioner.SyncGuacConnections | packages/control-plane/src/runtime/guacamoleJdbc.ts:212-275 | Commit: all upserts, then the prune. Rollback: the tables as before, only the serials moved. No-op when not configured. |
| GuacamoleProvisioner.Provisioner.Prune | packages/control-plane/src/runtime/guacamoleJdbc.ts:227-262 | The keep sets and the two deletions, with their branches for empty lists. |
| GuacamoleProvisioner.Provisioner.GetGuacConnectionId | packages/control-plane/src/runtime/guacamoleJdbc.ts:278-289 | The id of the one top-level connection of that name, or null. |
| GuacamoleJdbc.SyncKeeps | packages/control-plane/src/runtime/guacamoleJdbc.ts:212-262 | A committed sync keeps at most one row per top-level name. |
| StableIds.NamesAfterCommit | packages/control-plane/src/runtime/guacamoleJdbc.ts:227-247 | After a commit the names are exactly (old or upserted) and in the keep set. |
| StableIds.KeptNameKeepsId | packages/control-plane/src/runtime/guacamoleJdbc.ts:197-207 | A kept name keeps its id, whether or not it was among the rows. |
| StableIds.RowServed | packages/control-plane/src/runtime/guacamoleJdbc.ts:107-188 | Each row of a committed sync has its user with the right password, not disabled or expired if the user had no login before, its connection with the right parameters, and the permission between them. |
| StableIds.OtherAccountsUntouched | packages/control-plane/src/runtime/guacamoleJdbc.ts:249-262 | Exactly the `lab-` users outside the keep set are deleted; users no row names are not rewritten. |
| StableIds.SyncDeletes | packages/control-plane/src/runtime/guacamoleJdbc.ts:227-262 | Exactly which connections and which entities a committed sync deletes, in the fields of the rows. |
| StableIds.NestedConnectionsUntouched | packages/control-plane/src/runtime/guacamoleJdbc.ts:227-247 | Connections inside a group are not touched at all. |
| StableIds.RunKeeps | packages/control-plane/src/runtime/guacamoleJdbc.ts:212-275 | One row per top-level name at every point of every history, rolled-back syncs included. |
| StableIds.StableIdIff | packages/control-plane/src/runtime/guacamoleJdbc.ts:197-207 | A connection has the same id at the end of any history as at its start if and only if every commit in it kept the name. |
| StableIds.DroppedForGood | packages/control-plane/src/runtime/guacamoleJdbc.ts:227-247 | A name outside one keep set loses its id, and no later sync brings that id back. |
| StableIds.OldIdKeepsName | packages/control-plane/src/runtime/guacamoleJdbc.ts:146-163 | An id handed out earlier keeps its name and does not come back once deleted. |
| StableIds.NoIdForTwoNames | packages/control-plane/src/runtime/guacamoleJdbc.ts:146-163 | Two sightings of an id anywhere in a history are of the same name. |
| StableIds.RepeatedSync | packages/control-plane/src/runtime/guacamoleJdbc.ts:190-196 | Running a sync again changes only password hash, salt and date (and the entity serial). |
| StableIds.CollectRows | packages/control-plane/src/runtime/guacamole.ts:326-341 | The query and the loop keep exactly the instances with a user that have not ended and whose template spec parses. |
| StableIds.RegenerationKeepsParsed | packages/control-plane/src/runtime/guacamole.ts:326-363 | The names a regeneration keeps are those of the instances with a user, neither terminated nor failed, whose template spec parses, renderable or not. |
| StableIds.RegenerationKeepsUsers | packages/control-plane/src/runtime/guacamole.ts:352-363 | The users it keeps are the non-empty ones of these instances. |
| StableIds.KeepsConnectionIffParsed | packages/control-plane/src/runtime/guacamole.ts:326-363 | An instance keeps its connection id through any regenerations if and only if at every committed one it had a user, was neither terminated nor failed (paused is fine), and its spec parsed. |
| StableIds.UnparsedLosesConnection | packages/control-plane/src/runtime/guacamole.ts:333-341 | A live instance whose spec does not parse loses its connection at the next commit. |
| PreparePool.StepKeeps | packages/control-plane/src/routes/batches.ts:604-645 | Every step of any worker keeps the books of seats and counters. |
| PreparePool.NothingLost | packages/control-plane/src/routes/batches.ts:599-645 | At every point of every interleaving each seat was taken at most once and in order, at most min(concurrency, total) are in flight, and queue, in-flight and the four counters add up to the total. |
| PreparePool.CompletionCounts | packages/control-plane/src/routes/batches.ts:639-647 | When all workers have returned, every seat has exactly one outcome and the four counters add up to the total. |
| PreparePool.PrepareAnswers | packages/control-plane/src/routes/batches.ts:608-647 | At completion `skipped` is the number of launches whose instance was ready, idle, provisioning or pending; `resumed` is that of the paused ones with a container, up to failures; the rest was prepared or failed. |
| PreparePool.PoolFinishes | packages/control-plane/src/routes/batches.ts:604-641 | Every interleaving is bounded and ends only with all workers returned. |
| PreparePool.Preparation.Loop | packages/control-plane/src/routes/batches.ts:606-616 | From the loop test to the next await. |
| PreparePool.Preparation.AwaitSettled | packages/control-plane/src/routes/batches.ts:611-638 | What is counted when an await settles or throws. |
| LaunchTokens.StaysDead | packages/control-plane/src/routes/redeem.ts:77-82 | No operation brings back a jti that is not the stored one. |
| LaunchTokens.SupersededNeverRedeems | packages/control-plane/src/routes/launches.ts:148-206 | A replaced or cleared jti never redeems again over any run with fresh jtis. |
| LaunchTokens.Supersedes | packages/control-plane/src/routes/batches.ts:264-276 | The operations that kill a live jti are regenerate, revoke, batch terminate, and the batch revocation of seats not redeemed yet; no others. |
| LaunchTokens.OpKeepsSound | packages/control-plane/src/routes/redeem.ts:108-148 | Every operation keeps: the open generation of an unredeemed launch is unbilled, and no generation is billed twice. |
| LaunchTokens.OpKeepsPaid | packages/control-plane/src/routes/redeem.ts:92-148 | Every atomic operation keeps: a redeemed launch that still has a jti has been billed for it. |
| LaunchTokens.BilledIffRedeemed | packages/control-plane/src/routes/redeem.ts:92-148 | Over any run of atomic operations a generation is billed if and only if it is redeemed in it. |
| LaunchTokens.EachGenerationBilledOnce | packages/control-plane/src/routes/redeem.ts:92-148 | From an empty database a generation is billed if and only if it was redeemed, and never twice. |
| LaunchTokens.BillingBound | packages/control-plane/src/routes/launches.ts:186-206 | `launch_redeemed` events of a launch number at most one plus its regenerations. |
| OverlappingRedeems.StepKeeps | packages/control-plane/src/routes/redeem.ts:66-148 | Checks and landings of redeems interleaved with every other operation keep the books of events and flights. |
| OverlappingRedeems.CheckAndLandIsRedeem | packages/control-plane/src/routes/redeem.ts:66-148 | A check that lands at once is the atomic redeem. |
| OverlappingRedeems.SettleWrites | packages/control-plane/src/routes/redeem.ts:113-122 | What a landing redeem writes to the launch as it then is: instance, redemption time, and nothing else. |
| OverlappingRedeems.EventsAreLandings | packages/control-plane/src/routes/redeem.ts:113-148 | At every point a generation has as many events as landed redeems that saw it unredeemed. |
| OverlappingRedeems.BilledOnceIff | packages/control-plane/src/routes/redeem.ts:66-148 | A generation is billed at most once if and only if no two redeems that both get an instance saw it unredeemed with the one checked while the other was under way. |
| OverlappingRedeems.BilledOnceIffNoRivals | packages/control-plane/src/routes/redeem.ts:66-148 | When every redeem gets its instance: if and only if none is checked while a rival is still to land. |
| OverlappingRedeems.TwoChecksBillTwice | packages/control-plane/src/routes/redeem.ts:66-148 | Two redeems of an unredeemed launch that are both checked before either lands bill it twice. |
| OverlappingRedeems.PaidThroughoutIff | packages/control-plane/src/routes/redeem.ts:106-148 | Throughout a history every redeemed generation has been billed if and only if no redeem lands on a newer, unredeemed generation than the one it checked. |
| OverlappingRedeems.LostForGood | packages/control-plane/src/routes/redeem.ts:113-148 | A redeemed generation without an event, that no redeem under way saw unredeemed, is never billed, however the history goes on. |
| OverlappingRedeems.RegenerateMeetsRedeem | packages/control-plane/src/routes/launches.ts:186-206 | A regenerate while a redeem of the old URL is under way: that redeem uses up the new generation unbilled. |
| LaunchTokens.LaunchStore.SignLaunchToken | packages/control-plane/src/auth/jwt.ts:19-40 | Expiry is whole seconds from now, on the token and on the row. |
| LaunchTokens.LaunchStore.CreateLaunch | packages/control-plane/src/routes/launches.ts:80-112 | The new token is admitted at once. |
| LaunchTokens.LaunchStore.PreviewUrl | packages/control-plane/src/routes/launches.ts:322-362 | A short-lived token with the current jti; no row changes, and a revoked launch gets none. |
| LaunchTokens.LaunchStore.RegenerateLaunch | packages/control-plane/src/routes/launches.ts:166-209 | Answers a token exactly for a launch of the tenant; it is admitted, and redeemedAt is cleared. |
| LaunchTokens.LaunchStore.RevokeLaunch | packages/control-plane/src/routes/launches.ts:138-153 | Succeeds exactly for a launch of the tenant, and then no token of it is admitted. |
| LaunchTokens.LaunchStore.PrepareLaunch | packages/control-plane/src/routes/launches.ts:224-268 | Succeeds exactly for an unexpired launch of the tenant with an instance to reuse or acquire; redeemedAt and jti stay. |
| LaunchTokens.LaunchStore.RedeemLaunch | packages/control-plane/src/routes/redeem.ts:64-148 | Reply, row and event of a redeem in each of its branches, the row field by field. |
| LaunchTokens.RedeemAnswers | packages/control-plane/src/routes/redeem.ts:66-111 | Which answer a redeem gives, in the order of the checks, each exactly when. |
| LaunchTokens.RedeemWrites | packages/control-plane/src/routes/redeem.ts:113-122 | After a redeem that was let in the launch has the reused or acquired instance, its first redemption time, and jti and expiry as before; no other launch changes. |
| LaunchTokens.NextVisitReuses | packages/control-plane/src/routes/redeem.ts:92-122 | As long as its instance is alive the next visit is let in without acquiring anything, and changes nothing. |
| LaunchTokens.PreparedIsUsed | packages/control-plane/src/routes/redeem.ts:92-148 | A prepared launch is redeemed with the prepared instance, and that first visit is billed. |
| LaunchTokens.LaunchStore.RevokeUnredeemedSeats | packages/control-plane/src/routes/batches.ts:264-276 | Exactly the unredeemed seats of the batch are revoked and counted. |
| LaunchTokens.LaunchStore.RevokeBatch | packages/control-plane/src/routes/batches.ts:400-408 | No token of any seat of the batch is admitted afterwards, and no other launch changes. |
| LaunchTokens.LaunchStore.ExtendSeats | packages/control-plane/src/routes/batches.ts:412-460 | Expiry moves for every seat, a revoked seat stays revoked, and a batch without seats is not found. |
| GuacCodec.HangMeansUnchanged | packages/control-plane/scripts/guacConcurrencyProof.mjs:31-39 | The inner loop only fails to make progress by coming back to the same remainder. |
| GuacCodec.ParseIntDecimal | packages/control-plane/scripts/guacConcurrencyProof.mjs:34 | The decimal length prefix is read back exactly. |
| GuacCodec.ByteLengthCounts | packages/control-plane/scripts/guacConcurrencyProof.mjs:17 | The length prefix of an element is the number of bytes of its UTF-8 form (section 3 of RFC 3629). |
| GuacCodec.Parser.ParseElements | packages/control-plane/scripts/guacConcurrencyProof.mjs:31-40 | The inner loop, with NaN, negative and oversized lengths, and whether it ends. |
| GuacCodec.Parser.Feed | packages/control-plane/scripts/guacConcurrencyProof.mjs:24-43 | One call consumes the chunk and leaves the rest buffered. |
| GuacCodec.RestLacksSemicolon | packages/control-plane/scripts/guacConcurrencyProof.mjs:26-28 | What stays buffered never contains a semicolon. |
| GuacCodec.ChunkingIrrelevant | packages/control-plane/scripts/guacConcurrencyProof.mjs:23-43 | Any stream cut in any way gives the instructions of the stream in one piece, a hang included. |
| GuacCodec.BodyRoundTrip | packages/control-plane/scripts/guacConcurrencyProof.mjs:16-40 | The inner loop reads an encoded body back exactly when every element before the last is ASCII. |
| GuacCodec.RoundTripExactly | packages/control-plane/scripts/guacConcurrencyProof.mjs:16-43 | A stream of encoded instructions comes back unchanged if and only if each is non-empty, free of semicolons, and ASCII before its last element. |
| GuacCodec.ChunkedRoundTrip | packages/control-plane/scripts/guacConcurrencyProof.mjs:16-43 | The same under any chunking. |
| DockerLogs.ReadsBack | packages/control-plane/src/runtime/docker.ts:570 | The 32-bit big-endian length is read back. |
| DockerLogs.DemuxDockerLogs | packages/control-plane/src/runtime/docker.ts:559-578 | The scan with its early exits; always in bounds and advancing. |
| DockerLogs.WholeFramesFit | packages/control-plane/src/runtime/docker.ts:573 | The number of whole frames in a prefix is the largest number that fits. |
| DockerLogs.PrefixGivesWholeFrames | packages/control-plane/src/runtime/docker.ts:559-578 | Any byte prefix gives the payloads of exactly the frames that are whole in it. |
| DockerLogs.DemuxInvertsFraming | packages/control-plane/src/runtime/docker.ts:555-578 | Demultiplexing a framed stream gives all the payloads. |
| DockerLogs.UnframedReturnedIff | packages/control-plane/src/runtime/docker.ts:555-569 | Output that does not start like a frame is returned as it is exactly if it has at least eight bytes. |
| DockerLogs.UnframedTail | packages/control-plane/src/runtime/docker.ts:564-569 | Unframed bytes after frames turn the whole answer raw, again only from eight bytes on. |
| DockerLogs.CappedWriter.Write | packages/control-plane/src/runtime/docker.ts:440-457 | However exec output is cut into chunks, what is held is its first `maxBytes` bytes. |
| CostReport.ClippedIsAliveTime | packages/control-plane/src/routes/reports.ts:424-430 | Clipping measures exactly the milliseconds of the window in which the instance was alive. |
| CostReport.FilterLosesNothing | packages/control-plane/src/routes/reports.ts:350-369 | An instance the three-way filter drops has no time in the window, whatever the window. |
| CostReport.TotalTimeAdds | packages/control-plane/src/routes/reports.ts:419-433 | Template totals over adjacent windows add up for a fixed `now`. |
| CostReport.CostAdds | packages/control-plane/src/routes/reports.ts:419-433 | So does the unrounded cost. |
| CostReport.CostRows | packages/control-plane/src/routes/reports.ts:419-433 | The loop over the chosen instances yields per template the true time of all its claimed instances, and that time at its rate. |
| CostReport.InstanceAdds | packages/control-plane/src/routes/reports.ts:421-431 | An instance adds the time from its creation to its end, or to now while it has none, as far as it lies in the window; prewarmed ones add nothing. |
| CostReport.InstanceListed | packages/control-plane/src/routes/reports.ts:350-369 | It is listed exactly when its lifetime touches the window. |
| CostReport.HourCostsRate | packages/control-plane/src/routes/reports.ts:429-432 | An hour costs the rate. |

## Left out

- Docker, SSH, Postgres, Redis, HTTP and WebSocket calls; their answers are parameters.
- JWT signatures, SHA-256, salts and random strings; a token is admitted only if it was signed, and a stored hash is a
  function of password and salt.
- The admin UI, route validation, configuration parsing, templates, the health poller, the prewarm sweeper, automated
  grading and the other reports: they would add only easy members.
- The redemption counts, revenue and margin of the cost report, which are a count times a price.
- The wildcard proxy, and with it the activity stamp of each student request; `Grace` is about labs nobody has visited since.
- Rounding of hours and dollars, floating point, and `String(n)` for numbers other than natural ones.
- Linked clones (overlay directories), readiness probes and the warming page.
- What is left on the host after a failed provision: the cleanup reads a container id the row does not have yet.
- Lifecycle operations overlapping on one row: each is one step that writes its row and emits its event at one instant.
  Usage events are assumed to be stored.
- NodePlacement.ResolveNodeForProvision: takes the node table in the order the database returns it; which of several
  default nodes is found first is that order's choice.
- RingScheduler.Fairness: is about fixed candidate sets; a node that joins or leaves a pool starts a new run.
- InFlight.BoundedOvershoot: the node table does not change during the run.
- PoolKeys.PoolKeyIdentifiesPool: compares strings by Unicode scalar values, which decides the sorted order only.
- MeteringExact.MetersExactlyIffClean: is for clocks that tick between steps; `Metering.MeteringAgrees` needs no ticks.
- Acquire.OneLiveThroughoutIff: acquires are one at a time; OverlappingAcquires has the interleaved ones. There, a look that
  finds a row extends it in the same step.
- Backlog.DrainsIff: is at one time with no new rows; rows that become due meanwhile only lengthen the backlog.
- Volumes.OneHomeForever: a provision is one step, so two provisions of one volume do not overlap.
- RegenGuarantees.LatestCommitterWins: a remote write is one step that may fail before or after the file was moved; the JDBC
  sync at the end of a run is in `StableIds`.
- GuacamoleProvisioner.Provisioner.SyncGuacConnections: fails between rows; a failure inside a row differs only in how
  far the serials moved, which `StableIds` leaves open. Syncs do not overlap, as the promise chain guarantees.
- PortDrift.Reconciler.ReconcileActiveInstanceNetworkingDrift: no other writer changes the rows during a pass, and database
  updates do not fail. The mapping is what was last rendered for rows with credentials, renderable or not.
- LaunchTokens.BillingBound: redeems are atomic; OverlappingRedeems has the interleaved ones. Deleting a batch and its
  launches is not modelled.
- GuacCodec.RoundTripExactly: characters outside the Basic Multilingual Plane count as one character, not as two.
- MappingReadBack.LockStepExactly: the reader covers the markup the file uses and does not check which characters XML
  1.0 allows; the text is not encoded to UTF-8.
- DockerLogs.DemuxDockerLogs: yields bytes; decoding them to text is left out.
