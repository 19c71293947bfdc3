/**
 What the lifecycle operations leave for the reaper to read (packages/control-plane/src/orchestrator.ts:239-282, 550-561,
 718-737, 770-778, 851-861; reaper.ts:48-136): how long a lab is safe after each of them, and which rows a tick changes.
 */
module Grace {
  import opened Prelude
  import opened Lifecycle
  import opened Reaper

  /** A lab that was just provisioned, resumed or restarted is idle from `idle` after that on, not before. */
  lemma ActivationGrantsIdleTime(s: State, a: Action, now: int, later: int, idle: nat, hard: nat)
    requires a.id in s.rows
    requires match a
             case FinishProvision(id) => s.rows[id].provisioning
             case Resume(id) => s.rows[id].hasRuntime
             case Restart(id) => s.rows[id].hasRuntime
             case _ => false
    ensures var r := Apply(s, now, a).rows[a.id];
            && r.status == Ready
            && (Due(Inactivity, r, later, idle, hard) <==> !s.rows[a.id].isPrewarm && later > now + idle)
            && !Due(HardInactivity, r, later, idle, hard)
  {
  }

  /** A suspended lab is forgotten from `hard` after that on, and not idle any more. */
  lemma SuspensionGrantsHardTime(s: State, id: string, now: int, later: int, idle: nat, hard: nat)
    requires id in s.rows && s.rows[id].hasRuntime && s.rows[id].status !in {Paused, Terminated, Failed}
    ensures var r := Apply(s, now, Suspend(id)).rows[id];
            && r.status == Paused
            && (Due(HardInactivity, r, later, idle, hard) <==> !s.rows[id].isPrewarm && later > now + hard)
            && !Due(Inactivity, r, later, idle, hard)
  {
  }

  /**
   A claim grants nothing: the lab counts as idle from its last activity in the warm pool on, so one that waited there
   for `idle` is due the moment it is claimed.
   */
  lemma ClaimGrantsNoIdleTime(s: State, id: string, expiresAt: int, now: int, later: int, idle: nat, hard: nat)
    requires id in s.rows && s.rows[id].isPrewarm && s.rows[id].status == Ready
    ensures var r := Apply(s, now, Action.ClaimPrewarm(id, expiresAt)).rows[id];
            && (Due(Inactivity, r, later, idle, hard) <==>
                  (if s.rows[id].lastActivityAt.Some? then s.rows[id].lastActivityAt.value else s.rows[id].createdAt) + idle < later)
            && (Due(Expiry, r, later, idle, hard) <==> expiresAt < later)
  {
  }

  /** A destroyed row is never due again. */
  lemma DestroyedNeverDue(s: State, id: string, rule: Rule, now: int, later: int, idle: nat, hard: nat)
    requires id in s.rows
    ensures !Due(rule, Apply(s, now, Destroy(id)).rows[id], later, idle, hard)
  {
  }

  // ---------- a tick, in the fields of the rows ----------

  /** The rows after the three phases. */
  function TickEnd(s: State, a1: seq<Action>, a2: seq<Action>, a3: seq<Action>, now: int): State {
    ApplyAll(ApplyAll(ApplyAll(s, now, a1), now, a2), now, a3)
  }

  /** Past its expiry, claimed and not over: terminated, if at most a batch of such rows is waiting and its node answers. */
  lemma TickTerminatesExpired(s: State, a1: seq<Action>, a2: seq<Action>, a3: seq<Action>,
                              now: int, idle: nat, hard: nat, down: set<string>, id: string)
    requires Ticked(s, a1, a2, a3, now, idle, hard, down) && id in s.rows && id !in down
    requires !s.rows[id].isPrewarm && s.rows[id].expiresAt < now && s.rows[id].status !in {Terminated, Terminating, Failed}
    requires |set k | k in s.rows && !s.rows[k].isPrewarm && s.rows[k].expiresAt < now
                      && s.rows[k].status !in {Terminated, Terminating, Failed}| <= 50
    ensures id in TickEnd(s, a1, a2, a3, now).rows && TickEnd(s, a1, a2, a3, now).rows[id].status == Terminated
  {
    hide Ticked, ApplyAll, Reaped;
    assert DueIds(Expiry, s.rows, now, idle, hard) == set k | k in s.rows && !s.rows[k].isPrewarm && s.rows[k].expiresAt < now
                                                          && s.rows[k].status !in {Terminated, Terminating, Failed};
    TickRow(s, a1, a2, a3, now, idle, hard, down, id);
  }

  /** Ready or idle, claimed and untouched since before `now - idle`, from its creation if never touched: suspended. */
  lemma TickSuspendsIdle(s: State, a1: seq<Action>, a2: seq<Action>, a3: seq<Action>,
                         now: int, idle: nat, hard: nat, down: set<string>, id: string)
    requires Ticked(s, a1, a2, a3, now, idle, hard, down) && id in s.rows && id !in down && s.rows[id].hasRuntime
    requires !s.rows[id].isPrewarm && s.rows[id].status in {Ready, Idle}
    requires (if s.rows[id].lastActivityAt.Some? then s.rows[id].lastActivityAt.value else s.rows[id].createdAt) < now - idle
    requires |set k | k in s.rows && !s.rows[k].isPrewarm && s.rows[k].status in {Ready, Idle}
                      && (if s.rows[k].lastActivityAt.Some? then s.rows[k].lastActivityAt.value else s.rows[k].createdAt)
                         < now - idle| <= 50
    ensures id in TickEnd(s, a1, a2, a3, now).rows && TickEnd(s, a1, a2, a3, now).rows[id].status in {Paused, Terminated}
  {
    hide Ticked, ApplyAll, Reaped;
    assert DueIds(Inactivity, s.rows, now, idle, hard) ==
           set k | k in s.rows && !s.rows[k].isPrewarm && s.rows[k].status in {Ready, Idle}
                   && (if s.rows[k].lastActivityAt.Some? then s.rows[k].lastActivityAt.value else s.rows[k].createdAt)
                      < now - idle;
    TickRow(s, a1, a2, a3, now, idle, hard, down, id);
  }

  /** Paused, claimed and suspended before `now - hard`: terminated. */
  lemma TickTerminatesForgotten(s: State, a1: seq<Action>, a2: seq<Action>, a3: seq<Action>,
                                now: int, idle: nat, hard: nat, down: set<string>, id: string)
    requires Ticked(s, a1, a2, a3, now, idle, hard, down) && id in s.rows && id !in down
    requires !s.rows[id].isPrewarm && s.rows[id].status == Paused
    requires s.rows[id].suspendedAt.Some? && s.rows[id].suspendedAt.value < now - hard
    requires |set k | k in s.rows && !s.rows[k].isPrewarm && s.rows[k].status == Paused
                      && s.rows[k].suspendedAt.Some? && s.rows[k].suspendedAt.value < now - hard| <= 50
    ensures id in TickEnd(s, a1, a2, a3, now).rows && TickEnd(s, a1, a2, a3, now).rows[id].status == Terminated
  {
    hide Ticked, ApplyAll, Reaped;
    assert DueIds(HardInactivity, s.rows, now, idle, hard) ==
           set k | k in s.rows && !s.rows[k].isPrewarm && s.rows[k].status == Paused
                   && s.rows[k].suspendedAt.Some? && s.rows[k].suspendedAt.value < now - hard;
    TickRow(s, a1, a2, a3, now, idle, hard, down, id);
  }

  /** Everything else is left as it was: warm rows, dead rows, and labs within all three limits. */
  lemma TickSparesTheRest(s: State, a1: seq<Action>, a2: seq<Action>, a3: seq<Action>,
                          now: int, idle: nat, hard: nat, down: set<string>, id: string)
    requires Ticked(s, a1, a2, a3, now, idle, hard, down) && id in s.rows
    requires var r := s.rows[id];
             || r.isPrewarm
             || r.status in {Terminated, Terminating, Failed}
             || (r.expiresAt >= now
                 && (r.status in {Ready, Idle} ==>
                       (if r.lastActivityAt.Some? then r.lastActivityAt.value else r.createdAt) >= now - idle)
                 && (r.status == Paused && r.suspendedAt.Some? ==> r.suspendedAt.value >= now - hard))
    ensures id in TickEnd(s, a1, a2, a3, now).rows && TickEnd(s, a1, a2, a3, now).rows[id] == s.rows[id]
  {
    hide Ticked, ApplyAll;
    TickRow(s, a1, a2, a3, now, idle, hard, down, id);
  }
}
