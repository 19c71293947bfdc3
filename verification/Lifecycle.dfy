/**
 The instance lifecycle of packages/control-plane/src/orchestrator.ts: LabInstance rows and the usage events their
 transitions emit. Each operation is one step of a logical clock; an operation that throws before its row update,
 or that its own guard turns away, changes nothing.
 */
module Lifecycle {
  import opened Prelude
  import opened UsageReplay

  /** `provisioning`: the provisionNew call for this row has not returned yet. */
  datatype Row = Row(tmpl: string, status: Status, isPrewarm: bool, hasRuntime: bool, provisioning: bool,
                     createdAt: int, expiresAt: int, lastActivityAt: Option<int>, suspendedAt: Option<int>)

  datatype State = State(rows: map<string, Row>, events: seq<Event>)

  datatype Action =
    | BeginProvision(id: string, tmpl: string, isPrewarm: bool, expiresAt: int)
    | FinishProvision(id: string)
    | FailProvision(id: string)
    | ClaimPrewarm(id: string, expiresAt: int)
    | Suspend(id: string)
    | Resume(id: string)
    | Restart(id: string)
    | Destroy(id: string)

  function Emit(s: State, id: string, kind: Kind, now: int): State
    requires id in s.rows
  {
    s.(events := s.events + [EventFor(s, id, kind, now)])
  }

  function EventFor(s: State, id: string, kind: Kind, now: int): Event
    requires id in s.rows
  {
    Event(id, Some(s.rows[id].tmpl), kind, now)
  }

  /** At most the row `id` is new or different. */
  ghost predicate OnlyRow(before: State, after: State, id: string) {
    forall k :: k != id ==> (k in after.rows <==> k in before.rows) && (k in before.rows ==> after.rows[k] == before.rows[k])
  }

  function Put(s: State, id: string, row: Row): State {
    s.(rows := s.rows[id := row])
  }

  /** The guard each operation applies to the row it reads. */
  predicate Accepts(s: State, a: Action) {
    match a
    case BeginProvision(id, _, _, _) => id !in s.rows
    case FinishProvision(id) => id in s.rows && s.rows[id].provisioning
    case FailProvision(id) => id in s.rows && s.rows[id].provisioning
    case ClaimPrewarm(id, _) => id in s.rows && s.rows[id].isPrewarm && s.rows[id].status == Ready
    case Suspend(id) =>
      id in s.rows && s.rows[id].hasRuntime && s.rows[id].status !in {Paused, Terminated, Failed}
    case Resume(id) => id in s.rows && s.rows[id].hasRuntime
    case Restart(id) => id in s.rows && s.rows[id].hasRuntime
    case Destroy(id) => id in s.rows
  }

  function Apply(s: State, now: int, a: Action): State {
    if !Accepts(s, a) then s else
    match a
    case BeginProvision(id, tmpl, isPrewarm, expiresAt) =>
      Put(s, id, Row(tmpl, Provisioning, isPrewarm, false, true, now, expiresAt, None, None))
    case FinishProvision(id) =>
      var r := s.rows[id];
      var s' := Put(s, id, r.(status := Ready, hasRuntime := true, provisioning := false, lastActivityAt := Some(now)));
      if r.isPrewarm then s' else Emit(s', id, InstanceReady, now)
    case FailProvision(id) =>
      Put(s, id, s.rows[id].(status := Failed, provisioning := false))
    case ClaimPrewarm(id, expiresAt) =>
      Emit(Put(s, id, s.rows[id].(isPrewarm := false, expiresAt := expiresAt)), id, InstanceReady, now)
    case Suspend(id) =>
      Emit(Put(s, id, s.rows[id].(status := Paused, suspendedAt := Some(now))), id, InstancePaused, now)
    case Resume(id) =>
      Emit(Put(s, id, s.rows[id].(status := Ready, suspendedAt := None, lastActivityAt := Some(now))),
           id, InstanceResumed, now)
    case Restart(id) =>
      Put(s, id, s.rows[id].(status := Ready, suspendedAt := None, lastActivityAt := Some(now)))
    case Destroy(id) =>
      Emit(Put(s, id, s.rows[id].(status := Terminated)), id, InstanceTerminated, now)
  }

  const Empty := State(map[], [])

  class Orchestrator {
    var rows: map<string, Row>
    var events: seq<Event>

    ghost function View(): State
      reads this
    {
      State(rows, events)
    }

    constructor ()
      ensures View() == Empty
    {
      rows, events := map[], [];
    }

    method EmitUsage(id: string, kind: Kind, now: int)
      requires id in rows
      modifies `events
      ensures View() == Emit(old(View()), id, kind, now)
    {
      events := events + [Event(id, Some(rows[id].tmpl), kind, now)];
    }

    /** `provisionNew` up to the point where the row is visible to the scheduler. */
    method BeginProvision(id: string, tmpl: string, isPrewarm: bool, expiresAt: int, now: int)
      requires id !in rows
      modifies this
      ensures View() == Apply(old(View()), now, Action.BeginProvision(id, tmpl, isPrewarm, expiresAt))
      ensures OnlyRow(old(View()), View(), id) && events == old(events)
      ensures id in rows && rows[id] == Row(tmpl, Provisioning, isPrewarm, false, true, now, expiresAt, None, None)
    {
      rows := rows[id := Row(tmpl, Provisioning, isPrewarm, false, true, now, expiresAt, None, None)];
    }

    /** The rest of `provisionNew`, with or without success of the runtime. Only a claimed success is metered. */
    method CompleteProvision(id: string, ok: bool, now: int)
      requires id in rows && rows[id].provisioning
      modifies this
      ensures View() == Apply(old(View()), now, if ok then FinishProvision(id) else FailProvision(id))
      ensures OnlyRow(old(View()), View(), id) && id in rows && !rows[id].provisioning
      ensures rows[id] == if ok then old(rows)[id].(status := Ready, hasRuntime := true, provisioning := false,
                                                    lastActivityAt := Some(now))
                          else old(rows)[id].(status := Failed, provisioning := false)
      ensures events == old(events) + if ok && !rows[id].isPrewarm
                                      then [Event(id, Some(rows[id].tmpl), InstanceReady, now)] else []
    {
      var isPrewarm := rows[id].isPrewarm;
      if !ok {
        rows := rows[id := rows[id].(status := Failed, provisioning := false)];
        return;
      }
      rows := rows[id := rows[id].(status := Ready, hasRuntime := true, provisioning := false, lastActivityAt := Some(now))];
      if !isPrewarm {
        EmitUsage(id, InstanceReady, now);
      }
    }

    /** One conditional UPDATE over the warm pool; `picked` is the row the database locked, if any matched. */
    method ClaimPrewarm(picked: string, expiresAt: int, now: int) returns (claimed: bool)
      modifies this
      ensures claimed == Accepts(old(View()), Action.ClaimPrewarm(picked, expiresAt))
      ensures View() == Apply(old(View()), now, Action.ClaimPrewarm(picked, expiresAt))
      ensures OnlyRow(old(View()), View(), picked) && (!claimed ==> View() == old(View()))
      ensures claimed <==> picked in old(rows) && old(rows)[picked].isPrewarm && old(rows)[picked].status == Ready
      ensures claimed ==> rows[picked] == old(rows)[picked].(isPrewarm := false, expiresAt := expiresAt)
                          && events == old(events) + [Event(picked, Some(rows[picked].tmpl), InstanceReady, now)]
    {
      claimed := picked in rows && rows[picked].isPrewarm && rows[picked].status == Ready;
      if claimed {
        rows := rows[picked := rows[picked].(isPrewarm := false, expiresAt := expiresAt)];
        EmitUsage(picked, InstanceReady, now);
      }
    }

    /** `runtimeOk`: the node's client can be built and the container stopped; otherwise the call throws. */
    method SuspendInstance(id: string, runtimeOk: bool, now: int) returns (threw: bool)
      modifies this
      ensures threw <==> Accepts(old(View()), Suspend(id)) && !runtimeOk
      ensures View() == if threw then old(View()) else Apply(old(View()), now, Suspend(id))
      ensures OnlyRow(old(View()), View(), id) && rows.Keys == old(rows.Keys)
      ensures if runtimeOk && id in old(rows) && old(rows)[id].hasRuntime && old(rows)[id].status !in {Paused, Terminated, Failed}
              then rows[id] == old(rows)[id].(status := Paused, suspendedAt := Some(now))
                   && events == old(events) + [Event(id, Some(rows[id].tmpl), InstancePaused, now)]
              else View() == old(View())
    {
      if id !in rows || !rows[id].hasRuntime {
        return false;
      }
      if rows[id].status == Paused || rows[id].status == Terminated || rows[id].status == Failed {
        return false;
      }
      if !runtimeOk { return true; }
      rows := rows[id := rows[id].(status := Paused, suspendedAt := Some(now))];
      EmitUsage(id, InstancePaused, now);
      return false;
    }

    /**
     Throws when the row is missing, has no container, or the container cannot be started: a start answered 404 is not
     swallowed, so a container that is gone leaves the row as it was.
     */
    method ResumeInstance(id: string, runtimeOk: bool, now: int) returns (threw: bool)
      modifies this
      ensures threw <==> !(Accepts(old(View()), Resume(id)) && runtimeOk)
      ensures View() == if threw then old(View()) else Apply(old(View()), now, Resume(id))
      ensures OnlyRow(old(View()), View(), id)
      ensures threw <==> !(id in old(rows) && old(rows)[id].hasRuntime && runtimeOk)
      ensures threw ==> View() == old(View())
      ensures !threw ==> rows[id] == old(rows)[id].(status := Ready, suspendedAt := None, lastActivityAt := Some(now))
                         && events == old(events) + [Event(id, Some(rows[id].tmpl), InstanceResumed, now)]
    {
      if id !in rows || !rows[id].hasRuntime {
        return true;
      }
      if !runtimeOk { return true; }
      rows := rows[id := rows[id].(status := Ready, suspendedAt := None, lastActivityAt := Some(now))];
      EmitUsage(id, InstanceResumed, now);
      return false;
    }

    /** A restart answered 404 is swallowed, so `runtimeOk` holds for a container that is gone. Nothing is metered. */
    method RestartInstance(id: string, runtimeOk: bool, now: int) returns (threw: bool)
      modifies this
      ensures threw <==> Accepts(old(View()), Restart(id)) && !runtimeOk
      ensures View() == if threw then old(View()) else Apply(old(View()), now, Restart(id))
      ensures OnlyRow(old(View()), View(), id) && rows.Keys == old(rows.Keys) && events == old(events)
      ensures if runtimeOk && id in old(rows) && old(rows)[id].hasRuntime
              then rows[id] == old(rows)[id].(status := Ready, suspendedAt := None, lastActivityAt := Some(now))
              else View() == old(View())
    {
      if id !in rows || !rows[id].hasRuntime {
        return false;
      }
      if !runtimeOk { return true; }
      rows := rows[id := rows[id].(status := Ready, suspendedAt := None, lastActivityAt := Some(now))];
      return false;
    }

    /** Removing the container and the volume is best effort; only a client that cannot be built makes the call throw. */
    method DestroyInstance(id: string, runtimeOk: bool, now: int) returns (threw: bool)
      modifies this
      ensures threw <==> id in old(rows) && !runtimeOk
      ensures if runtimeOk && id in old(rows)
              then id in rows && rows[id] == old(rows)[id].(status := Terminated)
                   && events == old(events) + [Event(id, Some(rows[id].tmpl), InstanceTerminated, now)]
              else View() == old(View())
      ensures View() == if threw then old(View()) else Apply(old(View()), now, Destroy(id))
      ensures OnlyRow(old(View()), View(), id) && rows.Keys == old(rows.Keys)
    {
      if id !in rows {
        return false;
      }
      if !runtimeOk { return true; }
      rows := rows[id := rows[id].(status := Terminated)];
      EmitUsage(id, InstanceTerminated, now);
      return false;
    }
  }
}
