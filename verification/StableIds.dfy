/**
 What a history of syncs of the Guacamole database keeps: connection ids, one row per name, accounts that are not ours
 (packages/control-plane/src/runtime/guacamoleJdbc.ts:180-255, guacamole.ts:352-363).
 */
module StableIds {
  import opened Prelude
  import opened UserMapping
  import opened GuacamoleJdbc

  /** A sync either commits or is rolled back, in which case only the serials may have moved. */
  datatype Event =
    | Committed(rows: seq<JdbcRow>, keep: Option<Keep>, salts: seq<nat>, now: nat)
    | RolledBack(connDraws: nat, entityDraws: nat)

  ghost predicate Legal(evs: seq<Event>) {
    forall k :: 0 <= k < |evs| && evs[k].Committed? ==> |evs[k].salts| == |evs[k].rows|
  }

  ghost function After(db: Db, ev: Event): Db
    requires ev.Committed? ==> |ev.salts| == |ev.rows|
  {
    match ev
    case Committed(rows, keep, salts, now) => Sync(db, rows, keep, salts, now)
    case RolledBack(c, e) => db.(connSerial := db.connSerial + c, entitySerial := db.entitySerial + e)
  }

  ghost function Run(db: Db, evs: seq<Event>): Db
    requires Legal(evs)
    decreases |evs|
  {
    if evs == [] then db else Run(After(db, evs[0]), evs[1..])
  }

  // ---------- one commit ----------

  lemma PrunedConns(db: Db, keep: set<string>, users: set<string>)
    ensures var t := PruneUsers(PruneConns(db, keep), users);
            && t.connSerial == db.connSerial && t.entitySerial == db.entitySerial
            && t.conns.Keys <= db.conns.Keys
            && (forall i :: i in db.conns ==> (i in t.conns <==> !StaleConn(db.conns[i], keep)))
            && (forall i :: i in t.conns ==> t.conns[i] == db.conns[i])
  {
    hide LabName;
  }

  lemma PrunedUsers(db: Db, keep: set<string>, users: set<string>)
    ensures var t := PruneUsers(PruneConns(db, keep), users);
            && t.entities.Keys <= db.entities.Keys
            && (forall i :: i in db.entities ==> (i in t.entities <==> !StaleUser(db.entities[i], users)))
            && (forall i :: i in t.entities ==> t.entities[i] == db.entities[i])
            && (forall p :: p in t.grants <==> p in db.grants && p.0 in t.entities && p.1 in t.conns)
  {
    hide LabName;
  }

  /** The connections right after a commit, in one place. */
  lemma {:induction false} SyncConns(db: Db, rows: seq<JdbcRow>, keep: Option<Keep>, salts: seq<nat>, now: nat)
    requires WellFormed(db) && |salts| == |rows|
    ensures var t := Sync(db, rows, keep, salts, now);
            && WellFormed(t) && db.connSerial <= t.connSerial
            && (forall i :: i in t.conns ==> !StaleConn(t.conns[i], KeepConns(rows, keep)))
            && (forall i :: i in db.conns ==> (i in t.conns <==> !StaleConn(db.conns[i], KeepConns(rows, keep))))
            && (forall i :: i in db.conns && i in t.conns ==> t.conns[i] == Refreshed(db.conns[i], rows))
            && (forall i :: i in t.conns && i !in db.conns ==> i >= db.connSerial && t.conns[i].parent.None?)
            && (forall i :: i in t.conns && i !in db.conns ==>
                  LastRow(rows, t.conns[i].name).Some? && t.conns[i] == Provisioned(LastRow(rows, t.conns[i].name).value))
  {
    hide WellFormed, UpsertAll, PruneConns, PruneUsers, KeepConns, KeepUsers, LastRow, Provisioned, Refreshed;
    SyncKeeps(db, rows, keep, salts, now);
    UpsertAllConns(db, rows, salts, now);
    var u := UpsertAll(db, rows, salts, now);
    PrunedConns(u, KeepConns(rows, keep), KeepUsers(rows, keep));
    forall i | i in db.conns ensures StaleConn(u.conns[i], KeepConns(rows, keep)) == StaleConn(db.conns[i], KeepConns(rows, keep)) {
      RefreshedKeepsName(db.conns[i], rows);
    }
  }

  /** A connection name that the sync keeps, keeps its id, whether or not the instance could be rendered. */
  lemma KeptNameKeepsId(db: Db, rows: seq<JdbcRow>, keep: Option<Keep>, salts: seq<nat>, now: nat, name: string)
    requires WellFormed(db) && |salts| == |rows|
    requires name in KeepConns(rows, keep) && FindTop(db, name).Some?
    ensures FindTop(Sync(db, rows, keep, salts, now), name) == FindTop(db, name)
  {
    hide WellFormed, Sync, KeepConns, Refreshed, Provisioned, LastRow;
    SyncConns(db, rows, keep, salts, now);
    FoundTop(db, name);
    var i := FindTop(db, name).value;
    RefreshedKeepsName(db.conns[i], rows);
    TopIs(Sync(db, rows, keep, salts, now), i, name);
  }

  /** After a commit the names are exactly those that were there or were upserted, cut down to the keep set. */
  lemma NamesAfterCommit(db: Db, rows: seq<JdbcRow>, keep: Option<Keep>, salts: seq<nat>, now: nat)
    requires WellFormed(db) && |salts| == |rows|
    ensures TopNames(Sync(db, rows, keep, salts, now)) ==
            (TopNames(db) + set row | row in rows :: row.instanceId) * KeepConns(rows, keep)
  {
    hide Sync, KeepConns, WellFormed, Refreshed, Provisioned, LastRow;
    var t := Sync(db, rows, keep, salts, now);
    var ids := set row | row in rows :: row.instanceId;
    forall n: string ensures n in TopNames(t) <==> n in (TopNames(db) + ids) * KeepConns(rows, keep) {
      if n in TopNames(t) { NameComesFrom(db, rows, keep, salts, now, n); }
      if n in KeepConns(rows, keep) {
        if n in TopNames(db) {
          TopNameFound(db, n);
          KeptNameKeepsId(db, rows, keep, salts, now, n);
          TopNameFound(t, n);
        }
        if n in ids {
          var row :| row in rows && row.instanceId == n;
          var e, i := RowServed(db, rows, keep, salts, now, row);
          TopNameFound(t, n);
        }
      }
    }
  }

  lemma TopNameFound(db: Db, n: string)
    ensures n in TopNames(db) <==> FindTop(db, n).Some?
  {
    if n in TopNames(db) {
      var i :| i in db.conns && db.conns[i].parent.None? && db.conns[i].name == n;
      assert TopNamed(db.conns[i], n);
    }
  }

  lemma NameComesFrom(db: Db, rows: seq<JdbcRow>, keep: Option<Keep>, salts: seq<nat>, now: nat, n: string)
    requires WellFormed(db) && |salts| == |rows| && n in TopNames(Sync(db, rows, keep, salts, now))
    ensures n in KeepConns(rows, keep)
    ensures n in TopNames(db) || exists row :: row in rows && row.instanceId == n
  {
    hide Sync, KeepConns, WellFormed, Provisioned, Refreshed, LastRow;
    SyncConns(db, rows, keep, salts, now);
    var t := Sync(db, rows, keep, salts, now);
    var i :| i in t.conns && t.conns[i].parent.None? && t.conns[i].name == n;
    if i in db.conns { RefreshedKeepsName(db.conns[i], rows); }
  }

  /**
   Every row handed to a committed sync is served: its user exists with the password of the last row naming the user,
   its connection carries the parameters of the last row naming the instance, and the one may read the other. Who had no
   login before can log in; who had one is enabled or disabled as before.
   */
  lemma {:induction false} RowServed(db: Db, rows: seq<JdbcRow>, keep: Option<Keep>, salts: seq<nat>, now: nat, row: JdbcRow)
    returns (e: nat, i: nat)
    requires WellFormed(db) && |salts| == |rows| && row in rows
    ensures var t := Sync(db, rows, keep, salts, now);
            && GrantOf(t, row, (e, i)) && (e, i) in t.grants
            && i in t.conns && t.conns[i] == Provisioned(LastRow(rows, row.instanceId).value)
            && e in t.entities && t.entities[e].login.Some?
            && t.entities[e].login.value.password == LastUserRow(rows, row.guacUser).value.guacPassword
            && (if HasLogin(db, e) then SecretsAside(t.entities[e]) == SecretsAside(db.entities[e])
                else !t.entities[e].login.value.disabled && !t.entities[e].login.value.expired)
  {
    hide WellFormed, UpsertAll, PruneConns, PruneUsers, KeepConns, KeepUsers, Refreshed, ConnsAfter, UserAfter;
    hide LastRow, LastUserRow, Provisioned;
    var u := UpsertAll(db, rows, salts, now);
    var t := Sync(db, rows, keep, salts, now);
    UpsertAllGrants(db, rows, salts, now);
    var p :| p in u.grants && GrantOf(u, row, p);
    e, i := p.0, p.1;
    FoundTop(u, row.instanceId);
    FoundUser(u, row.guacUser);
    ServedConn(db, rows, salts, now, row, i);
    ServedUser(db, rows, salts, now, row, e);
    RowsKept(rows, keep, row);
    PrunedConns(u, KeepConns(rows, keep), KeepUsers(rows, keep));
    PrunedUsers(u, KeepConns(rows, keep), KeepUsers(rows, keep));
    SyncKeeps(db, rows, keep, salts, now);
    TopIs(t, i, row.instanceId);
    UserIs(t, e, row.guacUser);
  }

  lemma RowsKept(rows: seq<JdbcRow>, keep: Option<Keep>, row: JdbcRow)
    requires row in rows
    ensures row.instanceId in KeepConns(rows, keep) && row.guacUser in KeepUsers(rows, keep)
  {
  }

  lemma ServedConn(db: Db, rows: seq<JdbcRow>, salts: seq<nat>, now: nat, row: JdbcRow, i: nat)
    requires WellFormed(db) && |salts| == |rows| && row in rows
    requires i in UpsertAll(db, rows, salts, now).conns && TopNamed(UpsertAll(db, rows, salts, now).conns[i], row.instanceId)
    ensures LastRow(rows, row.instanceId).Some?
    ensures UpsertAll(db, rows, salts, now).conns[i] == Provisioned(LastRow(rows, row.instanceId).value)
  {
    hide WellFormed, UpsertAll, Provisioned;
    UpsertAllConns(db, rows, salts, now);
    if i in db.conns { RefreshedKeepsName(db.conns[i], rows); }
  }

  lemma ServedUser(db: Db, rows: seq<JdbcRow>, salts: seq<nat>, now: nat, row: JdbcRow, e: nat)
    requires WellFormed(db) && |salts| == |rows| && row in rows
    requires e in UpsertAll(db, rows, salts, now).entities && UserNamed(UpsertAll(db, rows, salts, now).entities[e], row.guacUser)
    ensures LastUserRow(rows, row.guacUser).Some?
    ensures var l := UpsertAll(db, rows, salts, now).entities[e].login;
            && l.Some? && l.value.password == LastUserRow(rows, row.guacUser).value.guacPassword
            && (if HasLogin(db, e) then SecretsAside(UpsertAll(db, rows, salts, now).entities[e]) == SecretsAside(db.entities[e])
                else !l.value.disabled && !l.value.expired)
  {
    hide WellFormed, UpsertAll;
    UpsertAllUsers(db, rows, salts, now);
    assert UserAfter(db, UpsertAll(db, rows, salts, now), rows, e);
  }

  /** A sync deletes exactly the users with a `lab-` name outside the keep set, and rewrites no user no row names. */
  lemma OtherAccountsUntouched(db: Db, rows: seq<JdbcRow>, keep: Option<Keep>, salts: seq<nat>, now: nat, k: nat)
    requires WellFormed(db) && |salts| == |rows| && k in db.entities
    ensures var t := Sync(db, rows, keep, salts, now);
            && (k in t.entities <==> !StaleUser(db.entities[k], KeepUsers(rows, keep)))
            && (k in t.entities && !(db.entities[k].isUser && exists row :: row in rows && row.guacUser == db.entities[k].name)
                ==> t.entities[k] == db.entities[k])
  {
    hide WellFormed, UpsertAll, PruneConns, PruneUsers, KeepConns, KeepUsers, LabName, LastUserRow;
    var u := UpsertAll(db, rows, salts, now);
    UpsertAllUsers(db, rows, salts, now);
    assert UserAfter(db, u, rows, k);
    PrunedUsers(u, KeepConns(rows, keep), KeepUsers(rows, keep));
  }

  /**
   What a committed sync deletes, field by field: of the connections only top-level ones whose name neither the caller
   keeps nor a row names, of the accounts only users called `lab-...` of whom the same holds.
   */
  lemma SyncDeletes(db: Db, rows: seq<JdbcRow>, keep: Option<Keep>, salts: seq<nat>, now: nat)
    requires WellFormed(db) && |salts| == |rows|
    ensures forall i :: i in db.conns ==>
              (i in Sync(db, rows, keep, salts, now).conns <==>
                || db.conns[i].parent.Some?
                || (keep.Some? && db.conns[i].name in keep.value.connNames)
                || exists row :: row in rows && row.instanceId == db.conns[i].name)
    ensures forall k :: k in db.entities ==>
              (k in Sync(db, rows, keep, salts, now).entities <==>
                || !db.entities[k].isUser
                || !("lab-" <= db.entities[k].name)
                || (keep.Some? && db.entities[k].name in keep.value.userNames)
                || exists row :: row in rows && row.guacUser == db.entities[k].name)
  {
    hide WellFormed, Sync, Refreshed, Provisioned, LastRow;
    SyncConns(db, rows, keep, salts, now);
    forall k | k in db.entities
      ensures k in Sync(db, rows, keep, salts, now).entities <==> !StaleUser(db.entities[k], KeepUsers(rows, keep))
    {
      OtherAccountsUntouched(db, rows, keep, salts, now, k);
    }
  }

  /** Connections of other groups are not touched at all. */
  lemma NestedConnectionsUntouched(db: Db, rows: seq<JdbcRow>, keep: Option<Keep>, salts: seq<nat>, now: nat, i: nat)
    requires WellFormed(db) && |salts| == |rows| && i in db.conns && db.conns[i].parent.Some?
    ensures i in Sync(db, rows, keep, salts, now).conns && Sync(db, rows, keep, salts, now).conns[i] == db.conns[i]
  {
    hide WellFormed, Sync, LastRow;
    SyncConns(db, rows, keep, salts, now);
  }

  // ---------- any history of syncs ----------

  lemma AfterKeeps(db: Db, ev: Event)
    requires WellFormed(db) && Legal([ev])
    ensures ev.Committed? ==> |ev.salts| == |ev.rows|
    ensures WellFormed(After(db, ev)) && db.connSerial <= After(db, ev).connSerial
  {
    hide Sync;
    assert [ev][0] == ev;
    if ev.Committed? { SyncConns(db, ev.rows, ev.keep, ev.salts, ev.now); }
  }

  lemma LegalParts(evs: seq<Event>)
    requires Legal(evs) && evs != []
    ensures Legal([evs[0]]) && Legal(evs[1..])
  {
  }

  /** One row per top-level name, at every point of every history. */
  lemma {:induction false} RunKeeps(db: Db, evs: seq<Event>)
    requires WellFormed(db) && Legal(evs)
    ensures WellFormed(Run(db, evs)) && db.connSerial <= Run(db, evs).connSerial
    decreases |evs|
  {
    hide WellFormed, After;
    if evs != [] {
      LegalParts(evs);
      AfterKeeps(db, evs[0]);
      RunKeeps(After(db, evs[0]), evs[1..]);
    }
  }

  /** An id handed out before the history keeps its name through it, and does not come back once deleted. */
  lemma {:induction false} OldIdKeepsName(db: Db, evs: seq<Event>, i: nat)
    requires WellFormed(db) && Legal(evs)
    requires i < db.connSerial && i in Run(db, evs).conns
    ensures i in db.conns && Run(db, evs).conns[i].name == db.conns[i].name
            && Run(db, evs).conns[i].parent == db.conns[i].parent
    decreases |evs|
  {
    hide WellFormed, Sync, Refreshed, Provisioned, LastRow, KeepConns;
    if evs != [] {
      LegalParts(evs);
      AfterKeeps(db, evs[0]);
      OldIdKeepsName(After(db, evs[0]), evs[1..], i);
      if evs[0].Committed? {
        SyncConns(db, evs[0].rows, evs[0].keep, evs[0].salts, evs[0].now);
        if i in db.conns { RefreshedKeepsName(db.conns[i], evs[0].rows); }
      }
    }
  }

  lemma {:induction false} RunSplit(db: Db, evs: seq<Event>, more: seq<Event>)
    requires Legal(evs) && Legal(more) && Legal(evs + more)
    ensures Run(db, evs + more) == Run(Run(db, evs), more)
    decreases |evs|
  {
    hide After;
    if evs == [] {
      assert evs + more == more;
    } else {
      assert (evs + more)[1..] == evs[1..] + more;
      RunSplit(After(db, evs[0]), evs[1..], more);
    }
  }

  /** No id is ever given to two names: two sightings of an id, anywhere in a history, are of the same name. */
  lemma NoIdForTwoNames(db: Db, evs: seq<Event>, more: seq<Event>, i: nat)
    requires WellFormed(db) && Legal(evs) && Legal(more) && Legal(evs + more)
    requires i in Run(db, evs).conns && i in Run(db, evs + more).conns
    ensures Run(db, evs).conns[i].name == Run(db, evs + more).conns[i].name
  {
    RunKeeps(db, evs);
    RunSplit(db, evs, more);
    OldIdKeepsName(Run(db, evs), more, i);
  }

  // ---------- the same sync again ----------

  lemma RefreshedTwice(c: Conn, rows: seq<JdbcRow>)
    ensures Refreshed(Refreshed(c, rows), rows) == Refreshed(c, rows)
  {
    hide ConnectionParams;
  }

  /** Everything the second run of the same sync would write to a connection is already there. */
  lemma ConnsSettled(db: Db, rows: seq<JdbcRow>, keep: Option<Keep>, salts: seq<nat>, now: nat, i: nat)
    requires WellFormed(db) && |salts| == |rows| && i in Sync(db, rows, keep, salts, now).conns
    ensures var c := Sync(db, rows, keep, salts, now).conns[i]; Refreshed(c, rows) == c
  {
    hide WellFormed, Sync, KeepConns, LastRow, ConnectionParams;
    SyncConns(db, rows, keep, salts, now);
    if i in db.conns {
      RefreshedTwice(db.conns[i], rows);
    } else {
      ProvisionedNamed(LastRow(rows, Sync(db, rows, keep, salts, now).conns[i].name).value);
    }
  }

  lemma {:induction false} SecondSyncConns(db: Db, rows: seq<JdbcRow>, keep: Option<Keep>, salts: seq<nat>, now: nat, salts': seq<nat>, now': nat)
    requires WellFormed(db) && |salts| == |rows| == |salts'|
    ensures var t := Sync(db, rows, keep, salts, now);
            var u := UpsertAll(t, rows, salts', now');
            WellFormed(t) && WellFormed(u) && u.conns == t.conns && u.connSerial == t.connSerial
  {
    hide WellFormed, Sync, KeepConns, LastRow, Refreshed, Provisioned;
    SyncKeeps(db, rows, keep, salts, now);
    var t := Sync(db, rows, keep, salts, now);
    var u := UpsertAll(t, rows, salts', now');
    UpsertAllConns(t, rows, salts', now');
    forall k | k in t.conns ensures u.conns[k] == t.conns[k] {
      ConnsSettled(db, rows, keep, salts, now, k);
    }
    forall k | k in u.conns ensures k in t.conns {
      if k !in t.conns {
        var row := LastRow(rows, u.conns[k].name).value;
        ProvisionedNamed(row);
        var e, i := RowServed(db, rows, keep, salts, now, row);
        ServedTop(t, row, e, i);
        RefreshedKeepsName(t.conns[i], rows);
        TopsApart(u, i, k, row.instanceId);
      }
    }
    assert u.conns.Keys == t.conns.Keys;
  }

  lemma ServedTop(t: Db, row: JdbcRow, e: nat, i: nat)
    requires GrantOf(t, row, (e, i))
    ensures i in t.conns && TopNamed(t.conns[i], row.instanceId)
    ensures e in t.entities && UserNamed(t.entities[e], row.guacUser)
  {
    FoundTop(t, row.instanceId);
    FoundUser(t, row.guacUser);
  }

  lemma SecondSyncUsers(db: Db, rows: seq<JdbcRow>, keep: Option<Keep>, salts: seq<nat>, now: nat, salts': seq<nat>, now': nat)
    requires WellFormed(db) && |salts| == |rows| == |salts'|
    ensures var t := Sync(db, rows, keep, salts, now);
            var u := UpsertAll(t, rows, salts', now');
            && u.entities.Keys == t.entities.Keys
            && forall k :: k in t.entities ==> SecretsAside(u.entities[k]) == SecretsAside(t.entities[k])
  {
    hide WellFormed, Sync, KeepConns, KeepUsers, LastUserRow, LastRow, UserAfter;
    SyncKeeps(db, rows, keep, salts, now);
    var t := Sync(db, rows, keep, salts, now);
    var u := UpsertAll(t, rows, salts', now');
    UpsertAllUsers(t, rows, salts', now');
    UpsertAllConns(t, rows, salts', now');
    forall k | k in u.entities
      ensures k in t.entities && SecretsAside(u.entities[k]) == SecretsAside(t.entities[k])
    {
      SecondSyncUser(db, t, u, rows, keep, salts, now, k);
    }
  }

  lemma SecondSyncUser(db: Db, t: Db, u: Db, rows: seq<JdbcRow>, keep: Option<Keep>, salts: seq<nat>, now: nat, k: nat)
    requires WellFormed(db) && |salts| == |rows| && t == Sync(db, rows, keep, salts, now)
    requires WellFormed(u) && UsersAfter(t, u, rows) && k in u.entities
    ensures k in t.entities && SecretsAside(u.entities[k]) == SecretsAside(t.entities[k])
  {
    hide WellFormed, Sync, KeepConns, KeepUsers, LastRow;
    assert UserAfter(t, u, rows, k);
    if u.entities[k].isUser && LastUserRow(rows, u.entities[k].name).Some? {
      var row := LastUserRow(rows, u.entities[k].name).value;
      var e, i := RowServed(db, rows, keep, salts, now, row);
      ServedTop(t, row, e, i);
      assert UserAfter(t, u, rows, e);
      UsersApart(u, e, k, row.guacUser);
    }
  }

  lemma UsersApart(db: Db, i: nat, k: nat, name: string)
    requires WellFormed(db) && i in db.entities && k in db.entities
    requires UserNamed(db.entities[i], name) && UserNamed(db.entities[k], name)
    ensures i == k
  {
  }

  lemma SecondSyncGrants(db: Db, rows: seq<JdbcRow>, keep: Option<Keep>, salts: seq<nat>, now: nat, salts': seq<nat>, now': nat)
    requires WellFormed(db) && |salts| == |rows| == |salts'|
    ensures UpsertAll(Sync(db, rows, keep, salts, now), rows, salts', now').grants == Sync(db, rows, keep, salts, now).grants
  {
    hide WellFormed, Sync, KeepConns, KeepUsers, LastUserRow, LastRow, UserAfter, GrantOf, Provisioned;
    SyncKeeps(db, rows, keep, salts, now);
    var t := Sync(db, rows, keep, salts, now);
    var u := UpsertAll(t, rows, salts', now');
    SecondSyncConns(db, rows, keep, salts, now, salts', now');
    UpsertAllGrants(t, rows, salts', now');
    forall p | p in u.grants ensures p in t.grants {
      if p !in t.grants {
        var row :| row in rows && GrantOf(u, row, p);
        var e, i := RowServed(db, rows, keep, salts, now, row);
        SameTop(t, u, row.instanceId);
        UpsertAllUsers(t, rows, salts', now');
        SameGrant(t, u, rows, row, p, (e, i));
      }
    }
  }

  lemma SameGrant(t: Db, u: Db, rows: seq<JdbcRow>, row: JdbcRow, p: (nat, nat), q: (nat, nat))
    requires WellFormed(u) && UsersAfter(t, u, rows) && u.conns == t.conns
    requires GrantOf(u, row, p) && GrantOf(t, row, q) && FindTop(t, row.instanceId) == FindTop(u, row.instanceId)
    ensures p == q
  {
    hide WellFormed;
    ServedTop(t, row, q.0, q.1);
    assert UserAfter(t, u, rows, q.0);
    UserIs(u, q.0, row.guacUser);
  }

  /** Running a sync again changes nothing except password hash, salt and date, and the entity serial. */
  lemma RepeatedSync(db: Db, rows: seq<JdbcRow>, keep: Option<Keep>, salts: seq<nat>, now: nat, salts': seq<nat>, now': nat)
    requires WellFormed(db) && |salts| == |rows| == |salts'|
    ensures var t := Sync(db, rows, keep, salts, now);
            var t' := Sync(t, rows, keep, salts', now');
            && t'.conns == t.conns && t'.connSerial == t.connSerial && t'.grants == t.grants
            && t'.entities.Keys == t.entities.Keys
            && forall k :: k in t.entities ==> SecretsAside(t'.entities[k]) == SecretsAside(t.entities[k])
  {
    hide WellFormed, UpsertAll, PruneConns, PruneUsers, KeepConns, KeepUsers;
    var t := Sync(db, rows, keep, salts, now);
    var u := UpsertAll(t, rows, salts', now');
    SecondSyncConns(db, rows, keep, salts, now, salts', now');
    SecondSyncUsers(db, rows, keep, salts, now, salts', now');
    SecondSyncGrants(db, rows, keep, salts, now, salts', now');
    NothingStale(db, rows, keep, salts, now);
    PrunedConns(u, KeepConns(rows, keep), KeepUsers(rows, keep));
    PrunedUsers(u, KeepConns(rows, keep), KeepUsers(rows, keep));
  }

  lemma NothingStale(db: Db, rows: seq<JdbcRow>, keep: Option<Keep>, salts: seq<nat>, now: nat)
    requires WellFormed(db) && |salts| == |rows|
    ensures var t := Sync(db, rows, keep, salts, now);
            && (forall i :: i in t.conns ==> !StaleConn(t.conns[i], KeepConns(rows, keep)))
            && (forall k :: k in t.entities ==> !StaleUser(t.entities[k], KeepUsers(rows, keep)))
            && (forall p :: p in t.grants ==> p.0 in t.entities && p.1 in t.conns)
  {
    hide WellFormed, UpsertAll, PruneConns, PruneUsers, KeepConns, KeepUsers, StaleUser, StaleConn;
    PrunedConns(UpsertAll(db, rows, salts, now), KeepConns(rows, keep), KeepUsers(rows, keep));
    PrunedUsers(UpsertAll(db, rows, salts, now), KeepConns(rows, keep), KeepUsers(rows, keep));
  }

  // ---------- exactly when a connection keeps its id ----------

  /** A name outside the keep set of a commit loses its connection, and its id does not come back. */
  lemma DroppedForGood(db: Db, ev: Event, evs: seq<Event>, name: string)
    requires WellFormed(db) && Legal([ev]) && Legal(evs) && FindTop(db, name).Some?
    requires ev.Committed? && |ev.salts| == |ev.rows| && name !in KeepConns(ev.rows, ev.keep)
    ensures FindTop(Run(After(db, ev), evs), name) != FindTop(db, name)
  {
    hide WellFormed, Sync, KeepConns, Run, Legal;
    var i, t := FindTop(db, name).value, After(db, ev);
    FoundTop(db, name);
    AfterKeeps(db, ev);
    SyncConns(db, ev.rows, ev.keep, ev.salts, ev.now);
    IdBelowSerial(db, i);
    FoundTop(Run(t, evs), name);
    if FindTop(Run(t, evs), name) == Some(i) {
      OldIdKeepsName(t, evs, i);
    }
  }

  lemma IdBelowSerial(db: Db, i: nat)
    requires WellFormed(db) && i in db.conns
    ensures i < db.connSerial
  {
  }

  /** A connection has the same id at the end of a history if and only if every commit in it kept the name. */
  lemma {:induction false} StableIdIff(db: Db, evs: seq<Event>, name: string)
    requires WellFormed(db) && Legal(evs) && FindTop(db, name).Some?
    ensures FindTop(Run(db, evs), name) == FindTop(db, name)
            <==> forall k :: 0 <= k < |evs| && evs[k].Committed? ==> name in KeepConns(evs[k].rows, evs[k].keep)
    decreases |evs|
  {
    hide WellFormed, Sync, KeepConns, FindTop;
    if evs != [] {
      var ev := evs[0];
      LegalParts(evs);
      AfterKeeps(db, ev);
      if ev.Committed? && name !in KeepConns(ev.rows, ev.keep) {
        DroppedForGood(db, ev, evs[1..], name);
      } else {
        if ev.Committed? {
          KeptNameKeepsId(db, ev.rows, ev.keep, ev.salts, ev.now, name);
        } else {
          SameTop(db, After(db, ev), name);
        }
        StableIdIff(After(db, ev), evs[1..], name);
        HeadAndTail(evs, name);
      }
    }
  }

  lemma HeadAndTail(evs: seq<Event>, name: string)
    requires evs != []
    ensures (forall k :: 0 <= k < |evs| && evs[k].Committed? ==> name in KeepConns(evs[k].rows, evs[k].keep))
            <==> (evs[0].Committed? ==> name in KeepConns(evs[0].rows, evs[0].keep))
                 && forall k :: 0 <= k < |evs[1..]| && evs[1..][k].Committed? ==>
                      name in KeepConns(evs[1..][k].rows, evs[1..][k].keep)
  {
    hide KeepConns;
    if forall k :: 0 <= k < |evs[1..]| && evs[1..][k].Committed? ==> name in KeepConns(evs[1..][k].rows, evs[1..][k].keep) {
      forall k | 0 < k < |evs| && evs[k].Committed? ensures name in KeepConns(evs[k].rows, evs[k].keep) {
        assert evs[1..][k - 1] == evs[k];
      }
    }
  }

  // ---------- as the regeneration calls it ----------

  /** An instance of the table, and whether its template's spec parses. */
  datatype Instance = Instance(row: RenderRow, status: Status, specParses: bool)

  /** The query takes every instance with a user that has not ended, paused ones included. */
  predicate UserVisible(i: Instance) {
    i.row.guacamoleUser.Some? && i.status !in {Terminated, Failed}
  }

  function Parsed(instances: seq<Instance>): seq<RenderRow> {
    if instances == [] then [] else
      var n := |instances| - 1;
      Parsed(instances[..n]) + if UserVisible(instances[n]) && instances[n].specParses then [instances[n].row] else []
  }

  /** The query and the loop with its try and `continue` (guacamole.ts:326-341). */
  method CollectRows(instances: seq<Instance>) returns (rows: seq<RenderRow>)
    ensures rows == Parsed(instances)
  {
    rows := [];
    for k := 0 to |instances|
      invariant rows == Parsed(instances[..k])
    {
      assert instances[..k + 1][..k] == instances[..k];
      if !UserVisible(instances[k]) { continue; }
      if !instances[k].specParses { continue; }
      rows := rows + [instances[k].row];
    }
    assert instances[..|instances|] == instances;
  }

  /** The keep set is built from the rows that were collected (guacamole.ts:357-362), renderable or not. */
  function KeepOf(rows: seq<RenderRow>): Keep {
    Keep(Ids(rows), Users(rows))
  }

  function Ids(rows: seq<RenderRow>): seq<string> {
    if rows == [] then [] else [rows[0].id] + Ids(rows[1..])
  }

  function Users(rows: seq<RenderRow>): seq<string> {
    if rows == [] then [] else
      (if Present(rows[0].guacamoleUser) then [rows[0].guacamoleUser.value] else []) + Users(rows[1..])
  }

  lemma {:induction false} IdsAre(rows: seq<RenderRow>, d: Option<string>)
    ensures forall n :: n in Ids(rows) <==> exists r :: r in rows && r.id == n
    ensures forall j :: j in JdbcRows(rows, d) ==> j.instanceId in Ids(rows)
  {
    hide Renderable;
    if rows != [] {
      IdsAre(rows[1..], d);
      assert rows == [rows[0]] + rows[1..];
    }
  }

  lemma {:induction false} ParsedAre(instances: seq<Instance>)
    ensures forall r :: r in Parsed(instances) <==> exists q :: q in instances && q.specParses && UserVisible(q) && q.row == r
  {
    if instances != [] {
      var n := |instances| - 1;
      ParsedAre(instances[..n]);
      assert instances == instances[..n] + [instances[n]];
    }
  }

  /** Some instance of that id has a user, has not ended, and its spec parses. */
  ghost predicate Parses(instances: seq<Instance>, id: string) {
    exists q :: q in instances && q.row.id == id && q.row.guacamoleUser.Some? && q.specParses
                && q.status in {Pending, Provisioning, Ready, Idle, Paused, Terminating}
  }

  lemma VisibleIff(i: Instance)
    ensures UserVisible(i) <==> i.row.guacamoleUser.Some? && i.status in {Pending, Provisioning, Ready, Idle, Paused, Terminating}
  {
    match i.status
    case Pending | Provisioning | Ready | Idle | Paused | Terminating =>
    case Terminated | Failed =>
  }

  /** The names a regeneration keeps are those of the instances with a user that have not ended and whose spec parses. */
  lemma RegenerationKeepsParsed(instances: seq<Instance>, d: Option<string>, id: string)
    ensures var rows := Parsed(instances);
            id in KeepConns(JdbcRows(rows, d), Some(KeepOf(rows))) <==> Parses(instances, id)
  {
    hide JdbcRows, Parsed, UserVisible;
    var rows := Parsed(instances);
    IdsAre(rows, d);
    ParsedAre(instances);
    forall q | q in instances
      ensures UserVisible(q) <==>
              q.row.guacamoleUser.Some? && q.status in {Pending, Provisioning, Ready, Idle, Paused, Terminating}
    {
      VisibleIff(q);
    }
    assert id in KeepConns(JdbcRows(rows, d), Some(KeepOf(rows))) <==> id in Ids(rows);
  }

  lemma {:induction false} UsersAre(rows: seq<RenderRow>, d: Option<string>)
    ensures forall n :: n in Users(rows) <==> exists r :: r in rows && r.guacamoleUser == Some(n) && n != ""
    ensures forall j :: j in JdbcRows(rows, d) ==> j.guacUser in Users(rows)
  {
    if rows != [] {
      UsersAre(rows[1..], d);
      assert rows == [rows[0]] + rows[1..];
    }
  }

  /** The users a regeneration keeps are those with credentials on a live instance whose spec parses. */
  lemma RegenerationKeepsUsers(instances: seq<Instance>, d: Option<string>, name: string)
    ensures var rows := Parsed(instances);
            name in KeepUsers(JdbcRows(rows, d), Some(KeepOf(rows)))
            <==> exists q :: q in instances && q.specParses && q.row.guacamoleUser == Some(name) && name != ""
                            && q.status !in {Terminated, Failed}
  {
    hide JdbcRows, Parsed;
    var rows := Parsed(instances);
    UsersAre(rows, d);
    ParsedAre(instances);
    assert name in KeepUsers(JdbcRows(rows, d), Some(KeepOf(rows))) <==> name in Users(rows);
  }

  /** The n-th event of a history is a regeneration over the instances of that moment, committed or rolled back. */
  ghost predicate Regenerations(evs: seq<Event>, live: seq<seq<Instance>>, d: Option<string>) {
    && |live| == |evs| && Legal(evs)
    && forall k :: 0 <= k < |evs| && evs[k].Committed? ==>
         evs[k].rows == JdbcRows(Parsed(live[k]), d) && evs[k].keep == Some(KeepOf(Parsed(live[k])))
  }

  /**
   An instance keeps its connection id through any regenerations if and only if at every committed one it had a user, had
   not ended (being paused is no end), and its template's spec parsed. Whether it could be rendered does not matter.
   */
  lemma {:induction false} KeepsConnectionIffParsed(db: Db, evs: seq<Event>, live: seq<seq<Instance>>, d: Option<string>, id: string)
    requires WellFormed(db) && Regenerations(evs, live, d) && FindTop(db, id).Some?
    ensures FindTop(Run(db, evs), id) == FindTop(db, id)
            <==> forall k :: 0 <= k < |evs| && evs[k].Committed? ==> Parses(live[k], id)
  {
    hide WellFormed, JdbcRows, KeepConns, Run, FindTop, Parses, Parsed, KeepOf;
    forall k | 0 <= k < |evs| && evs[k].Committed?
      ensures id in KeepConns(evs[k].rows, evs[k].keep) <==> Parses(live[k], id)
    {
      RegenerationKeepsParsed(live[k], d, id);
    }
    StableIdIff(db, evs, id);
  }

  /** One live instance whose spec does not parse: its connection is deleted, and its open URLs with it. */
  lemma UnparsedLosesConnection(db: Db, r: RenderRow, status: Status, d: Option<string>, now: nat)
    requires WellFormed(db) && FindTop(db, r.id).Some?
    ensures var rows := Parsed([Instance(r, status, false)]);
            rows == [] && JdbcRows(rows, d) == [] && FindTop(Sync(db, [], Some(KeepOf(rows)), [], now), r.id).None?
  {
    hide WellFormed, Sync;
    var rows := Parsed([Instance(r, status, false)]);
    NamesAfterCommit(db, [], Some(KeepOf(rows)), [], now);
    TopNameFound(Sync(db, [], Some(KeepOf(rows)), [], now), r.id);
  }
}
