/** The provisioner as the code runs it, statement by statement, against the state functions of GuacamoleJdbc. */
module GuacamoleProvisioner {
  import opened Prelude
  import opened UserMapping
  import opened GuacamoleJdbc

  class Provisioner {
    var conns: map<nat, Conn>
    var entities: map<nat, Entity>
    var grants: set<(nat, nat)>
    var connSerial: nat
    var entitySerial: nat

    constructor ()
      ensures Value() == Db(map[], map[], {}, 1, 1) && WellFormed(Value())
    {
      conns, entities, grants, connSerial, entitySerial := map[], map[], {}, 1, 1;
    }

    ghost function Value(): Db
      reads this
    {
      Db(conns, entities, grants, connSerial, entitySerial)
    }

    /** INSERT ... ON CONFLICT on the entity, then on its login; the conflicting insert has drawn an id all the same. */
    method UpsertEntity(row: JdbcRow, salt: nat, now: nat) returns (entityId: nat)
      requires WellFormed(Value())
      modifies this
      ensures (Value(), entityId) == UpsertUser(old(Value()), row, salt, now)
    {
      hide UniqueTops;
      var drawn := entitySerial;
      entitySerial := entitySerial + 1;
      if e :| e in entities && entities[e].isUser && entities[e].name == row.guacUser {
        UserIs(old(Value()), e, row.guacUser);
        entityId := e;
      } else {
        NoUserNamed(old(Value()), row.guacUser);
        entityId := drawn;
        entities := entities[entityId := Entity(row.guacUser, true, None)];
      }
      var e := entities[entityId];
      if e.login.Some? {
        var l := e.login.value.(password := row.guacPassword, salt := salt, date := now);
        entities := entities[entityId := e.(login := Some(l))];
      } else {
        entities := entities[entityId := e.(login := Some(Login(row.guacPassword, salt, now, false, false)))];
      }
      ghost var target := UpsertUser(old(Value()), row, salt, now).0.entities;
      assert entities == target;
    }

    /** Look up by name, update or insert, then rebuild the parameter rows. */
    method WriteConnection(row: JdbcRow) returns (connectionId: nat)
      requires WellFormed(Value())
      modifies this
      ensures (Value(), connectionId) == UpsertConn(old(Value()), row)
    {
      hide UniqueUsers, UniqueTops, ConnectionParams;
      if i :| i in conns && conns[i].parent.None? && conns[i].name == row.instanceId {
        TopIs(old(Value()), i, row.instanceId);
        connectionId := i;
        conns := conns[i := conns[i].(protocol := "rdp", maxConnections := Some(1), maxPerUser := Some(1))];
      } else {
        NoTopNamed(old(Value()), row.instanceId);
        connectionId := connSerial;
        connSerial := connSerial + 1;
        conns := conns[connectionId := Conn(row.instanceId, None, "rdp", Some(1), Some(1), [])];
      }
      RebuildParams(connectionId, row);
      assert conns == old(conns)[connectionId := Provisioned(row)];
    }

    /** Delete every parameter row of a connection, then insert the new ones one by one. */
    method RebuildParams(connectionId: nat, row: JdbcRow)
      requires connectionId in conns
      modifies this`conns
      ensures conns == old(conns)[connectionId := old(conns)[connectionId].(params := ConnectionParams(row))]
    {
      hide Decimal;
      conns := conns[connectionId := conns[connectionId].(params := [])];
      var params := [("hostname", row.hostname), ("port", Decimal(row.port)), ("username", row.rdpUsername)];
      if Present(row.rdpPassword) {
        params := params + [("password", row.rdpPassword.value)];
      }
      params := params + RDP_STATIC_PARAMS;
      assert params == ConnectionParams(row);
      ghost var bare := old(conns);
      for k := 0 to |params|
        invariant conns == bare[connectionId := bare[connectionId].(params := params[..k])]
      {
        conns := conns[connectionId := conns[connectionId].(params := conns[connectionId].params + [params[k]])];
        assert params[..k + 1] == params[..k] + [params[k]];
      }
      assert params[..|params|] == params;
    }

    method UpsertConnection(row: JdbcRow, salt: nat, now: nat) returns (connectionId: nat)
      requires WellFormed(Value())
      modifies this
      ensures Value() == Upsert(old(Value()), row, salt, now) && WellFormed(Value())
      ensures FindTop(Value(), row.instanceId) == Some(connectionId)
    {
      hide WellFormed, UpsertUser, UpsertConn, ConnectionParams;
      ghost var before := Value();
      UpsertUserEffect(before, row, salt, now);
      var entityId := UpsertEntity(row, salt, now);
      connectionId := WriteConnection(row);
      grants := grants + {(entityId, connectionId)};
      ghost var e, i := UpsertEffect(before, row, salt, now);
      assert connectionId == i by { UpsertIds(before, row, salt, now, e, i); }
    }

    /**
     `failAfter`: the number of rows upserted when a statement throws, if one does. A rollback restores the tables;
     the serials stay where they are.
     */
    method SyncGuacConnections(rows: seq<JdbcRow>, keep: Option<Keep>, salts: seq<nat>, now: nat,
                               configured: bool, failAfter: Option<nat>)
      returns (synced: Option<nat>)
      requires WellFormed(Value()) && |salts| == |rows|
      modifies this
      ensures WellFormed(Value())
      ensures !configured ==> synced == Some(0) && Value() == old(Value())
      ensures configured && synced.Some? ==> synced == Some(|rows|) && Value() == Sync(old(Value()), rows, keep, salts, now)
      ensures synced.None? ==> Value() == old(Value()).(connSerial := connSerial, entitySerial := entitySerial)
                               && connSerial >= old(connSerial) && entitySerial >= old(entitySerial)
      ensures synced.None? <==> configured && failAfter.Some? && failAfter.value <= |rows|
    {
      hide WellFormed, Upsert, ConnsAfter;
      if !configured { return Some(0); }
      var begun := (conns, entities, grants);
      ghost var before := Value();
      var k := 0;
      while k < |rows| && failAfter != Some(k)
        invariant k <= |rows| && WellFormed(Value())
        invariant Value() == UpsertAll(before, rows[..k], salts[..k], now)
        invariant failAfter.Some? && failAfter.value < k ==> false
      {
        var _ := UpsertConnection(rows[k], salts[k], now);
        assert rows[..k + 1][..k] == rows[..k] && salts[..k + 1][..k] == salts[..k];
        k := k + 1;
      }
      if failAfter == Some(k) {
        UpsertAllConns(before, rows[..k], salts[..k], now);
        UpsertAllUsers(before, rows[..k], salts[..k], now);
        SerialsGrow(before, Value(), rows[..k]);
        conns, entities, grants := begun.0, begun.1, begun.2;
        OnlySerials(before, Value());
        return None;
      }
      assert rows[..k] == rows && salts[..k] == salts;
      Prune(rows, keep);
      SyncKeeps(before, rows, keep, salts, now);
      return Some(|rows|);
    }

    /** The keep sets, then the two DELETE statements. */
    method Prune(rows: seq<JdbcRow>, keep: Option<Keep>)
      modifies this
      ensures Value() == PruneUsers(PruneConns(old(Value()), KeepConns(rows, keep)), KeepUsers(rows, keep))
    {
      hide PruneConns, PruneUsers;
      var keepConn := if keep.Some? then set n | n in keep.value.connNames else {};
      var keepUser := if keep.Some? then set n | n in keep.value.userNames else {};
      for k := 0 to |rows|
        invariant Value() == old(Value())
        invariant keepConn == KeepConns(rows[..k], keep) && keepUser == KeepUsers(rows[..k], keep)
      {
        keepConn := keepConn + {rows[k].instanceId};
        keepUser := keepUser + {rows[k].guacUser};
        assert rows[..k + 1] == rows[..k] + [rows[k]];
        KeepSnoc(rows[..k], rows[k], keep);
      }
      assert rows[..|rows|] == rows;
      DeleteStaleConnections(keepConn);
      DeleteStaleUsers(keepUser);
    }

    /** With its branch for an empty list of live names. */
    method DeleteStaleConnections(live: set<string>)
      modifies this
      ensures Value() == PruneConns(old(Value()), live)
    {
      if live != {} {
        conns := map i | i in conns && !(conns[i].parent.None? && conns[i].name !in live) :: conns[i];
      } else {
        conns := map i | i in conns && !conns[i].parent.None? :: conns[i];
      }
      grants := set p | p in grants && p.1 in conns;
    }

    method DeleteStaleUsers(live: set<string>)
      modifies this
      ensures Value() == PruneUsers(old(Value()), live)
    {
      hide LabName;
      if live != {} {
        entities := map i | i in entities && !(entities[i].isUser && LabName(entities[i].name) && entities[i].name !in live)
                      :: entities[i];
      } else {
        entities := map i | i in entities && !(entities[i].isUser && LabName(entities[i].name)) :: entities[i];
      }
      grants := set p | p in grants && p.0 in entities;
    }

    method GetGuacConnectionId(instanceId: string) returns (id: Option<nat>)
      requires WellFormed(Value())
      ensures id == FindTop(Value(), instanceId)
    {
      hide UniqueUsers;
      if i :| i in conns && conns[i].parent.None? && conns[i].name == instanceId {
        TopIs(Value(), i, instanceId);
        id := Some(i);
      } else {
        NoTopNamed(Value(), instanceId);
        id := None;
      }
    }
  }

  lemma NoUserNamed(db: Db, name: string)
    requires forall e :: e in db.entities ==> !(db.entities[e].isUser && db.entities[e].name == name)
    ensures FindUser(db, name).None?
  {
  }

  lemma NoTopNamed(db: Db, name: string)
    requires forall i :: i in db.conns ==> !(db.conns[i].parent.None? && db.conns[i].name == name)
    ensures FindTop(db, name).None?
  {
  }

  lemma UpsertIds(db: Db, row: JdbcRow, salt: nat, now: nat, e: nat, i: nat)
    requires WellFormed(db) && FindTop(Upsert(db, row, salt, now), row.instanceId) == Some(i)
    ensures UpsertConn(UpsertUser(db, row, salt, now).0, row).1 == i
  {
    hide UniqueTops, UniqueUsers, ConnectionParams;
    UpsertUserEffect(db, row, salt, now);
    var u := UpsertUser(db, row, salt, now).0;
    UpsertConnEffect(u, row);
    SameTop(UpsertConn(u, row).0, Upsert(db, row, salt, now), row.instanceId);
  }

  lemma SerialsGrow(db: Db, t: Db, rows: seq<JdbcRow>)
    requires ConnsAfter(db, t, rows) && UsersAfter(db, t, rows)
    ensures db.connSerial <= t.connSerial && db.entitySerial <= t.entitySerial
  {
  }

  lemma OnlySerials(db: Db, t: Db)
    requires WellFormed(db) && t == db.(connSerial := t.connSerial, entitySerial := t.entitySerial)
    requires db.connSerial <= t.connSerial && db.entitySerial <= t.entitySerial
    ensures WellFormed(t)
  {
  }

  lemma KeepSnoc(rows: seq<JdbcRow>, row: JdbcRow, keep: Option<Keep>)
    ensures KeepConns(rows + [row], keep) == KeepConns(rows, keep) + {row.instanceId}
    ensures KeepUsers(rows + [row], keep) == KeepUsers(rows, keep) + {row.guacUser}
  {
    assert forall r :: r in rows + [row] <==> r in rows || r == row;
    assert forall n :: n in KeepConns(rows + [row], keep) <==> n in KeepConns(rows, keep) + {row.instanceId};
    assert forall n :: n in KeepUsers(rows + [row], keep) <==> n in KeepUsers(rows, keep) + {row.guacUser};
  }
}
