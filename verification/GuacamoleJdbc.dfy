/**
 The transactional provisioner of the Guacamole database (packages/control-plane/src/runtime/guacamoleJdbc.ts:107-275).
 Tables are maps from serial ids to rows. A serial number that was drawn is never drawn again, and a ROLLBACK restores
 the tables but not the serials.
 */
module GuacamoleJdbc {
  import opened Prelude
  import opened UserMapping

  /** A connection with its parameter rows, which cascade with it. Only rows without a parent are ours. */
  datatype Conn = Conn(name: string, parent: Option<nat>, protocol: string, maxConnections: Option<nat>,
                       maxPerUser: Option<nat>, params: seq<(string, string)>)

  /** The stored hash is a function of the password and the salt. */
  datatype Login = Login(password: string, salt: nat, date: nat, disabled: bool, expired: bool)

  datatype Entity = Entity(name: string, isUser: bool, login: Option<Login>)

  /** `grants`: the READ permissions, as pairs of entity id and connection id. */
  datatype Db = Db(conns: map<nat, Conn>, entities: map<nat, Entity>, grants: set<(nat, nat)>,
                   connSerial: nat, entitySerial: nat)

  datatype Keep = Keep(connNames: seq<string>, userNames: seq<string>)

  predicate TopNamed(c: Conn, name: string) {
    c.parent.None? && c.name == name
  }

  predicate UserNamed(e: Entity, name: string) {
    e.isUser && e.name == name
  }

  ghost predicate UniqueTops(conns: map<nat, Conn>) {
    forall i, j :: i in conns && j in conns && conns[i].parent.None? && TopNamed(conns[j], conns[i].name) ==> i == j
  }

  ghost predicate UniqueUsers(entities: map<nat, Entity>) {
    forall i, j :: i in entities && j in entities && entities[i].isUser && UserNamed(entities[j], entities[i].name) ==> i == j
  }

  /** At most one top-level connection per name, no id beyond the serials, permissions only between existing rows. */
  ghost predicate WellFormed(db: Db) {
    && UniqueTops(db.conns) && UniqueUsers(db.entities)
    && (forall i :: i in db.conns ==> i < db.connSerial)
    && (forall i :: i in db.entities ==> i < db.entitySerial)
    && (forall p :: p in db.grants ==> p.0 in db.entities && p.1 in db.conns)
  }

  ghost function FindTop(db: Db, name: string): Option<nat> {
    if i :| i in db.conns && TopNamed(db.conns[i], name) then Some(i) else None
  }

  ghost function FindUser(db: Db, name: string): Option<nat> {
    if i :| i in db.entities && UserNamed(db.entities[i], name) then Some(i) else None
  }

  lemma TopIs(db: Db, i: nat, name: string)
    requires WellFormed(db) && i in db.conns && TopNamed(db.conns[i], name)
    ensures FindTop(db, name) == Some(i)
  {
  }

  lemma UserIs(db: Db, i: nat, name: string)
    requires WellFormed(db) && i in db.entities && UserNamed(db.entities[i], name)
    ensures FindUser(db, name) == Some(i)
  {
  }

  // ---------- one upsert ----------

  function Provisioned(row: JdbcRow): Conn {
    Conn(row.instanceId, None, "rdp", Some(1), Some(1), ConnectionParams(row))
  }

  /** The entity serial is drawn before the conflict is detected, so it moves on every upsert. */
  ghost function UpsertUser(db: Db, row: JdbcRow, salt: nat, now: nat): (Db, nat) {
    match FindUser(db, row.guacUser)
    case Some(e) =>
      var login := match db.entities[e].login
        case Some(l) => l.(password := row.guacPassword, salt := salt, date := now)
        case None => Login(row.guacPassword, salt, now, false, false);
      (db.(entities := db.entities[e := db.entities[e].(login := Some(login))], entitySerial := db.entitySerial + 1), e)
    case None =>
      var login := Login(row.guacPassword, salt, now, false, false);
      (db.(entities := db.entities[db.entitySerial := Entity(row.guacUser, true, Some(login))],
           entitySerial := db.entitySerial + 1), db.entitySerial)
  }

  ghost function UpsertConn(db: Db, row: JdbcRow): (Db, nat) {
    match FindTop(db, row.instanceId)
    case Some(i) => (db.(conns := db.conns[i := Provisioned(row)]), i)
    case None =>
      (db.(conns := db.conns[db.connSerial := Provisioned(row)], connSerial := db.connSerial + 1), db.connSerial)
  }

  /** Entity with login, connection with parameters, READ permission. */
  ghost function Upsert(db: Db, row: JdbcRow, salt: nat, now: nat): Db {
    var (u, e) := UpsertUser(db, row, salt, now);
    var (v, i) := UpsertConn(u, row);
    v.(grants := v.grants + {(e, i)})
  }

  /** An entity without what every upsert rewrites: password hash, salt and date. */
  function SecretsAside(e: Entity): Entity {
    match e.login
    case Some(l) => e.(login := Some(l.(password := "", salt := 0, date := 0)))
    case None => e
  }

  predicate HasLogin(db: Db, e: nat) {
    e in db.entities && db.entities[e].login.Some?
  }

  lemma UpsertUserKeeps(db: Db, row: JdbcRow, salt: nat, now: nat)
    requires WellFormed(db)
    ensures WellFormed(UpsertUser(db, row, salt, now).0)
  {
    hide UniqueTops;
  }

  /** The user row after an upsert; no other entity and no connection is touched. */
  lemma UpsertUserEffect(db: Db, row: JdbcRow, salt: nat, now: nat)
    requires WellFormed(db)
    ensures var (u, e) := UpsertUser(db, row, salt, now);
            && WellFormed(u) && u.conns == db.conns && u.grants == db.grants && u.connSerial == db.connSerial
            && FindUser(u, row.guacUser) == Some(e) && u.entitySerial == db.entitySerial + 1
            && FindUser(db, row.guacUser) == (if e in db.entities then Some(e) else None)
            && u.entities == db.entities[e := u.entities[e]]
            && UserNamed(u.entities[e], row.guacUser)
            && u.entities[e].login.Some? && u.entities[e].login.value.password == row.guacPassword
            && u.entities[e].login.value.salt == salt && u.entities[e].login.value.date == now
            && (!HasLogin(db, e) ==> !u.entities[e].login.value.disabled && !u.entities[e].login.value.expired)
            && (e in db.entities && db.entities[e].login.Some? ==> SecretsAside(u.entities[e]) == SecretsAside(db.entities[e]))
  {
    hide UniqueTops, UniqueUsers;
    UpsertUserKeeps(db, row, salt, now);
    var (u, e) := UpsertUser(db, row, salt, now);
    assert UserNamed(u.entities[e], row.guacUser);
    UserIs(u, e, row.guacUser);
  }

  lemma UpsertConnEffect(db: Db, row: JdbcRow)
    requires WellFormed(db)
    ensures var (v, i) := UpsertConn(db, row);
            && WellFormed(v) && v.entities == db.entities && v.grants == db.grants && v.entitySerial == db.entitySerial
            && FindTop(v, row.instanceId) == Some(i)
            && (FindTop(db, row.instanceId).Some? ==> FindTop(db, row.instanceId) == Some(i) && v.connSerial == db.connSerial)
            && (FindTop(db, row.instanceId).None? ==> i == db.connSerial && v.connSerial == db.connSerial + 1)
            && v.conns == db.conns[i := Provisioned(row)]
  {
    hide ConnectionParams;
    var (v, i) := UpsertConn(db, row);
    assert TopNamed(v.conns[i], row.instanceId);
    TopIs(v, i, row.instanceId);
  }

  // ---------- all the upserts of a sync ----------

  ghost function UpsertAll(db: Db, rows: seq<JdbcRow>, salts: seq<nat>, now: nat): Db
    requires |salts| == |rows|
    decreases |rows|
  {
    if rows == [] then db else
      var n := |rows| - 1;
      Upsert(UpsertAll(db, rows[..n], salts[..n], now), rows[n], salts[n], now)
  }

  /** The row that decides a connection: the last one naming it. */
  function LastRow(rows: seq<JdbcRow>, name: string): (r: Option<JdbcRow>)
    ensures r.Some? ==> r.value in rows && r.value.instanceId == name
    ensures r.None? ==> forall row :: row in rows ==> row.instanceId != name
    decreases |rows|
  {
    if rows == [] then None
    else if rows[|rows| - 1].instanceId == name then Some(rows[|rows| - 1])
    else
      assert rows == rows[..|rows| - 1] + [rows[|rows| - 1]];
      LastRow(rows[..|rows| - 1], name)
  }

  /** What the upserts make of a connection that was there before. */
  function Refreshed(c: Conn, rows: seq<JdbcRow>): Conn {
    if c.parent.None? && LastRow(rows, c.name).Some? then Provisioned(LastRow(rows, c.name).value) else c
  }

  lemma UpsertEffect(db: Db, row: JdbcRow, salt: nat, now: nat) returns (e: nat, i: nat)
    requires WellFormed(db)
    ensures var t := Upsert(db, row, salt, now);
            && WellFormed(t) && FindTop(t, row.instanceId) == Some(i) && FindUser(t, row.guacUser) == Some(e)
            && t.grants == db.grants + {(e, i)}
            && t.conns == db.conns[i := Provisioned(row)]
            && (FindTop(db, row.instanceId) == (if i in db.conns then Some(i) else None))
            && (i !in db.conns ==> i == db.connSerial)
            && t.connSerial == (if i in db.conns then db.connSerial else db.connSerial + 1)
            && (FindUser(db, row.guacUser) == (if e in db.entities then Some(e) else None))
            && e in t.entities && t.entities == db.entities[e := t.entities[e]] && t.entitySerial == db.entitySerial + 1
            && UserNamed(t.entities[e], row.guacUser)
            && t.entities[e].login.Some? && t.entities[e].login.value.password == row.guacPassword
            && t.entities[e].login.value.salt == salt && t.entities[e].login.value.date == now
            && (!HasLogin(db, e) ==> !t.entities[e].login.value.disabled && !t.entities[e].login.value.expired)
            && (e in db.entities && db.entities[e].login.Some? ==> SecretsAside(t.entities[e]) == SecretsAside(db.entities[e]))
  {
    hide ConnectionParams, UniqueTops, UniqueUsers;
    UpsertUserEffect(db, row, salt, now);
    var (u, e') := UpsertUser(db, row, salt, now);
    UpsertConnEffect(u, row);
    var (v, i') := UpsertConn(u, row);
    e, i := e', i';
    SameTop(db, u, row.instanceId);
    var t := Upsert(db, row, salt, now);
    SameTop(v, t, row.instanceId);
    SameUser(v, t, row.guacUser);
    SameUser(v, u, row.guacUser);
  }

  lemma SameTop(a: Db, b: Db, name: string)
    requires a.conns == b.conns && WellFormed(a)
    ensures FindTop(a, name) == FindTop(b, name)
  {
  }

  lemma SameUser(a: Db, b: Db, name: string)
    requires a.entities == b.entities && WellFormed(a)
    ensures FindUser(a, name) == FindUser(b, name)
  {
  }

  /** How the connections in `t` come from those in `db` by upserting `rows`. */
  ghost predicate ConnsAfter(db: Db, t: Db, rows: seq<JdbcRow>) {
    && t.connSerial == db.connSerial + |t.conns| - |db.conns| && |db.conns| <= |t.conns|
    && (forall k :: k in db.conns ==> k in t.conns && t.conns[k] == Refreshed(db.conns[k], rows))
    && (forall k :: k in t.conns && k !in db.conns ==> k >= db.connSerial && t.conns[k].parent.None?)
    && (forall k :: k in t.conns && k !in db.conns ==>
          LastRow(rows, t.conns[k].name).Some? && t.conns[k] == Provisioned(LastRow(rows, t.conns[k].name).value))
  }

  lemma RefreshedKeepsName(c: Conn, rows: seq<JdbcRow>)
    ensures Refreshed(c, rows).name == c.name && Refreshed(c, rows).parent == c.parent
  {
    hide ConnectionParams;
  }

  lemma RefreshedSnoc(c: Conn, rows: seq<JdbcRow>, row: JdbcRow)
    ensures Refreshed(c, rows + [row]) == if TopNamed(c, row.instanceId) then Provisioned(row) else Refreshed(c, rows)
  {
    hide ConnectionParams, LastRow;
    LastRowSnoc(rows, row, c.name);
  }

  lemma ProvisionedNamed(row: JdbcRow)
    ensures TopNamed(Provisioned(row), row.instanceId) && Provisioned(row).name == row.instanceId
  {
    hide ConnectionParams;
  }

  lemma TopsApart(db: Db, i: nat, k: nat, name: string)
    requires WellFormed(db) && i in db.conns && k in db.conns && TopNamed(db.conns[i], name) && TopNamed(db.conns[k], name)
    ensures i == k
  {
  }

  lemma ConnsStepKept(db: Db, m: Db, t: Db, rows: seq<JdbcRow>, row: JdbcRow, i: nat, k: nat)
    requires ConnsAfter(db, m, rows) && WellFormed(t) && k in db.conns
    requires t.conns == m.conns[i := Provisioned(row)]
    requires i in m.conns ==> TopNamed(m.conns[i], row.instanceId)
    requires i !in m.conns ==> i == m.connSerial
    ensures k in t.conns && t.conns[k] == Refreshed(db.conns[k], rows + [row])
  {
    hide ConnectionParams, Provisioned, LastRow, Refreshed, WellFormed;
    ProvisionedNamed(row);
    RefreshedSnoc(db.conns[k], rows, row);
    RefreshedKeepsName(db.conns[k], rows);
    if TopNamed(t.conns[k], row.instanceId) {
      TopsApart(t, i, k, row.instanceId);
    }
  }

  lemma ConnsStepNew(db: Db, m: Db, t: Db, rows: seq<JdbcRow>, row: JdbcRow, i: nat, k: nat)
    requires ConnsAfter(db, m, rows) && WellFormed(t) && k in t.conns && k !in db.conns
    requires t.conns == m.conns[i := Provisioned(row)]
    requires i !in m.conns ==> i == m.connSerial
    ensures k >= db.connSerial && t.conns[k].parent.None? && LastRow(rows + [row], t.conns[k].name).Some?
            && t.conns[k] == Provisioned(LastRow(rows + [row], t.conns[k].name).value)
  {
    hide ConnectionParams, Provisioned, LastRow, Refreshed, WellFormed;
    ProvisionedNamed(row);
    LastRowSnoc(rows, row, t.conns[k].name);
    if k != i && TopNamed(t.conns[k], row.instanceId) {
      TopsApart(t, i, k, row.instanceId);
    }
  }

  lemma LastRowSnoc(rows: seq<JdbcRow>, row: JdbcRow, n: string)
    ensures LastRow(rows + [row], n) == if row.instanceId == n then Some(row) else LastRow(rows, n)
  {
    assert (rows + [row])[..|rows|] == rows;
  }

  lemma {:induction false} ConnsStep(db: Db, m: Db, t: Db, rows: seq<JdbcRow>, row: JdbcRow, i: nat)
    requires ConnsAfter(db, m, rows) && WellFormed(t)
    requires t.conns == m.conns[i := Provisioned(row)]
    requires i in m.conns ==> TopNamed(m.conns[i], row.instanceId)
    requires i !in m.conns ==> i == m.connSerial
    requires t.connSerial == if i in m.conns then m.connSerial else m.connSerial + 1
    ensures ConnsAfter(db, t, rows + [row])
  {
    hide ConnectionParams, Provisioned, LastRow, Refreshed, WellFormed;
    forall k | k in db.conns ensures k in t.conns && t.conns[k] == Refreshed(db.conns[k], rows + [row]) {
      ConnsStepKept(db, m, t, rows, row, i, k);
    }
    forall k | k in t.conns && k !in db.conns
      ensures k >= db.connSerial && t.conns[k].parent.None? && LastRow(rows + [row], t.conns[k].name).Some?
              && t.conns[k] == Provisioned(LastRow(rows + [row], t.conns[k].name).value)
    {
      ConnsStepNew(db, m, t, rows, row, i, k);
    }
  }

  lemma NoConnRows(db: Db)
    ensures ConnsAfter(db, db, [])
  {
  }

  lemma {:induction false} UpsertAllConns(db: Db, rows: seq<JdbcRow>, salts: seq<nat>, now: nat)
    requires WellFormed(db) && |salts| == |rows|
    ensures WellFormed(UpsertAll(db, rows, salts, now))
    ensures ConnsAfter(db, UpsertAll(db, rows, salts, now), rows)
    decreases |rows|
  {
    hide ConnectionParams, WellFormed, Upsert, ConnsAfter, Provisioned;
    if rows == [] {
      NoConnRows(db);
    } else {
      var n := |rows| - 1;
      UpsertAllConns(db, rows[..n], salts[..n], now);
      var m := UpsertAll(db, rows[..n], salts[..n], now);
      var e, i := UpsertEffect(m, rows[n], salts[n], now);
      FoundTop(m, rows[n].instanceId);
      ConnsStep(db, m, UpsertAll(db, rows, salts, now), rows[..n], rows[n], i);
      assert rows[..n] + [rows[n]] == rows;
    }
  }

  lemma FoundTop(db: Db, name: string)
    ensures FindTop(db, name).Some? ==>
              FindTop(db, name).value in db.conns && TopNamed(db.conns[FindTop(db, name).value], name)
  {
  }

  lemma FoundUser(db: Db, name: string)
    ensures FindUser(db, name).Some? ==>
              FindUser(db, name).value in db.entities && UserNamed(db.entities[FindUser(db, name).value], name)
  {
  }

  // ---------- users and permissions ----------

  /** The row that decides a user's password: the last one naming the user. */
  function LastUserRow(rows: seq<JdbcRow>, user: string): (r: Option<JdbcRow>)
    ensures r.Some? ==> r.value in rows && r.value.guacUser == user
    ensures r.None? ==> forall row :: row in rows ==> row.guacUser != user
    decreases |rows|
  {
    if rows == [] then None
    else if rows[|rows| - 1].guacUser == user then Some(rows[|rows| - 1])
    else
      assert rows == rows[..|rows| - 1] + [rows[|rows| - 1]];
      LastUserRow(rows[..|rows| - 1], user)
  }

  lemma LastUserRowSnoc(rows: seq<JdbcRow>, row: JdbcRow, n: string)
    ensures LastUserRow(rows + [row], n) == if row.guacUser == n then Some(row) else LastUserRow(rows, n)
  {
    assert (rows + [row])[..|rows|] == rows;
  }

  /** What upserting `rows` may do to one entity. */
  ghost predicate UserAfter(db: Db, t: Db, rows: seq<JdbcRow>, k: nat) {
    k in t.entities &&
    var e := t.entities[k];
    var decided := LastUserRow(rows, e.name);
    && (k !in db.entities ==> e.isUser && decided.Some?)
    && (k in db.entities ==> e.name == db.entities[k].name && e.isUser == db.entities[k].isUser)
    && (e.isUser && decided.Some? ==> e.login.Some? && e.login.value.password == decided.value.guacPassword)
    && (k in db.entities && !(e.isUser && decided.Some?) ==> e == db.entities[k])
    && (k in db.entities && db.entities[k].login.Some? ==> SecretsAside(e) == SecretsAside(db.entities[k]))
    && (!HasLogin(db, k) && e.login.Some? ==> !e.login.value.disabled && !e.login.value.expired)
  }

  lemma UsersStep(db: Db, m: Db, t: Db, rows: seq<JdbcRow>, row: JdbcRow, e: nat, k: nat)
    requires k in m.entities ==> UserAfter(db, m, rows, k)
    requires WellFormed(t) && k in t.entities && db.entities.Keys <= m.entities.Keys
    requires e in t.entities && t.entities == m.entities[e := t.entities[e]]
    requires UserNamed(t.entities[e], row.guacUser)
    requires t.entities[e].login.Some? && t.entities[e].login.value.password == row.guacPassword
    requires e in m.entities ==> UserNamed(m.entities[e], row.guacUser)
    requires e in m.entities && m.entities[e].login.Some? ==> SecretsAside(t.entities[e]) == SecretsAside(m.entities[e])
    requires !HasLogin(m, e) ==> !t.entities[e].login.value.disabled && !t.entities[e].login.value.expired
    ensures UserAfter(db, t, rows + [row], k)
  {
    hide UniqueTops;
    LastUserRowSnoc(rows, row, t.entities[k].name);
    assert UserNamed(t.entities[k], row.guacUser) ==> k == e;
  }

  ghost predicate UsersAfter(db: Db, t: Db, rows: seq<JdbcRow>) {
    && db.entities.Keys <= t.entities.Keys && t.entitySerial == db.entitySerial + |rows|
    && forall k :: k in t.entities ==> UserAfter(db, t, rows, k)
  }

  lemma {:induction false} UpsertAllUsers(db: Db, rows: seq<JdbcRow>, salts: seq<nat>, now: nat)
    requires WellFormed(db) && |salts| == |rows|
    ensures UsersAfter(db, UpsertAll(db, rows, salts, now), rows)
    decreases |rows|
  {
    hide ConnectionParams, WellFormed, Upsert, UserAfter, ConnsAfter, Provisioned;
    if rows == [] {
      forall k | k in db.entities ensures UserAfter(db, db, rows, k) { NoUserRows(db, k); }
    } else {
      var n := |rows| - 1;
      UpsertAllUsers(db, rows[..n], salts[..n], now);
      UpsertAllConns(db, rows[..n], salts[..n], now);
      var m := UpsertAll(db, rows[..n], salts[..n], now);
      var t := UpsertAll(db, rows, salts, now);
      var e, i := UpsertEffect(m, rows[n], salts[n], now);
      FoundUser(m, rows[n].guacUser);
      assert rows[..n] + [rows[n]] == rows;
      forall k | k in t.entities ensures UserAfter(db, t, rows, k) {
        UsersStep(db, m, t, rows[..n], rows[n], e, k);
      }
    }
  }

  lemma NoUserRows(db: Db, k: nat)
    requires k in db.entities
    ensures UserAfter(db, db, [], k)
  {
  }

  /** The user and the connection of a row, by id. */
  ghost predicate GrantOf(t: Db, row: JdbcRow, p: (nat, nat)) {
    FindUser(t, row.guacUser) == Some(p.0) && FindTop(t, row.instanceId) == Some(p.1)
  }

  ghost predicate GrantsAfter(db: Db, t: Db, rows: seq<JdbcRow>) {
    && db.grants <= t.grants
    && (forall p :: p in t.grants && p !in db.grants ==> exists row :: row in rows && GrantOf(t, row, p))
    && (forall row :: row in rows ==> exists p :: p in t.grants && GrantOf(t, row, p))
  }

  /** Rows that were found keep their ids through a further upsert. */
  lemma GrantOfKept(m: Db, t: Db, row: JdbcRow, p: (nat, nat), e: nat, i: nat, last: JdbcRow)
    requires WellFormed(m) && WellFormed(t) && GrantOf(m, row, p)
    requires t.conns == m.conns[i := Provisioned(last)]
    requires e in t.entities && t.entities == m.entities[e := t.entities[e]]
    requires UserNamed(t.entities[e], last.guacUser)
    requires FindTop(m, last.instanceId) == if i in m.conns then Some(i) else None
    requires FindUser(m, last.guacUser) == if e in m.entities then Some(e) else None
    ensures GrantOf(t, row, p)
  {
    hide ConnectionParams, WellFormed, Provisioned;
    ProvisionedNamed(last);
    FoundTop(m, row.instanceId);
    FoundTop(m, last.instanceId);
    FoundUser(m, row.guacUser);
    FoundUser(m, last.guacUser);
    TopIs(t, p.1, row.instanceId);
    UserIs(t, p.0, row.guacUser);
  }

  lemma {:induction false} UpsertAllGrants(db: Db, rows: seq<JdbcRow>, salts: seq<nat>, now: nat)
    requires WellFormed(db) && |salts| == |rows|
    ensures GrantsAfter(db, UpsertAll(db, rows, salts, now), rows)
    decreases |rows|
  {
    hide ConnectionParams, WellFormed, Upsert, GrantOf, ConnsAfter;
    if rows == [] {
    } else {
      var n := |rows| - 1;
      UpsertAllGrants(db, rows[..n], salts[..n], now);
      UpsertAllConns(db, rows[..n], salts[..n], now);
      var m := UpsertAll(db, rows[..n], salts[..n], now);
      var t := UpsertAll(db, rows, salts, now);
      var e, i := UpsertEffect(m, rows[n], salts[n], now);
      GrantsStep(db, m, t, rows[..n], rows[n], e, i);
      assert rows[..n] + [rows[n]] == rows;
    }
  }

  lemma GrantsStep(db: Db, m: Db, t: Db, rows: seq<JdbcRow>, last: JdbcRow, e: nat, i: nat)
    requires WellFormed(m) && WellFormed(t) && GrantsAfter(db, m, rows)
    requires t.conns == m.conns[i := Provisioned(last)]
    requires e in t.entities && t.entities == m.entities[e := t.entities[e]]
    requires UserNamed(t.entities[e], last.guacUser)
    requires FindTop(m, last.instanceId) == if i in m.conns then Some(i) else None
    requires FindUser(m, last.guacUser) == if e in m.entities then Some(e) else None
    requires FindTop(t, last.instanceId) == Some(i) && FindUser(t, last.guacUser) == Some(e)
    requires t.grants == m.grants + {(e, i)}
    ensures GrantsAfter(db, t, rows + [last])
  {
    hide ConnectionParams, WellFormed, GrantOf, Provisioned;
    assert GrantOf(t, last, (e, i)) by { GrantOfNew(t, last, e, i); }
    forall p | p in t.grants && p !in db.grants ensures exists row :: row in rows + [last] && GrantOf(t, row, p) {
      if p == (e, i) {
        assert last in rows + [last];
      } else {
        var row :| row in rows && GrantOf(m, row, p);
        GrantOfKept(m, t, row, p, e, i, last);
        assert row in rows + [last];
      }
    }
    forall row | row in rows + [last] ensures exists p :: p in t.grants && GrantOf(t, row, p) {
      if row in rows {
        var p :| p in m.grants && GrantOf(m, row, p);
        GrantOfKept(m, t, row, p, e, i, last);
      } else {
        assert (e, i) in t.grants;
      }
    }
  }

  lemma GrantOfNew(t: Db, row: JdbcRow, e: nat, i: nat)
    requires FindTop(t, row.instanceId) == Some(i) && FindUser(t, row.guacUser) == Some(e)
    ensures GrantOf(t, row, (e, i))
  {
  }

  // ---------- the prune and the whole sync ----------

  ghost function KeepConns(rows: seq<JdbcRow>, keep: Option<Keep>): set<string> {
    (if keep.Some? then set n | n in keep.value.connNames else {}) + set row | row in rows :: row.instanceId
  }

  ghost function KeepUsers(rows: seq<JdbcRow>, keep: Option<Keep>): set<string> {
    (if keep.Some? then set n | n in keep.value.userNames else {}) + set row | row in rows :: row.guacUser
  }

  /** `name LIKE 'lab-%'`. */
  predicate LabName(name: string) {
    |name| >= 4 && name[..4] == "lab-"
  }

  predicate StaleConn(c: Conn, keep: set<string>) {
    c.parent.None? && c.name !in keep
  }

  predicate StaleUser(e: Entity, keep: set<string>) {
    e.isUser && LabName(e.name) && e.name !in keep
  }

  /** Deleting a connection or an entity cascades to its permissions. */
  ghost function PruneConns(db: Db, keep: set<string>): Db {
    var conns := map i | i in db.conns && !StaleConn(db.conns[i], keep) :: db.conns[i];
    db.(conns := conns, grants := set p | p in db.grants && p.1 in conns)
  }

  ghost function PruneUsers(db: Db, keep: set<string>): Db {
    var entities := map i | i in db.entities && !StaleUser(db.entities[i], keep) :: db.entities[i];
    db.(entities := entities, grants := set p | p in db.grants && p.0 in entities)
  }

  ghost function Sync(db: Db, rows: seq<JdbcRow>, keep: Option<Keep>, salts: seq<nat>, now: nat): Db
    requires |salts| == |rows|
  {
    PruneUsers(PruneConns(UpsertAll(db, rows, salts, now), KeepConns(rows, keep)), KeepUsers(rows, keep))
  }

  lemma PruneKeeps(db: Db, conns: set<string>, users: set<string>)
    requires WellFormed(db)
    ensures WellFormed(PruneUsers(PruneConns(db, conns), users))
  {
    hide LabName;
  }

  lemma SyncKeeps(db: Db, rows: seq<JdbcRow>, keep: Option<Keep>, salts: seq<nat>, now: nat)
    requires WellFormed(db) && |salts| == |rows|
    ensures WellFormed(Sync(db, rows, keep, salts, now))
  {
    hide WellFormed, UpsertAll, PruneConns, PruneUsers, ConnsAfter;
    UpsertAllConns(db, rows, salts, now);
    PruneKeeps(UpsertAll(db, rows, salts, now), KeepConns(rows, keep), KeepUsers(rows, keep));
  }

  ghost function TopNames(db: Db): set<string> {
    set i | i in db.conns && db.conns[i].parent.None? :: db.conns[i].name
  }

  /** A user the database did not have can log in with the row's password as soon as the row is upserted. */
  lemma NewUserCanLogIn(db: Db, row: JdbcRow, salt: nat, now: nat) returns (e: nat)
    requires WellFormed(db)
    requires forall k :: k in db.entities ==> !(db.entities[k].isUser && db.entities[k].name == row.guacUser)
    ensures var t := Upsert(db, row, salt, now);
            && e in t.entities && t.entities[e].isUser && t.entities[e].name == row.guacUser
            && t.entities[e].login == Some(Login(row.guacPassword, salt, now, false, false))
  {
    hide Upsert, ConnectionParams;
    var e', i := UpsertEffect(db, row, salt, now);
    e := e';
    FoundUser(db, row.guacUser);
  }

  /** What an upsert writes to the row's connection, new or old: RDP, one session at a time, for it and for each user. */
  lemma ConnectionIsSingleSession(db: Db, row: JdbcRow, salt: nat, now: nat) returns (i: nat)
    requires WellFormed(db)
    ensures var t := Upsert(db, row, salt, now);
            && i in t.conns && t.conns[i].name == row.instanceId && t.conns[i].parent.None?
            && t.conns[i].protocol == "rdp" && t.conns[i].maxConnections == Some(1) && t.conns[i].maxPerUser == Some(1)
            && t.conns[i].params == ConnectionParams(row)
  {
    hide Upsert, ConnectionParams;
    var e, i' := UpsertEffect(db, row, salt, now);
    i := i';
  }
}
