/**
 Which connection a live instance gets from the two renderers, in the fields of its own row
 (packages/control-plane/src/runtime/guacamole.ts:137-183, 378-400; guacamoleJdbc.ts:92-100, 107-181).
 */
module ServedRows {
  import opened Prelude
  import opened UserMapping
  import opened XmlReader
  import opened MappingReadBack

  /** Credentials, an RDP port and an RDP user name. */
  predicate Complete(r: RenderRow) {
    && r.guacamoleUser.Some? && r.guacamoleUser.value != ""
    && r.guacamolePassword.Some? && r.guacamolePassword.value != ""
    && r.rdpHostPort.Some? && r.rdpHostPort.value != 0
    && r.rdpUsername.Some? && r.rdpUsername.value != ""
  }

  /** The JDBC row is that of the instance, with this host. */
  predicate RowFor(j: JdbcRow, r: RenderRow, host: string)
    requires Complete(r)
  {
    && j.instanceId == r.id && j.guacUser == r.guacamoleUser.value && j.guacPassword == r.guacamolePassword.value
    && j.hostname == host && j.port == r.rdpHostPort.value
    && j.rdpUsername == r.rdpUsername.value && j.rdpPassword == r.rdpPassword
  }

  lemma {:induction false} RowsComeFrom(rows: seq<RenderRow>, d: Option<string>)
    ensures forall r :: r in rows && Renderable(r, d) ==> ToJdbc(r, d) in JdbcRows(rows, d)
    ensures forall j :: j in JdbcRows(rows, d) ==> exists r :: r in rows && Renderable(r, d) && j == ToJdbc(r, d)
  {
    hide Renderable, ToJdbc;
    if rows != [] {
      RowsComeFrom(rows[1..], d);
      assert rows == [rows[0]] + rows[1..];
    }
  }

  /** The node's own proxy host comes first, whatever the configured default. */
  lemma ProxyHostServes(rows: seq<RenderRow>, d: Option<string>, r: RenderRow) returns (j: JdbcRow)
    requires r in rows && Complete(r) && r.proxyHost.Some? && r.proxyHost.value != ""
    ensures j in JdbcRows(rows, d) && RowFor(j, r, r.proxyHost.value)
  {
    hide JdbcRows;
    RowsComeFrom(rows, d);
    assert Renderable(r, d);
    j := ToJdbc(r, d);
  }

  /** The default is what a row without a proxy host falls back to. */
  lemma DefaultHostServes(rows: seq<RenderRow>, d: Option<string>, r: RenderRow) returns (j: JdbcRow)
    requires r in rows && Complete(r) && (r.proxyHost.None? || r.proxyHost.value == "") && d.Some? && d.value != ""
    ensures j in JdbcRows(rows, d) && RowFor(j, r, d.value)
  {
    hide JdbcRows;
    RowsComeFrom(rows, d);
    assert Renderable(r, d);
    j := ToJdbc(r, d);
  }

  /** An instance has a connection exactly if its row is complete and there is a host from one of the two sources. */
  lemma ServedIff(rows: seq<RenderRow>, d: Option<string>, r: RenderRow)
    requires r in rows && forall s :: s in rows && s.id == r.id ==> s == r
    ensures (exists j :: j in JdbcRows(rows, d) && j.instanceId == r.id)
            <==> Complete(r) && ((r.proxyHost.Some? && r.proxyHost.value != "") || (d.Some? && d.value != ""))
  {
    hide JdbcRows;
    RowsComeFrom(rows, d);
    if j :| j in JdbcRows(rows, d) && j.instanceId == r.id {
      var s :| s in rows && Renderable(s, d) && j == ToJdbc(s, d);
      assert s.id == r.id;
    }
    if Renderable(r, d) { assert ToJdbc(r, d).instanceId == r.id; }
  }

  /** The parameters of a connection, one by one; the password only when the template has one. */
  predicate RdpParams(ps: seq<(string, string)>, host: string, port: string, user: string, password: Option<string>) {
    var rest := if password.Some? && password.value != "" then 4 else 3;
    && |ps| == rest + 7
    && ps[0] == ("hostname", host) && ps[1] == ("port", port) && ps[2] == ("username", user)
    && (rest == 4 ==> ps[3] == ("password", password.value))
    && ps[rest] == ("security", "nla") && ps[rest + 1] == ("ignore-cert", "true")
    && ps[rest + 2] == ("resize-method", "display-update") && ps[rest + 3] == ("enable-wallpaper", "false")
    && ps[rest + 4] == ("enable-theming", "false") && ps[rest + 5] == ("enable-font-smoothing", "true")
    && ps[rest + 6] == ("color-depth", "24")
  }

  lemma ParamsAre(j: JdbcRow)
    ensures RdpParams(ConnectionParams(j), j.hostname, Decimal(j.port), j.rdpUsername, j.rdpPassword)
  {
    hide Decimal;
  }

  /** No character an XML reader would normalise in any value of the row. */
  predicate PlainRow(r: RenderRow) {
    && NoBlanks(r.id) && (r.guacamoleUser.Some? ==> NoBlanks(r.guacamoleUser.value))
    && (r.guacamolePassword.Some? ==> NoBlanks(r.guacamolePassword.value))
    && (r.proxyHost.Some? ==> NoBlanks(r.proxyHost.value)) && (r.rdpUsername.Some? ==> NoBlanks(r.rdpUsername.value))
    && (r.rdpPassword.Some? ==> NoBlanks(r.rdpPassword.value))
  }

  lemma PlainIsUnnormalised(rows: seq<RenderRow>, d: Option<string>)
    requires (forall r :: r in rows ==> PlainRow(r)) && (d.Some? ==> NoBlanks(d.value))
    ensures forall j :: j in JdbcRows(rows, d) ==> Unnormalised(j)
  {
    hide JdbcRows;
    RowsComeFrom(rows, d);
  }

  /**
   End to end: whoever reads the file finds, under the student's user name and password, the instance's connection with
   exactly its RDP parameters, at the node's proxy host or, failing that, the default.
   */
  lemma StudentFindsConnection(rows: seq<RenderRow>, d: Option<string>, r: RenderRow, host: string) returns (e: Entry)
    requires r in rows && Complete(r) && host != ""
    requires if r.proxyHost.Some? && r.proxyHost.value != "" then host == r.proxyHost.value else d == Some(host)
    requires (forall s :: s in rows ==> PlainRow(s)) && (d.Some? ==> NoBlanks(d.value))
    ensures var read := ReadUserMapping(UserMappingXml(rows, d)); read.Some? && e in read.value
    ensures e.user == r.guacamoleUser.value && e.password == r.guacamolePassword.value
    ensures e.connection == r.id && e.protocol == "rdp"
    ensures RdpParams(e.params, host, Decimal(r.rdpHostPort.value), r.rdpUsername.value, r.rdpPassword)
  {
    hide JdbcRows, ReadUserMapping, UserMappingXml, ConnectionParams, Decimal, RdpParams, Unnormalised;
    var j: JdbcRow;
    if r.proxyHost.Some? && r.proxyHost.value != "" {
      j := ProxyHostServes(rows, d, r);
    } else {
      j := DefaultHostServes(rows, d, r);
    }
    PlainIsUnnormalised(rows, d);
    LockStepExactly(rows, d);
    ParamsAre(j);
    e := EntryOf(j);
    var k :| 0 <= k < |JdbcRows(rows, d)| && JdbcRows(rows, d)[k] == j;
    assert Entries(JdbcRows(rows, d))[k] == e;
  }
}
