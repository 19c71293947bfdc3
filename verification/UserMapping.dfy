/**
 The two renderings of the live Guacamole-enabled instances: the whole user-mapping.xml
 (packages/control-plane/src/runtime/guacamole.ts:107-183) and the flat rows for the JDBC backend
 (guacamole.ts:378-400 and guacamoleJdbc.ts:92-100, 166-174). Each applies its own copy of the skip guards.
 */
module UserMapping {
  import opened Prelude

  /** `proxyHost` is None when the instance has no node. */
  datatype RenderRow = RenderRow(id: string, guacamoleUser: Option<string>, guacamolePassword: Option<string>,
                                 rdpHostPort: Option<nat>, proxyHost: Option<string>,
                                 rdpUsername: Option<string>, rdpPassword: Option<string>)

  datatype JdbcRow = JdbcRow(instanceId: string, guacUser: string, guacPassword: string, hostname: string, port: nat,
                             rdpUsername: string, rdpPassword: Option<string>)

  /** Null and the empty string are both falsy. */
  predicate Present(s: Option<string>) {
    s.Some? && s.value != ""
  }

  function HostOf(r: RenderRow, defaultRdpHost: Option<string>): string {
    if Present(r.proxyHost) then r.proxyHost.value else defaultRdpHost.GetOr("")
  }

  function Digit(d: nat): char
    requires d < 10
  {
    "0123456789"[d]
  }

  /** `String(n)` for a port number. */
  function Decimal(n: nat): string {
    if n < 10 then [Digit(n)] else Decimal(n / 10) + [Digit(n % 10)]
  }

  // ---------- the JDBC rows ----------

  predicate Renderable(r: RenderRow, defaultRdpHost: Option<string>) {
    && Present(r.guacamoleUser) && Present(r.guacamolePassword)
    && r.rdpHostPort.Some? && r.rdpHostPort.value != 0
    && Present(r.rdpUsername)
    && HostOf(r, defaultRdpHost) != ""
  }

  function ToJdbc(r: RenderRow, defaultRdpHost: Option<string>): JdbcRow
    requires Renderable(r, defaultRdpHost)
  {
    JdbcRow(r.id, r.guacamoleUser.value, r.guacamolePassword.value, HostOf(r, defaultRdpHost), r.rdpHostPort.value,
            r.rdpUsername.value, r.rdpPassword)
  }

  function JdbcRows(rows: seq<RenderRow>, defaultRdpHost: Option<string>): seq<JdbcRow> {
    if rows == [] then [] else
      (if Renderable(rows[0], defaultRdpHost) then [ToJdbc(rows[0], defaultRdpHost)] else [])
      + JdbcRows(rows[1..], defaultRdpHost)
  }

  lemma {:induction false} JdbcRowsAppend(a: seq<RenderRow>, b: seq<RenderRow>, d: Option<string>)
    ensures JdbcRows(a + b, d) == JdbcRows(a, d) + JdbcRows(b, d)
  {
    hide Renderable, ToJdbc;
    if a == [] {
      assert a + b == b;
    } else {
      assert (a + b)[1..] == a[1..] + b && (a + b)[0] == a[0];
      JdbcRowsAppend(a[1..], b, d);
      var head := if Renderable(a[0], d) then [ToJdbc(a[0], d)] else [];
      assert JdbcRows(a + b, d) == head + (JdbcRows(a[1..], d) + JdbcRows(b, d));
    }
  }

  method RowsToJdbc(rows: seq<RenderRow>, defaultRdpHost: Option<string>) returns (out: seq<JdbcRow>)
    ensures out == JdbcRows(rows, defaultRdpHost)
  {
    out := [];
    for i := 0 to |rows|
      invariant out == JdbcRows(rows[..i], defaultRdpHost)
    {
      var r := rows[i];
      JdbcRowsAppend(rows[..i], [r], defaultRdpHost);
      assert rows[..i + 1] == rows[..i] + [r];
      if !Present(r.guacamoleUser) || !Present(r.guacamolePassword) { continue; }
      if r.rdpHostPort.None? || r.rdpHostPort.value == 0 { continue; }
      if !Present(r.rdpUsername) { continue; }
      var host := HostOf(r, defaultRdpHost);
      if host == "" { continue; }
      out := out + [JdbcRow(r.id, r.guacamoleUser.value, r.guacamolePassword.value, host, r.rdpHostPort.value,
                            r.rdpUsername.value, r.rdpPassword)];
    }
    assert rows[..|rows|] == rows;
  }

  const RDP_STATIC_PARAMS: seq<(string, string)> :=
    [("security", "nla"), ("ignore-cert", "true"), ("resize-method", "display-update"), ("enable-wallpaper", "false"),
     ("enable-theming", "false"), ("enable-font-smoothing", "true"), ("color-depth", "24")]

  /** The parameters the JDBC path inserts for a connection, in order. */
  function ConnectionParams(row: JdbcRow): seq<(string, string)> {
    [("hostname", row.hostname), ("port", Decimal(row.port)), ("username", row.rdpUsername)]
    + (if Present(row.rdpPassword) then [("password", row.rdpPassword.value)] else [])
    + RDP_STATIC_PARAMS
  }

  // ---------- the XML file ----------

  function ReplaceAll(s: string, c: char, rep: string): string {
    if s == "" then "" else (if s[0] == c then rep else [s[0]]) + ReplaceAll(s[1..], c, rep)
  }

  /** Five replacements, one after the other; the ampersand first. */
  function EscapeXmlAttr(s: string): string {
    ReplaceAll(ReplaceAll(ReplaceAll(ReplaceAll(ReplaceAll(s,
      '&', "&amp;"), '<', "&lt;"), '>', "&gt;"), '"', "&quot;"), '\'', "&apos;")
  }

  function Attribute(name: string, value: string): string {
    " " + name + "=\"" + EscapeXmlAttr(value) + "\""
  }

  function StartTag(name: string, attributes: string): string {
    "<" + (name + attributes) + ">"
  }

  function EndTag(name: string): string {
    "</" + name + ">"
  }

  /** Parameter names are fixed words and are not escaped. */
  function ParamLine(name: string, text: string): string {
    "      " + (StartTag("param", " name=\"" + name + "\"") + (text + EndTag("param")))
  }

  /** The lines of one authorize block. */
  function BlockLines(r: RenderRow, host: string): seq<string>
    requires Present(r.guacamoleUser) && Present(r.guacamolePassword) && r.rdpHostPort.Some? && Present(r.rdpUsername)
  {
    ["  " + StartTag("authorize", Attribute("username", r.guacamoleUser.value) + Attribute("password", r.guacamolePassword.value)),
     "    " + StartTag("connection", Attribute("name", r.id)),
     "      " + (StartTag("protocol", "") + ("rdp" + EndTag("protocol"))),
     ParamLine("hostname", EscapeXmlAttr(host)),
     ParamLine("port", Decimal(r.rdpHostPort.value)),
     ParamLine("username", EscapeXmlAttr(r.rdpUsername.value))]
    + (if Present(r.rdpPassword) then [ParamLine("password", EscapeXmlAttr(r.rdpPassword.value))] else [])
    + [ParamLine("security", "nla"),
       ParamLine("ignore-cert", "true"),
       ParamLine("resize-method", "display-update"),
       ParamLine("enable-wallpaper", "false"),
       ParamLine("enable-theming", "false"),
       ParamLine("enable-font-smoothing", "true"),
       ParamLine("color-depth", "24"),
       "    " + EndTag("connection"),
       "  " + EndTag("authorize")]
  }

  /** The XML declaration and the notice, without their angle brackets. */
  function Declaration(): string {
    "?xml version=\"1.0\"" + " encoding=\"UTF-8\"?"
  }

  function Notice(): string {
    "!-- AUTOGENERATED by " + ("labforge control-plane. " + "Do not edit by hand. --")
  }

  function Prolog(): seq<string> {
    ["<" + Declaration() + ">", "<" + Notice() + ">", StartTag("user-mapping", "")]
  }

  function Body(rows: seq<RenderRow>, defaultRdpHost: Option<string>): seq<string> {
    if rows == [] then [] else
      (if Renderable(rows[0], defaultRdpHost) then BlockLines(rows[0], HostOf(rows[0], defaultRdpHost)) else [])
      + Body(rows[1..], defaultRdpHost)
  }

  function JoinLines(lines: seq<string>): string {
    if lines == [] then "" else if |lines| == 1 then lines[0] else lines[0] + "\n" + JoinLines(lines[1..])
  }

  function UserMappingXml(rows: seq<RenderRow>, defaultRdpHost: Option<string>): string {
    JoinLines(Prolog() + Body(rows, defaultRdpHost) + [EndTag("user-mapping")]) + "\n"
  }

  lemma {:induction false} BodyAppend(a: seq<RenderRow>, b: seq<RenderRow>, d: Option<string>)
    ensures Body(a + b, d) == Body(a, d) + Body(b, d)
  {
    hide BlockLines, HostOf;
    if a == [] {
      assert a + b == b;
    } else {
      assert (a + b)[1..] == a[1..] + b;
      BodyAppend(a[1..], b, d);
    }
  }

  lemma BodyEmpty(d: Option<string>)
    ensures Body([], d) == []
  {
  }

  lemma BodySnoc(rows: seq<RenderRow>, i: nat, d: Option<string>)
    requires i < |rows|
    ensures Body(rows[..i + 1], d) ==
            Body(rows[..i], d) + if Renderable(rows[i], d) then BlockLines(rows[i], HostOf(rows[i], d)) else []
  {
    hide BlockLines, HostOf;
    BodyAppend(rows[..i], [rows[i]], d);
    assert rows[..i + 1] == rows[..i] + [rows[i]];
  }

  method RenderUserMappingXml(rows: seq<RenderRow>, defaultRdpHost: Option<string>) returns (xml: string)
    ensures xml == UserMappingXml(rows, defaultRdpHost)
  {
    hide BlockLines, Body, Prolog, HostOf, JoinLines;
    assert rows[..0] == [];
    var lines := Prolog();
    BodyEmpty(defaultRdpHost);
    for i := 0 to |rows|
      invariant lines == Prolog() + Body(rows[..i], defaultRdpHost)
    {
      BodySnoc(rows, i, defaultRdpHost);
      var r := rows[i];
      if !Present(r.guacamoleUser) || !Present(r.guacamolePassword) { continue; }
      if r.rdpHostPort.None? || r.rdpHostPort.value == 0 { continue; }
      if !Present(r.rdpUsername) { continue; }
      var host := HostOf(r, defaultRdpHost);
      if host == "" { continue; }
      lines := lines + BlockLines(r, host);
    }
    assert rows[..|rows|] == rows;
    lines := lines + [EndTag("user-mapping")];
    xml := JoinLines(lines) + "\n";
  }
}
