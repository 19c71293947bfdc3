/** Reading the tokens of a rendered user-mapping document, and the theorem that ties the two backends together. */
module MappingReadBack {
  import opened Prelude
  import opened UserMapping
  import opened XmlReader
  import opened LockStep
  import opened MappingRoundTrip

  predicate Markup(ts: seq<Token>) {
    ts != [] && (ts[0].Open? || ts[0].Close?)
  }

  lemma {:induction false} SkipIndent(ws: string, ts: seq<Token>)
    requires forall i :: 0 <= i < |ws| ==> ws[i] == ' ' || ws[i] == '\n'
    ensures SkipBlanks(Chars(ws) + ts) == SkipBlanks(ts)
  {
    if ws == "" {
      assert Chars(ws) + ts == ts;
    } else {
      SkipIndent(ws[1..], ts);
      assert (Chars(ws) + ts)[1..] == Chars(ws[1..]) + ts;
    }
  }

  /** The blanks of a line, whether the reader comes to it afresh or after the previous line's break. */
  lemma SkipToLine(indent: string, mid: seq<Token>, ts: seq<Token>)
    requires forall i :: 0 <= i < |indent| ==> indent[i] == ' '
    requires Markup(mid)
    ensures SkipBlanks(LineToks(indent, mid) + ts) == mid + (Chars("\n") + ts)
    ensures SkipBlanks(Chars("\n") + (LineToks(indent, mid) + ts)) == mid + (Chars("\n") + ts)
  {
    hide Chars;
    assert LineToks(indent, mid) + ts == Chars(indent) + (mid + (Chars("\n") + ts));
    SkipIndent(indent, mid + (Chars("\n") + ts));
    SkipIndent("\n", LineToks(indent, mid) + ts);
  }

  lemma {:induction false} TextOf(s: string, ts: seq<Token>)
    requires Markup(ts)
    ensures Text(Chars(s) + ts) == (s, ts)
  {
    if s == "" {
      assert Chars(s) + ts == ts;
    } else {
      TextOf(s[1..], ts);
      assert (Chars(s) + ts)[1..] == Chars(s[1..]) + ts;
      assert [s[0]] + s[1..] == s;
    }
  }

  lemma LeafOf(name: string, s: string, ts: seq<Token>)
    ensures LeafRest(name, Chars(s) + [Close(name)] + ts) == Some((s, ts))
  {
    hide Text;
    TextOf(s, [Close(name)] + ts);
    assert Chars(s) + [Close(name)] + ts == Chars(s) + ([Close(name)] + ts);
  }

  function NormParams(params: seq<(string, string)>): seq<(string, string)> {
    seq(|params|, i requires 0 <= i < |params| => (params[i].0, NormText(params[i].1)))
  }

  lemma {:induction false} ReadParams(params: seq<(string, string)>, mid: seq<Token>, ts: seq<Token>)
    requires Markup(mid) && !mid[0].Open?
    ensures var after := LineToks("    ", mid) + ts;
            && Params(ParamsToks(params) + after) == Some((NormParams(params), mid + (Chars("\n") + ts)))
            && Params(Chars("\n") + (ParamsToks(params) + after)) == Some((NormParams(params), mid + (Chars("\n") + ts)))
  {
    hide SkipBlanks, LeafRest, Text, NormText, LineToks, Chars;
    var after := LineToks("    ", mid) + ts;
    if params == [] {
      SkipToLine("    ", mid, ts);
      assert ParamsToks(params) + after == after && NormParams(params) == [];
      var t := mid + (Chars("\n") + ts);
      assert t[0] == mid[0];
    } else {
      var n, v, more := params[0].0, NormText(params[0].1), params[1..];
      ReadParams(more, mid, ts);
      var open := Open("param", [("name", n)]);
      var line := [open] + (Chars(v) + [Close("param")]);
      var rest := ParamsToks(more) + after;
      assert ParamsToks(params) + after == LineToks("      ", line) + rest;
      SkipToLine("      ", line, rest);
      var t := line + (Chars("\n") + rest);
      assert t[1..] == Chars(v) + [Close("param")] + (Chars("\n") + rest);
      LeafOf("param", v, Chars("\n") + rest);
      assert [(n, v)] + NormParams(more) == NormParams(params);
    }
  }

  lemma ReadConnection(id: string, params: seq<(string, string)>, more: seq<Token>)
    ensures Connection(Chars("\n") + (LineToks("    ", [Open("connection", [("name", id)])])
              + (LineToks("      ", [Open("protocol", [])] + (Chars("rdp") + [Close("protocol")]))
                 + (ParamsToks(params) + (LineToks("    ", [Close("connection")]) + more)))))
            == Some(((id, "rdp", NormParams(params)), Chars("\n") + more))
  {
    hide SkipBlanks, LeafRest, NormParams, ParamsToks, LineToks, Chars, Params;
    var end := LineToks("    ", [Close("connection")]) + more;
    var ps := ParamsToks(params) + end;
    var proto := [Open("protocol", [])] + (Chars("rdp") + [Close("protocol")]);
    var p := LineToks("      ", proto) + ps;
    var conn := [Open("connection", [("name", id)])];
    SkipToLine("    ", conn, p);
    var t := conn + (Chars("\n") + p);
    assert t[1..] == Chars("\n") + p;
    SkipToLine("      ", proto, ps);
    var q := proto + (Chars("\n") + ps);
    assert q[1..] == Chars("rdp") + [Close("protocol")] + (Chars("\n") + ps);
    LeafOf("protocol", "rdp", Chars("\n") + ps);
    ReadParams(params, [Close("connection")], more);
    var r := [Close("connection")] + (Chars("\n") + more);
    assert r[1..] == Chars("\n") + more;
  }

  /** What a reader makes of the connection the JDBC path inserts for a row. */
  function NormEntry(j: JdbcRow): Entry {
    Entry(NormAttr(j.guacUser), NormAttr(j.guacPassword), NormAttr(j.instanceId), "rdp", NormParams(ConnectionParams(j)))
  }

  function NormEntries(js: seq<JdbcRow>): seq<Entry> {
    seq(|js|, i requires 0 <= i < |js| => NormEntry(js[i]))
  }

  lemma EntryAhead(j: JdbcRow, rest: seq<Token>)
    ensures EntryToks(j) + rest ==
      LineToks("  ", [Open("authorize", [("username", NormAttr(j.guacUser)), ("password", NormAttr(j.guacPassword))])])
      + (LineToks("    ", [Open("connection", [("name", NormAttr(j.instanceId))])])
         + (LineToks("      ", [Open("protocol", [])] + (Chars("rdp") + [Close("protocol")]))
            + (ParamsToks(ConnectionParams(j))
               + (LineToks("    ", [Close("connection")]) + (LineToks("  ", [Close("authorize")]) + rest)))))
  {
    hide LineToks, NormAttr, ConnectionParams, ParamsToks, Chars;
  }

  lemma {:induction false} ReadAuthorizations(js: seq<JdbcRow>)
    ensures Authorizations(Chars("\n") + (EntriesToks(js) + LineToks("", [Close("user-mapping")]))) == Some(NormEntries(js))
  {
    hide SkipBlanks, LineToks, Chars, Connection, ConnectionParams, NormAttr, NormParams, EntryToks;
    var end := LineToks("", [Close("user-mapping")]);
    if js == [] {
      SkipToLine("", [Close("user-mapping")], []);
      assert end + [] == end && [] + end == end;
      var t := [Close("user-mapping")] + (Chars("\n") + []);
      assert t[1..] == Chars("\n") + [];
      SkipIndent("\n", []);
      assert SkipBlanks([]) == [] by {
        SkipNothing();
      }
    } else {
      var j, more := js[0], EntriesToks(js[1..]) + end;
      var open := [Open("authorize", [("username", NormAttr(j.guacUser)), ("password", NormAttr(j.guacPassword))])];
      var close := LineToks("  ", [Close("authorize")]) + more;
      var conn := LineToks("    ", [Open("connection", [("name", NormAttr(j.instanceId))])])
                  + (LineToks("      ", [Open("protocol", [])] + (Chars("rdp") + [Close("protocol")]))
                     + (ParamsToks(ConnectionParams(j)) + (LineToks("    ", [Close("connection")]) + close)));
      EntryAhead(j, more);
      assert EntriesToks(js) + end == EntryToks(j) + more;
      SkipToLine("  ", open, conn);
      var t := open + (Chars("\n") + conn);
      assert t[1..] == Chars("\n") + conn;
      ReadConnection(NormAttr(j.instanceId), ConnectionParams(j), close);
      SkipToLine("  ", [Close("authorize")], more);
      var e := [Close("authorize")] + (Chars("\n") + more);
      assert e[1..] == Chars("\n") + more;
      ReadAuthorizations(js[1..]);
      assert [NormEntry(j)] + NormEntries(js[1..]) == NormEntries(js);
    }
  }

  lemma SkipNothing()
    ensures SkipBlanks([]) == []
  {
  }

  lemma SkipMiscLine(ts: seq<Token>)
    ensures SkipBlanks(LineToks("", [Misc]) + ts) == SkipBlanks(ts)
  {
    hide Chars;
    SkipIndent("", [Misc] + (Chars("\n") + ts));
    assert LineToks("", [Misc]) + ts == Chars("") + ([Misc] + (Chars("\n") + ts));
    assert ([Misc] + (Chars("\n") + ts))[1..] == Chars("\n") + ts;
    SkipIndent("\n", ts);
  }

  /** Reading the file back yields the JDBC connections, each value as an XML reader normalises it. */
  lemma ReadBack(rows: seq<RenderRow>, d: Option<string>)
    ensures ReadUserMapping(UserMappingXml(rows, d)) == Some(NormEntries(JdbcRows(rows, d)))
  {
    hide SkipBlanks, LineToks, Chars, Lex, EntriesToks, Authorizations, NormEntries, JdbcRows, UserMappingXml;
    var js, xml := JdbcRows(rows, d), UserMappingXml(rows, d);
    DocumentLex(rows, d);
    assert xml + "" == xml && Lex(xml + "") == DocToks(js) + Lex("");
    LexNothing();
    assert DocToks(js) + [] == DocToks(js);
    var body := EntriesToks(js) + LineToks("", [Close("user-mapping")]);
    var open := LineToks("", [Open("user-mapping", [])]) + body;
    SkipMiscLine(LineToks("", [Misc]) + open);
    SkipMiscLine(open);
    SkipToLine("", [Open("user-mapping", [])], body);
    var t := [Open("user-mapping", [])] + (Chars("\n") + body);
    assert t[1..] == Chars("\n") + body;
    ReadAuthorizations(js);
  }

  lemma LexNothing()
    ensures Lex("") == []
  {
  }

  // ---------- exactly which values survive ----------

  /** The connection the JDBC path inserts for a row: user, password and connection name as they are, and its parameters. */
  function EntryOf(j: JdbcRow): Entry {
    Entry(j.guacUser, j.guacPassword, j.instanceId, "rdp", ConnectionParams(j))
  }

  function Entries(js: seq<JdbcRow>): seq<Entry> {
    seq(|js|, i requires 0 <= i < |js| => EntryOf(js[i]))
  }

  predicate NoBlanks(s: string) {
    '\t' !in s && '\n' !in s && '\r' !in s
  }

  /** Values an XML reader leaves alone: no tab or line end in an attribute, no carriage return in a text. */
  predicate Unnormalised(j: JdbcRow) {
    && NoBlanks(j.guacUser) && NoBlanks(j.guacPassword) && NoBlanks(j.instanceId)
    && '\r' !in j.hostname && '\r' !in j.rdpUsername && (Present(j.rdpPassword) ==> '\r' !in j.rdpPassword.value)
  }

  lemma {:induction false} NormAttrBlankFree(s: string)
    ensures NoBlanks(NormAttr(s))
    decreases |s|
  {
    if s != "" {
      NormAttrBlankFree(if LineEnd(s) then s[2..] else s[1..]);
    }
  }

  lemma {:induction false} NormTextNoReturn(s: string)
    ensures '\r' !in NormText(s)
    decreases |s|
  {
    if s != "" {
      NormTextNoReturn(if LineEnd(s) then s[2..] else s[1..]);
    }
  }

  lemma AttrSurvives(s: string)
    ensures NormAttr(s) == s <==> NoBlanks(s)
  {
    hide NormAttr;
    NormAttrBlankFree(s);
    if NoBlanks(s) {
      NormAttrPlain(s);
    }
  }

  lemma TextSurvives(s: string)
    ensures NormText(s) == s <==> '\r' !in s
  {
    hide NormText;
    NormTextNoReturn(s);
    if '\r' !in s {
      NormTextPlain(s);
    }
  }

  lemma ParamsSurvive(j: JdbcRow)
    ensures NormParams(ConnectionParams(j)) == ConnectionParams(j) <==>
              '\r' !in j.hostname && '\r' !in j.rdpUsername && (Present(j.rdpPassword) ==> '\r' !in j.rdpPassword.value)
  {
    hide NormText, Decimal;
    var ps := ConnectionParams(j);
    var n := if Present(j.rdpPassword) then 4 else 3;
    TextSurvives(j.hostname);
    TextSurvives(j.rdpUsername);
    DecimalPlain(j.port);
    TextSurvives(Decimal(j.port));
    if Present(j.rdpPassword) {
      TextSurvives(j.rdpPassword.value);
    }
    StaticsSurvive();
    forall i | n <= i < |ps|
      ensures NormText(ps[i].1) == ps[i].1
    {
      assert ps[i] == RDP_STATIC_PARAMS[i - n];
    }
    assert NormParams(ps) == ps <==> forall i :: 0 <= i < |ps| ==> NormText(ps[i].1) == ps[i].1 by {
      if NormParams(ps) == ps {
        forall i | 0 <= i < |ps|
          ensures NormText(ps[i].1) == ps[i].1
        {
          assert NormParams(ps)[i] == ps[i];
        }
      }
    }
    assert ps[0].1 == j.hostname && ps[1].1 == Decimal(j.port) && ps[2].1 == j.rdpUsername;
    assert n == 4 ==> ps[3].1 == j.rdpPassword.value;
  }

  lemma StaticsSurvive()
    ensures forall i :: 0 <= i < |RDP_STATIC_PARAMS| ==> NormText(RDP_STATIC_PARAMS[i].1) == RDP_STATIC_PARAMS[i].1
  {
    hide NormText;
    NormTextPlain("nla");
    NormTextPlain("true");
    NormTextPlain("display-update");
    NormTextPlain("false");
    NormTextPlain("24");
  }

  /** Lock-step: the file read back is, connection for connection and parameter for parameter, what the JDBC path inserts
      if and only if no value holds a character an XML reader normalises away. */
  lemma LockStepExactly(rows: seq<RenderRow>, d: Option<string>)
    ensures ReadUserMapping(UserMappingXml(rows, d)) == Some(Entries(JdbcRows(rows, d)))
            <==> forall j :: j in JdbcRows(rows, d) ==> Unnormalised(j)
  {
    hide ReadUserMapping, UserMappingXml, JdbcRows, ConnectionParams, NormParams, NormAttr;
    ReadBack(rows, d);
    var js := JdbcRows(rows, d);
    forall i | 0 <= i < |js|
      ensures NormEntry(js[i]) == EntryOf(js[i]) <==> Unnormalised(js[i])
    {
      AttrSurvives(js[i].guacUser);
      AttrSurvives(js[i].guacPassword);
      AttrSurvives(js[i].instanceId);
      ParamsSurvive(js[i]);
    }
    if NormEntries(js) == Entries(js) {
      forall i | 0 <= i < |js|
        ensures NormEntry(js[i]) == EntryOf(js[i])
      {
        assert NormEntries(js)[i] == Entries(js)[i];
      }
    }
    if forall j :: j in js ==> Unnormalised(j) {
      assert forall i :: 0 <= i < |js| ==> js[i] in js;
      assert NormEntries(js) == Entries(js);
    }
  }
}
