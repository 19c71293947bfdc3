/** The whole user-mapping document, written and read back. */
module MappingRoundTrip {
  import opened Prelude
  import opened UserMapping
  import opened XmlReader
  import opened LockStep

  // ---------- the document as lines, and each line as tokens ----------

  function ParamLines(params: seq<(string, string)>): seq<string> {
    seq(|params|, i requires 0 <= i < |params| => ParamLine(params[i].0, Escaped(params[i].1)))
  }

  function ParamsToks(params: seq<(string, string)>): seq<Token> {
    if params == [] then [] else ParamToks(params[0].0, NormText(params[0].1)) + ParamsToks(params[1..])
  }

  ghost predicate PlainNames(params: seq<(string, string)>) {
    forall i :: 0 <= i < |params| ==> PlainName(params[i].0)
  }

  lemma {:induction false} ParamLinesLex(params: seq<(string, string)>, lines: seq<string>, ts: seq<Token>)
    requires PlainNames(params) && Lexes(ConcatLines(lines), ts)
    ensures Lexes(ConcatLines(ParamLines(params) + lines), ParamsToks(params) + ts)
  {
    hide Lexes, ParamLine, ParamToks, Escaped, NormText, PlainName, ConcatLines;
    if params == [] {
      assert ParamLines(params) + lines == lines && ParamsToks(params) + ts == ts;
    } else {
      var more := params[1..];
      var line, t := ParamLine(params[0].0, Escaped(params[0].1)), ParamToks(params[0].0, NormText(params[0].1));
      ParamLineLexes(params[0].0, params[0].1);
      ParamLinesLex(more, lines, ts);
      ConsLexes(line, t, ParamLines(more) + lines, ParamsToks(more) + ts);
      assert ParamLines(params) + lines == [line] + (ParamLines(more) + lines);
      assert ParamsToks(params) + ts == t + (ParamsToks(more) + ts);
    }
  }

  /** The lines of a block, from the row the JDBC path would insert. */
  function EntryLines(j: JdbcRow): seq<string> {
    ["  " + StartTag("authorize", Attribute("username", j.guacUser) + Attribute("password", j.guacPassword)),
     "    " + StartTag("connection", Attribute("name", j.instanceId)),
     "      " + (StartTag("protocol", "") + ("rdp" + EndTag("protocol")))]
    + (ParamLines(ConnectionParams(j)) + ["    " + EndTag("connection"), "  " + EndTag("authorize")])
  }

  function EntryToks(j: JdbcRow): seq<Token> {
    LineToks("  ", [Open("authorize", [("username", NormAttr(j.guacUser)), ("password", NormAttr(j.guacPassword))])])
    + (LineToks("    ", [Open("connection", [("name", NormAttr(j.instanceId))])])
       + (LineToks("      ", [Open("protocol", [])] + (Chars("rdp") + [Close("protocol")]))
          + (ParamsToks(ConnectionParams(j))
             + (LineToks("    ", [Close("connection")]) + LineToks("  ", [Close("authorize")])))))
  }

  lemma {:induction false} NormTextPlain(s: string)
    requires forall i :: 0 <= i < |s| ==> s[i] != '\r'
    ensures NormText(s) == s
  {
    if s != "" {
      NormTextPlain(s[1..]);
    }
  }

  lemma TailLex()
    ensures Lexes(ConcatLines(["    " + EndTag("connection"), "  " + EndTag("authorize")]),
                  LineToks("    ", [Close("connection")]) + LineToks("  ", [Close("authorize")]))
  {
    hide Lexes, Lex, LineToks, EndTag;
    LexesClose("connection");
    LexesClose("authorize");
    LineLexes("    ", EndTag("connection"), [Close("connection")]);
    LineLexes("  ", EndTag("authorize"), [Close("authorize")]);
    LexesNothing();
    ConsLexes("  " + EndTag("authorize"), LineToks("  ", [Close("authorize")]), [], []);
    ConsLexes("    " + EndTag("connection"), LineToks("    ", [Close("connection")]),
              ["  " + EndTag("authorize")] + [], LineToks("  ", [Close("authorize")]) + []);
    assert ["    " + EndTag("connection"), "  " + EndTag("authorize")]
        == ["    " + EndTag("connection")] + (["  " + EndTag("authorize")] + []);
    assert LineToks("    ", [Close("connection")]) + (LineToks("  ", [Close("authorize")]) + [])
        == LineToks("    ", [Close("connection")]) + LineToks("  ", [Close("authorize")]);
  }

  lemma {:induction false} ProtocolLex()
    ensures Lexes(StartTag("protocol", "") + ("rdp" + EndTag("protocol")),
                  [Open("protocol", [])] + (Chars("rdp") + [Close("protocol")]))
  {
    hide Lexes, Lex, EndTag, StartTag, Escaped, NormText, Chars;
    NoAttrs();
    LexesOpen("protocol", "", []);
    EscapedPlain("rdp");
    NormTextPlain("rdp");
    LexesValue("rdp", "protocol");
    LexesCat(StartTag("protocol", ""), [Open("protocol", [])], "rdp" + EndTag("protocol"), Chars("rdp") + [Close("protocol")]);
  }

  lemma EntryLinesLex(j: JdbcRow)
    requires PlainNames(ConnectionParams(j))
    ensures Lexes(ConcatLines(EntryLines(j)), EntryToks(j))
  {
    hide Lexes, Lex, LineToks, EndTag, StartTag, Attribute, NormAttr, ConnectionParams, ParamLines, ParamsToks, Chars, ConcatLines;
    var l0 := StartTag("authorize", Attribute("username", j.guacUser) + Attribute("password", j.guacPassword));
    var t0 := [Open("authorize", [("username", NormAttr(j.guacUser)), ("password", NormAttr(j.guacPassword))])];
    var l1 := StartTag("connection", Attribute("name", j.instanceId));
    var t1 := [Open("connection", [("name", NormAttr(j.instanceId))])];
    var l2 := StartTag("protocol", "") + ("rdp" + EndTag("protocol"));
    var t2 := [Open("protocol", [])] + (Chars("rdp") + [Close("protocol")]);
    var tail := ["    " + EndTag("connection"), "  " + EndTag("authorize")];
    var tt := LineToks("    ", [Close("connection")]) + LineToks("  ", [Close("authorize")]);
    TailLex();
    var params := ConnectionParams(j);
    ParamLinesLex(params, tail, tt);
    var rest, tr := ParamLines(params) + tail, ParamsToks(params) + tt;
    ProtocolLex();
    LineLexes("      ", l2, t2);
    ConsLexes("      " + l2, LineToks("      ", t2), rest, tr);
    LexesOpen1("connection", "name", j.instanceId);
    LineLexes("    ", l1, t1);
    ConsLexes("    " + l1, LineToks("    ", t1), ["      " + l2] + rest, LineToks("      ", t2) + tr);
    LexesOpen2("authorize", "username", j.guacUser, "password", j.guacPassword);
    LineLexes("  ", l0, t0);
    ConsLexes("  " + l0, LineToks("  ", t0), ["    " + l1] + (["      " + l2] + rest),
              LineToks("    ", t1) + (LineToks("      ", t2) + tr));
    assert EntryLines(j) == ["  " + l0] + (["    " + l1] + (["      " + l2] + rest));
  }

  lemma {:induction false} DecimalPlain(n: nat)
    ensures Decimal(n) != "" && forall i :: 0 <= i < |Decimal(n)| ==> '0' <= Decimal(n)[i] <= '9'
  {
    if n >= 10 {
      DecimalPlain(n / 10);
    }
  }

  lemma PlainNamesAppend(a: seq<(string, string)>, b: seq<(string, string)>)
    requires PlainNames(a) && PlainNames(b)
    ensures PlainNames(a + b)
  {
  }

  lemma StaticWordsPlain()
    ensures PlainName("security") && PlainName("ignore-cert") && PlainName("resize-method")
    ensures PlainName("enable-wallpaper") && PlainName("enable-theming")
    ensures PlainName("enable-font-smoothing") && PlainName("color-depth")
  {
  }

  lemma StaticNamesPlain()
    ensures PlainNames(RDP_STATIC_PARAMS)
  {
    hide PlainName;
    StaticWordsPlain();
    assert |RDP_STATIC_PARAMS| == 7;
  }

  lemma ConnectionNamesPlain(j: JdbcRow)
    ensures PlainNames(ConnectionParams(j))
  {
    assert PlainName("hostname") && PlainName("port") && PlainName("username") && PlainName("password");
    hide Decimal, PlainName;
    StaticNamesPlain();
    var first := [("hostname", j.hostname), ("port", Decimal(j.port)), ("username", j.rdpUsername)];
    var secret := if Present(j.rdpPassword) then [("password", j.rdpPassword.value)] else [];
    PlainNamesAppend(first, secret);
    PlainNamesAppend(first + secret, RDP_STATIC_PARAMS);
  }

  /** Escaping changes nothing in the fixed words and the port. */
  lemma FixedWordsEscaped(n: nat)
    ensures Escaped("nla") == "nla" && Escaped("true") == "true" && Escaped("display-update") == "display-update"
    ensures Escaped("false") == "false" && Escaped("24") == "24" && Escaped(Decimal(n)) == Decimal(n)
  {
    hide Escaped, Decimal;
    EscapedPlain("nla");
    EscapedPlain("true");
    EscapedPlain("display-update");
    EscapedPlain("false");
    EscapedPlain("24");
    DecimalPlain(n);
    EscapedPlain(Decimal(n));
  }

  lemma {:induction false} ParamLinesAppend(a: seq<(string, string)>, b: seq<(string, string)>)
    ensures ParamLines(a + b) == ParamLines(a) + ParamLines(b)
  {
  }

  lemma StaticLines()
    ensures ParamLines(RDP_STATIC_PARAMS) ==
            [ParamLine("security", "nla"), ParamLine("ignore-cert", "true"), ParamLine("resize-method", "display-update"),
             ParamLine("enable-wallpaper", "false"), ParamLine("enable-theming", "false"),
             ParamLine("enable-font-smoothing", "true"), ParamLine("color-depth", "24")]
  {
    hide Escaped, ParamLine;
    FixedWordsEscaped(0);
  }

  /** The block the XML renderer writes for a row is the one that belongs to its JDBC row. */
  lemma BlockIsEntry(r: RenderRow, d: Option<string>)
    requires Renderable(r, d)
    ensures BlockLines(r, HostOf(r, d)) == EntryLines(ToJdbc(r, d))
  {
    hide Escaped, EscapeXmlAttr, ParamLine, StartTag, EndTag, Attribute, Decimal, HostOf;
    var j := ToJdbc(r, d);
    FixedWordsEscaped(j.port);
    EscapeIsMap(j.hostname);
    EscapeIsMap(j.rdpUsername);
    StaticLines();
    var first := [("hostname", j.hostname), ("port", Decimal(j.port)), ("username", j.rdpUsername)];
    var secret := if Present(j.rdpPassword) then [("password", j.rdpPassword.value)] else [];
    ParamLinesAppend(first + secret, RDP_STATIC_PARAMS);
    ParamLinesAppend(first, secret);
    assert ParamLines(first) == [ParamLine("hostname", Escaped(j.hostname)), ParamLine("port", Decimal(j.port)),
                                 ParamLine("username", Escaped(j.rdpUsername))];
    if Present(j.rdpPassword) {
      EscapeIsMap(j.rdpPassword.value);
      assert ParamLines(secret) == [ParamLine("password", Escaped(j.rdpPassword.value))];
    }
  }

  function EntriesToks(js: seq<JdbcRow>): seq<Token> {
    if js == [] then [] else EntryToks(js[0]) + EntriesToks(js[1..])
  }

  lemma {:induction false} BodyLex(rows: seq<RenderRow>, d: Option<string>)
    ensures Lexes(ConcatLines(Body(rows, d)), EntriesToks(JdbcRows(rows, d)))
  {
    hide Lexes, ConcatLines, BlockLines, EntryToks, EntryLines, ToJdbc, Renderable, HostOf;
    if rows == [] {
      LexesNothing();
      assert ConcatLines([]) == "" by {
        ConcatEmpty();
      }
    } else {
      BodyLex(rows[1..], d);
      if Renderable(rows[0], d) {
        var j := ToJdbc(rows[0], d);
        BlockIsEntry(rows[0], d);
        ConnectionNamesPlain(j);
        EntryLinesLex(j);
        ConcatAppend(EntryLines(j), Body(rows[1..], d));
        LexesCat(ConcatLines(EntryLines(j)), EntryToks(j), ConcatLines(Body(rows[1..], d)), EntriesToks(JdbcRows(rows[1..], d)));
        assert JdbcRows(rows, d)[1..] == JdbcRows(rows[1..], d);
      } else {
        assert [] + Body(rows[1..], d) == Body(rows[1..], d);
        assert [] + JdbcRows(rows[1..], d) == JdbcRows(rows[1..], d);
      }
    }
  }

  lemma ConcatEmpty()
    ensures ConcatLines([]) == ""
  {
  }

  function DocToks(js: seq<JdbcRow>): seq<Token> {
    LineToks("", [Misc]) + (LineToks("", [Misc]) + (LineToks("", [Open("user-mapping", [])])
      + (EntriesToks(js) + LineToks("", [Close("user-mapping")]))))
  }

  lemma MiscLine(content: string)
    requires content != "" && (content[0] == '?' || content[0] == '!') && '>' !in content && '<' !in content
    ensures Lexes("<" + content + ">" + "\n", LineToks("", [Misc]))
  {
    hide Lexes, Lex, Attrs;
    LexesTag(content, Misc);
    LineLexes("", "<" + content + ">", [Misc]);
    assert "" + ("<" + content + ">") == "<" + content + ">";
  }

  lemma DeclarationMisc()
    ensures var c := Declaration(); c != "" && c[0] == '?' && '>' !in c && '<' !in c
  {
  }

  lemma NoticeMisc()
    ensures var c := Notice(); c != "" && c[0] == '!' && '>' !in c && '<' !in c
  {
    var a, b, c := "!-- AUTOGENERATED by ", "labforge control-plane. ", "Do not edit by hand. --";
    assert '>' !in a && '<' !in a;
    assert '>' !in b && '<' !in b;
    assert '>' !in c && '<' !in c;
  }

  lemma ThreeAhead(l0: string, l1: string, l2: string, body: seq<string>, last: seq<string>)
    requires Prolog() == [l0, l1, l2]
    ensures Prolog() + body + last == [l0] + ([l1] + ([l2] + (body + last)))
  {
  }

  lemma PrologIs()
    ensures Prolog() == ["<" + Declaration() + ">", "<" + Notice() + ">", StartTag("user-mapping", "")]
  {
  }

  lemma DocumentLex(rows: seq<RenderRow>, d: Option<string>)
    ensures Lexes(UserMappingXml(rows, d), DocToks(JdbcRows(rows, d)))
  {
    hide Lexes, Lex, ConcatLines, JoinLines, Body, JdbcRows, EntriesToks, LineToks, Prolog, EndTag, StartTag;
    var js := JdbcRows(rows, d);
    hide Declaration, Notice;
    PrologIs();
    var l0, l1, l2 := "<" + Declaration() + ">", "<" + Notice() + ">", StartTag("user-mapping", "");
    var last := [EndTag("user-mapping")];
    LexesClose("user-mapping");
    LineLexes("", EndTag("user-mapping"), [Close("user-mapping")]);
    assert "" + EndTag("user-mapping") == EndTag("user-mapping") && "" + l2 == l2;
    ConcatOneLine(EndTag("user-mapping"));
    BodyLex(rows, d);
    ConcatAppend(Body(rows, d), last);
    LexesCat(ConcatLines(Body(rows, d)), EntriesToks(js), ConcatLines(last), LineToks("", [Close("user-mapping")]));
    var body, bt := Body(rows, d) + last, EntriesToks(js) + LineToks("", [Close("user-mapping")]);
    NoAttrs();
    LexesOpen("user-mapping", "", []);
    LineLexes("", StartTag("user-mapping", ""), [Open("user-mapping", [])]);
    ConsLexes(l2, LineToks("", [Open("user-mapping", [])]), body, bt);
    NoticeMisc();
    MiscLine(Notice());
    ConsLexes(l1, LineToks("", [Misc]), [l2] + body, LineToks("", [Open("user-mapping", [])]) + bt);
    DeclarationMisc();
    MiscLine(Declaration());
    ConsLexes(l0, LineToks("", [Misc]), [l1] + ([l2] + body),
              LineToks("", [Misc]) + (LineToks("", [Open("user-mapping", [])]) + bt));
    var lines := Prolog() + Body(rows, d) + last;
    ThreeAhead(l0, l1, l2, Body(rows, d), last);
    JoinIsConcat(lines);
  }

  lemma ConcatOneLine(a: string)
    ensures ConcatLines([a]) == a + "\n"
  {
    assert [a][1..] == [];
    assert a + "\n" + "" == a + "\n";
  }
}
