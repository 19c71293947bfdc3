/**
 The two backends in lock-step: reading the rendered user-mapping.xml back yields, in order, exactly the connections and
 parameter lists the JDBC path inserts (packages/control-plane/src/runtime/guacamole.ts:107-183, 378-400 and
 guacamoleJdbc.ts:92-100, 166-181), for exactly those values an XML reader does not normalise.
 */
module LockStep {
  import opened Prelude
  import opened UserMapping
  import opened XmlReader

  // ---------- escaping is a one-pass character map ----------

  function EscapeChar(c: char): string {
    match c
    case '&' => "&amp;"
    case '<' => "&lt;"
    case '>' => "&gt;"
    case '"' => "&quot;"
    case '\'' => "&apos;"
    case _ => [c]
  }

  function Escaped(s: string): string {
    if s == "" then "" else EscapeChar(s[0]) + Escaped(s[1..])
  }

  lemma {:induction false} ReplaceAppend(a: string, b: string, c: char, rep: string)
    ensures ReplaceAll(a + b, c, rep) == ReplaceAll(a, c, rep) + ReplaceAll(b, c, rep)
  {
    if a == "" {
      assert a + b == b;
    } else {
      assert (a + b)[1..] == a[1..] + b;
      ReplaceAppend(a[1..], b, c, rep);
    }
  }

  lemma {:induction false} ReplaceNone(s: string, c: char, rep: string)
    requires c !in s
    ensures ReplaceAll(s, c, rep) == s
  {
    if s != "" {
      ReplaceNone(s[1..], c, rep);
    }
  }

  lemma ReplaceOne(c: char, d: char, rep: string)
    ensures ReplaceAll([c], d, rep) == if c == d then rep else [c]
  {
    assert [c][1..] == "";
  }

  lemma EscapeOne(c: char)
    ensures EscapeXmlAttr([c]) == EscapeChar(c)
  {
    hide ReplaceAll;
    ReplaceOne(c, '&', "&amp;");
    if c == '&' {
      ReplaceNone("&amp;", '<', "&lt;");
      ReplaceNone("&amp;", '>', "&gt;");
      ReplaceNone("&amp;", '"', "&quot;");
      ReplaceNone("&amp;", '\'', "&apos;");
    } else {
      ReplaceOne(c, '<', "&lt;");
      if c == '<' {
        ReplaceNone("&lt;", '>', "&gt;");
        ReplaceNone("&lt;", '"', "&quot;");
        ReplaceNone("&lt;", '\'', "&apos;");
      } else {
        ReplaceOne(c, '>', "&gt;");
        if c == '>' {
          ReplaceNone("&gt;", '"', "&quot;");
          ReplaceNone("&gt;", '\'', "&apos;");
        } else {
          ReplaceOne(c, '"', "&quot;");
          if c == '"' {
            ReplaceNone("&quot;", '\'', "&apos;");
          } else {
            ReplaceOne(c, '\'', "&apos;");
          }
        }
      }
    }
  }

  lemma EscapeAppend(a: string, b: string)
    ensures EscapeXmlAttr(a + b) == EscapeXmlAttr(a) + EscapeXmlAttr(b)
  {
    hide ReplaceAll;
    ReplaceAppend(a, b, '&', "&amp;");
    var a1, b1 := ReplaceAll(a, '&', "&amp;"), ReplaceAll(b, '&', "&amp;");
    ReplaceAppend(a1, b1, '<', "&lt;");
    var a2, b2 := ReplaceAll(a1, '<', "&lt;"), ReplaceAll(b1, '<', "&lt;");
    ReplaceAppend(a2, b2, '>', "&gt;");
    var a3, b3 := ReplaceAll(a2, '>', "&gt;"), ReplaceAll(b2, '>', "&gt;");
    ReplaceAppend(a3, b3, '"', "&quot;");
    var a4, b4 := ReplaceAll(a3, '"', "&quot;"), ReplaceAll(b3, '"', "&quot;");
    ReplaceAppend(a4, b4, '\'', "&apos;");
  }

  /** The five sequential replacements amount to mapping each character once. */
  lemma {:induction false} EscapeIsMap(s: string)
    ensures EscapeXmlAttr(s) == Escaped(s)
  {
    if s == "" {
    } else {
      hide EscapeXmlAttr, EscapeChar;
      EscapeAppend([s[0]], s[1..]);
      assert [s[0]] + s[1..] == s;
      EscapeOne(s[0]);
      EscapeIsMap(s[1..]);
    }
  }

  predicate Special(c: char) {
    c == '&' || c == '<' || c == '>' || c == '"' || c == '\''
  }

  lemma {:induction false} EscapedNoMarkup(s: string)
    ensures '<' !in Escaped(s) && '>' !in Escaped(s) && '"' !in Escaped(s)
  {
    if s != "" {
      EscapedNoMarkup(s[1..]);
      assert '<' !in EscapeChar(s[0]) && '>' !in EscapeChar(s[0]) && '"' !in EscapeChar(s[0]);
    }
  }

  lemma {:induction false} EscapedPlain(s: string)
    requires forall i :: 0 <= i < |s| ==> !Special(s[i])
    ensures Escaped(s) == s
  {
    if s != "" {
      EscapedPlain(s[1..]);
    }
  }

  // ---------- what a reader makes of an escaped value ----------

  /** End-of-line handling, then every blank character a space (sections 2.11 and 3.3.3). */
  function NormAttr(s: string): string
    decreases |s|
  {
    if s == "" then ""
    else if LineEnd(s) then " " + NormAttr(s[2..])
    else [if IsBlank(s[0]) then ' ' else s[0]] + NormAttr(s[1..])
  }

  /** End-of-line handling only (section 2.11). */
  function NormText(s: string): string
    decreases |s|
  {
    if s == "" then ""
    else if LineEnd(s) then "\n" + NormText(s[2..])
    else [if s[0] == '\r' then '\n' else s[0]] + NormText(s[1..])
  }

  function Chars(s: string): seq<Token> {
    seq(|s|, i requires 0 <= i < |s| => Chr(s[i]))
  }

  lemma EntityOfEscape(c: char, rest: string)
    requires Special(c)
    ensures var e := EscapeChar(c);
            |e| > 0 && e[0] == '&' && Entity(e + rest) == Some((c, |e|)) && (e + rest)[|e|..] == rest
  {
    var s := EscapeChar(c) + rest;
    match c
    case '&' => assert "&amp;" <= s;
    case '<' => assert "&lt;" <= s && s[1] == 'l';
    case '>' => assert "&gt;" <= s && s[1] == 'g';
    case '"' => assert "&quot;" <= s && s[1] == 'q';
    case '\'' => assert "&apos;" <= s && s[2] == 'p';
  }

  lemma EscapeHead(c: char)
    ensures EscapeChar(c) != "" && EscapeChar(c)[0] == (if Special(c) then '&' else c)
    ensures !Special(c) ==> EscapeChar(c) == [c]
  {
  }

  /** Whether an escaped value starts a line end is decided by the value. */
  lemma LineEndAhead(s: string, rest: string)
    requires s != "" && (rest != "" ==> rest[0] != '\n')
    ensures LineEnd(Escaped(s) + rest) <==> LineEnd(s)
    ensures LineEnd(s) ==> Escaped(s) == "\r\n" + Escaped(s[2..])
  {
    hide EscapeChar, Escaped;
    EscapeHead(s[0]);
    EscapedCons(s);
    if |s| > 1 {
      EscapeHead(s[1]);
      EscapedCons(s[1..]);
      assert s[1..][1..] == s[2..];
    } else {
      assert s[1..] == "" && Escaped("") == "" by {
        EscapedPlain("");
      }
    }
  }

  lemma EscapedCons(s: string)
    requires s != ""
    ensures Escaped(s) == EscapeChar(s[0]) + Escaped(s[1..])
  {
  }

  lemma {:induction false} AttrValueOfEscaped(s: string)
    ensures AttrValue(Escaped(s)) == Some(NormAttr(s))
    decreases |s|
  {
    if s != "" {
      hide Entity;
      var e := Escaped(s);
      assert e + "" == e;
      LineEndAhead(s, "");
      if Special(s[0]) {
        EntityOfEscape(s[0], Escaped(s[1..]));
        AttrValueOfEscaped(s[1..]);
      } else if LineEnd(s) {
        assert e[2..] == Escaped(s[2..]);
        AttrValueOfEscaped(s[2..]);
      } else {
        assert e[1..] == Escaped(s[1..]);
        AttrValueOfEscaped(s[1..]);
      }
    }
  }

  lemma LexReference(c: char, more: string)
    requires Special(c)
    ensures Lex(EscapeChar(c) + more) == [Chr(c)] + Lex(more)
  {
    hide Entity, Tag, EscapeChar;
    EntityOfEscape(c, more);
  }

  lemma LexLineEnd(more: string)
    ensures Lex("\r\n" + more) == [Chr('\n')] + Lex(more)
  {
    hide Entity, Tag;
    assert ("\r\n" + more)[2..] == more;
  }

  lemma LexChar(c: char, more: string)
    requires c != '<' && c != '&' && !LineEnd([c] + more)
    ensures Lex([c] + more) == [Chr(if c == '\r' then '\n' else c)] + Lex(more)
  {
    hide Entity, Tag;
    assert ([c] + more)[1..] == more;
  }

  /** The first character a reader sees in a text, and how much of the text it takes up. */
  function TextHead(s: string): (h: (char, nat))
    requires s != ""
    ensures 0 < h.1 <= |s|
  {
    if LineEnd(s) then ('\n', 2) else (if s[0] == '\r' then '\n' else s[0], 1)
  }

  lemma LexHeadSpecial(s: string, rest: string)
    requires s != "" && Special(s[0])
    ensures Lex(Escaped(s) + rest) == [Chr(s[0])] + Lex(Escaped(s[1..]) + rest)
  {
    hide Lex, EscapeChar, Escaped, Special;
    EscapedCons(s);
    LexReference(s[0], Escaped(s[1..]) + rest);
    assert Escaped(s) + rest == EscapeChar(s[0]) + (Escaped(s[1..]) + rest);
  }

  lemma {:induction false} LexHeadLineEnd(s: string, rest: string)
    requires LineEnd(s) && rest != "" && rest[0] == '<'
    ensures Lex(Escaped(s) + rest) == [Chr('\n')] + Lex(Escaped(s[2..]) + rest)
  {
    hide Lex, Escaped;
    LineEndAhead(s, rest);
    LexLineEnd(Escaped(s[2..]) + rest);
    assert Escaped(s) + rest == "\r\n" + (Escaped(s[2..]) + rest);
  }

  lemma LexHeadPlain(s: string, rest: string)
    requires s != "" && !LineEnd(s) && !Special(s[0]) && rest != "" && rest[0] == '<'
    ensures Lex(Escaped(s) + rest) == [Chr(if s[0] == '\r' then '\n' else s[0])] + Lex(Escaped(s[1..]) + rest)
  {
    hide Lex, EscapeChar, Escaped;
    LineEndAhead(s, rest);
    EscapeHead(s[0]);
    EscapedCons(s);
    assert Escaped(s) + rest == [s[0]] + (Escaped(s[1..]) + rest);
    LexChar(s[0], Escaped(s[1..]) + rest);
  }

  lemma LexHead(s: string, rest: string)
    requires s != "" && rest != "" && rest[0] == '<'
    ensures var h := TextHead(s); Lex(Escaped(s) + rest) == [Chr(h.0)] + Lex(Escaped(s[h.1..]) + rest)
  {
    hide Lex, Escaped;
    if Special(s[0]) {
      LexHeadSpecial(s, rest);
    } else if LineEnd(s) {
      LexHeadLineEnd(s, rest);
    } else {
      LexHeadPlain(s, rest);
    }
  }

  /** Character data, up to the markup that follows it. */
  lemma {:induction false} LexEscaped(s: string, rest: string)
    requires rest != "" && rest[0] == '<'
    ensures Lex(Escaped(s) + rest) == Chars(NormText(s)) + Lex(rest)
    decreases |s|
  {
    if s == "" {
      assert Escaped(s) + rest == rest;
      assert Chars("") + Lex(rest) == Lex(rest);
    } else {
      hide Lex, Escaped, Chars;
      var h := TextHead(s);
      LexHead(s, rest);
      LexEscaped(s[h.1..], rest);
      CharsCons(h.0, NormText(s[h.1..]), Lex(rest));
    }
  }

  lemma CharsCons(c: char, s: string, ts: seq<Token>)
    ensures Chars([c] + s) + ts == [Chr(c)] + (Chars(s) + ts)
  {
  }

  // ---------- markup ----------

  lemma {:induction false} UntilAt(s: string, c: char, n: nat)
    requires n < |s| && s[n] == c && forall i :: 0 <= i < n ==> s[i] != c
    ensures Until(s, c) == n
  {
  }

  lemma {:induction false} UntilNone(s: string, c: char)
    requires c !in s
    ensures Until(s, c) == |s|
  {
    if s != "" {
      UntilNone(s[1..], c);
    }
  }

  lemma LexTag(content: string, rest: string)
    requires '>' !in content
    ensures Lex("<" + content + ">" + rest) == [Tag(content)] + Lex(rest)
  {
    hide Tag, Entity;
    var s := "<" + content + ">" + rest;
    var k := |content| + 1;
    assert s[k] == '>' && forall i :: 0 < i < k ==> s[i] == content[i - 1];
    UntilAt(s, '>', k);
    assert s[1..k] == content && s[k + 1..] == rest;
  }

  ghost predicate SimpleName(name: string) {
    && name != "" && name[0] != '?' && name[0] != '!' && name[0] != '/'
    && forall i :: 0 <= i < |name| ==> name[i] != ' ' && name[i] != '=' && !Special(name[i])
  }

  /** Where a reader finds the parts of an attribute. */
  lemma AttrParts(name: string, esc: string, more: string)
    requires name != "" && '=' !in name && '"' !in esc
    ensures var s := " " + name + "=\"" + esc + "\"" + more;
            var e := |name| + 1;
            && Until(s, '=') == e && s[1..e] == name && e + 1 < |s| && s[e + 1] == '"'
            && var lit := s[e + 2..];
               && Until(lit, '"') == |esc| < |lit| && lit[..|esc|] == esc && lit[|esc| + 1..] == more
  {
    hide Until;
    var s := " " + name + "=\"" + esc + "\"" + more;
    var e := |name| + 1;
    assert forall i :: 0 < i < e ==> s[i] == name[i - 1];
    UntilAt(s, '=', e);
    var lit := s[e + 2..];
    assert lit == esc + "\"" + more;
    assert forall i :: 0 <= i < |esc| ==> lit[i] == esc[i];
    UntilAt(lit, '"', |esc|);
  }

  lemma AttrsCons(name: string, value: string, more: string, attrs: seq<(string, string)>)
    requires name != "" && '=' !in name && Attrs(more) == Some(attrs)
    ensures Attrs(Attribute(name, value) + more) == Some([(name, NormAttr(value))] + attrs)
  {
    hide AttrValue, Escaped, NormAttr, EscapeXmlAttr, Special, Until;
    EscapeIsMap(value);
    EscapedNoMarkup(value);
    AttrValueOfEscaped(value);
    AttrParts(name, Escaped(value), more);
  }

  lemma TagOpen(name: string, text: string, attrs: seq<(string, string)>)
    requires SimpleName(name) && Attrs(text) == Some(attrs)
    requires (text != "" ==> text[0] == ' ') && '<' !in text
    ensures Tag(name + text) == Open(name, attrs)
  {
    hide Attrs;
    var content := name + text;
    assert forall i :: 0 <= i < |name| ==> content[i] == name[i];
    if text == "" {
      assert content == name;
      assert ' ' !in content;
      UntilNone(content, ' ');
    } else {
      UntilAt(content, ' ', |name|);
    }
    assert content[..|name|] == name && content[|name|..] == text;
  }

  // ---------- pieces of a document ----------

  /** Whatever follows, `s` is read as `ts`. */
  ghost predicate Lexes(s: string, ts: seq<Token>) {
    forall rest :: Lex(s + rest) == ts + Lex(rest)
  }

  lemma LexesNothing()
    ensures Lexes("", [])
  {
    forall rest
      ensures Lex("" + rest) == [] + Lex(rest)
    {
      assert "" + rest == rest;
    }
  }

  lemma LexesCat(a: string, ta: seq<Token>, b: string, tb: seq<Token>)
    requires Lexes(a, ta) && Lexes(b, tb)
    ensures Lexes(a + b, ta + tb)
  {
    hide Lex;
    forall rest
      ensures Lex(a + b + rest) == ta + tb + Lex(rest)
    {
      assert a + b + rest == a + (b + rest);
      assert Lex(a + (b + rest)) == ta + Lex(b + rest);
      assert ta + tb + Lex(rest) == ta + (tb + Lex(rest));
    }
  }

  lemma LexesTag(content: string, t: Token)
    requires '>' !in content && Tag(content) == t
    ensures Lexes("<" + content + ">", [t])
  {
    hide Lex, Tag;
    forall rest
      ensures Lex("<" + content + ">" + rest) == [t] + Lex(rest)
    {
      LexTag(content, rest);
    }
  }

  lemma {:induction false} LexesBlanks(ws: string)
    requires forall i :: 0 <= i < |ws| ==> ws[i] == ' ' || ws[i] == '\n'
    ensures Lexes(ws, Chars(ws))
  {
    if ws == "" {
      LexesNothing();
    } else {
      LexesBlanks(ws[1..]);
      forall rest
        ensures Lex(ws + rest) == Chars(ws) + Lex(rest)
      {
        assert (ws + rest)[1..] == ws[1..] + rest;
        assert Lex(ws[1..] + rest) == Chars(ws[1..]) + Lex(rest);
        CharsCons(ws[0], ws[1..], Lex(rest));
        assert [ws[0]] + ws[1..] == ws;
      }
    }
  }

  lemma TagClose(name: string)
    requires SimpleName(name)
    ensures Tag("/" + name) == Close(name) && '>' !in "/" + name
  {
    hide Attrs;
    var content := "/" + name;
    assert content[1..] == name;
    assert forall i :: 0 < i < |content| ==> content[i] == name[i - 1];
  }

  /** An escaped value and the end tag after it. */
  lemma LexesValue(value: string, name: string)
    requires SimpleName(name)
    ensures Lexes(Escaped(value) + EndTag(name), Chars(NormText(value)) + [Close(name)])
  {
    hide Lex, Tag, Escaped, NormText, Chars;
    TagClose(name);
    forall rest
      ensures Lex(Escaped(value) + EndTag(name) + rest) == Chars(NormText(value)) + [Close(name)] + Lex(rest)
    {
      var tail := "<" + ("/" + name) + ">" + rest;
      LexTag("/" + name, rest);
      LexEscaped(value, tail);
      assert Escaped(value) + EndTag(name) + rest == Escaped(value) + tail;
      assert Chars(NormText(value)) + ([Close(name)] + Lex(rest)) == Chars(NormText(value)) + [Close(name)] + Lex(rest);
    }
  }

  lemma LexesOpen(name: string, text: string, attrs: seq<(string, string)>)
    requires SimpleName(name) && Attrs(text) == Some(attrs)
    requires (text != "" ==> text[0] == ' ') && '<' !in text && '>' !in text
    ensures Lexes(StartTag(name, text), [Open(name, attrs)])
  {
    hide Lex, Tag, Attrs, Lexes;
    TagOpen(name, text, attrs);
    LexesTag(name + text, Open(name, attrs));
  }

  lemma LexesClose(name: string)
    requires SimpleName(name)
    ensures Lexes(EndTag(name), [Close(name)])
  {
    hide Lex, Tag, Lexes;
    TagClose(name);
    LexesTag("/" + name, Close(name));
    assert "<" + ("/" + name) + ">" == EndTag(name);
  }

  lemma AttributeText(name: string, value: string)
    requires SimpleName(name)
    ensures var t := Attribute(name, value); t != "" && t[0] == ' ' && '<' !in t && '>' !in t
  {
    hide Escaped, EscapeXmlAttr;
    EscapeIsMap(value);
    EscapedNoMarkup(value);
  }

  lemma NoAttrs()
    ensures Attrs("") == Some([])
  {
  }

  /** `<name a="v">`, and with a second attribute. */
  lemma {:induction false} LexesOpen1(name: string, a: string, v: string)
    requires SimpleName(name) && SimpleName(a)
    ensures Lexes(StartTag(name, Attribute(a, v)), [Open(name, [(a, NormAttr(v))])])
  {
    hide Lex, Lexes, Attribute, NormAttr, Attrs;
    AttributeText(a, v);
    NoAttrs();
    AttrsCons(a, v, "", []);
    assert [(a, NormAttr(v))] + [] == [(a, NormAttr(v))];
    assert Attribute(a, v) + "" == Attribute(a, v);
    LexesOpen(name, Attribute(a, v), [(a, NormAttr(v))]);
  }

  lemma {:induction false} LexesOpen2(name: string, a: string, v: string, b: string, w: string)
    requires SimpleName(name) && SimpleName(a) && SimpleName(b)
    ensures Lexes(StartTag(name, Attribute(a, v) + Attribute(b, w)),
                  [Open(name, [(a, NormAttr(v)), (b, NormAttr(w))])])
  {
    hide Lex, Lexes, Attribute, NormAttr, Attrs;
    AttributeText(a, v);
    AttributeText(b, w);
    NoAttrs();
    AttrsCons(b, w, "", []);
    assert [(b, NormAttr(w))] + [] == [(b, NormAttr(w))];
    assert Attribute(b, w) + "" == Attribute(b, w);
    AttrsCons(a, v, Attribute(b, w), [(b, NormAttr(w))]);
    assert [(a, NormAttr(v))] + [(b, NormAttr(w))] == [(a, NormAttr(v)), (b, NormAttr(w))];
    LexesOpen(name, Attribute(a, v) + Attribute(b, w), [(a, NormAttr(v)), (b, NormAttr(w))]);
  }

  // ---------- the lines of the file ----------

  function ConcatLines(lines: seq<string>): string {
    if lines == [] then "" else lines[0] + "\n" + ConcatLines(lines[1..])
  }

  lemma {:induction false} JoinIsConcat(lines: seq<string>)
    requires lines != []
    ensures JoinLines(lines) + "\n" == ConcatLines(lines)
  {
    if |lines| > 1 {
      JoinIsConcat(lines[1..]);
    }
  }

  lemma {:induction false} ConcatAppend(a: seq<string>, b: seq<string>)
    ensures ConcatLines(a + b) == ConcatLines(a) + ConcatLines(b)
  {
    if a == [] {
      assert a + b == b;
    } else {
      ConcatAppend(a[1..], b);
      assert (a + b)[1..] == a[1..] + b;
    }
  }

  /** An indented line holding `mid`, and its line break. */
  function LineToks(indent: string, mid: seq<Token>): seq<Token> {
    Chars(indent) + mid + Chars("\n")
  }

  lemma LineLexes(indent: string, mid: string, ts: seq<Token>)
    requires Lexes(mid, ts) && forall i :: 0 <= i < |indent| ==> indent[i] == ' '
    ensures Lexes(indent + mid + "\n", LineToks(indent, ts))
  {
    hide Lexes, Lex, Chars;
    LexesBlanks(indent);
    LexesBlanks("\n");
    LexesCat(indent, Chars(indent), mid, ts);
    LexesCat(indent + mid, Chars(indent) + ts, "\n", Chars("\n"));
  }

  lemma ConsLexes(line: string, t: seq<Token>, lines: seq<string>, ts: seq<Token>)
    requires Lexes(line + "\n", t) && Lexes(ConcatLines(lines), ts)
    ensures Lexes(ConcatLines([line] + lines), t + ts)
  {
    hide Lexes, Lex;
    assert ([line] + lines)[1..] == lines;
    LexesCat(line + "\n", t, ConcatLines(lines), ts);
  }

  function ParamToks(name: string, value: string): seq<Token> {
    LineToks("      ", [Open("param", [("name", name)])] + (Chars(value) + [Close("param")]))
  }

  predicate PlainName(s: string) {
    forall i :: 0 <= i < |s| ==> !Special(s[i]) && !IsBlank(s[i])
  }

  lemma {:induction false} NormAttrPlain(s: string)
    requires forall i :: 0 <= i < |s| ==> !IsBlank(s[i])
    ensures NormAttr(s) == s
  {
    if s != "" {
      NormAttrPlain(s[1..]);
    }
  }

  lemma ParamLineLexes(name: string, value: string)
    requires PlainName(name)
    ensures Lexes(ParamLine(name, Escaped(value)) + "\n", ParamToks(name, NormText(value)))
  {
    hide Lex, Lexes, Escaped, NormText, NormAttr, EscapeXmlAttr, StartTag, EndTag, LineToks;
    EscapedPlain(name);
    EscapeIsMap(name);
    NormAttrPlain(name);
    assert Attribute("name", name) == " name=\"" + name + "\"";
    LexesOpen1("param", "name", name);
    LexesValue(value, "param");
    LexesCat(StartTag("param", Attribute("name", name)), [Open("param", [("name", name)])],
             Escaped(value) + EndTag("param"), Chars(NormText(value)) + [Close("param")]);
    LineLexes("      ", StartTag("param", Attribute("name", name)) + (Escaped(value) + EndTag("param")),
              [Open("param", [("name", name)])] + (Chars(NormText(value)) + [Close("param")]));
  }
}
