/**
 A reader for the fragment of XML 1.0 a user-mapping file uses: character data and markup (section 2.4), end-of-line
 handling (section 2.11), attribute-value normalisation (section 3.3.3) and the predefined entities (section 4.6).
 Markup ends at its first '>', so a literal '>' inside an attribute value or a comment is not read.
 */
module XmlReader {
  import opened Prelude

  datatype Token =
    | Chr(c: char)
    | Open(name: string, attrs: seq<(string, string)>)
    | Close(name: string)
    | Misc    // the XML declaration and comments
    | Bad     // not well-formed

  /** Position of the first `c`, or the length if there is none. */
  function Until(s: string, c: char): (n: nat)
    ensures n <= |s| && (n < |s| ==> s[n] == c)
    ensures forall i :: 0 <= i < n ==> s[i] != c
  {
    if s == "" || s[0] == c then 0 else
      var n := Until(s[1..], c);
      assert forall i :: 0 < i < n + 1 ==> s[i] == s[1..][i - 1];
      n + 1
  }

  /** The character a predefined entity reference at the start of `s` stands for, and the reference's length. */
  function Entity(s: string): (r: Option<(char, nat)>)
    ensures r.Some? ==> 0 < r.value.1 <= |s|
  {
    if "&amp;" <= s then Some(('&', 5))
    else if "&lt;" <= s then Some(('<', 4))
    else if "&gt;" <= s then Some(('>', 4))
    else if "&quot;" <= s then Some(('"', 6))
    else if "&apos;" <= s then Some(('\'', 6))
    else None
  }

  function Prepend(c: char, s: Option<string>): Option<string> {
    if s.Some? then Some([c] + s.value) else None
  }

  predicate IsBlank(c: char) {
    c == '\t' || c == '\n' || c == '\r'
  }

  predicate LineEnd(s: string) {
    |s| >= 2 && s[0] == '\r' && s[1] == '\n'
  }

  /** The value of an attribute literal. */
  function AttrValue(s: string): Option<string>
    decreases |s|
  {
    if s == "" then Some("")
    else if s[0] == '&' then
      match Entity(s)
      case Some(e) => Prepend(e.0, AttrValue(s[e.1..]))
      case None => None
    else if LineEnd(s) then Prepend(' ', AttrValue(s[2..]))
    else Prepend(if IsBlank(s[0]) then ' ' else s[0], AttrValue(s[1..]))
  }

  /** Attributes: each a blank, a name, '=' and a quoted literal. */
  function Attrs(s: string): Option<seq<(string, string)>>
    decreases |s|
  {
    if s == "" then Some([])
    else if s[0] != ' ' then None
    else
      var e := Until(s, '=');
      if e == 0 || e + 1 >= |s| || s[e + 1] != '"' then None else
        var lit := s[e + 2..];
        var q := Until(lit, '"');
        if q == |lit| then None else
          match (AttrValue(lit[..q]), Attrs(lit[q + 1..]))
          case (Some(v), Some(more)) => Some([(s[1..e], v)] + more)
          case _ => None
  }

  /** What stands between '<' and '>'. */
  function Tag(content: string): Token {
    if content == "" || '<' in content then Bad
    else if content[0] == '?' || content[0] == '!' then Misc
    else if content[0] == '/' then Close(content[1..])
    else
      var n := Until(content, ' ');
      match Attrs(content[n..])
      case Some(attrs) => Open(content[..n], attrs)
      case None => Bad
  }

  function Lex(s: string): seq<Token>
    decreases |s|
  {
    if s == "" then []
    else if s[0] == '<' then
      var k := Until(s, '>');
      if k == |s| then [Bad] else [Tag(s[1..k])] + Lex(s[k + 1..])
    else if s[0] == '&' then
      match Entity(s)
      case Some(e) => [Chr(e.0)] + Lex(s[e.1..])
      case None => [Bad]
    else if LineEnd(s) then [Chr('\n')] + Lex(s[2..])
    else [Chr(if s[0] == '\r' then '\n' else s[0])] + Lex(s[1..])
  }

  // ---------- the user-mapping document ----------

  datatype Entry = Entry(user: string, password: string, connection: string, protocol: string,
                         params: seq<(string, string)>)

  function SkipBlanks(ts: seq<Token>): (r: seq<Token>)
    ensures |r| <= |ts|
  {
    if ts != [] && (ts[0].Misc? || (ts[0].Chr? && (ts[0].c == ' ' || IsBlank(ts[0].c)))) then SkipBlanks(ts[1..]) else ts
  }

  function Text(ts: seq<Token>): (r: (string, seq<Token>))
    ensures |r.1| <= |ts|
  {
    if ts != [] && ts[0].Chr? then
      var t := Text(ts[1..]);
      ([ts[0].c] + t.0, t.1)
    else ("", ts)
  }

  /** The text of an element whose start tag has just been read, up to and including its end tag. */
  function LeafRest(name: string, ts: seq<Token>): (r: Option<(string, seq<Token>)>)
    ensures r.Some? ==> |r.value.1| < |ts|
  {
    var t := Text(ts);
    if t.1 != [] && t.1[0] == Close(name) then Some((t.0, t.1[1..])) else None
  }

  /** Any number of `<param name="...">...</param>`. */
  function Params(ts: seq<Token>): (r: Option<(seq<(string, string)>, seq<Token>)>)
    ensures r.Some? ==> |r.value.1| <= |ts|
    decreases |ts|
  {
    var t := SkipBlanks(ts);
    if t != [] && t[0].Open? && t[0].name == "param" && |t[0].attrs| == 1 && t[0].attrs[0].0 == "name" then
      match LeafRest("param", t[1..])
      case None => None
      case Some(leaf) =>
        (match Params(leaf.1)
         case None => None
         case Some(more) => Some(([(t[0].attrs[0].1, leaf.0)] + more.0, more.1)))
    else Some(([], t))
  }

  function Connection(ts: seq<Token>): (r: Option<((string, string, seq<(string, string)>), seq<Token>)>)
    ensures r.Some? ==> |r.value.1| < |ts|
  {
    var t := SkipBlanks(ts);
    if t == [] || !t[0].Open? || t[0].name != "connection" || |t[0].attrs| != 1 || t[0].attrs[0].0 != "name" then None else
      var p := SkipBlanks(t[1..]);
      if p == [] || p[0] != Open("protocol", []) then None else
        match LeafRest("protocol", p[1..])
        case None => None
        case Some(protocol) =>
          match Params(protocol.1)
          case None => None
          case Some(ps) =>
            if ps.1 == [] || ps.1[0] != Close("connection") then None
            else Some(((t[0].attrs[0].1, protocol.0, ps.0), ps.1[1..]))
  }

  /** The authorize blocks up to `</user-mapping>`. */
  function Authorizations(ts: seq<Token>): Option<seq<Entry>>
    decreases |ts|
  {
    var t := SkipBlanks(ts);
    if t == [] then None
    else if t[0] == Close("user-mapping") then (if SkipBlanks(t[1..]) == [] then Some([]) else None)
    else if !t[0].Open? || t[0].name != "authorize" || |t[0].attrs| != 2
            || t[0].attrs[0].0 != "username" || t[0].attrs[1].0 != "password" then None
    else
      match Connection(t[1..])
      case None => None
      case Some(c) =>
        var e := SkipBlanks(c.1);
        if e == [] || e[0] != Close("authorize") then None else
          match Authorizations(e[1..])
          case None => None
          case Some(more) =>
            Some([Entry(t[0].attrs[0].1, t[0].attrs[1].1, c.0.0, c.0.1, c.0.2)] + more)
  }

  function ReadUserMapping(xml: string): Option<seq<Entry>> {
    var t := SkipBlanks(Lex(xml));
    if t == [] || t[0] != Open("user-mapping", []) then None else Authorizations(t[1..])
  }
}
