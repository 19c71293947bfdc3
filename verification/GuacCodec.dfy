/**
 The Guacamole instruction codec of the probe scripts (packages/control-plane/scripts/guacConcurrencyProof.mjs:16-44):
 `LEN.VALUE,LEN.VALUE,...;` with a streaming parser. The encoder counts bytes, the parser counts characters.
 */
module GuacCodec {
  import opened Prelude
  import opened UserMapping

  // ---------- the JavaScript string operations used ----------

  function IndexOf(s: string, c: char): (i: int)
    ensures -1 <= i < |s|
  {
    if s == "" then -1
    else if s[0] == c then 0
    else
      var i := IndexOf(s[1..], c);
      if i < 0 then -1 else i + 1
  }

  predicate Lacks(s: string, c: char) {
    IndexOf(s, c) < 0
  }

  lemma {:induction false} IndexOfPrefix(a: string, b: string, c: char)
    ensures IndexOf(a + b, c) ==
            if !Lacks(a, c) then IndexOf(a, c) else if Lacks(b, c) then -1 else |a| + IndexOf(b, c)
  {
    if a == "" {
      assert a + b == b;
    } else {
      assert (a + b)[1..] == a[1..] + b && (a + b)[0] == a[0];
      IndexOfPrefix(a[1..], b, c);
    }
  }

  lemma {:induction false} LacksEach(s: string, c: char)
    ensures Lacks(s, c) <==> forall k :: 0 <= k < |s| ==> s[k] != c
    ensures !Lacks(s, c) ==> s[IndexOf(s, c)] == c
  {
    if s != "" {
      LacksEach(s[1..], c);
      assert s == [s[0]] + s[1..];
    }
  }

  /** A `slice` bound: negative ones count from the end, and all are clamped. */
  function Bound(i: int, n: nat): (r: nat)
    ensures r <= n
  {
    if i < 0 then Max(n + i, 0) else Min(i, n)
  }

  function Slice(s: string, start: int, end: int): (r: string)
    ensures |r| <= |s|
  {
    var a, b := Bound(start, |s|), Bound(end, |s|);
    if a < b then s[a..b] else ""
  }

  predicate IsDigit(c: char) {
    '0' <= c <= '9'
  }

  predicate IsSpace(c: char) {
    c in {' ', '\t', '\n', '\U{B}', '\U{C}', '\r', '\U{A0}', '\U{1680}', '\U{2028}', '\U{2029}', '\U{202F}', '\U{205F}',
          '\U{3000}', '\U{FEFF}'}
    || '\U{2000}' <= c <= '\U{200A}'
  }

  function DigitValue(c: char): nat
    requires IsDigit(c)
  {
    c as int - '0' as int
  }

  /** The value of the leading digits, continuing from `acc`. */
  function LeadingDigits(s: string, acc: nat): nat
    decreases |s|
  {
    if s == "" || !IsDigit(s[0]) then acc else LeadingDigits(s[1..], 10 * acc + DigitValue(s[0]))
  }

  /** `parseInt(s, 10)`; None for NaN. */
  function ParseInt(s: string): Option<int>
    decreases |s|
  {
    if s == "" then None
    else if IsSpace(s[0]) then ParseInt(s[1..])
    else
      var sign := s[0] == '-' || s[0] == '+';
      var digits := if sign then s[1..] else s;
      if digits == "" || !IsDigit(digits[0]) then None
      else Some(if s[0] == '-' then 0 - LeadingDigits(digits, 0) else LeadingDigits(digits, 0))
  }

  // ---------- the encoder ----------

  /** Bytes of a character in UTF-8. */
  function CharBytes(c: char): nat {
    if c < '\U{80}' then 1 else if c < '\U{800}' then 2 else if c < '\U{10000}' then 3 else 4
  }

  function ByteLength(s: string): (n: nat)
    ensures n >= |s|
  {
    if s == "" then 0 else CharBytes(s[0]) + ByteLength(s[1..])
  }

  /** UTF-8 (section 3 of RFC 3629). */
  function Utf8(c: char): seq<int> {
    var n := c as int;
    if n < 0x80 then [n]
    else if n < 0x800 then [0xC0 + n / 64, 0x80 + n % 64]
    else if n < 0x10000 then [0xE0 + n / 64 / 64, 0x80 + n / 64 % 64, 0x80 + n % 64]
    else [0xF0 + n / 64 / 64 / 64, 0x80 + n / 64 / 64 % 64, 0x80 + n / 64 % 64, 0x80 + n % 64]
  }

  /** The number a UTF-8 sequence stands for, read from its first byte on. */
  function CodePoint(bytes: seq<int>): int
    requires bytes != []
  {
    if bytes[0] < 0x80 then bytes[0]
    else if |bytes| == 2 then (bytes[0] - 0xC0) * 64 + (bytes[1] - 0x80)
    else if |bytes| == 3 then (bytes[0] - 0xE0) * 4096 + (bytes[1] - 0x80) * 64 + (bytes[2] - 0x80)
    else if |bytes| == 4 then
      (bytes[0] - 0xF0) * 262144 + (bytes[1] - 0x80) * 4096 + (bytes[2] - 0x80) * 64 + (bytes[3] - 0x80)
    else -1
  }

  /** The bytes counted for a character are those of a sequence that reads back as the character. */
  lemma CharBytesCounts(c: char)
    ensures CharBytes(c) == |Utf8(c)| && CodePoint(Utf8(c)) == c as int
    ensures forall k :: 0 < k < |Utf8(c)| ==> 0x80 <= Utf8(c)[k] < 0xC0
    ensures Utf8(c)[0] < 0x80 || 0xC0 <= Utf8(c)[0] < 0xF8
  {
  }

  function Utf8All(s: string): seq<int> {
    if s == "" then [] else Utf8(s[0]) + Utf8All(s[1..])
  }

  /** The length prefix of an element is the number of bytes of its UTF-8 form. */
  lemma {:induction false} ByteLengthCounts(s: string)
    ensures ByteLength(s) == |Utf8All(s)|
  {
    if s != "" {
      CharBytesCounts(s[0]);
      ByteLengthCounts(s[1..]);
    }
  }

  function Element(e: string): string {
    Decimal(ByteLength(e)) + "." + e
  }

  function Joined(elems: seq<string>): string {
    if elems == [] then ""
    else if |elems| == 1 then Element(elems[0])
    else Element(elems[0]) + "," + Joined(elems[1..])
  }

  function Instr(elems: seq<string>): string {
    Joined(elems) + ";"
  }

  // ---------- the parser ----------

  /** One instruction body parsed. `Hang`: the inner loop comes back to the same remainder and never ends. */
  datatype Parsed = Hang | Malformed | Elements(elems: seq<string>)

  function Prepend(e: string, p: Parsed): Parsed {
    if p.Elements? then Elements([e] + p.elems) else p
  }

  /** The element in front and what is left; NaN makes the first slice empty and the second one the whole remainder. */
  function Take(rest: string, dot: nat): (string, string)
    requires dot < |rest|
  {
    var len := ParseInt(rest[..dot]);
    var end := if len.Some? then dot + 1 + len.value else 0;
    var next := Slice(rest, end, |rest|);
    (Slice(rest, dot + 1, end), if next != "" && next[0] == ',' then next[1..] else next)
  }

  function ParseRaw(rest: string): Parsed
    decreases |rest|
  {
    if rest == "" then Elements([]) else
      var dot := IndexOf(rest, '.');
      if dot < 0 then Malformed else
        var (val, next) := Take(rest, dot);
        if |next| >= |rest| then Hang else Prepend(val, ParseRaw(next))
  }

  /** The remainder only fails to shrink by staying what it was. */
  lemma HangMeansUnchanged(rest: string, dot: nat)
    requires dot < |rest| && |Take(rest, dot).1| >= |rest|
    ensures Take(rest, dot).1 == rest
  {
    hide ParseInt;
  }

  datatype Scanned = Scanned(emitted: seq<seq<string>>, rest: string, hung: bool)

  function Emission(p: Parsed): seq<seq<string>> {
    if p.Elements? && p.elems != [] then [p.elems] else []
  }

  /** What a buffer gives: the instructions it completes, and what stays buffered. */
  function Scan(buf: string): Scanned
    decreases |buf|
  {
    var i := IndexOf(buf, ';');
    if i < 0 then Scanned([], buf, false) else
      var p := ParseRaw(buf[..i]);
      if p.Hang? then Scanned([], buf[i + 1..], true) else
        var s := Scan(buf[i + 1..]);
        Following(Emission(p), s)
  }

  function Following(emitted: seq<seq<string>>, s: Scanned): Scanned {
    Scanned(emitted + s.emitted, s.rest, s.hung)
  }

  lemma FollowingTwice(e: seq<seq<string>>, f: seq<seq<string>>, s: Scanned)
    ensures Following(e, Following(f, s)) == Following(e + f, s)
    ensures Following([], s) == s
  {
    assert e + (f + s.emitted) == e + f + s.emitted;
    assert [] + s.emitted == s.emitted;
  }

  /** The two ways a scan goes on, for proofs that look no further. */
  lemma ScanStep(buf: string)
    ensures var i := IndexOf(buf, ';');
            if i < 0 then Scan(buf) == Scanned([], buf, false)
            else if ParseRaw(buf[..i]).Hang? then Scan(buf) == Scanned([], buf[i + 1..], true)
            else Scan(buf) == Following(Emission(ParseRaw(buf[..i])), Scan(buf[i + 1..]))
  {
    hide ParseRaw, IndexOf, Emission;
  }

  class Parser {
    var buf: string

    constructor ()
      ensures buf == ""
    {
      buf := "";
    }

    /** The inner loop. */
    method ParseElements(raw: string) returns (p: Parsed)
      ensures p == ParseRaw(raw)
    {
      hide Slice, ParseInt, IndexOf, ParseRaw;
      var elems: seq<string> := [];
      var rest := raw;
      NothingPrepended(ParseRaw(raw));
      while |rest| > 0
        invariant ParseRaw(raw) == PrependAll(elems, ParseRaw(rest))
        decreases |rest|
      {
        ParseStep(rest);
        var dot := IndexOf(rest, '.');
        if dot < 0 { return Malformed; }
        var len := ParseInt(rest[..dot]);
        var end := if len.Some? then dot + 1 + len.value else 0;
        var val := Slice(rest, dot + 1, end);
        var next := Slice(rest, end, |rest|);
        if next != "" && next[0] == ',' { next := next[1..]; }
        assert (val, next) == Take(rest, dot);
        if |next| >= |rest| { return Hang; }
        PrependSnoc(elems, val, ParseRaw(next));
        elems := elems + [val];
        rest := next;
      }
      ParseStep(rest);
      p := Elements(elems);
    }

    /** One call of the function that makeParser returns. `hung` stands for a call that does not come back. */
    method Feed(chunk: string) returns (emitted: seq<seq<string>>, hung: bool)
      modifies this
      ensures Scan(old(buf) + chunk) == Scanned(emitted, buf, hung)
    {
      hide ParseRaw, Scan, IndexOf;
      buf := buf + chunk;
      emitted := [];
      ghost var whole := Scan(buf);
      FollowingTwice([], [], whole);
      var i := IndexOf(buf, ';');
      while i >= 0
        invariant i == IndexOf(buf, ';')
        invariant whole == Following(emitted, Scan(buf))
        decreases |buf|
      {
        ScanStep(buf);
        var raw := buf[..i];
        buf := buf[i + 1..];
        var p := ParseElements(raw);
        if p.Hang? { return emitted, true; }
        ghost var before := emitted;
        if p.Elements? && |p.elems| > 0 { emitted := emitted + [p.elems]; }
        assert emitted == before + Emission(p);
        FollowingTwice(before, Emission(p), Scan(buf));
        i := IndexOf(buf, ';');
      }
      ScanStep(buf);
      hung := false;
    }
  }

  function PrependAll(elems: seq<string>, p: Parsed): Parsed {
    if p.Elements? then Elements(elems + p.elems) else p
  }

  lemma NothingPrepended(p: Parsed)
    ensures PrependAll([], p) == p
  {
    if p.Elements? { assert [] + p.elems == p.elems; }
  }

  lemma PrependSnoc(elems: seq<string>, e: string, p: Parsed)
    ensures PrependAll(elems, Prepend(e, p)) == PrependAll(elems + [e], p)
  {
    if p.Elements? { assert elems + ([e] + p.elems) == elems + [e] + p.elems; }
  }

  lemma ParseStep(rest: string)
    ensures var dot := IndexOf(rest, '.');
            if rest == "" then ParseRaw(rest) == Elements([])
            else if dot < 0 then ParseRaw(rest) == Malformed
            else if |Take(rest, dot).1| >= |rest| then ParseRaw(rest) == Hang
            else ParseRaw(rest) == Prepend(Take(rest, dot).0, ParseRaw(Take(rest, dot).1))
  {
    hide Take, IndexOf, Prepend;
  }

  // ---------- chunking does not matter ----------

  lemma {:induction false} ScanSplit(a: string, b: string)
    requires !Scan(a).hung
    ensures Scan(a + b) == Following(Scan(a).emitted, Scan(Scan(a).rest + b))
    decreases |a|
  {
    hide ParseRaw, IndexOf, Scan, Emission, Following;
    ScanStep(a);
    var i := IndexOf(a, ';');
    if i >= 0 {
      CutAt(a, b, i);
      ScanStep(a + b);
      var e, s := Emission(ParseRaw(a[..i])), Scan(a[i + 1..]);
      FollowingFields(e, s);
      ScanSplit(a[i + 1..], b);
      FollowingTwice(e, s.emitted, Scan(s.rest + b));
    } else {
      FollowingTwice([], [], Scan(a + b));
    }
  }

  lemma FollowingFields(e: seq<seq<string>>, s: Scanned)
    ensures Following(e, s).emitted == e + s.emitted && Following(e, s).rest == s.rest && Following(e, s).hung == s.hung
  {
  }

  lemma CutAt(a: string, b: string, i: nat)
    requires IndexOf(a, ';') == i
    ensures i < |a| && IndexOf(a + b, ';') == i
    ensures (a + b)[..i] == a[..i] && (a + b)[i + 1..] == a[i + 1..] + b
  {
    hide IndexOf;
    IndexOfPrefix(a, b, ';');
  }

  lemma {:induction false} ScanHang(a: string, b: string)
    requires Scan(a).hung
    ensures Scan(a + b).hung && Scan(a + b).emitted == Scan(a).emitted
    decreases |a|
  {
    hide ParseRaw, IndexOf, Scan, Emission;
    ScanStep(a);
    var i := IndexOf(a, ';');
    CutAt(a, b, i);
    ScanStep(a + b);
    if !ParseRaw(a[..i]).Hang? { ScanHang(a[i + 1..], b); }
  }

  function Concat(chunks: seq<string>): string {
    if chunks == [] then "" else chunks[0] + Concat(chunks[1..])
  }

  /** Chunk after chunk; nothing more is seen once a call hangs. */
  function FeedAll(buf: string, chunks: seq<string>): Scanned
    decreases |chunks|
  {
    if chunks == [] then Scanned([], buf, false) else
      var s := Scan(buf + chunks[0]);
      if s.hung then s else
        var t := FeedAll(s.rest, chunks[1..]);
        Scanned(s.emitted + t.emitted, t.rest, t.hung)
  }

  /** Nothing that stays in the buffer contains a semicolon. */
  lemma {:induction false} RestLacksSemicolon(buf: string)
    ensures !Scan(buf).hung ==> Lacks(Scan(buf).rest, ';')
    decreases |buf|
  {
    hide ParseRaw, IndexOf, Scan, Emission;
    ScanStep(buf);
    if IndexOf(buf, ';') >= 0 { RestLacksSemicolon(buf[IndexOf(buf, ';') + 1..]); }
  }

  /** Any stream, cut up in any way, gives the instructions of the stream in one piece. */
  lemma {:induction false} ChunkingIrrelevant(buf: string, chunks: seq<string>)
    requires Lacks(buf, ';')
    ensures var all := Scan(buf + Concat(chunks));
            var fed := FeedAll(buf, chunks);
            fed.emitted == all.emitted && fed.hung == all.hung && (!all.hung ==> fed.rest == all.rest)
    decreases |chunks|
  {
    hide ParseRaw, IndexOf, Scan;
    if chunks == [] {
      assert buf + "" == buf;
      ScanStep(buf);
    } else {
      var s := Scan(buf + chunks[0]);
      assert buf + Concat(chunks) == buf + chunks[0] + Concat(chunks[1..]);
      if s.hung {
        ScanHang(buf + chunks[0], Concat(chunks[1..]));
      } else {
        RestLacksSemicolon(buf + chunks[0]);
        ScanSplit(buf + chunks[0], Concat(chunks[1..]));
        ChunkingIrrelevant(s.rest, chunks[1..]);
      }
    }
  }

  // ---------- round trips ----------

  predicate Ascii(s: string) {
    forall k :: 0 <= k < |s| ==> s[k] < '\U{80}'
  }

  /** What an instruction must be for the parser to give it back. Only the last element may hold wide characters. */
  predicate Faithful(elems: seq<string>) {
    && elems != []
    && (forall k :: 0 <= k < |elems| ==> Lacks(elems[k], ';'))
    && (forall k :: 0 <= k < |elems| - 1 ==> Ascii(elems[k]))
  }

  lemma {:induction false} ByteLengthExact(s: string)
    ensures ByteLength(s) == |s| <==> Ascii(s)
  {
    if s != "" {
      ByteLengthExact(s[1..]);
      assert Ascii(s) <==> s[0] < '\U{80}' && Ascii(s[1..]) by {
        assert s == [s[0]] + s[1..];
        if Ascii(s) { forall k | 0 <= k < |s[1..]| ensures s[1..][k] < '\U{80}' { assert s[1..][k] == s[k + 1]; } }
      }
    }
  }

  lemma {:induction false} DecimalIsDigits(n: nat)
    ensures Decimal(n) != "" && forall k :: 0 <= k < |Decimal(n)| ==> IsDigit(Decimal(n)[k])
  {
    if n >= 10 { DecimalIsDigits(n / 10); }
  }

  lemma DecimalLacks(n: nat, c: char)
    requires !IsDigit(c)
    ensures Lacks(Decimal(n), c)
  {
    DecimalIsDigits(n);
    LacksEach(Decimal(n), c);
  }

  lemma {:induction false} LeadingDigitsSnoc(s: string, c: char, acc: nat)
    requires IsDigit(c) && forall k :: 0 <= k < |s| ==> IsDigit(s[k])
    ensures LeadingDigits(s + [c], acc) == 10 * LeadingDigits(s, acc) + DigitValue(c)
    decreases |s|
  {
    if s == "" {
      assert (s + [c])[1..] == "";
    } else {
      assert (s + [c])[1..] == s[1..] + [c] && (s + [c])[0] == s[0];
      LeadingDigitsSnoc(s[1..], c, 10 * acc + DigitValue(s[0]));
    }
  }

  lemma {:induction false} LeadingDigitsDecimal(n: nat)
    ensures LeadingDigits(Decimal(n), 0) == n
  {
    if n < 10 {
      assert Decimal(n)[1..] == "";
    } else {
      LeadingDigitsDecimal(n / 10);
      DecimalIsDigits(n / 10);
      LeadingDigitsSnoc(Decimal(n / 10), Digit(n % 10), 0);
    }
  }

  lemma ParseIntDecimal(n: nat)
    ensures ParseInt(Decimal(n)) == Some(n)
  {
    DecimalIsDigits(n);
    LeadingDigitsDecimal(n);
    assert !IsSpace(Decimal(n)[0]);
  }

  /** Where the parser finds the first dot of `LEN.e` followed by `tail`. */
  lemma ElementDot(e: string, tail: string)
    ensures var s := Element(e) + tail;
            var dot := |Decimal(ByteLength(e))|;
            && |s| == dot + 1 + |e| + |tail| && IndexOf(s, '.') == dot
            && s[..dot] == Decimal(ByteLength(e)) && s[dot + 1..] == e + tail
  {
    hide IndexOf, Decimal, ByteLength;
    var n := ByteLength(e);
    assert Element(e) + tail == Decimal(n) + ("." + (e + tail));
    DecimalLacks(n, '.');
    IndexOfPrefix(Decimal(n), "." + (e + tail), '.');
    FirstIs("." + (e + tail), '.');
  }

  /** Taking the first element of `LEN.e` followed by `tail`, which is empty or starts with a comma. */
  lemma {:induction false} TakeElement(e: string, tail: string)
    requires tail == "" || tail[0] == ','
    ensures var s := Element(e) + tail;
            var dot := |Decimal(ByteLength(e))|;
            && dot < |s| && IndexOf(s, '.') == dot
            && (Ascii(e) ==> Take(s, dot) == (e, if tail == "" then "" else tail[1..]))
            && (tail == "" ==> Take(s, dot) == (e, ""))
            && (!Ascii(e) && tail != "" ==> |Take(s, dot).0| > |e|)
  {
    hide IndexOf, ParseInt, Decimal, Element, Ascii, Take, ByteLength;
    var n := ByteLength(e);
    var s := Element(e) + tail;
    var dot := |Decimal(n)|;
    ElementDot(e, tail);
    ParseIntDecimal(n);
    ByteLengthExact(e);
    TakeIs(s, dot, n);
    if Ascii(e) {
      SliceOfSuffix(s, dot + 1, e, tail);
    } else if tail == "" {
      assert s[dot + 1..|s|] == e && s[|s|..] == "";
    }
  }

  lemma SliceOfSuffix(s: string, at: nat, e: string, tail: string)
    requires at <= |s| && s[at..] == e + tail
    ensures at + |e| <= |s| && s[at..at + |e|] == e && s[at + |e|..] == tail
    ensures tail != "" ==> s[at + |e|] == tail[0] && s[at + |e| + 1..] == tail[1..]
  {
    assert s[at..at + |e|] == s[at..][..|e|];
    assert s[at + |e|..] == s[at..][|e|..];
  }

  lemma FirstIs(s: string, c: char)
    requires s != "" && s[0] == c
    ensures IndexOf(s, c) == 0
  {
  }

  lemma TakeIs(s: string, dot: nat, n: nat)
    requires dot < |s| && ParseInt(s[..dot]) == Some(n)
    ensures var end := Min(dot + 1 + n, |s|);
            Take(s, dot) == (s[dot + 1..end], if end < |s| && s[end] == ',' then s[end + 1..] else s[end..])
  {
    hide ParseInt;
    var end := Min(dot + 1 + n, |s|);
    assert Slice(s, dot + 1 + n, |s|) == s[end..];
    assert Slice(s, dot + 1, dot + 1 + n) == s[dot + 1..end];
  }

  lemma JoinedSplit(elems: seq<string>)
    requires |elems| > 0
    ensures Joined(elems) == Element(elems[0]) + if |elems| == 1 then "" else "," + Joined(elems[1..])
  {
    hide Element;
  }

  /** The inner loop reads an encoded body back exactly when every element before the last is ASCII. */
  lemma {:induction false} BodyRoundTrip(elems: seq<string>)
    ensures ParseRaw(Joined(elems)) == Elements(elems) <==> forall k :: 0 <= k < |elems| - 1 ==> Ascii(elems[k])
  {
    hide IndexOf, Take, Element, Ascii, Joined, ParseRaw;
    if elems == [] {
      EmptyBody();
    } else {
      JoinedSplit(elems);
      var tail := if |elems| == 1 then "" else "," + Joined(elems[1..]);
      TakeElement(elems[0], tail);
      var s := Joined(elems);
      var dot := |Decimal(ByteLength(elems[0]))|;
      ParseStep(s);
      if |elems| == 1 {
        EmptyBody();
        ElementLonger(elems[0]);
        assert elems == [elems[0]];
      } else if Ascii(elems[0]) {
        assert tail[1..] == Joined(elems[1..]);
        ElementLonger(elems[0]);
        BodyRoundTrip(elems[1..]);
        PrependIs(elems[0], ParseRaw(Joined(elems[1..])), elems);
        AsciiFront(elems);
      } else {
        assert |Take(s, dot).0| > |elems[0]|;
      }
    }
  }

  lemma EmptyBody()
    ensures Joined([]) == "" && ParseRaw("") == Elements([])
  {
  }

  lemma ElementLonger(e: string)
    ensures |Element(e)| >= |e| + 2
  {
    DecimalIsDigits(ByteLength(e));
  }

  lemma PrependIs(e: string, p: Parsed, elems: seq<string>)
    requires |elems| > 0 && elems[0] == e
    ensures Prepend(e, p) == Elements(elems) <==> p == Elements(elems[1..])
  {
    assert elems == [e] + elems[1..];
    if p.Elements? { assert ([e] + p.elems)[1..] == p.elems; }
  }

  lemma AsciiFront(elems: seq<string>)
    requires |elems| > 1
    ensures (forall k :: 0 <= k < |elems| - 1 ==> Ascii(elems[k])) <==>
            Ascii(elems[0]) && forall k :: 0 <= k < |elems[1..]| - 1 ==> Ascii(elems[1..][k])
  {
    hide Ascii;
    if Ascii(elems[0]) && forall k :: 0 <= k < |elems[1..]| - 1 ==> Ascii(elems[1..][k]) {
      forall k | 0 <= k < |elems| - 1 ensures Ascii(elems[k]) {
        if k > 0 { assert elems[1..][k - 1] == elems[k]; }
      }
    }
  }

  // ---------- whole streams ----------

  function EncodeAll(instrs: seq<seq<string>>): string {
    if instrs == [] then "" else Instr(instrs[0]) + EncodeAll(instrs[1..])
  }

  lemma {:induction false} JoinedLacks(elems: seq<string>)
    requires forall k :: 0 <= k < |elems| ==> Lacks(elems[k], ';')
    ensures Lacks(Joined(elems), ';')
  {
    hide IndexOf, Element;
    if elems == [] {
      assert Joined(elems) == "";
      LacksEach("", ';');
    } else {
      ElementLacks(elems[0]);
      JoinedSplit(elems);
      if |elems| > 1 {
        JoinedLacks(elems[1..]);
        LacksEach(",", ';');
        IndexOfPrefix(",", Joined(elems[1..]), ';');
        IndexOfPrefix(Element(elems[0]), "," + Joined(elems[1..]), ';');
      } else {
        assert Element(elems[0]) + "" == Element(elems[0]);
      }
    }
  }

  lemma ElementLacks(e: string)
    requires Lacks(e, ';')
    ensures Lacks(Element(e), ';')
  {
    hide IndexOf, Decimal;
    DecimalLacks(ByteLength(e), ';');
    LacksEach(".", ';');
    IndexOfPrefix(Decimal(ByteLength(e)), ".", ';');
    IndexOfPrefix(Decimal(ByteLength(e)) + ".", e, ';');
  }

  /** With no semicolon inside, an encoded instruction at the front of a stream is cut off exactly at its end. */
  lemma {:induction false} ScanInstr(elems: seq<string>, more: string)
    requires forall k :: 0 <= k < |elems| ==> Lacks(elems[k], ';')
    ensures var p := ParseRaw(Joined(elems));
            if p.Hang? then Scan(Instr(elems) + more) == Scanned([], more, true)
            else Scan(Instr(elems) + more) == Following(Emission(p), Scan(more))
  {
    hide IndexOf, ParseRaw, Scan, Emission, Joined, Following;
    JoinedLacks(elems);
    var buf := Instr(elems) + more;
    assert buf == Joined(elems) + (";" + more);
    FirstIs(";" + more, ';');
    IndexOfPrefix(Joined(elems), ";" + more, ';');
    var i := |Joined(elems)|;
    assert buf[..i] == Joined(elems) && buf[i + 1..] == more;
    ScanStep(buf);
  }

  /** Every emitted element is a piece of the stream between semicolons. */
  lemma {:induction false} ParsedLacks(rest: string)
    requires Lacks(rest, ';')
    ensures ParseRaw(rest).Elements? ==> forall e :: e in ParseRaw(rest).elems ==> Lacks(e, ';')
    decreases |rest|
  {
    hide IndexOf, Take, ParseRaw;
    ParseStep(rest);
    var dot := IndexOf(rest, '.');
    if rest != "" && dot >= 0 {
      var (val, next) := Take(rest, dot);
      TakeLacks(rest, dot);
      if |next| < |rest| { ParsedLacks(next); }
    }
  }

  lemma TakeLacks(rest: string, dot: nat)
    requires dot < |rest| && Lacks(rest, ';')
    ensures Lacks(Take(rest, dot).0, ';') && Lacks(Take(rest, dot).1, ';')
  {
    hide IndexOf, ParseInt;
    LacksEach(rest, ';');
    LacksEach(Take(rest, dot).0, ';');
    LacksEach(Take(rest, dot).1, ';');
  }

  lemma {:induction false} EmittedLacks(buf: string)
    ensures forall m, e :: m in Scan(buf).emitted && e in m ==> Lacks(e, ';')
    decreases |buf|
  {
    hide IndexOf, ParseRaw, Scan;
    ScanStep(buf);
    var i := IndexOf(buf, ';');
    if i >= 0 {
      EmittedLacks(buf[i + 1..]);
      UpToSemicolon(buf, i);
      ParsedLacks(buf[..i]);
    }
  }

  lemma {:induction false} UpToSemicolon(buf: string, i: nat)
    requires IndexOf(buf, ';') == i
    ensures i <= |buf| && Lacks(buf[..i], ';')
  {
    if i > 0 {
      UpToSemicolon(buf[1..], i - 1);
      assert buf[..i][1..] == buf[1..][..i - 1];
    } else {
      assert buf[..i] == "";
    }
  }

  lemma {:induction false} EmissionsBounded(instrs: seq<seq<string>>)
    requires forall m, e :: m in instrs && e in m ==> Lacks(e, ';')
    ensures |Scan(EncodeAll(instrs)).emitted| <= |instrs|
  {
    hide IndexOf, ParseRaw, Scan, Instr, Lacks;
    if instrs == [] {
      EmptyScan();
    } else {
      EmissionsBounded(instrs[1..]);
      assert instrs[0] in instrs;
      ScanInstr(instrs[0], EncodeAll(instrs[1..]));
    }
  }

  lemma EmptyScan()
    ensures Scan("") == Scanned([], "", false)
  {
  }

  lemma {:induction false} FaithfulOnly(instrs: seq<seq<string>>, k: nat)
    requires forall m, e :: m in instrs && e in m ==> Lacks(e, ';')
    requires Scan(EncodeAll(instrs)) == Scanned(instrs, "", false) && k < |instrs|
    ensures Faithful(instrs[k])
  {
    hide IndexOf, ParseRaw, Scan, Instr, Lacks, Joined;
    var more := EncodeAll(instrs[1..]);
    var p := ParseRaw(Joined(instrs[0]));
    assert instrs[0] in instrs;
    ScanInstr(instrs[0], more);
    EmissionsBounded(instrs[1..]);
    assert Emission(p) + Scan(more).emitted == instrs;
    assert |Emission(p)| == 1 && p.elems == instrs[0] by {
      assert (Emission(p) + Scan(more).emitted)[0] == instrs[0];
    }
    assert (Emission(p) + Scan(more).emitted)[1..] == Scan(more).emitted;
    if k == 0 {
      BodyRoundTrip(instrs[0]);
    } else {
      FaithfulOnly(instrs[1..], k - 1);
    }
  }

  lemma {:induction false} FaithfulEnough(instrs: seq<seq<string>>)
    requires forall k :: 0 <= k < |instrs| ==> Faithful(instrs[k])
    ensures Scan(EncodeAll(instrs)) == Scanned(instrs, "", false)
  {
    hide IndexOf, ParseRaw, Scan, Instr, Lacks, Joined;
    if instrs == [] {
      EmptyScan();
    } else {
      assert Faithful(instrs[0]);
      BodyRoundTrip(instrs[0]);
      ScanInstr(instrs[0], EncodeAll(instrs[1..]));
      FaithfulEnough(instrs[1..]);
      assert [instrs[0]] + instrs[1..] == instrs;
    }
  }

  /** A stream of encoded instructions comes back unchanged exactly when every instruction in it is faithful. */
  lemma {:induction false} RoundTripExactly(instrs: seq<seq<string>>)
    ensures Scan(EncodeAll(instrs)) == Scanned(instrs, "", false)
            <==> forall k :: 0 <= k < |instrs| ==> Faithful(instrs[k])
  {
    hide IndexOf, ParseRaw, Scan, Instr, Lacks, EncodeAll, Faithful;
    if Scan(EncodeAll(instrs)) == Scanned(instrs, "", false) {
      EmittedLacks(EncodeAll(instrs));
      forall k | 0 <= k < |instrs| ensures Faithful(instrs[k]) { FaithfulOnly(instrs, k); }
    }
    if forall k :: 0 <= k < |instrs| ==> Faithful(instrs[k]) { FaithfulEnough(instrs); }
  }

  /** Also when the bytes arrive in arbitrary pieces. */
  lemma {:induction false} ChunkedRoundTrip(instrs: seq<seq<string>>, chunks: seq<string>)
    requires Concat(chunks) == EncodeAll(instrs)
    ensures FeedAll("", chunks) == Scanned(instrs, "", false)
            <==> forall k :: 0 <= k < |instrs| ==> Faithful(instrs[k])
  {
    hide ParseRaw, Scan, FeedAll, EncodeAll, Faithful;
    RoundTripExactly(instrs);
    assert "" + Concat(chunks) == Concat(chunks);
    ChunkingIrrelevant("", chunks);
  }
}
