/**
 Demultiplexing docker's log stream (packages/control-plane/src/runtime/docker.ts:559-578): frames of a stream type, three
 zero bytes, a 32-bit big-endian length and a payload. Text decoding of the resulting bytes is not part of this model.
 */
module DockerLogs {
  newtype byte = x: int | 0 <= x < 256

  datatype Frame = Frame(stream: byte, payload: seq<byte>)

  const LIMIT: nat := 0x1_0000_0000

  predicate Valid(f: Frame) {
    f.stream <= 2 && |f.payload| < LIMIT
  }

  // ---------- the 32-bit length ----------

  function BigEndian(n: nat): (b: seq<byte>)
    requires n < LIMIT
    ensures |b| == 4
  {
    [(n / 16777216) as byte, (n / 65536 % 256) as byte, (n / 256 % 256) as byte, (n % 256) as byte]
  }

  function ReadUInt32BE(buf: seq<byte>, at: nat): (n: nat)
    requires at + 4 <= |buf|
    ensures n < LIMIT
  {
    buf[at] as int * 16777216 + buf[at + 1] as int * 65536 + buf[at + 2] as int * 256 + buf[at + 3] as int
  }

  lemma ReadsBack(n: nat, before: seq<byte>, after: seq<byte>)
    requires n < LIMIT
    ensures ReadUInt32BE(before + BigEndian(n) + after, |before|) == n
  {
    var b, s := BigEndian(n), before + BigEndian(n) + after;
    assert s[|before|] == b[0] && s[|before| + 1] == b[1] && s[|before| + 2] == b[2] && s[|before| + 3] == b[3];
    assert n == n / 256 * 256 + n % 256;
    assert n / 256 == n / 65536 * 256 + n / 256 % 256;
    assert n / 65536 == n / 16777216 * 256 + n / 65536 % 256;
  }

  // ---------- framing ----------

  function Encode(f: Frame): (b: seq<byte>)
    requires Valid(f)
    ensures |b| == 8 + |f.payload|
  {
    [f.stream, 0, 0, 0] + BigEndian(|f.payload|) + f.payload
  }

  function EncodeAll(frames: seq<Frame>): seq<byte>
    requires forall f :: f in frames ==> Valid(f)
  {
    if frames == [] then [] else Encode(frames[0]) + EncodeAll(frames[1..])
  }

  function Payloads(frames: seq<Frame>): seq<byte> {
    if frames == [] then [] else frames[0].payload + Payloads(frames[1..])
  }

  // ---------- demultiplexing ----------

  /** `Raw`: a stream type above 2 was found where a frame should start. */
  datatype Demuxed = Raw | Bytes(out: seq<byte>)

  /** The payloads from position `i` on; an incomplete last frame is dropped. */
  function Scan(buf: seq<byte>, i: nat): Demuxed
    requires i <= |buf|
    decreases |buf| - i
  {
    if i + 8 > |buf| then Bytes([])
    else if buf[i] > 2 then Raw
    else
      var end := i + 8 + ReadUInt32BE(buf, i + 4);
      if end > |buf| then Bytes([]) else
        match Scan(buf, end)
        case Raw => Raw
        case Bytes(more) => Bytes(buf[i + 8..end] + more)
  }

  /** What is returned for a scan of the whole buffer. */
  function Text(buf: seq<byte>): seq<byte> {
    match Scan(buf, 0)
    case Raw => buf
    case Bytes(out) => out
  }

  function Before(out: seq<byte>, d: Demuxed): Demuxed {
    if d.Raw? then Raw else Bytes(out + d.out)
  }

  lemma BeforeTwice(a: seq<byte>, b: seq<byte>, d: Demuxed)
    ensures Before(a, Before(b, d)) == Before(a + b, d)
    ensures Before([], d) == d
  {
    if d.Bytes? {
      assert a + (b + d.out) == a + b + d.out;
      assert [] + d.out == d.out;
    }
  }

  lemma ScanStep(buf: seq<byte>, i: nat)
    requires i <= |buf|
    ensures if i + 8 > |buf| then Scan(buf, i) == Bytes([])
            else if buf[i] > 2 then Scan(buf, i) == Raw
            else var end := i + 8 + ReadUInt32BE(buf, i + 4);
                 if end > |buf| then Scan(buf, i) == Bytes([]) else Scan(buf, i) == Before(buf[i + 8..end], Scan(buf, end))
  {
    hide ReadUInt32BE;
  }

  method DemuxDockerLogs(buf: seq<byte>) returns (text: seq<byte>)
    ensures text == Text(buf)
  {
    hide ReadUInt32BE, Scan;
    ScanStep(buf, 0);
    if |buf| == 0 { return []; }
    var out: seq<byte> := [];
    var i := 0;
    BeforeTwice([], [], Scan(buf, 0));
    while i + 8 <= |buf|
      invariant i <= |buf|
      invariant Scan(buf, 0) == Before(out, Scan(buf, i))
      decreases |buf| - i
    {
      ScanStep(buf, i);
      if buf[i] > 2 { return buf; }
      var len := ReadUInt32BE(buf, i + 4);
      var start := i + 8;
      var end := start + len;
      if end > |buf| { break; }
      BeforeTwice(out, buf[start..end], Scan(buf, end));
      out := out + buf[start..end];
      i := end;
    }
    ScanStep(buf, i);
    text := out;
  }

  // ---------- what comes out ----------

  /** A scan sees only what lies ahead of it. */
  lemma {:induction false} ScanSuffix(a: seq<byte>, b: seq<byte>, i: nat)
    requires i <= |b|
    ensures Scan(a + b, |a| + i) == Scan(b, i)
    decreases |b| - i
  {
    if i + 8 <= |b| && b[i] <= 2 {
      assert ReadUInt32BE(a + b, |a| + i + 4) == ReadUInt32BE(b, i + 4);
      var end := i + 8 + ReadUInt32BE(b, i + 4);
      if end <= |b| {
        ScanSuffix(a, b, end);
        assert (a + b)[|a| + i + 8..|a| + end] == b[i + 8..end];
      }
    }
  }

  /** A whole frame in front contributes its payload and is passed over. */
  lemma {:induction false} ScanFrame(f: Frame, rest: seq<byte>)
    requires Valid(f)
    ensures Scan(Encode(f) + rest, 0) == Before(f.payload, Scan(rest, 0))
  {
    hide BigEndian, ReadUInt32BE;
    var head: seq<byte> := [f.stream, 0, 0, 0];
    var buf := Encode(f) + rest;
    assert buf == head + BigEndian(|f.payload|) + (f.payload + rest);
    ReadsBack(|f.payload|, head, f.payload + rest);
    var end := 8 + |f.payload|;
    assert buf[8..end] == f.payload;
    ScanSuffix(Encode(f), rest, 0);
  }

  /** A frame cut short contributes nothing. */
  lemma ScanCut(f: Frame, n: nat)
    requires Valid(f) && n < |Encode(f)|
    ensures Scan(Encode(f)[..n], 0) == Bytes([])
  {
    hide BigEndian, ReadUInt32BE;
    var buf := Encode(f)[..n];
    if n >= 8 {
      var head: seq<byte> := [f.stream, 0, 0, 0];
      var cut := f.payload[..n - 8];
      assert buf == head + BigEndian(|f.payload|) + cut;
      ReadsBack(|f.payload|, head, cut);
    }
  }

  /** How many frames are complete within the first `n` bytes. */
  function WholeFrames(frames: seq<Frame>, n: nat): (k: nat)
    requires forall f :: f in frames ==> Valid(f)
    ensures k <= |frames|
    decreases |frames|
  {
    if frames == [] || n < |Encode(frames[0])| then 0 else 1 + WholeFrames(frames[1..], n - |Encode(frames[0])|)
  }

  /** It is the largest number of leading frames that fit. */
  lemma {:induction false} WholeFramesFit(frames: seq<Frame>, n: nat)
    requires (forall f :: f in frames ==> Valid(f)) && n <= |EncodeAll(frames)|
    ensures var k := WholeFrames(frames, n);
            |EncodeAll(frames[..k])| <= n && (k < |frames| ==> n < |EncodeAll(frames[..k + 1])|)
    decreases |frames|
  {
    hide Encode;
    if frames != [] {
      var k := WholeFrames(frames, n);
      if n < |Encode(frames[0])| {
        assert frames[..1][1..] == [];
      } else {
        WholeFramesFit(frames[1..], n - |Encode(frames[0])|);
        assert frames[..k][1..] == frames[1..][..k - 1];
        if k < |frames| { assert frames[..k + 1][1..] == frames[1..][..k]; }
      }
    }
  }

  /** Any byte prefix of a log stream gives the payloads of exactly the frames that are whole in it. */
  lemma {:induction false} PrefixGivesWholeFrames(frames: seq<Frame>, n: nat)
    requires (forall f :: f in frames ==> Valid(f)) && n <= |EncodeAll(frames)|
    ensures Text(EncodeAll(frames)[..n]) == Payloads(frames[..WholeFrames(frames, n)])
    ensures Scan(EncodeAll(frames)[..n], 0) == Bytes(Payloads(frames[..WholeFrames(frames, n)]))
    decreases |frames|
  {
    hide Encode;
    if frames == [] {
    } else {
      var f, more, len := frames[0], EncodeAll(frames[1..]), |Encode(frames[0])|;
      if n < len {
        assert EncodeAll(frames)[..n] == Encode(f)[..n];
        ScanCut(f, n);
      } else {
        assert EncodeAll(frames)[..n] == Encode(f) + more[..n - len];
        ScanFrame(f, more[..n - len]);
        PrefixGivesWholeFrames(frames[1..], n - len);
        var k := WholeFrames(frames, n);
        assert frames[..k][1..] == frames[1..][..k - 1];
      }
    }
  }

  /** The whole stream gives all the payloads. */
  lemma {:induction false} DemuxInvertsFraming(frames: seq<Frame>)
    requires forall f :: f in frames ==> Valid(f)
    ensures Text(EncodeAll(frames)) == Payloads(frames)
  {
    hide Encode;
    var n := |EncodeAll(frames)|;
    assert EncodeAll(frames)[..n] == EncodeAll(frames);
    PrefixGivesWholeFrames(frames, n);
    WholeFramesFit(frames, n);
    var k := WholeFrames(frames, n);
    if k < |frames| { LongerPrefix(frames, k + 1); }
    assert frames[..|frames|] == frames;
  }

  lemma {:induction false} LongerPrefix(frames: seq<Frame>, k: nat)
    requires (forall f :: f in frames ==> Valid(f)) && k <= |frames|
    ensures |EncodeAll(frames[..k])| <= |EncodeAll(frames)|
  {
    hide Encode;
    if k > 0 {
      LongerPrefix(frames[1..], k - 1);
      assert frames[..k][1..] == frames[1..][..k - 1];
    }
  }

  /** Output that does not start like a frame is returned as it is, but only from eight bytes on: shorter output is lost. */
  lemma UnframedReturnedIff(buf: seq<byte>)
    requires buf != [] && buf[0] > 2
    ensures Text(buf) == buf <==> |buf| >= 8
  {
  }

  /** Unframed bytes after frames turn the whole answer raw, headers included, again only if there are eight of them. */
  lemma {:induction false} UnframedTail(frames: seq<Frame>, tail: seq<byte>)
    requires (forall f :: f in frames ==> Valid(f)) && tail != [] && tail[0] > 2
    ensures Text(EncodeAll(frames) + tail) == if |tail| >= 8 then EncodeAll(frames) + tail else Payloads(frames)
    ensures Scan(EncodeAll(frames) + tail, 0) == if |tail| >= 8 then Raw else Bytes(Payloads(frames))
    decreases |frames|
  {
    hide Encode;
    if frames == [] {
      assert EncodeAll(frames) + tail == tail;
    } else {
      assert EncodeAll(frames) + tail == Encode(frames[0]) + (EncodeAll(frames[1..]) + tail);
      ScanFrame(frames[0], EncodeAll(frames[1..]) + tail);
      UnframedTail(frames[1..], tail);
    }
  }

  // ---------- capped output of exec ----------

  /** The first `max` bytes. */
  function Kept(stream: seq<byte>, max: nat): (k: seq<byte>)
    ensures |k| <= max && k <= stream && (|k| < max ==> k == stream)
  {
    if |stream| <= max then stream else stream[..max]
  }

  function Joined(chunks: seq<seq<byte>>): seq<byte> {
    if chunks == [] then [] else Joined(chunks[..|chunks| - 1]) + chunks[|chunks| - 1]
  }

  /** The writer exec hands to the demultiplexer (docker.ts:440-457): whole chunks while there is room, then a cut one. */
  class CappedWriter {
    const max: nat
    var chunks: seq<seq<byte>>
    var len: nat
    ghost var seen: seq<byte>

    constructor (max: nat)
      ensures Valid() && seen == [] && this.max == max
    {
      this.max, chunks, len, seen := max, [], 0, [];
    }

    /** However the output was cut up, what is held is its first `max` bytes. */
    ghost predicate Valid()
      reads this
    {
      len == |Joined(chunks)| && Joined(chunks) == Kept(seen, max)
    }

    method Write(chunk: seq<byte>)
      requires Valid()
      modifies this
      ensures Valid() && seen == old(seen) + chunk
    {
      seen := seen + chunk;
      if len >= max {
        KeptFull(old(seen), chunk, max);
        return;
      }
      var room := max - len;
      var part := if |chunk| > room then chunk[..room] else chunk;
      assert (chunks + [part])[..|chunks|] == chunks;
      chunks := chunks + [part];
      len := len + (if |chunk| <= room then |chunk| else room);
    }
  }

  lemma KeptFull(a: seq<byte>, b: seq<byte>, max: nat)
    requires |Kept(a, max)| >= max
    ensures Kept(a + b, max) == Kept(a, max)
  {
    assert (a + b)[..max] == a[..max];
  }
}
