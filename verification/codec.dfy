// The two wire formats of a stripe: the stream header, and the length-prefixed
// chunks that follow it up to a zero-length end marker.
module Codec {
  import opened Bytes

  // ---------- stream header ----------

  // A Go string is a byte string.
  type Tag = seq<byte>

  const MAX_TAG_LEN := 255

  datatype Header = Header(tag: Tag, sessionID: u64, stripeIdx: byte, numStripes: byte)

  predicate WritableTag(tag: Tag) {
    1 <= |tag| <= MAX_TAG_LEN
  }

  function EncodeHeader(h: Header): seq<byte>
    requires WritableTag(h.tag)
  {
    [|h.tag|] + h.tag + Be64(h.sessionID) + [h.stripeIdx, h.numStripes]
  }

  datatype HeaderResult = Accepted(h: Header, rest: seq<byte>) | Refused

  function DecodeHeader(s: seq<byte>): HeaderResult {
    if |s| == 0 || s[0] == 0 then Refused
    else
      var n: int := s[0];
      if |s| < 1 + n + 10 then Refused else
      var meta := s[1 + n..1 + n + 10];
      if meta[9] == 0 then Refused
      else Accepted(Header(s[1..1 + n], Val64(meta[..8]), meta[8], meta[9]), s[1 + n + 10..])
  }

  method WriteStreamHeader(w: ByteWriter, h: Header) returns (ok: bool)
    modifies w
    ensures !WritableTag(h.tag) ==> !ok && w.sent == old(w.sent) && w.room == old(w.room)
    ensures WritableTag(h.tag) ==> ok == old(w.Takes(|EncodeHeader(h)|))
    ensures ok ==> w.sent == old(w.sent) + EncodeHeader(h)
  {
    if |h.tag| == 0 || |h.tag| > MAX_TAG_LEN {
      return false;
    }
    var buf := [|h.tag| as byte];
    buf := buf + h.tag;
    buf := buf + Be64(h.sessionID);
    buf := buf + [h.stripeIdx, h.numStripes];
    ok := w.Write(buf);
  }

  method ReadStreamHeader(r: ByteReader) returns (res: Option<Header>)
    modifies r
    ensures res.Some? == DecodeHeader(old(r.data)).Accepted?
    ensures res.Some? ==> DecodeHeader(old(r.data)) == Accepted(res.value, r.data)
  {
    var ok, lenBuf := r.ReadFull(1);
    if !ok { return None; }
    var n: nat := lenBuf[0];
    if n == 0 { return None; }
    var tag, meta;
    ok, tag := r.ReadFull(n);
    if !ok { return None; }
    ok, meta := r.ReadFull(10);
    if !ok { return None; }
    ghost var s := old(r.data);
    assert tag == s[1..1 + n] && meta == s[1 + n..1 + n + 10];
    if meta[9] == 0 { return None; }
    return Some(Header(tag, Val64(meta[..8]), meta[8], meta[9]));
  }

  // What the writer emits, the reader takes back, and not one byte more; except
  // that the writer emits a stripe count of zero and the reader refuses it.
  lemma HeaderRoundTrip(h: Header, tail: seq<byte>)
    requires WritableTag(h.tag)
    ensures DecodeHeader(EncodeHeader(h) + tail) == if h.numStripes == 0 then Refused else Accepted(h, tail)
  {
    var s, n := EncodeHeader(h) + tail, |h.tag|;
    assert s[1..1 + n] == h.tag;
    assert s[1 + n..1 + n + 10] == Be64(h.sessionID) + [h.stripeIdx, h.numStripes];
    assert s[1 + n..1 + n + 10][..8] == Be64(h.sessionID);
    assert s[1 + n + 10..] == tail;
    Be64Inverse(h.sessionID, Be64(h.sessionID));
  }

  // Whatever the reader accepts is exactly what the writer emits for the header
  // it returned, so two different byte strings never read as the same header.
  lemma HeaderExact(s: seq<byte>)
    requires DecodeHeader(s).Accepted?
    ensures var h := DecodeHeader(s).h;
      WritableTag(h.tag) && h.numStripes != 0 && s == EncodeHeader(h) + DecodeHeader(s).rest
  {
    hide Be64, Val64;
    var n: int := s[0];
    var tag, meta, rest := s[1..1 + n], s[1 + n..1 + n + 10], s[1 + n + 10..];
    Be64Inverse(0, meta[..8]);
    HeaderParts(tag, Val64(meta[..8]), meta);
    assert s == [s[0]] + tag + meta + rest;
  }

  lemma HeaderParts(tag: Tag, sessionID: u64, meta: seq<byte>)
    requires WritableTag(tag) && |meta| == 10 && Be64(sessionID) == meta[..8]
    ensures EncodeHeader(Header(tag, sessionID, meta[8], meta[9])) == [|tag|] + tag + meta
  {
    hide Be64;
    assert meta == meta[..8] + [meta[8], meta[9]];
  }

  // The header byte by byte: the tag's length, the tag, the session id with its most
  // significant byte first, the index, the count.
  lemma HeaderBytes(h: Header)
    requires WritableTag(h.tag)
    ensures var s, n, id := EncodeHeader(h), |h.tag|, h.sessionID;
      && |s| == n + 11 && s[0] == n && s[1..1 + n] == h.tag
      && s[1 + n] == id / 0x100_0000_0000_0000 && s[2 + n] == id / 0x1_0000_0000_0000 % 0x100
      && s[3 + n] == id / 0x100_0000_0000 % 0x100 && s[4 + n] == id / 0x1_0000_0000 % 0x100
      && s[5 + n] == id / 0x100_0000 % 0x100 && s[6 + n] == id / 0x1_0000 % 0x100
      && s[7 + n] == id / 0x100 % 0x100 && s[8 + n] == id % 0x100
      && s[9 + n] == h.stripeIdx && s[10 + n] == h.numStripes
  {
    var s, n, id := EncodeHeader(h), |h.tag|, h.sessionID;
    assert s[1 + n..9 + n] == Be64(id);
    Be64Bytes(id);
    hide Be64;
    forall k | 0 <= k < 8
      ensures s[1 + n + k] == Be64(id)[k]
    {
      assert s[1 + n..9 + n][k] == s[1 + n + k];
    }
  }

  // A header cut short anywhere is refused, never misread.
  lemma HeaderTruncated(h: Header, cut: nat)
    requires WritableTag(h.tag) && cut < |EncodeHeader(h)|
    ensures DecodeHeader(EncodeHeader(h)[..cut]).Refused?
  {
    if cut > 0 {
      assert EncodeHeader(h)[..cut][0] == |h.tag|;
    }
  }

  // ---------- chunks ----------

  const CHUNK_HDR_SIZE := 8

  datatype Chunk = Chunk(seqno: u32, payload: seq<byte>)

  function Frame(c: Chunk): (f: seq<byte>)
    ensures |f| == CHUNK_HDR_SIZE + |c.payload|
  {
    Be32(|c.payload| % TWO32) + Be32(c.seqno) + c.payload
  }

  datatype ChunkResult = Got(c: Chunk, rest: seq<byte>) | Short

  function ParseChunk(s: seq<byte>): ChunkResult {
    if |s| < CHUNK_HDR_SIZE then Short
    else
      var length := Val32(s[..4]);
      if |s| < CHUNK_HDR_SIZE + length then Short
      else Got(Chunk(Val32(s[4..8]), s[8..8 + length]), s[8 + length..])
  }

  method WriteChunk(w: ByteWriter, seqno: u32, payload: seq<byte>) returns (ok: bool)
    modifies w
    ensures ok == old(w.Takes(|Frame(Chunk(seqno, payload))|))
    ensures ok ==> w.sent == old(w.sent) + Frame(Chunk(seqno, payload))
    ensures ok ==>
      w.room == if old(w.room).None? then None else Some(old(w.room).value - |Frame(Chunk(seqno, payload))|)
    ensures !ok ==> w.room == Some(0)
    ensures !ok ==> w.sent == old(w.sent) + Frame(Chunk(seqno, payload))[..old(w.room).value]
  {
    var hdr := Be32(|payload| % TWO32) + Be32(seqno);
    ok := w.Write(hdr);
    if !ok {
      assert hdr[..old(w.room).value] == (hdr + payload)[..old(w.room).value];
      return;
    }
    if |payload| > 0 {
      ok := w.Write(payload);
      if !ok {
        var k := old(w.room).value - 8;
        assert hdr + payload[..k] == (hdr + payload)[..8 + k];
      }
    }
  }

  // A frame byte by byte: length and number with their most significant byte first,
  // then the payload.
  lemma FrameBytes(c: Chunk)
    requires |c.payload| < 0x1_0000_0000
    ensures var f, n, q: int := Frame(c), |c.payload|, c.seqno;
      && f[0] == n / 0x100_0000 && f[1] == n / 0x1_0000 % 0x100 && f[2] == n / 0x100 % 0x100 && f[3] == n % 0x100
      && f[4] == q / 0x100_0000 && f[5] == q / 0x1_0000 % 0x100 && f[6] == q / 0x100 % 0x100 && f[7] == q % 0x100
      && f[8..] == c.payload
  {
  }

  // One chunk off the stream. An error eats the rest of the stream; no payload
  // and no error is the end marker.
  method ReadChunk(r: ByteReader) returns (ok: bool, seqno: u32, payload: seq<byte>)
    modifies r
    ensures ok == ParseChunk(old(r.data)).Got?
    ensures ok ==> ParseChunk(old(r.data)) == Got(Chunk(seqno, payload), r.data)
    ensures !ok ==> payload == [] && r.data == []
  {
    var hdr;
    ok, hdr := r.ReadFull(CHUNK_HDR_SIZE);
    if !ok { return false, 0, []; }
    ghost var s := old(r.data);
    assert hdr[0..4] == s[..4] && hdr[4..8] == s[4..8];
    var length := Val32(hdr[0..4]);
    seqno := Val32(hdr[4..8]);
    if length == 0 {
      return true, seqno, [];
    }
    ok, payload := r.ReadFull(length);
    assert ok ==> payload == s[8..8 + length];
  }

  predicate Sized(c: Chunk) {
    |c.payload| < TWO32
  }

  // A frame is self-delimiting: it parses as itself whatever follows it.
  lemma ParseFrame(c: Chunk, tail: seq<byte>)
    requires Sized(c)
    ensures ParseChunk(Frame(c) + tail) == Got(c, tail)
  {
    hide Be32, Val32, ParseChunk;
    Be32Inverse(|c.payload|, Be32(0));
    Be32Inverse(c.seqno, Be32(0));
    ParseParts(Be32(|c.payload| % TWO32), Be32(c.seqno), c.payload, tail);
  }

  lemma ParseParts(a: seq<byte>, b: seq<byte>, p: seq<byte>, tail: seq<byte>)
    requires |a| == |b| == 4 && Val32(a) == |p|
    ensures ParseChunk(a + b + p + tail) == Got(Chunk(Val32(b), p), tail)
  {
    var s := a + b + p + tail;
    assert s[..4] == a && s[4..8] == b && s[8..8 + |p|] == p && s[8 + |p|..] == tail;
  }

  // A beginning of a framed stream holds a whole chunk just when it reaches the
  // end of the first frame.
  lemma ParsePrefix(c: Chunk, tail: seq<byte>, cut: nat)
    requires Sized(c) && cut <= |Frame(c)| + |tail|
    ensures cut < |Frame(c)| ==> ParseChunk((Frame(c) + tail)[..cut]).Short?
    ensures cut >= |Frame(c)| ==>
      ParseChunk((Frame(c) + tail)[..cut]) == Got(c, tail[..cut - |Frame(c)|])
  {
    hide Be32, Val32, ParseChunk;
    if cut >= |Frame(c)| {
      assert (Frame(c) + tail)[..cut] == Frame(c) + tail[..cut - |Frame(c)|];
      ParseFrame(c, tail[..cut - |Frame(c)|]);
    } else {
      assert (Frame(c) + tail)[..cut] == Frame(c)[..cut];
      ParseCut(c, cut);
    }
  }

  lemma ParseCut(c: Chunk, cut: nat)
    requires Sized(c) && cut < |Frame(c)|
    ensures ParseChunk(Frame(c)[..cut]).Short?
  {
    hide Be32, Val32;
    if cut >= CHUNK_HDR_SIZE {
      Be32Inverse(|c.payload|, Be32(0));
      assert Frame(c)[..cut][..4] == Be32(|c.payload| % TWO32);
    }
  }

  // Only a frame parses as a chunk.
  lemma ParseExact(s: seq<byte>)
    requires ParseChunk(s).Got?
    ensures var g := ParseChunk(s); Sized(g.c) && s == Frame(g.c) + g.rest
  {
    var g := ParseChunk(s);
    Be32Inverse(0, s[..4]);
    Be32Inverse(0, s[4..8]);
    assert s == s[..4] + s[4..8] + s[8..8 + |g.c.payload|] + g.rest;
  }

  // ---------- a whole stripe ----------

  function Frames(cs: seq<Chunk>): seq<byte> {
    if cs == [] then [] else Frame(cs[0]) + Frames(cs[1..])
  }

  lemma FramesAppend(cs: seq<Chunk>, c: Chunk)
    ensures Frames(cs + [c]) == Frames(cs) + Frame(c)
  {
    if cs == [] {
      assert [c][1..] == [];
    } else {
      assert (cs + [c])[1..] == cs[1..] + [c];
      FramesAppend(cs[1..], c);
    }
  }

  // How a reader's loop over a stripe ends.
  datatype End = Marker(seqno: u32) | Failed

  datatype Stripe = Stripe(chunks: seq<Chunk>, end: End, rest: seq<byte>)

  function ParseStripe(s: seq<byte>): Stripe
    decreases |s|
  {
    match ParseChunk(s)
    case Short => Stripe([], Failed, [])
    case Got(c, rest) =>
      if c.payload == [] then Stripe([], Marker(c.seqno), rest)
      else
        var t := ParseStripe(rest);
        Stripe([c] + t.chunks, t.end, t.rest)
  }

  // What a reader hands to the reassembler.
  datatype Item = Data(stripe: nat, seqno: u32, payload: seq<byte>) | Eof(stripe: nat, seqno: u32)

  function Items(stripe: nat, t: Stripe): seq<Item> {
    seq(|t.chunks|, i requires 0 <= i < |t.chunks| => Data(stripe, t.chunks[i].seqno, t.chunks[i].payload))
    + [Eof(stripe, if t.end.Marker? then t.end.seqno else 0)]
  }

  // The body of one reader goroutine: chunk after chunk into `sent`, then one
  // end-of-stream item, whether the stripe was ended by its marker or broke.
  method ReadStripe(r: ByteReader, stripe: nat) returns (sent: seq<Item>)
    modifies r
    ensures sent == Items(stripe, ParseStripe(old(r.data)))
    ensures r.data == ParseStripe(old(r.data)).rest
  {
    sent := [];
    ghost var whole, got := ParseStripe(r.data), [];
    while true
      invariant var t := ParseStripe(r.data);
        whole == Stripe(got + t.chunks, t.end, t.rest)
      invariant |sent| == |got|
      invariant forall i :: 0 <= i < |got| ==> sent[i] == Data(stripe, got[i].seqno, got[i].payload)
      decreases |r.data|
    {
      ghost var t := ParseStripe(r.data);
      var ok, seqno, payload := ReadChunk(r);
      if ok && |payload| == 0 {
        assert whole.chunks == got;
        sent := sent + [Eof(stripe, seqno)];
        return;
      }
      if !ok {
        assert whole.chunks == got;
        sent := sent + [Eof(stripe, 0)];
        return;
      }
      assert got + t.chunks == (got + [Chunk(seqno, payload)]) + ParseStripe(r.data).chunks;
      got := got + [Chunk(seqno, payload)];
      sent := sent + [Data(stripe, seqno, payload)];
    }
  }

  predicate NonEmpty(cs: seq<Chunk>) {
    forall i :: 0 <= i < |cs| ==> 0 < |cs[i].payload| < TWO32
  }

  // A stripe as written: its chunks, then the marker.
  function StripeBytes(cs: seq<Chunk>, end: u32): seq<byte> {
    Frames(cs) + Frame(Chunk(end, []))
  }

  // The reader returns exactly the chunks written and stops right at the marker.
  lemma {:induction false} StripeRoundTrip(cs: seq<Chunk>, end: u32, tail: seq<byte>)
    requires NonEmpty(cs)
    ensures ParseStripe(StripeBytes(cs, end) + tail) == Stripe(cs, Marker(end), tail)
    decreases |cs|
  {
    hide Be32, Val32, ParseChunk;
    var s := StripeBytes(cs, end) + tail;
    if cs == [] {
      ParseFrame(Chunk(end, []), tail);
      assert s == Frame(Chunk(end, [])) + tail;
    } else {
      ParseFrame(cs[0], StripeBytes(cs[1..], end) + tail);
      assert s == Frame(cs[0]) + (StripeBytes(cs[1..], end) + tail);
      StripeRoundTrip(cs[1..], end, tail);
      assert cs == [cs[0]] + cs[1..];
    }
  }

  // How many frames lie wholly within the first `cut` bytes.
  function WholeFrames(cs: seq<Chunk>, cut: nat): (j: nat)
    ensures j <= |cs| && |Frames(cs[..j])| <= cut
    ensures j < |cs| ==> cut < |Frames(cs[..j + 1])|
  {
    if cs == [] || cut < |Frame(cs[0])| then
      assert cs != [] ==> Frames(cs[..1]) == Frame(cs[0]) by { if cs != [] { assert cs[..1][1..] == []; } }
      0
    else
      var j := WholeFrames(cs[1..], cut - |Frame(cs[0])|);
      assert cs[..j + 1][1..] == cs[1..][..j];
      assert j + 1 < |cs| ==> cs[..j + 2][1..] == cs[1..][..j + 1];
      j + 1
  }

  // Cut anywhere, the stream yields exactly the chunks wholly before the cut,
  // then an error: no partial chunk, no invented one, no false end marker.
  lemma {:induction false} StripeTruncated(cs: seq<Chunk>, end: u32, cut: nat)
    requires NonEmpty(cs) && cut < |StripeBytes(cs, end)|
    ensures ParseStripe(StripeBytes(cs, end)[..cut]) == Stripe(cs[..WholeFrames(cs, cut)], Failed, [])
    decreases |cs|
  {
    hide Be32, Val32, ParseChunk;
    var s := StripeBytes(cs, end);
    if cs == [] {
      assert s == Frame(Chunk(end, [])) + [];
      ParsePrefix(Chunk(end, []), [], cut);
    } else {
      var tail := StripeBytes(cs[1..], end);
      assert s == Frame(cs[0]) + tail;
      ParsePrefix(cs[0], tail, cut);
      if cut >= |Frame(cs[0])| {
        var rest := cut - |Frame(cs[0])|;
        StripeTruncated(cs[1..], end, rest);
        var j := WholeFrames(cs[1..], rest);
        assert [cs[0]] + cs[1..][..j] == cs[..j + 1];
      }
    }
  }

  lemma Assoc(a: seq<byte>, b: seq<byte>, c: seq<byte>, d: seq<byte>)
    ensures a + (b + c + d) == a + b + c + d
  {
  }

  // The converse: a stripe that ended at a marker was that list of frames.
  lemma {:induction false} StripeExact(s: seq<byte>)
    requires ParseStripe(s).end.Marker?
    ensures var t := ParseStripe(s);
      NonEmpty(t.chunks) && s == StripeBytes(t.chunks, t.end.seqno) + t.rest
    decreases |s|
  {
    hide Be32, Val32, ParseChunk;
    ParseExact(s);
    var g := ParseChunk(s);
    if g.c.payload == [] {
      assert Frames([]) + Frame(g.c) == Frame(g.c);
    } else {
      StripeExact(g.rest);
      var t := ParseStripe(g.rest);
      assert ([g.c] + t.chunks)[1..] == t.chunks;
      Assoc(Frame(g.c), Frames(t.chunks), Frame(Chunk(t.end.seqno, [])), t.rest);
    }
  }
}
