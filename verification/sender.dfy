// The sending end of the pipe as it stands in the code: the loop that cuts the
// source into numbered chunks, and the loop that writes chunks onto one stream.
module Sender {
  import opened Bytes
  import opened Codec
  import opened Reorder
  import opened Pipeline

  // What one call of src.Read does: the bytes it puts at the start of the buffer,
  // and whether it also returns an error.
  datatype ReadResult = ReadResult(data: seq<byte>, err: bool)

  // The calls the loop makes: it goes on until one returns an error, and each returns
  // at most a buffer full.
  predicate EndsInError(calls: seq<ReadResult>) {
    && calls != []
    && (forall t :: 0 <= t < |calls| ==> |calls[t].data| <= 65536 && calls[t].err == (t == |calls| - 1))
  }

  // What the loop sends on the dispatch channel. A Go slice is a reference: the
  // payload is the array, not its contents at the time.
  datatype Sent = Sent(seqno: u32, payload: array<byte>)

  function Bytestream(calls: seq<ReadResult>): seq<byte> {
    if calls == [] then [] else Bytestream(calls[..|calls| - 1]) + calls[|calls| - 1].data
  }

  // The payloads: what each call returned, but for the calls that returned nothing.
  function Payloads(calls: seq<ReadResult>): seq<seq<byte>> {
    if calls == [] then []
    else
      var d := calls[|calls| - 1].data;
      Payloads(calls[..|calls| - 1]) + (if d == [] then [] else [d])
  }

  ghost predicate Carried(sent: seq<Sent>, chunks: seq<seq<byte>>)
    reads set j | 0 <= j < |sent| :: sent[j].payload
  {
    && |sent| == |chunks|
    && forall j :: 0 <= j < |sent| ==> sent[j].seqno == Num(j) && sent[j].payload[..] == chunks[j]
  }

  // Every chunk sent has an array of its own, and none is the buffer.
  ghost predicate Separate(sent: seq<Sent>, buf: array<byte>) {
    && (forall j :: 0 <= j < |sent| ==> sent[j].payload != buf)
    && (forall j, k :: 0 <= j < k < |sent| ==> sent[j].payload != sent[k].payload)
  }

  // src.Read: it may use the whole buffer as scratch space, and does not reach the
  // chunks sent before.
  method Read(buf: array<byte>, r: ReadResult, ghost sent: seq<Sent>, ghost chunks: seq<seq<byte>>)
    returns (n: nat, err: bool)
    requires |r.data| <= buf.Length && Carried(sent, chunks) && Separate(sent, buf)
    modifies buf
    ensures n == |r.data| && err == r.err && buf[..n] == r.data
    ensures Carried(sent, chunks)
  {
    hide Num;
    n, err := |r.data|, r.err;
    forall k | 0 <= k < n { buf[k] := r.data[k]; }
    for k := n to buf.Length
      invariant buf[..n] == r.data
    {
      buf[k] := 0;
    }
  }

  lemma NothingSent()
    ensures Carried([], [])
  {
  }

  // The reading loop of writeStripes. One buffer is reused for every call, yet
  // every chunk sent, to the first, still holds at the end the bytes it was sent with.
  method CutSource(calls: seq<ReadResult>) returns (sent: seq<Sent>, seqno: u32, counter: u64)
    requires EndsInError(calls)
    ensures Carried(sent, Payloads(calls))
    ensures forall j :: 0 <= j < |sent| ==> fresh(sent[j].payload)
    ensures forall j, k :: 0 <= j < k < |sent| ==> sent[j].payload != sent[k].payload
    ensures seqno == Num(|sent|)
    ensures counter == |Bytestream(calls)| % TWO64
  {
    hide Payloads, Bytestream, Num, Add64, Carried;
    StepCalls(calls, 0);
    var buf := new byte[CHUNK_SIZE](_ => 0);
    seqno, counter, sent := 0, 0, [];
    NothingSent();
    for t := 0 to |calls|
      invariant Carried(sent, Payloads(calls[..t]))
      invariant fresh(buf) && buf.Length == CHUNK_SIZE
      invariant Separate(sent, buf) && forall j :: 0 <= j < |sent| ==> fresh(sent[j].payload)
      invariant seqno == Num(|sent|)
      invariant counter == |Bytestream(calls[..t])| % TWO64
    {
      StepCalls(calls, t);
      AddCounter(|Bytestream(calls[..t])|, |calls[t].data|);
      var n, err := Read(buf, calls[t], sent, Payloads(calls[..t]));
      if n > 0 {
        NumNext(|sent|);
        sent := Dispatch(buf, n, seqno, sent, Payloads(calls[..t]));
        counter := Add64(counter, n);
        seqno := (seqno + 1) % TWO32;
      }
      if err {
        assert calls[..t + 1] == calls;
        break;
      }
    }
    assert calls[..|calls|] == calls;
  }

  // One chunk more on the dispatch channel.
  method Dispatch(buf: array<byte>, n: nat, seqno: u32, sent: seq<Sent>, ghost chunks: seq<seq<byte>>)
    returns (now: seq<Sent>)
    requires n <= buf.Length && Carried(sent, chunks) && Separate(sent, buf) && seqno == Num(|sent|)
    ensures |now| == |sent| + 1 && (forall j :: 0 <= j < |sent| ==> now[j] == sent[j]) && fresh(now[|sent|].payload)
    ensures Carried(now, chunks + [buf[..n]]) && Separate(now, buf)
  {
    hide Num;
    var payload := CopyOut(buf, n);
    now := sent + [Sent(seqno, payload)];
  }

  lemma StepCalls(calls: seq<ReadResult>, t: nat)
    requires t < |calls|
    ensures Payloads(calls[..0]) == [] && Bytestream(calls[..0]) == [] && Num(0) == 0
    ensures var d := calls[t].data;
      Payloads(calls[..t + 1]) == (if d == [] then Payloads(calls[..t]) else Payloads(calls[..t]) + [d])
    ensures |Bytestream(calls[..t + 1])| == |Bytestream(calls[..t])| + |calls[t].data|
    ensures forall c: u64 :: Add64(c, 0) == c
  {
    assert calls[..t + 1][..t] == calls[..t];
    assert Payloads(calls[..t]) + [] == Payloads(calls[..t]);
  }

  // However the calls split them, the payloads are the bytes of the source, and
  // none is empty or too long.
  lemma {:induction false} PayloadsExact(calls: seq<ReadResult>)
    requires forall t :: 0 <= t < |calls| ==> |calls[t].data| <= CHUNK_SIZE
    ensures Flat(Payloads(calls)) == Bytestream(calls)
    ensures forall j :: 0 <= j < |Payloads(calls)| ==> 1 <= |Payloads(calls)[j]| <= 65536
    decreases |calls|
  {
    if calls != [] {
      var init, d := calls[..|calls| - 1], calls[|calls| - 1].data;
      PayloadsExact(init);
      if d == [] {
        assert Payloads(calls) == Payloads(init) && Bytestream(calls) == Bytestream(init);
      } else {
        FlatAppend(Payloads(init), d);
      }
    }
  }

  // ---------- one stream ----------

  // The first n bytes, or all if there are fewer; None for all.
  function Upto(b: seq<byte>, n: Option<nat>): seq<byte> {
    if n.None? || n.value >= |b| then b else b[..n.value]
  }

  // A writer goroutine, with the chunks it takes: it stops at the first error.
  method WriteChunks(w: ByteWriter, cs: seq<Chunk>) returns (ok: bool)
    modifies w
    ensures ok == old(w.Takes(|Frames(cs)|))
    ensures ok ==> w.sent == old(w.sent) + Frames(cs)
    ensures ok ==> w.room == if old(w.room).None? then None else Some(old(w.room).value - |Frames(cs)|)
    ensures !ok ==> w.room == Some(0) && w.sent == old(w.sent) + Frames(cs)[..old(w.room).value]
  {
    hide Frame;
    ghost var sent0, room0 := w.sent, w.room;
    for j := 0 to |cs|
      invariant w.sent == sent0 + Frames(cs[..j])
      invariant w.room == if room0.None? then None else Some(room0.value - |Frames(cs[..j])|)
      invariant room0.Some? ==> |Frames(cs[..j])| <= room0.value
    {
      FramesNext(cs, j);
      ok := WriteChunk(w, cs[j].seqno, cs[j].payload);
      if !ok {
        WroteUpto(cs, j, room0.value);
        return false;
      }
    }
    assert cs[..|cs|] == cs;
    return true;
  }

  // Everything that goes onto one stream: its chunks, then the end marker, whose
  // errors are ignored. Onto a stream that dies after any number of bytes goes
  // exactly that many bytes of the whole.
  method WriteStripe(w: ByteWriter, cs: seq<Chunk>, end: u32)
    modifies w
    ensures w.sent == old(w.sent) + Upto(StripeBytes(cs, end), old(w.room))
  {
    hide Frame;
    ghost var m, r := Frame(Chunk(end, [])), w.room;
    var ok := WriteChunks(w, cs);
    var _ := WriteChunk(w, end, []);
    if !ok {
      assert m[..0] == [];
      assert (Frames(cs) + m)[..r.value] == Frames(cs)[..r.value];
    } else if r.Some? && r.value < |StripeBytes(cs, end)| {
      assert (Frames(cs) + m)[..r.value] == Frames(cs) + m[..r.value - |Frames(cs)|];
    }
  }

  lemma FramesNext(cs: seq<Chunk>, j: nat)
    requires j < |cs|
    ensures Frames(cs[..j + 1]) == Frames(cs[..j]) + Frame(cs[j])
  {
    assert cs[..j + 1] == cs[..j] + [cs[j]];
    FramesAppend(cs[..j], cs[j]);
  }

  // A write that fails within frame j leaves the first r bytes of the frames.
  lemma WroteUpto(cs: seq<Chunk>, j: nat, r: nat)
    requires j < |cs| && |Frames(cs[..j])| <= r < |Frames(cs[..j])| + |Frame(cs[j])|
    ensures r < |Frames(cs)|
    ensures Frames(cs[..j]) + Frame(cs[j])[..r - |Frames(cs[..j])|] == Frames(cs)[..r]
  {
    hide Frame;
    FramesSplit(cs, j);
    var a, f, b := Frames(cs[..j]), Frame(cs[j]), Frames(cs[j + 1..]);
    assert cs[j..][1..] == cs[j + 1..];
    assert Frames(cs) == a + (f + b);
  }

  lemma {:induction false} FramesSplit(cs: seq<Chunk>, j: nat)
    requires j <= |cs|
    ensures Frames(cs) == Frames(cs[..j]) + Frames(cs[j..])
    decreases j
  {
    if j > 0 {
      FramesSplit(cs[1..], j - 1);
      assert cs[..j][1..] == cs[1..][..j - 1] && cs[1..][j - 1..] == cs[j..];
    } else {
      assert cs[0..] == cs;
    }
  }

  // Writer and reader together: whenever the stream dies, the reader hands on
  // exactly the chunks that went out whole.
  lemma StripeSurvives(cs: seq<Chunk>, end: u32, room: Option<nat>)
    requires NonEmpty(cs)
    ensures var t := ParseStripe(Upto(StripeBytes(cs, end), room));
      if room.None? || room.value >= |StripeBytes(cs, end)| then t == Stripe(cs, Marker(end), [])
      else t == Stripe(cs[..WholeFrames(cs, room.value)], Failed, [])
  {
    if room.None? || room.value >= |StripeBytes(cs, end)| {
      StripeRoundTrip(cs, end, []);
      assert StripeBytes(cs, end) + [] == StripeBytes(cs, end);
    } else {
      StripeTruncated(cs, end, room.value);
    }
  }
}
