// The transition system and the loops of the code are the same thing seen from two
// sides: in any run the dispatcher, each reader and the reassembler do what the
// loop of each does on the calls it made, the bytes it got and the items it received.
module PipelineLoops {
  import opened Bytes
  import opened Codec
  import opened Reorder
  import opened Sender
  import opened Pipeline
  import opened PipelineFlow
  import opened PipelineInvariant
  import opened PipelineSafety

  // ---------- the reassembler ----------

  // What the reassembler receives in the first t steps.
  ghost function Received(ss: seq<State>, acts: seq<Action>, t: nat): seq<Item>
    requires t <= |acts| <= |ss|
  {
    if t == 0 then []
    else
      var before := Received(ss, acts, t - 1);
      if acts[t - 1].Recv? && ss[t - 1].fan != [] then before + [ss[t - 1].fan[0]] else before
  }

  predicate Over(s: State) {
    s.halted || s.rx.failed
  }

  lemma OtherKeepsRx(c: Config, s: State, a: Action)
    requires Enabled(c, s, a) && !a.Recv?
    ensures var s' := Apply(c, s, a); s'.rx == s.rx && s'.eofs == s.eofs && s'.halted == s.halted
  {
  }

  lemma ReceiveOne(c: Config, s: State, rest: seq<Item>)
    requires Enabled(c, s, Recv) && |s.lanes| == c.n
    ensures var s' := Apply(c, s, Recv);
      Consume([s.fan[0]] + rest, c.n, s.rx, s.eofs) == if Over(s') then s'.rx else Consume(rest, c.n, s'.rx, s'.eofs)
  {
    assert ([s.fan[0]] + rest)[1..] == rest;
  }

  // Whatever is still to come, the loop of readStripesToTCP stands where the
  // transition system does. Once it is over, nothing more is received.
  lemma {:induction false} ReceivesAsLoop(c: Config, ss: seq<State>, acts: seq<Action>, t: nat, rest: seq<Item>)
    requires IsRun(c, ss, acts) && t < |ss|
    ensures Consume(Received(ss, acts, t) + rest, c.n, Start(c.limit), 0)
      == if Over(ss[t]) then ss[t].rx else Consume(rest, c.n, ss[t].rx, ss[t].eofs)
    decreases t
  {
    hide Apply, Consume, Flow;
    if t == 0 {
      assert [] + rest == rest;
    } else {
      var s, a := ss[t - 1], acts[t - 1];
      assert Enabled(c, s, a);
      RunFlow(c, ss, acts, t - 1);
      Lanes(c, s);
      if a.Recv? {
        ReceivesAsLoop(c, ss, acts, t - 1, [s.fan[0]] + rest);
        assert Received(ss, acts, t) + rest == Received(ss, acts, t - 1) + ([s.fan[0]] + rest);
        ReceiveOne(c, s, rest);
      } else {
        ReceivesAsLoop(c, ss, acts, t - 1, rest);
        OtherKeepsRx(c, s, a);
      }
    }
  }

  // So what a run has written when it is over is what readStripesToTCP writes when
  // the same items come off its channel, in the same order.
  lemma ReassemblesAsLoop(c: Config, ss: seq<State>, acts: seq<Action>, t: nat, after: seq<Item>)
    requires IsRun(c, ss, acts) && t < |ss| && Over(ss[t])
    ensures Consume(Received(ss, acts, t) + after, c.n, Start(c.limit), 0) == ss[t].rx
  {
    ReceivesAsLoop(c, ss, acts, t, after);
  }

  lemma Lanes(c: Config, s: State)
    requires Flow(c, s)
    ensures |s.lanes| == c.n
  {
  }

  // ---------- the dispatcher ----------

  // The calls of src.Read made in the first t steps.
  ghost function Calls(c: Config, ss: seq<State>, acts: seq<Action>, t: nat): seq<ReadResult>
    requires t <= |acts| <= |ss|
  {
    if t == 0 then []
    else
      var before, s := Calls(c, ss, acts, t - 1), ss[t - 1];
      match acts[t - 1]
      case Read(n, last) =>
        if s.taken + n <= |c.src| then before + [ReadResult(c.src[s.taken..s.taken + n], last)] else before
      case ReadEof => before + [ReadResult([], true)]
      case _ => before
  }

  // The loop is over once a call has returned an error.
  predicate Done(ph: Phase) {
    !ph.Reading? && (ph.Offering? ==> ph.last)
  }

  ghost predicate CallsOk(calls: seq<ReadResult>, ph: Phase) {
    && (forall j :: 0 <= j < |calls| ==> |calls[j].data| <= CHUNK_SIZE)
    && (forall j :: 0 <= j < |calls| ==> calls[j].err == (Done(ph) && j == |calls| - 1))
    && (Done(ph) ==> calls != [])
  }

  lemma OneCall(calls: seq<ReadResult>, r: ReadResult)
    ensures Payloads(calls + [r]) == Payloads(calls) + (if r.data == [] then [] else [r.data])
    ensures Bytestream(calls + [r]) == Bytestream(calls) + r.data
  {
    assert (calls + [r])[..|calls|] == calls;
  }

  lemma OtherKeepsSource(c: Config, s: State, a: Action)
    requires Enabled(c, s, a) && !a.Read? && !a.ReadEof?
    ensures var s' := Apply(c, s, a); s'.chunks == s.chunks && s'.taken == s.taken && Done(s'.phase) == Done(s.phase)
  {
  }

  lemma SourceStep(c: Config, s: State, a: Action, calls: seq<ReadResult>, r: ReadResult)
    requires Enabled(c, s, a) && (a.Read? || a.ReadEof?)
    requires r == if a.Read? then ReadResult(c.src[s.taken..s.taken + a.n], a.last) else ReadResult([], true)
    requires CallsOk(calls, s.phase) && Payloads(calls) == s.chunks && Bytestream(calls) == c.src[..s.taken]
    ensures Apply(c, s, a).taken <= |c.src|
    ensures var s', calls' := Apply(c, s, a), calls + [r];
      CallsOk(calls', s'.phase) && Payloads(calls') == s'.chunks && Bytestream(calls') == c.src[..s'.taken]
  {
    hide Payloads, Bytestream;
    OneCall(calls, r);
    if a.Read? {
      assert c.src[..s.taken + a.n] == c.src[..s.taken] + c.src[s.taken..s.taken + a.n];
    } else {
      assert Payloads(calls) + [] == Payloads(calls) && c.src[..s.taken] + [] == c.src[..s.taken];
    }
  }

  lemma {:induction false} ReadsAsLoop(c: Config, ss: seq<State>, acts: seq<Action>, t: nat)
    requires IsRun(c, ss, acts) && t < |ss|
    ensures ss[t].taken <= |c.src|
    ensures var calls, s := Calls(c, ss, acts, t), ss[t];
      CallsOk(calls, s.phase) && Payloads(calls) == s.chunks && Bytestream(calls) == c.src[..s.taken]
    decreases t
  {
    hide Apply, Payloads, Bytestream, CallsOk;
    if t == 0 {
      NoCalls(c);
    } else {
      var s, a := ss[t - 1], acts[t - 1];
      ReadsAsLoop(c, ss, acts, t - 1);
      assert Enabled(c, s, a);
      if a.Read? || a.ReadEof? {
        SourceStep(c, s, a, Calls(c, ss, acts, t - 1),
                   if a.Read? then ReadResult(c.src[s.taken..s.taken + a.n], a.last) else ReadResult([], true));
      } else {
        OtherKeepsSource(c, s, a);
        SameCalls(Calls(c, ss, acts, t), s.phase, ss[t].phase);
      }
    }
  }

  lemma SameCalls(calls: seq<ReadResult>, ph: Phase, ph': Phase)
    requires CallsOk(calls, ph) && Done(ph) == Done(ph')
    ensures CallsOk(calls, ph')
  {
  }

  lemma NoCalls(c: Config)
    ensures CallsOk([], Init(c).phase) && Payloads([]) == [] && Bytestream([]) == c.src[..0]
  {
  }

  // The calls made are calls the loop of writeStripes makes, and when it is over
  // the chunks, the next sequence number and the counter are what that loop leaves.
  lemma DispatchesAsLoop(c: Config, ss: seq<State>, acts: seq<Action>, t: nat)
    requires IsRun(c, ss, acts) && t < |ss|
    ensures ss[t].taken <= |c.src|
    ensures var calls, s := Calls(c, ss, acts, t), ss[t];
      && Payloads(calls) == s.chunks && Bytestream(calls) == c.src[..s.taken]
      && (Done(s.phase) <==> EndsInError(calls))
      && (Done(s.phase) && !s.phase.Offering? ==>
            s.seqno == Num(|Payloads(calls)|) && s.sent == |Bytestream(calls)| % TWO64)
  {
    hide Payloads, Bytestream, LanesOk, FanOk, OwnerOk, ArrivedOk, EndsOk;
    ReadsAsLoop(c, ss, acts, t);
    RunFlow(c, ss, acts, t);
    var calls, s := Calls(c, ss, acts, t), ss[t];
    if calls != [] { assert calls[|calls| - 1].err == Done(s.phase); }
    assert s.chunks[..|s.chunks|] == s.chunks;
  }

  // ---------- a reader ----------

  ghost function Pulled(ss: seq<State>, acts: seq<Action>, t: nat, i: nat): seq<byte>
    requires t <= |acts| <= |ss|
  {
    if t == 0 then []
    else
      var before, s := Pulled(ss, acts, t - 1, i), ss[t - 1];
      if acts[t - 1] == On(i, Pull) && i < |s.lanes| && s.lanes[i].wire != [] then before + [s.lanes[i].wire[0]]
      else before
  }

  ghost function Pushed(ss: seq<State>, acts: seq<Action>, t: nat, i: nat): seq<Item>
    requires t <= |acts| <= |ss|
  {
    if t == 0 then []
    else
      var before, s := Pushed(ss, acts, t - 1, i), ss[t - 1];
      if acts[t - 1] == On(i, Push) && i < |s.lanes| && s.lanes[i].rd.Holding? then before + [s.lanes[i].rd.item]
      else before
  }

  function DataItems(i: nat, cs: seq<Chunk>): seq<Item> {
    seq(|cs|, j requires 0 <= j < |cs| => Data(i, cs[j].seqno, cs[j].payload))
  }

  // What a reader has pushed, and holds, of what it has pulled.
  ghost predicate ReaderOk(i: nat, rd: Reader, pulled: seq<byte>, pushed: seq<Item>) {
    match rd
    case Parsing(acc) => ParseChunk(acc).Short? && exists cs :: Whole(i, cs, pulled, acc, pushed)
    case Holding(x) =>
      if x.Eof? then pushed + [x] == Items(i, ParseStripe(pulled))
      else exists cs :: Whole(i, cs, pulled, [], pushed + [x])
    case Ended => pushed == Items(i, ParseStripe(pulled))
  }

  // The chunks cs make up all that was pulled but for acc, and were pushed.
  ghost predicate Whole(i: nat, cs: seq<Chunk>, pulled: seq<byte>, acc: seq<byte>, pushed: seq<Item>) {
    NonEmpty(cs) && pulled == Frames(cs) + acc && pushed == DataItems(i, cs)
  }

  // A chunk is complete with its last byte, never before and never with bytes over.
  lemma LastByte(acc: seq<byte>, b: byte)
    requires ParseChunk(acc).Short? && ParseChunk(acc + [b]).Got?
    ensures var g := ParseChunk(acc + [b]); g.rest == [] && Sized(g.c) && acc + [b] == Frame(g.c)
  {
    hide Frame;
    var s := acc + [b];
    ParseExact(s);
    assert |acc| >= 4 ==> s[..4] == acc[..4];
    assert Frame(ParseChunk(s).c) + [] == Frame(ParseChunk(s).c);
  }

  // A stripe that stops short of a whole chunk parses as the chunks before.
  lemma {:induction false} ShortTail(cs: seq<Chunk>, acc: seq<byte>)
    requires NonEmpty(cs) && ParseChunk(acc).Short?
    ensures ParseStripe(Frames(cs) + acc) == Stripe(cs, Failed, [])
    decreases |cs|
  {
    hide ParseChunk, Frame;
    if cs == [] {
      assert [] + acc == acc;
    } else {
      assert Frames(cs) + acc == Frame(cs[0]) + (Frames(cs[1..]) + acc);
      ParseFrame(cs[0], Frames(cs[1..]) + acc);
      ShortTail(cs[1..], acc);
      assert cs == [cs[0]] + cs[1..];
    }
  }

  lemma PullStep(i: nat, acc: seq<byte>, b: byte, pulled: seq<byte>, pushed: seq<Item>, l: Lane)
    requires ReaderOk(i, Parsing(acc), pulled, pushed)
    ensures ReaderOk(i, Parsed(l, i, acc + [b]).rd, pulled + [b], pushed)
  {
    hide ParseChunk, Frame, Frames, ParseStripe;
    var cs :| Whole(i, cs, pulled, acc, pushed);
    var more := acc + [b];
    assert pulled + [b] == Frames(cs) + more;
    if ParseChunk(more).Short? {
      assert Whole(i, cs, pulled + [b], more, pushed);
    } else {
      LastByte(acc, b);
      var g := ParseChunk(more).c;
      if g.payload == [] {
        StripeRoundTrip(cs, g.seqno, []);
        assert StripeBytes(cs, g.seqno) + [] == pulled + [b];
      } else {
        FramesAppend(cs, g);
        assert Whole(i, cs + [g], pulled + [b], [], pushed + [Data(i, g.seqno, g.payload)]);
      }
    }
  }

  lemma BreakStep(i: nat, acc: seq<byte>, pulled: seq<byte>, pushed: seq<Item>)
    requires ReaderOk(i, Parsing(acc), pulled, pushed)
    ensures ReaderOk(i, Holding(Eof(i, 0)), pulled, pushed)
  {
    hide ParseChunk, Frames, ParseStripe;
    var cs :| Whole(i, cs, pulled, acc, pushed);
    ShortTail(cs, acc);
  }

  lemma PushStep(i: nat, l: Lane, s: State, pulled: seq<byte>, pushed: seq<Item>)
    requires l.rd.Holding? && ReaderOk(i, l.rd, pulled, pushed)
    ensures ReaderOk(i, StepLane(s, i, l, Push).rd, pulled, pushed + [l.rd.item])
  {
    hide Frames, ParseStripe;
    if l.rd.item.Data? {
      var cs :| Whole(i, cs, pulled, [], pushed + [l.rd.item]);
      assert ParseChunk([]).Short?;
    }
  }

  lemma OtherKeepsReader(c: Config, s: State, a: Action, i: nat)
    requires Enabled(c, s, a) && i < |s.lanes|
    requires a != On(i, Pull) && a != On(i, Push) && a != On(i, Break)
    ensures |Apply(c, s, a).lanes| == |s.lanes| && Apply(c, s, a).lanes[i].rd == s.lanes[i].rd
  {
  }

  lemma {:induction false} ReaderSteps(c: Config, ss: seq<State>, acts: seq<Action>, t: nat, i: nat)
    requires IsRun(c, ss, acts) && t < |ss| && i < c.n
    ensures |ss[t].lanes| == c.n && ReaderOk(i, ss[t].lanes[i].rd, Pulled(ss, acts, t, i), Pushed(ss, acts, t, i))
    decreases t
  {
    hide ReaderOk, StepLane;
    if t == 0 {
      NothingPulled(i);
    } else {
      var s, a := ss[t - 1], acts[t - 1];
      ReaderSteps(c, ss, acts, t - 1, i);
      var l, pulled, pushed := s.lanes[i], Pulled(ss, acts, t - 1, i), Pushed(ss, acts, t - 1, i);
      assert Enabled(c, s, a) && ss[t] == Apply(c, s, a);
      if a == On(i, Pull) {
        PullStep(i, l.rd.acc, l.wire[0], pulled, pushed, l.(wire := l.wire[1..]));
        Pulls(s, i, l);
      } else if a == On(i, Push) {
        PushStep(i, l, s, pulled, pushed);
      } else if a == On(i, Break) {
        BreakStep(i, l.rd.acc, pulled, pushed);
        Breaks(s, i, l);
      } else {
        OtherKeepsReader(c, s, a, i);
      }
    }
  }

  lemma Pulls(s: State, i: nat, l: Lane)
    requires l.rd.Parsing? && l.wire != []
    ensures StepLane(s, i, l, Pull) == Parsed(l.(wire := l.wire[1..]), i, l.rd.acc + [l.wire[0]])
  {
  }

  lemma Breaks(s: State, i: nat, l: Lane)
    ensures StepLane(s, i, l, Break).rd == Holding(Eof(i, 0))
  {
  }

  lemma NothingPulled(i: nat)
    ensures ReaderOk(i, Parsing([]), [], [])
  {
    assert Whole(i, [], [], [], []);
  }

  // A reader that has returned has sent exactly what the loop of the code sends on
  // the bytes it was given.
  lemma ReaderAsLoop(c: Config, ss: seq<State>, acts: seq<Action>, t: nat, i: nat)
    requires IsRun(c, ss, acts) && t < |ss| && i < c.n && |ss[t].lanes| == c.n && ss[t].lanes[i].rd.Ended?
    ensures Pushed(ss, acts, t, i) == Items(i, ParseStripe(Pulled(ss, acts, t, i)))
  {
    ReaderSteps(c, ss, acts, t, i);
  }

  // ---------- between the readers and the reassembler ----------

  lemma HeldStripe(c: Config, s: State, i: nat)
    requires Flow(c, s) && i < |s.lanes| && s.lanes[i].rd.Holding?
    ensures s.lanes[i].rd.item.stripe == i
  {
    assert LaneOk(s.lanes[i], i, s.chunks, s.owner, s.seqno, Queued(s.fan, i));
  }

  lemma FanStep(c: Config, s: State, a: Action)
    requires Enabled(c, s, a)
    ensures var s' := Apply(c, s, a);
      if a.Recv? then s'.fan == s.fan[1..]
      else if a.On? && a.step.Push? then s'.fan == s.fan + [s.lanes[a.i].rd.item]
      else s'.fan == s.fan
  {
  }

  // The channel is first in, first out: what the reassembler has received of stripe i
  // and what of it is still in the channel is what reader i has sent.
  lemma {:induction false} FanInOrder(c: Config, ss: seq<State>, acts: seq<Action>, t: nat, i: nat)
    requires IsRun(c, ss, acts) && t < |ss| && i < c.n
    ensures Queued(Received(ss, acts, t), i) + Queued(ss[t].fan, i) == Pushed(ss, acts, t, i)
    decreases t
  {
    hide Flow, Apply, Queued;
    if t == 0 {
      assert Queued([], i) == [] by { NoneQueued(i); }
    } else {
      var s, a := ss[t - 1], acts[t - 1];
      FanInOrder(c, ss, acts, t - 1, i);
      assert Enabled(c, s, a);
      RunFlow(c, ss, acts, t - 1);
      FanStep(c, s, a);
      if a.Recv? {
        QueuedAppend(Received(ss, acts, t - 1), s.fan[0], i);
        QueuedFirst(s.fan, i);
      } else if a.On? && a.step.Push? {
        HeldStripe(c, s, a.i);
        QueuedAppend(s.fan, s.lanes[a.i].rd.item, i);
      }
    }
  }

  lemma NoneQueued(i: nat)
    ensures Queued([], i) == []
  {
  }

  lemma QueuedFirst(fan: seq<Item>, i: nat)
    requires fan != []
    ensures Queued(fan, i) == (if fan[0].stripe == i then [fan[0]] else []) + Queued(fan[1..], i)
  {
  }

  // When the last end of stream has been counted, the reassembler has received from
  // every stripe exactly what its reader sent, and that is what the reader's loop
  // sends on all the bytes it got: nothing is left behind, failures or not.
  lemma ReceivedAll(c: Config, ss: seq<State>, acts: seq<Action>, t: nat, i: nat)
    requires IsRun(c, ss, acts) && t < |ss| && i < c.n && ss[t].halted
    ensures Queued(Received(ss, acts, t), i) == Pushed(ss, acts, t, i) == Items(i, ParseStripe(Pulled(ss, acts, t, i)))
  {
    hide ParseStripe, Items;
    FanInOrder(c, ss, acts, t, i);
    EndCountLosesNothing(c, ss, acts, t);
    assert ss[t].lanes[i] in ss[t].lanes;
    ReaderAsLoop(c, ss, acts, t, i);
    NoneQueued(i);
  }
}
