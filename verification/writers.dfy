// What the writers put onto the streams in a run: the frames of the chunks they
// took, in order, and the end marker last.
module PipelineWriters {
  import opened Bytes
  import opened Codec
  import opened Reorder
  import opened Sender
  import opened Pipeline
  import opened PipelineFlow
  import opened PipelineInvariant
  import opened PipelineSafety
  import opened Sums
  import L = PipelineLoops

  // The bytes stripe i accepts in the first t steps.
  ghost function Wrote(ss: seq<State>, acts: seq<Action>, t: nat, i: nat): seq<byte>
    requires t <= |acts| <= |ss|
  {
    if t == 0 then []
    else
      var before, s := Wrote(ss, acts, t - 1, i), ss[t - 1];
      if acts[t - 1] == On(i, Put) && i < |s.lanes| && s.lanes[i].rest != [] then before + [s.lanes[i].rest[0]]
      else before
  }

  // What stripe i is to be sent, so far: its chunks, and the marker once started.
  function Due(l: Lane, chunks: seq<seq<byte>>, mark: u32): seq<byte> {
    Frames(Tagged(l.picked, chunks)) + (if l.marked then Frame(Chunk(mark, [])) else [])
  }

  predicate Out(wrote: seq<byte>, rest: seq<byte>, due: seq<byte>, alive: bool) {
    wrote <= due && (alive ==> wrote + rest == due)
  }

  // What has been parsed, and what the reader and the stream still hold, was written.
  predicate Fed(l: Lane, chunks: seq<seq<byte>>, wrote: seq<byte>)
    requires l.got <= |l.picked|
  {
    |Frames(Tagged(l.picked[..l.got], chunks))| + |Acc(l)| + |l.wire| <= |wrote|
  }

  predicate WroteOk(l: Lane, chunks: seq<seq<byte>>, mark: u32, wrote: seq<byte>) {
    && l.got <= |l.picked|
    && (forall j :: 0 <= j < |l.picked| ==> l.picked[j] < |chunks|)
    && Out(wrote, l.rest, Due(l, chunks, mark), l.alive)
    && Fed(l, chunks, wrote)
  }

  // ---------- the steps ----------

  // The step starts the end marker on stripe i.
  predicate StartsMark(s: State, a: Action, i: nat) {
    (a.BeginMarks? && i == 0) || (a.NextMark? && s.phase.Marking? && i == s.phase.i + 1)
  }

  // Nothing that matters for what is written changes.
  predicate SameOut(l: Lane, l': Lane) {
    && l'.picked == l.picked && l'.marked == l.marked && l'.got == l.got
    && (l'.alive ==> l.alive && l'.rest == l.rest)
    && |Acc(l')| + |l'.wire| <= |Acc(l)| + |l.wire|
  }

  lemma OtherStep(c: Config, s: State, a: Action, i: nat)
    requires Enabled(c, s, a) && i < |s.lanes| && !StartsMark(s, a, i)
    requires a != On(i, Take) && a != On(i, Put) && a != On(i, Pull)
    ensures |Apply(c, s, a).lanes| == |s.lanes| && SameOut(s.lanes[i], Apply(c, s, a).lanes[i])
  {
    if a.On? && a.i == i { OtherLaneStep(c, s, s.lanes[i], i, a.step); }
  }

  lemma OtherLaneStep(c: Config, s: State, l: Lane, i: nat, step: LaneStep)
    requires LaneEnabled(c, s, l, step) && !step.Take? && !step.Put? && !step.Pull?
    ensures SameOut(l, StepLane(s, i, l, step))
  {
  }

  // Chunks and owners only grow, and the number of the marker is settled once one
  // is started.
  lemma SourceGrows(c: Config, s: State, a: Action, i: nat)
    requires Enabled(c, s, a) && PhaseOk(c, s) && i < |s.lanes|
    ensures var s' := Apply(c, s, a);
      s.chunks <= s'.chunks && (s.lanes[i].marked ==> s'.seqno == s.seqno)
  {
    assert LanePhaseOk(s.phase, i, s.lanes[i]);
  }

  lemma SameTagged(ks: seq<nat>, chunks: seq<seq<byte>>, chunks': seq<seq<byte>>)
    requires chunks <= chunks' && forall j :: 0 <= j < |ks| ==> ks[j] < |chunks|
    ensures Tagged(ks, chunks') == Tagged(ks, chunks)
  {
  }

  lemma KeepsWrote(l: Lane, l': Lane, chunks: seq<seq<byte>>, chunks': seq<seq<byte>>, mark: u32, mark': u32,
                   wrote: seq<byte>)
    requires WroteOk(l, chunks, mark, wrote) && SameOut(l, l')
    requires chunks <= chunks' && (l.marked ==> mark' == mark)
    ensures WroteOk(l', chunks', mark', wrote)
  {
    hide Frames, Frame, Acc;
    SameTagged(l.picked, chunks, chunks');
    SameTagged(l.picked[..l.got], chunks, chunks');
  }

  lemma TakeWrote(l: Lane, k: nat, chunks: seq<seq<byte>>, mark: u32, mark': u32, wrote: seq<byte>)
    requires WroteOk(l, chunks, mark, wrote) && !l.marked && l.rest == [] && k < |chunks|
    ensures WroteOk(l.(rest := Frame(Chunk(Num(k), chunks[k])), picked := l.picked + [k]), chunks, mark', wrote)
  {
    hide Frame, Frames, Num;
    var f := Frame(Chunk(Num(k), chunks[k]));
    assert Tagged(l.picked + [k], chunks) == Tagged(l.picked, chunks) + [Chunk(Num(k), chunks[k])];
    FramesAppend(Tagged(l.picked, chunks), Chunk(Num(k), chunks[k]));
    assert (l.picked + [k])[..l.got] == l.picked[..l.got];
    Extends(wrote, Frames(Tagged(l.picked, chunks)), f, l.alive);
  }

  lemma Extends(wrote: seq<byte>, due: seq<byte>, f: seq<byte>, alive: bool)
    requires Out(wrote, [], due + [], alive)
    ensures Out(wrote, f, due + f + [], alive) && Out(wrote, f, due + f, alive)
  {
    assert wrote + [] == wrote && due + [] == due && due + f + [] == due + f;
  }

  lemma MarkWrote(l: Lane, chunks: seq<seq<byte>>, mark: u32, wrote: seq<byte>)
    requires WroteOk(l, chunks, mark, wrote) && !l.marked && l.rest == []
    ensures WroteOk(l.(rest := Frame(Chunk(mark, [])), marked := true), chunks, mark, wrote)
  {
    hide Frame, Frames;
    Extends(wrote, Frames(Tagged(l.picked, chunks)), Frame(Chunk(mark, [])), l.alive);
  }

  lemma PutWrote(l: Lane, chunks: seq<seq<byte>>, mark: u32, wrote: seq<byte>)
    requires WroteOk(l, chunks, mark, wrote) && l.alive && l.rest != []
    ensures WroteOk(l.(rest := l.rest[1..], wire := l.wire + [l.rest[0]]), chunks, mark, wrote + [l.rest[0]])
  {
    hide Frame, Frames;
    assert wrote + [l.rest[0]] + l.rest[1..] == wrote + l.rest;
  }

  // The reader gets a byte.
  lemma PullWrote(l: Lane, l': Lane, chunks: seq<seq<byte>>, mark: u32, wrote: seq<byte>)
    requires WroteOk(l, chunks, mark, wrote)
    requires l' == l.(wire := l'.wire, rd := l'.rd, got := l'.got) && l'.got <= |l'.picked| && Fed(l', chunks, wrote)
    ensures WroteOk(l', chunks, mark, wrote)
  {
    hide Frame, Frames, Fed;
    assert Due(l', chunks, mark) == Due(l, chunks, mark);
  }

  // If that completes a chunk, it is the next one taken.
  lemma PullFed(l: Lane, l': Lane, i: nat, chunks: seq<seq<byte>>, mark: u32, wrote: seq<byte>)
    requires l.got <= |l.picked| && Fed(l, chunks, wrote)
    requires l.rd.Parsing? && ParseChunk(l.rd.acc).Short? && l.wire != []
    requires l' == Parsed(l.(wire := l.wire[1..]), i, l.rd.acc + [l.wire[0]])
    requires CutsOk(l') && WireOk(l', i, chunks, mark)
    ensures Fed(l', chunks, wrote)
  {
    hide Frame, Frames, Fits, Ahead, Num, ParseChunk;
    if l'.rd.Holding? && l'.rd.item.Data? {
      L.LastByte(l.rd.acc, l.wire[0]);
      var k := l.picked[l.got];
      var f := Chunk(Num(k), if k < |chunks| then chunks[k] else []);
      assert ParseChunk(l.rd.acc + [l.wire[0]]).c == f;
      NextTagged(l.picked, l.got, chunks);
      hide Tagged;
    }
  }

  lemma NextTagged(picked: seq<nat>, m: nat, chunks: seq<seq<byte>>)
    requires m < |picked|
    ensures var f := Chunk(Num(picked[m]), if picked[m] < |chunks| then chunks[picked[m]] else []);
      Frames(Tagged(picked[..m + 1], chunks)) == Frames(Tagged(picked[..m], chunks)) + Frame(f)
  {
    hide Frame, Frames, Num;
    var f := Chunk(Num(picked[m]), if picked[m] < |chunks| then chunks[picked[m]] else []);
    assert Tagged(picked[..m + 1], chunks) == Tagged(picked[..m], chunks) + [f];
    FramesAppend(Tagged(picked[..m], chunks), f);
  }

  lemma ParsedKeeps(l: Lane, i: nat, acc: seq<byte>)
    ensures var l' := Parsed(l, i, acc); l' == l.(rd := l'.rd, got := l'.got)
  {
  }

  lemma OkFed(l: Lane, chunks: seq<seq<byte>>, mark: u32, wrote: seq<byte>)
    requires WroteOk(l, chunks, mark, wrote)
    ensures l.got <= |l.picked| && Fed(l, chunks, wrote)
  {
  }

  lemma TakeStep(c: Config, s: State, i: nat, wrote: seq<byte>)
    requires Flow(c, s) && Enabled(c, s, On(i, Take)) && WroteOk(s.lanes[i], s.chunks, s.seqno, wrote)
    ensures var s' := Apply(c, s, On(i, Take)); |s'.lanes| == c.n && WroteOk(s'.lanes[i], s'.chunks, s'.seqno, wrote)
  {
    hide LanesOk, OwnerOk, ArrivedOk, EndsOk, FanOk, WroteOk, Num;
    var s' := Apply(c, s, On(i, Take));
    assert LanePhaseOk(s.phase, i, s.lanes[i]);
    TakeWrote(s.lanes[i], |s.owner|, s.chunks, s.seqno, s'.seqno, wrote);
  }

  lemma MarkStep(c: Config, s: State, a: Action, i: nat, wrote: seq<byte>)
    requires Flow(c, s) && Enabled(c, s, a) && StartsMark(s, a, i) && i < c.n
    requires WroteOk(s.lanes[i], s.chunks, s.seqno, wrote)
    ensures var s' := Apply(c, s, a); |s'.lanes| == c.n && WroteOk(s'.lanes[i], s'.chunks, s'.seqno, wrote)
  {
    hide LanesOk, OwnerOk, ArrivedOk, EndsOk, FanOk, SourceOk, WroteOk;
    assert LanePhaseOk(s.phase, i, s.lanes[i]);
    MarkWrote(s.lanes[i], s.chunks, s.seqno, wrote);
  }

  lemma PullStep(c: Config, s: State, i: nat, wrote: seq<byte>)
    requires Flow(c, s) && Enabled(c, s, On(i, Pull)) && WroteOk(s.lanes[i], s.chunks, s.seqno, wrote)
    ensures var s' := Apply(c, s, On(i, Pull)); |s'.lanes| == c.n && WroteOk(s'.lanes[i], s'.chunks, s'.seqno, wrote)
  {
    hide OwnerOk, ArrivedOk, EndsOk, FanOk, SourceOk, PhaseOk, WroteOk, PickedOk, QueueOk, Fits, Parsed;
    var s', l := Apply(c, s, On(i, Pull)), s.lanes[i];
    assert LaneOk(l, i, s.chunks, s.owner, s.seqno, Queued(s.fan, i));
    StepFlow(c, s, On(i, Pull));
    assert LaneOk(s'.lanes[i], i, s'.chunks, s'.owner, s'.seqno, Queued(s'.fan, i));
    OkFed(l, s.chunks, s.seqno, wrote);
    PullFed(l, s'.lanes[i], i, s.chunks, s.seqno, wrote);
    ParsedKeeps(l.(wire := l.wire[1..]), i, l.rd.acc + [l.wire[0]]);
    PullWrote(l, s'.lanes[i], s.chunks, s.seqno, wrote);
  }

  lemma {:induction false} RunWrote(c: Config, ss: seq<State>, acts: seq<Action>, t: nat, i: nat)
    requires IsRun(c, ss, acts) && t < |ss| && i < c.n
    ensures |ss[t].lanes| == c.n && WroteOk(ss[t].lanes[i], ss[t].chunks, ss[t].seqno, Wrote(ss, acts, t, i))
    decreases t
  {
    hide WroteOk, Flow, Apply, StartsMark;
    if t == 0 {
      NothingWrote(c, i);
    } else {
      var s, a, wrote := ss[t - 1], acts[t - 1], Wrote(ss, acts, t - 1, i);
      RunWrote(c, ss, acts, t - 1, i);
      RunFlow(c, ss, acts, t - 1);
      assert Enabled(c, s, a);
      if a == On(i, Take) {
        TakeStep(c, s, i, wrote);
      } else if a == On(i, Put) {
        PutStep(c, s, i, wrote);
      } else if a == On(i, Pull) {
        PullStep(c, s, i, wrote);
      } else if StartsMark(s, a, i) {
        MarkStep(c, s, a, i, wrote);
      } else {
        OtherStep(c, s, a, i);
        FlowPhase(c, s);
        SourceGrows(c, s, a, i);
        KeepsWrote(s.lanes[i], ss[t].lanes[i], s.chunks, ss[t].chunks, s.seqno, ss[t].seqno, wrote);
      }
    }
  }

  lemma PutStep(c: Config, s: State, i: nat, wrote: seq<byte>)
    requires Enabled(c, s, On(i, Put)) && WroteOk(s.lanes[i], s.chunks, s.seqno, wrote)
    ensures var s' := Apply(c, s, On(i, Put));
      |s'.lanes| == |s.lanes| && WroteOk(s'.lanes[i], s'.chunks, s'.seqno, wrote + [s.lanes[i].rest[0]])
  {
    hide WroteOk;
    PutWrote(s.lanes[i], s.chunks, s.seqno, wrote);
  }

  lemma FlowPhase(c: Config, s: State)
    requires Flow(c, s)
    ensures PhaseOk(c, s)
  {
  }

  lemma NothingWrote(c: Config, i: nat)
    requires i < c.n
    ensures WroteOk(Init(c).lanes[i], [], 0, [])
  {
  }

  // ---------- a whole stripe ----------

  // When writeStripes returns, a stream has been sent the frames of the chunks its
  // writer took and then, last, the marker numbered with the count of all chunks:
  // all of it on a live stream, a beginning of it on a dead one.
  lemma StripeWritten(c: Config, ss: seq<State>, acts: seq<Action>, t: nat, i: nat)
    requires IsRun(c, ss, acts) && t < |ss| && i < c.n == |ss[t].lanes| && ss[t].phase.Finished?
    ensures var l, chunks, wrote := ss[t].lanes[i], ss[t].chunks, Wrote(ss, acts, t, i);
      var whole := StripeBytes(Tagged(l.picked, chunks), Num(|chunks|));
      wrote <= whole && (l.alive ==> wrote == whole)
  {
    hide LanesOk, OwnerOk, ArrivedOk, EndsOk, FanOk, Frames, Frame, Num, Fed;
    RunWrote(c, ss, acts, t, i);
    RunFlow(c, ss, acts, t);
    var l, wrote := ss[t].lanes[i], Wrote(ss, acts, t, i);
    assert LanePhaseOk(ss[t].phase, i, l);
    assert wrote + [] == wrote;
  }

  // That is what the loop of a writer and the marker after it put onto a stream that
  // takes as many bytes.
  lemma WriterAsLoop(c: Config, ss: seq<State>, acts: seq<Action>, t: nat, i: nat)
    requires IsRun(c, ss, acts) && t < |ss| && i < c.n == |ss[t].lanes| && ss[t].phase.Finished?
    ensures var l, chunks, wrote := ss[t].lanes[i], ss[t].chunks, Wrote(ss, acts, t, i);
      wrote == Upto(StripeBytes(Tagged(l.picked, chunks), Num(|chunks|)), if l.alive then None else Some(|wrote|))
  {
    hide StripeBytes, Tagged;
    StripeWritten(c, ss, acts, t, i);
  }

  lemma WireStep(c: Config, s: State, a: Action, i: nat)
    requires Enabled(c, s, a) && i < |s.lanes|
    ensures var s', l := Apply(c, s, a), s.lanes[i];
      && |s'.lanes| == |s.lanes|
      && s'.lanes[i].wire ==
           if a == On(i, Put) then l.wire + [l.rest[0]] else if a == On(i, Pull) then l.wire[1..] else l.wire
  {
    if a.On? && a.i == i { WireLaneStep(c, s, s.lanes[i], i, a.step); }
  }

  lemma WireLaneStep(c: Config, s: State, l: Lane, i: nat, step: LaneStep)
    requires LaneEnabled(c, s, l, step)
    ensures StepLane(s, i, l, step).wire ==
      if step.Put? then l.wire + [l.rest[0]] else if step.Pull? then l.wire[1..] else l.wire
  {
  }

  // What the reader of a stripe has got and what is in flight is what its stream
  // accepted, so the loops of writer and reader meet in the middle.
  lemma {:induction false} StreamInOrder(c: Config, ss: seq<State>, acts: seq<Action>, t: nat, i: nat)
    requires IsRun(c, ss, acts) && t < |ss| && i < c.n
    ensures |ss[t].lanes| == c.n && L.Pulled(ss, acts, t, i) + ss[t].lanes[i].wire == Wrote(ss, acts, t, i)
    decreases t
  {
    hide Apply;
    if t > 0 {
      StreamInOrder(c, ss, acts, t - 1, i);
      assert Enabled(c, ss[t - 1], acts[t - 1]);
      WireStep(c, ss[t - 1], acts[t - 1], i);
    }
  }

  // ---------- the stripes together ----------

  // What a reader of everything stripe i has been sent finds.
  ghost function OnWire(ss: seq<State>, acts: seq<Action>, t: nat, i: nat): Stripe
    requires t <= |acts| <= |ss|
  {
    ParseStripe(Wrote(ss, acts, t, i))
  }

  lemma TaggedNonEmpty(ks: seq<nat>, chunks: seq<seq<byte>>)
    requires ChunksSized(chunks) && forall j :: 0 <= j < |ks| ==> ks[j] < |chunks|
    ensures NonEmpty(Tagged(ks, chunks))
  {
  }

  // Every frame lies within all of them.
  lemma AllWhole(cs: seq<Chunk>, cut: nat)
    requires |Frames(cs)| <= cut
    ensures WholeFrames(cs, cut) == |cs|
  {
    hide Frame;
    var j := WholeFrames(cs, cut);
    if j < |cs| {
      FramesSplit(cs, j + 1);
    }
  }

  lemma ParseWrote(l: Lane, chunks: seq<seq<byte>>, mark: u32, wrote: seq<byte>)
    requires WroteOk(l, chunks, mark, wrote) && ChunksSized(chunks)
    ensures var cs, p := Tagged(l.picked, chunks), ParseStripe(wrote);
      && p.chunks <= cs
      && (l.alive && l.rest == [] ==> p.chunks == cs)
      && (l.alive && l.rest == [] && l.marked ==> p == Stripe(cs, Marker(mark), []))
  {
    hide Frame, Frames, ParseStripe, Fed, ChunksSized;
    TaggedNonEmpty(l.picked, chunks);
    var cs := Tagged(l.picked, chunks);
    var whole, room := StripeBytes(cs, mark), Some(|wrote|);
    StripeSurvives(cs, mark, room);
    assert wrote + [] == wrote;
    assert wrote <= whole by { assert Due(l, chunks, mark) <= whole; }
    assert Upto(whole, room) == wrote;
    if l.alive && l.rest == [] {
      AllWhole(cs, |wrote|);
    }
  }

  // In every reachable state, failures or not. The chunks found on a stripe are the
  // first ones its writer took, each unaltered under its number; on a live stripe with
  // nothing left to write they are all it took. Each chunk dispatched was taken by
  // exactly one writer, once, in increasing order. None is empty or over 65536 bytes.
  lemma SenderPartition(c: Config, ss: seq<State>, acts: seq<Action>, t: nat)
    requires IsRun(c, ss, acts) && t < |ss|
    ensures |ss[t].lanes| == c.n
    ensures forall i | 0 <= i < c.n :: Sends(ss[t], i, OnWire(ss, acts, t, i))
    ensures forall k :: 0 <= k < |ss[t].owner| ==> ss[t].owner[k] < c.n && k in ss[t].lanes[ss[t].owner[k]].picked
    ensures forall i, j :: 0 <= i < c.n && 0 <= j < |ss[t].lanes[i].picked| ==>
      ss[t].lanes[i].picked[j] < |ss[t].owner| && ss[t].owner[ss[t].lanes[i].picked[j]] == i
    ensures forall i, j, j' :: 0 <= i < c.n && 0 <= j < j' < |ss[t].lanes[i].picked| ==>
      ss[t].lanes[i].picked[j] < ss[t].lanes[i].picked[j']
    ensures forall k :: 0 <= k < |ss[t].chunks| ==> 1 <= |ss[t].chunks[k]| <= 65536
  {
    hide ArrivedOk, EndsOk, FanOk, WireOk, QueueOk, CutsOk, WroteOk, Sends, ParseStripe;
    RunFlow(c, ss, acts, t);
    var s := ss[t];
    forall i | 0 <= i < c.n
      ensures Sends(s, i, OnWire(ss, acts, t, i)) && PickedOk(s.lanes[i].picked, i, s.chunks, s.owner)
    {
      assert LaneOk(s.lanes[i], i, s.chunks, s.owner, s.seqno, Queued(s.fan, i));
      RunWrote(c, ss, acts, t, i);
      assert LanePhaseOk(s.phase, i, s.lanes[i]);
      WroteSends(s, i, Wrote(ss, acts, t, i));
    }
  }

  // What is found on stripe i, chunk by chunk.
  ghost predicate Sends(s: State, i: nat, found: Stripe)
    requires i < |s.lanes|
  {
    var l := s.lanes[i];
    && |found.chunks| <= |l.picked|
    && (forall j :: 0 <= j < |found.chunks| ==>
          l.picked[j] < |s.chunks| && found.chunks[j] == Chunk(Num(l.picked[j]), s.chunks[l.picked[j]]))
    && (l.alive && l.rest == [] ==> |found.chunks| == |l.picked|)
    && (l.alive && s.phase.Finished? ==> found.end == Marker(s.seqno) && found.rest == [])
  }

  lemma WroteSends(s: State, i: nat, wrote: seq<byte>)
    requires i < |s.lanes| && WroteOk(s.lanes[i], s.chunks, s.seqno, wrote) && ChunksSized(s.chunks)
    requires LanePhaseOk(s.phase, i, s.lanes[i])
    ensures Sends(s, i, ParseStripe(wrote))
  {
    hide Due, Out, Fed, ParseStripe, Num;
    ParseWrote(s.lanes[i], s.chunks, s.seqno, wrote);
  }

  // ---------- every chunk once ----------

  function Picks(l: Lane): nat {
    |l.picked|
  }

  function SumPicked(lanes: seq<Lane>): nat {
    Sum(Picks, lanes)
  }

  lemma PickedUpdate(lanes: seq<Lane>, i: nat, l: Lane)
    requires i < |lanes|
    ensures SumPicked(lanes[i := l]) == SumPicked(lanes) - |lanes[i].picked| + |l.picked|
  {
    SumUpdate(Picks, lanes, i, l);
  }

  lemma SumLaneStep(c: Config, s: State, l: Lane, i: nat, step: LaneStep)
    requires LaneEnabled(c, s, l, step)
    ensures |StepLane(s, i, l, step).picked| == |l.picked| + if step.Take? then 1 else 0
  {
  }

  lemma SumStep(c: Config, s: State, a: Action)
    requires Enabled(c, s, a) && SumPicked(s.lanes) == |s.owner|
    ensures SumPicked(Apply(c, s, a).lanes) == |Apply(c, s, a).owner|
  {
    hide SumPicked;
    var s' := Apply(c, s, a);
    if a.On? {
      SumLaneStep(c, s, s.lanes[a.i], a.i, a.step);
      hide StepLane;
      PickedUpdate(s.lanes, a.i, s'.lanes[a.i]);
    } else if a.Recv? {
      PickedUpdate(s.lanes, s.fan[0].stripe, s'.lanes[s.fan[0].stripe]);
    } else if a.BeginMarks? {
      PickedUpdate(s.lanes, 0, s'.lanes[0]);
    } else if a.NextMark? && s.phase.i + 1 < |s.lanes| {
      PickedUpdate(s.lanes, s.phase.i + 1, s'.lanes[s.phase.i + 1]);
    }
  }

  lemma {:induction false} RunSum(c: Config, ss: seq<State>, acts: seq<Action>, t: nat)
    requires IsRun(c, ss, acts) && t < |ss|
    ensures SumPicked(ss[t].lanes) == |ss[t].owner|
    decreases t
  {
    hide Apply;
    if t == 0 {
      SumEqual(Picks, Init(c).lanes, 0);
    } else {
      RunSum(c, ss, acts, t - 1);
      assert Enabled(c, ss[t - 1], acts[t - 1]);
      SumStep(c, ss[t - 1], acts[t - 1]);
    }
  }

  // How many chunks are found on the first m stripes.
  ghost function TotalOnWire(ss: seq<State>, acts: seq<Action>, t: nat, m: nat): nat
    requires t <= |acts| <= |ss|
  {
    if m == 0 then 0 else TotalOnWire(ss, acts, t, m - 1) + |OnWire(ss, acts, t, m - 1).chunks|
  }

  lemma {:induction false} TotalIsSum(ss: seq<State>, acts: seq<Action>, t: nat, m: nat, lanes: seq<Lane>)
    requires t <= |acts| <= |ss| && m == |lanes|
    requires forall i :: 0 <= i < m ==> |OnWire(ss, acts, t, i).chunks| == |lanes[i].picked|
    ensures TotalOnWire(ss, acts, t, m) == SumPicked(lanes)
    decreases m
  {
    if m > 0 { TotalIsSum(ss, acts, t, m - 1, lanes[..m - 1]); }
  }

  // When the sender has returned and no stream has died, every chunk of the source is
  // on some stripe, under its number, and the stripes carry no more chunks than there
  // are: each is carried once.
  lemma EachChunkOnce(c: Config, ss: seq<State>, acts: seq<Action>, t: nat)
    requires IsRun(c, ss, acts) && t < |ss| && ss[t].phase.Finished? && AllAlive(ss[t])
    ensures Flat(ss[t].chunks) == c.src
    ensures forall k :: 0 <= k < |ss[t].chunks| ==> Found(c, ss, acts, t, k)
    ensures TotalOnWire(ss, acts, t, c.n) == |ss[t].chunks|
  {
    hide ParseStripe, LanesOk, ArrivedOk, EndsOk, FanOk, Num;
    var s := ss[t];
    RunFlow(c, ss, acts, t);
    SenderPartition(c, ss, acts, t);
    RunSum(c, ss, acts, t);
    assert c.src[..|c.src|] == c.src;
    forall i | 0 <= i < c.n
      ensures |OnWire(ss, acts, t, i).chunks| == |s.lanes[i].picked|
    {
      assert LanePhaseOk(s.phase, i, s.lanes[i]);
      assert Sends(s, i, OnWire(ss, acts, t, i));
    }
    TotalIsSum(ss, acts, t, c.n, s.lanes);
    forall k | 0 <= k < |s.chunks|
      ensures Found(c, ss, acts, t, k)
    {
      var i := s.owner[k];
      var j :| 0 <= j < |s.lanes[i].picked| && s.lanes[i].picked[j] == k;
      assert Sends(s, i, OnWire(ss, acts, t, i));
      assert OnWire(ss, acts, t, i).chunks[j] == Chunk(Num(k), s.chunks[k]);
    }
  }

  ghost predicate Found(c: Config, ss: seq<State>, acts: seq<Action>, t: nat, k: nat)
    requires t <= |acts| < |ss| && k < |ss[t].chunks|
  {
    exists i :: 0 <= i < c.n && Chunk(Num(k), ss[t].chunks[k]) in OnWire(ss, acts, t, i).chunks
  }
}
