// What a whole run of the pipe guarantees: exact delivery when nothing fails, a
// prefix of the source when something does.
module PipelineSafety {
  import opened Bytes
  import opened Reorder
  import opened Pipeline
  import opened PipelineFlow
  import opened PipelineInvariant

  ghost predicate RxOk(c: Config, s: State) {
    && Good(s.rx, s.chunks, s.arrived)
    && s.rx.limit == c.limit
    && (c.limit.None? ==> !s.rx.failed)
  }

  lemma GoodGrows(r: Rx, chunks: seq<seq<byte>>, p: seq<byte>, arrived: set<nat>)
    requires Good(r, chunks, arrived)
    ensures Good(r, chunks + [p], arrived)
  {
    assert r.written <= |chunks| ==> (chunks + [p])[..r.written] == chunks[..r.written];
  }

  lemma RecvData(c: Config, s: State, k: nat)
    requires RxOk(c, s) && !s.rx.failed && ChunksSized(s.chunks)
    requires k < |s.chunks| && k !in s.arrived && k < s.rx.written + TWO32
    ensures var r := Arrive(s.rx, Num(k), s.chunks[k]);
      Good(r, s.chunks, s.arrived + {k}) && r.limit == c.limit && (c.limit.None? ==> !r.failed)
  {
    hide Good, Drain;
    ArriveKeeps(s.rx, s.chunks, s.arrived, k);
    DrainKeepsLimit(WriteOut(s.rx, s.chunks[k]));
  }

  lemma RecvRx(c: Config, s: State)
    requires Flow(c, s) && RxOk(c, s) && Enabled(c, s, Recv) && HeadInWindow(s)
    ensures RxOk(c, Apply(c, s, Recv))
  {
    Head(c, s);
    var x, l := s.fan[0], s.lanes[s.fan[0].stripe];
    assert ChunksSized(s.chunks);
    hide Flow, LanesOk, LaneOk, SourceOk, ArrivedOk, Drain, Arrive, ChunksSized;
    if x.Data? {
      hide Good;
      RecvData(c, s, l.picked[l.seen]);
    } else {
      NothingLeft(s.rx, s.chunks, s.arrived);
    }
  }

  lemma StepRx(c: Config, s: State, a: Action)
    requires Flow(c, s) && RxOk(c, s) && Enabled(c, s, a)
    requires a.Recv? ==> HeadInWindow(s)
    ensures RxOk(c, Apply(c, s, a))
  {
    hide LaneOk, LanePhaseOk, LanesOk, HeadInWindow, Flow, Good;
    match a
    case Recv => RecvRx(c, s);
    case Read(n, _) => GoodGrows(s.rx, s.chunks, c.src[s.taken..s.taken + n], s.arrived);
    case ReadEof =>
    case BeginMarks =>
    case NextMark =>
    case On(_, _) =>
  }

  // With one stripe the chunks arrive in order.
  lemma {:induction false} SinglePicked(c: Config, s: State, j: nat)
    requires Flow(c, s) && c.n == 1 && j < |s.lanes[0].picked|
    ensures s.lanes[0].picked[j] == j
    decreases j
  {
    var l := s.lanes[0];
    assert LaneOk(l, 0, s.chunks, s.owner, s.seqno, Queued(s.fan, 0));
    if j > 0 { SinglePicked(c, s, j - 1); }
    assert l.picked[j] >= j;
    assert s.owner[j] == 0;
    var p :| 0 <= p < |l.picked| && l.picked[p] == j;
    if p < j { SinglePicked(c, s, p); }
  }

  // So with one stripe nothing is ever pending and every chunk that arrives is
  // the one waited for, however many there are.
  lemma SingleStripe(c: Config, s: State)
    requires Flow(c, s) && RxOk(c, s) && c.n == 1 && !s.rx.failed
    ensures s.rx.pending == map[] && s.rx.written == s.lanes[0].seen && HeadInWindow(s)
  {
    var l := s.lanes[0];
    assert LaneOk(l, 0, s.chunks, s.owner, s.seqno, Queued(s.fan, 0));
    forall j | 0 <= j < |l.picked|
      ensures l.picked[j] == j
    {
      SinglePicked(c, s, j);
    }
    forall k | k in s.arrived
      ensures k < l.seen
    {
      assert s.owner[k] == 0 && k in l.picked;
    }
    assert forall k :: 0 <= k < l.seen ==> l.picked[k] in s.arrived;
    forall k | 0 <= k < l.seen
      ensures k in s.arrived
    {
      assert l.picked[k] in s.arrived;
    }
    assert l.seen !in s.arrived;
    assert s.rx.pending.Keys == {};
  }

  // The hypothesis on which delivery rests: one stripe, or no chunk received
  // 2^32 or more ahead of the one waited for.
  ghost predicate Numbered(c: Config, ss: seq<State>) {
    c.n == 1 || Windowed(ss)
  }

  lemma InitRx(c: Config)
    ensures RxOk(c, Init(c))
  {
    StartRepresents(c.limit, []);
  }

  lemma {:induction false} RunRx(c: Config, ss: seq<State>, acts: seq<Action>, t: nat)
    requires IsRun(c, ss, acts) && Numbered(c, ss) && t < |ss|
    ensures Flow(c, ss[t]) && RxOk(c, ss[t])
    decreases t
  {
    hide Flow, Apply, RxOk, HeadInWindow;
    RunFlow(c, ss, acts, t);
    if t == 0 {
      InitRx(c);
    } else {
      RunRx(c, ss, acts, t - 1);
      var s := ss[t - 1];
      assert Enabled(c, s, acts[t - 1]);
      if c.n == 1 && !s.rx.failed { SingleStripe(c, s); }
      StepRx(c, s, acts[t - 1]);
    }
  }

  // A run that reads no more than 2^32 chunks never leaves the window.
  lemma FewChunks(c: Config, ss: seq<State>, acts: seq<Action>)
    requires IsRun(c, ss, acts)
    requires forall t :: 0 <= t < |ss| ==> |ss[t].chunks| <= 0x1_0000_0000
    ensures Windowed(ss) && Numbered(c, ss)
  {
    forall t | 0 <= t < |ss|
      ensures HeadInWindow(ss[t])
    {
      RunFlow(c, ss, acts, t);
      if ss[t].fan != [] { Head(c, ss[t]); }
    }
  }

  lemma FlatAtLeast(chunks: seq<seq<byte>>)
    requires ChunksSized(chunks)
    ensures |chunks| <= |Flat(chunks)|
  {
    if chunks != [] { FlatAtLeast(chunks[..|chunks| - 1]); }
  }

  // In particular one that is fed no more than 2^32 bytes.
  lemma FewBytes(c: Config, ss: seq<State>, acts: seq<Action>)
    requires IsRun(c, ss, acts) && |c.src| <= 0x1_0000_0000
    ensures Windowed(ss) && Numbered(c, ss)
  {
    forall t | 0 <= t < |ss|
      ensures |ss[t].chunks| <= 0x1_0000_0000
    {
      RunFlow(c, ss, acts, t);
      FlatAtLeast(ss[t].chunks);
    }
    FewChunks(c, ss, acts);
  }

  // ---------- prefix safety ----------

  lemma PrefixOfSource(c: Config, s: State, m: nat)
    requires Flow(c, s) && m <= |s.chunks|
    ensures Flat(s.chunks[..m]) <= c.src
  {
    FlatPrefix(s.chunks, m);
  }

  // Whatever fails and whenever: what has been written is a prefix of the source.
  // While the destination takes everything it ends on a chunk boundary and the
  // counter is its length; if the destination failed, the counter still stands at
  // a chunk boundary. No chunk is written unless all before it arrived.
  lemma PrefixSafety(c: Config, ss: seq<State>, acts: seq<Action>, t: nat)
    requires IsRun(c, ss, acts) && Numbered(c, ss) && t < |ss|
    ensures var s, r := ss[t], ss[t].rx;
      && r.out <= c.src
      && r.written <= |s.chunks|
      && Flat(s.chunks[..r.written]) <= r.out
      && (!r.failed ==> r.out == Flat(s.chunks[..r.written]))
      && (r.failed ==> c.limit.Some? && |r.out| <= c.limit.value)
      && r.counter == |Flat(s.chunks[..r.written])| % TWO64
      && (forall k :: 0 <= k < r.written ==> k in s.arrived)
  {
    hide Flow;
    RunRx(c, ss, acts, t);
    var s, r := ss[t], ss[t].rx;
    PrefixOfSource(c, s, r.written);
    if r.failed {
      PrefixOfSource(c, s, r.written + 1);
      FlatNext(s.chunks, r.written);
      var j :| 0 <= j < |s.chunks[r.written]| && r.out == Flat(s.chunks[..r.written]) + s.chunks[r.written][..j];
      assert r.out <= Flat(s.chunks[..r.written + 1]);
    }
  }

  // ---------- the end count ----------

  lemma EndCounted(c: Config, s: State)
    requires Flow(c, s) && s.halted
    ensures s.fan == []
    ensures forall i :: 0 <= i < |s.lanes| ==>
      s.lanes[i].rd.Ended? && s.lanes[i].seen == s.lanes[i].got <= |s.lanes[i].picked|
      && forall j :: 0 <= j < s.lanes[i].got ==> s.lanes[i].picked[j] in s.arrived
  {
    assert s.fan != [] ==> s.fan[0] in s.fan && Queued(s.fan, s.fan[0].stripe) != [];
    CountSeenBound(s.lanes);
    forall i | 0 <= i < |s.lanes|
      ensures s.lanes[i].rd.Ended? && s.lanes[i].seen == s.lanes[i].got <= |s.lanes[i].picked| && Queued(s.fan, i) == []
    {
      assert s.lanes[i] in s.lanes;
      assert LaneOk(s.lanes[i], i, s.chunks, s.owner, s.seqno, Queued(s.fan, i));
    }
  }

  // When the reassembler counts the last end of stream, the fan-in channel is
  // empty, every reader has returned, and every chunk any of them parsed has been
  // received, failures or not.
  lemma EndCountLosesNothing(c: Config, ss: seq<State>, acts: seq<Action>, t: nat)
    requires IsRun(c, ss, acts) && t < |ss| && ss[t].halted
    ensures ss[t].fan == [] && |ss[t].lanes| == c.n
    ensures forall l :: l in ss[t].lanes ==> l.rd.Ended? && l.seen == l.got <= |l.picked|
    ensures forall l, j :: l in ss[t].lanes && 0 <= j < l.got ==> l.picked[j] in ss[t].arrived
  {
    RunFlow(c, ss, acts, t);
    EndCounted(c, ss[t]);
  }

  // ---------- exactness ----------

  predicate AllAlive(s: State) {
    forall i :: 0 <= i < |s.lanes| ==> s.lanes[i].alive
  }

  lemma StepAlive(c: Config, s: State, a: Action)
    requires AllAlive(s) && Enabled(c, s, a) && !(a.On? && a.step.Die?)
    ensures AllAlive(Apply(c, s, a))
  {
    if a.On? {
      assert StepLane(s, a.i, s.lanes[a.i], a.step).alive;
    }
  }

  lemma {:induction false} RunAlive(c: Config, ss: seq<State>, acts: seq<Action>, t: nat)
    requires IsRun(c, ss, acts) && FailureFree(c, acts) && t < |ss|
    ensures AllAlive(ss[t])
    decreases t
  {
    if t > 0 {
      RunAlive(c, ss, acts, t - 1);
      assert Enabled(c, ss[t - 1], acts[t - 1]);
      StepAlive(c, ss[t - 1], acts[t - 1]);
    }
  }

  // A live pipe whose reassembler has counted its ends has received every chunk.
  lemma HaltedComplete(c: Config, s: State)
    requires Flow(c, s) && AllAlive(s) && s.halted
    ensures s.taken == |c.src| && |s.chunks| == |s.owner|
    ensures forall k :: 0 <= k < |s.chunks| ==> k in s.arrived
  {
    EndCounted(c, s);
    forall i | 0 <= i < |s.lanes|
      ensures s.lanes[i].got == |s.lanes[i].picked| && s.lanes[i].marked
    {
      assert LaneOk(s.lanes[i], i, s.chunks, s.owner, s.seqno, Queued(s.fan, i));
    }
    assert LanePhaseOk(s.phase, 0, s.lanes[0]);
    forall k | 0 <= k < |s.chunks|
      ensures k in s.arrived
    {
      var i := s.owner[k];
      var j :| 0 <= j < |s.lanes[i].picked| && s.lanes[i].picked[j] == k;
    }
  }

  // End-to-end exactness: whatever the bytes, however the source splits them,
  // however many stripes, whichever writer takes which chunk and however the
  // readers interleave, a failure-free run that counts all its end markers has
  // written exactly the source, and both counters say so.
  lemma Exactness(c: Config, ss: seq<State>, acts: seq<Action>)
    requires IsRun(c, ss, acts) && FailureFree(c, acts) && Numbered(c, ss)
    requires ss[|acts|].halted
    ensures var s := ss[|acts|];
      && s.rx.out == c.src
      && s.rx.pending == map[]
      && s.rx.counter == |c.src| % TWO64
      && s.sent == |c.src| % TWO64
  {
    var s := ss[|acts|];
    RunRx(c, ss, acts, |acts|);
    RunAlive(c, ss, acts, |acts|);
    HaltedComplete(c, s);
    AllArrived(s.rx, s.chunks, s.arrived);
    assert s.chunks[..|s.owner|] == s.chunks;
    assert c.src[..|c.src|] == c.src;
  }

  // With the one stripe that nl-punch ships with, no hypothesis on the numbers is left,
  // however long the stream.
  lemma ExactWithOneStripe(c: Config, ss: seq<State>, acts: seq<Action>)
    requires IsRun(c, ss, acts) && FailureFree(c, acts) && c.n == 1 && ss[|acts|].halted
    ensures ss[|acts|].rx.out == c.src && ss[|acts|].rx.counter == |c.src| % TWO64
  {
    Exactness(c, ss, acts);
  }
}
