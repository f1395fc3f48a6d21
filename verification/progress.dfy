// A failure-free pipe never gets stuck, and every schedule of it ends with all
// bytes delivered.
module PipelineProgress {
  import opened Bytes
  import opened Codec
  import opened Reorder
  import opened Pipeline
  import opened PipelineFlow
  import opened PipelineInvariant
  import opened PipelineSafety
  import opened PipelineWriters
  import opened Sums

  predicate Final(s: State) {
    s.halted && s.phase.Finished?
  }

  predicate IsDie(a: Action) {
    a.On? && a.step.Die?
  }

  // Nothing has failed so far.
  ghost predicate Healthy(c: Config, s: State) {
    Flow(c, s) && AllAlive(s) && s.rx.limit.None? && !s.rx.failed
  }

  lemma StepHealthy(c: Config, s: State, a: Action)
    requires Healthy(c, s) && Enabled(c, s, a) && !IsDie(a)
    ensures Healthy(c, Apply(c, s, a))
  {
    hide Flow;
    StepFlow(c, s, a);
    StepAlive(c, s, a);
    if a.Recv? {
      DrainKeepsLimit(s.rx);
      if s.fan[0].Data? { DrainKeepsLimit(WriteOut(s.rx, s.fan[0].payload)); }
    }
  }

  lemma {:induction false} RunHealthy(c: Config, ss: seq<State>, acts: seq<Action>, t: nat)
    requires IsRun(c, ss, acts) && FailureFree(c, acts) && t < |ss|
    ensures Healthy(c, ss[t])
    decreases t
  {
    hide Flow, Apply;
    if t == 0 {
      InitFlow(c);
      RunAlive(c, ss, acts, 0);
    } else {
      RunHealthy(c, ss, acts, t - 1);
      assert Enabled(c, ss[t - 1], acts[t - 1]);
      StepHealthy(c, ss[t - 1], acts[t - 1]);
    }
  }

  // ---------- no deadlock ----------

  // A live lane through which nothing moves holds no byte.
  lemma StillLane(c: Config, s: State, i: nat)
    requires Healthy(c, s) && i < |s.lanes|
    requires forall a :: Enabled(c, s, a) ==> IsDie(a)
    requires s.fan == []
    ensures var l := s.lanes[i]; !l.rd.Holding? && l.wire == [] && l.rest == []
  {
    hide PickedOk, QueueOk, Fits, LanePhaseOk, SourceOk, OwnerOk, ArrivedOk, EndsOk;
    var l := s.lanes[i];
    assert LaneOk(l, i, s.chunks, s.owner, s.seqno, Queued(s.fan, i));
    assert !Enabled(c, s, On(i, Push));
    assert !Enabled(c, s, On(i, Pull));
    assert !Enabled(c, s, On(i, Put));
  }

  lemma MarkedParses(cs: seq<Chunk>, m: Chunk)
    requires Sized(m) && forall j :: 0 <= j < |cs| ==> Sized(cs[j])
    ensures ParseChunk(Frames(cs) + Frame(m)).Got?
  {
    hide ParseChunk, Frame;
    if cs == [] {
      ParseFrame(m, []);
      assert [] + Frame(m) == Frame(m) + [];
    } else {
      var f, g, h := Frame(cs[0]), Frames(cs[1..]), Frame(m);
      ParseFrame(cs[0], g + h);
      assert f + g + h == f + (g + h);
    }
  }

  // At the end of the dispatcher, a still lane has been read to its marker.
  lemma StillEnded(c: Config, s: State, i: nat)
    requires Healthy(c, s) && s.phase.Finished? && i < |s.lanes| && s.fan == []
    requires var l := s.lanes[i]; !l.rd.Holding? && l.wire == [] && l.rest == []
    ensures s.lanes[i].eofSeen
  {
    hide ParseChunk, Frame, Num, PickedOk, SourceOk, OwnerOk, ArrivedOk, EndsOk;
    var l := s.lanes[i];
    assert LaneOk(l, i, s.chunks, s.owner, s.seqno, Queued(s.fan, i));
    assert LanePhaseOk(s.phase, i, l);
    assert ChunksSized(s.chunks) by { SourceSized(c, s); }
    MarkedParses(Tagged(l.picked[l.got..], s.chunks), Chunk(s.seqno, []));
    assert Acc(l) + l.wire + l.rest == Acc(l);
  }

  lemma SourceSized(c: Config, s: State)
    requires SourceOk(c, s)
    ensures ChunksSized(s.chunks)
  {
  }

  // In every reachable state of a failure-free pipe that is not the end, some
  // goroutine can move: the reorder map never refuses a chunk, so the bounded
  // fan-in always drains, so the bounded streams do, so the writers do, so the
  // unbuffered dispatch does.
  lemma NoDeadlock(c: Config, ss: seq<State>, acts: seq<Action>, t: nat)
    requires IsRun(c, ss, acts) && FailureFree(c, acts) && t < |ss| && !Final(ss[t])
    ensures exists a :: Enabled(c, ss[t], a) && !IsDie(a)
  {
    RunHealthy(c, ss, acts, t);
    if forall a :: Enabled(c, ss[t], a) ==> IsDie(a) {
      Stuck(c, ss[t]);
      assert false;
    }
  }

  lemma Stuck(c: Config, s: State)
    requires Healthy(c, s)
    requires forall a :: Enabled(c, s, a) ==> IsDie(a)
    ensures Final(s)
  {
    hide LaneOk;
    assert !Enabled(c, s, Recv);
    if s.fan != [] { assert s.fan[0] in s.fan; }
    if s.halted { EndCounted(c, s); }
    assert s.fan == [];
    forall i | 0 <= i < |s.lanes|
      ensures var l := s.lanes[i]; !l.rd.Holding? && l.wire == [] && l.rest == []
    {
      StillLane(c, s, i);
    }
    if !s.phase.Finished? {
      var a := PhaseMoves(c, s);
      assert false;
    }
    forall l | l in s.lanes
      ensures l.eofSeen
    {
      var i :| 0 <= i < |s.lanes| && s.lanes[i] == l;
      StillEnded(c, s, i);
    }
    SumEqual(SeenEnds, s.lanes, 1);
  }

  // Until it returns, the dispatcher moves once nothing is left to write.
  lemma PhaseMoves(c: Config, s: State) returns (a: Action)
    requires PhaseOk(c, s) && AllAlive(s) && |s.lanes| > 0 && s.taken <= |c.src| && !s.phase.Finished?
    requires forall i :: 0 <= i < |s.lanes| ==> s.lanes[i].rest == []
    ensures Enabled(c, s, a) && !IsDie(a)
  {
    assert LanePhaseOk(s.phase, 0, s.lanes[0]);
    match s.phase
    case Reading =>
      a := if s.taken == |c.src| then ReadEof else Read(1, false);
    case Offering(_, _) =>
      a := On(0, Take);
    case Closing =>
      if i :| 0 <= i < |s.lanes| && !s.lanes[i].exited {
        a := On(i, Exit);
      } else {
        a := BeginMarks;
      }
    case Marking(i) =>
      a := NextMark;
  }

  // ---------- termination ----------

  // Each byte still to be written is moved twice, each item handled twice.
  function LaneWeight(l: Lane): nat {
    4 * |l.rest| + 3 * |l.wire| + (if l.rd.Holding? then 2 else 0) + (if l.exited then 0 else 1)
  }

  function LanesWeight(lanes: seq<Lane>): nat {
    Sum(LaneWeight, lanes)
  }

  // What the dispatcher has yet to set in motion, end markers included.
  function PhaseWeight(ph: Phase, n: nat): int {
    match ph
    case Reading => 33 * n + 2
    case Offering(p, _) => 33 * n + 3 + 4 * (CHUNK_HDR_SIZE + |p|)
    case Closing => 33 * n + 1
    case Marking(i) => 33 * (n - 1 - i) + 1
    case Finished => 0
  }

  function Measure(c: Config, s: State): int {
    38 * (|c.src| - s.taken) + PhaseWeight(s.phase, |s.lanes|) + LanesWeight(s.lanes) + |s.fan|
  }

  lemma LanesWeightUpdate(lanes: seq<Lane>, i: nat, l: Lane)
    requires i < |lanes|
    ensures LanesWeight(lanes[i := l]) == LanesWeight(lanes) - LaneWeight(lanes[i]) + LaneWeight(l)
  {
    SumUpdate(LaneWeight, lanes, i, l);
  }

  lemma MeasureNatural(c: Config, s: State)
    requires SourceOk(c, s) && PhaseOk(c, s)
    ensures Measure(c, s) >= 0
  {
  }

  lemma LaneDescends(c: Config, s: State, i: nat, step: LaneStep)
    requires Enabled(c, s, On(i, step)) && s.lanes[i].alive && !step.Die?
    ensures var l' := StepLane(s, i, s.lanes[i], step);
      LaneWeight(l') + (if step.Push? then 1 else 0)
        < LaneWeight(s.lanes[i]) + (if step.Take? then 1 + 4 * (CHUNK_HDR_SIZE + |s.phase.payload|) else 0)
  {
  }

  // Every step makes the rest of the run shorter.
  lemma Descends(c: Config, s: State, a: Action)
    requires PhaseOk(c, s) && AllAlive(s) && Enabled(c, s, a) && !IsDie(a)
    ensures Measure(c, Apply(c, s, a)) < Measure(c, s)
  {
    hide LaneWeight;
    var s' := Apply(c, s, a);
    match a
    case Read(_, _) =>
    case ReadEof =>
    case BeginMarks => MarkDescends(c, s, 0);
    case NextMark => if s.phase.i + 1 < |s.lanes| { MarkDescends(c, s, s.phase.i + 1); }
    case Recv => RecvDescends(c, s);
    case On(i, step) =>
      LaneDescends(c, s, i, step);
      LanesWeightUpdate(s.lanes, i, s'.lanes[i]);
  }

  lemma RecvDescends(c: Config, s: State)
    requires Enabled(c, s, Recv)
    ensures Measure(c, Apply(c, s, Recv)) < Measure(c, s)
  {
    LanesWeightUpdate(s.lanes, s.fan[0].stripe, Apply(c, s, Recv).lanes[s.fan[0].stripe]);
  }

  lemma MarkDescends(c: Config, s: State, i: nat)
    requires PhaseOk(c, s) && i < |s.lanes| && s.lanes[i].exited
    requires if s.phase.Closing? then i == 0 else s.phase.Marking? && i == s.phase.i + 1
    ensures Measure(c, StartMark(s, i)) < Measure(c, s)
  {
    assert LanePhaseOk(s.phase, i, s.lanes[i]);
    LanesWeightUpdate(s.lanes, i, StartMark(s, i).lanes[i]);
  }

  lemma {:induction false} Descended(c: Config, ss: seq<State>, acts: seq<Action>, t: nat)
    requires IsRun(c, ss, acts) && FailureFree(c, acts) && t < |ss|
    ensures t + Measure(c, ss[t]) <= Measure(c, Init(c))
    decreases t
  {
    hide Apply, Measure, Healthy;
    if t > 0 {
      Descended(c, ss, acts, t - 1);
      RunHealthy(c, ss, acts, t - 1);
      assert Enabled(c, ss[t - 1], acts[t - 1]);
      HealthyDescends(c, ss[t - 1], acts[t - 1]);
    }
  }

  lemma HealthyDescends(c: Config, s: State, a: Action)
    requires Healthy(c, s) && Enabled(c, s, a) && !IsDie(a)
    ensures Measure(c, Apply(c, s, a)) < Measure(c, s)
  {
    hide LanesOk, Measure;
    Descends(c, s, a);
  }

  // No failure-free run is longer than this, however it is scheduled.
  lemma RunsEnd(c: Config, ss: seq<State>, acts: seq<Action>)
    requires IsRun(c, ss, acts) && FailureFree(c, acts)
    ensures |acts| <= 38 * |c.src| + 34 * c.n + 2
  {
    var last := ss[|acts|];
    Descended(c, ss, acts, |acts|);
    RunHealthy(c, ss, acts, |acts|);
    MeasureNatural(c, last);
    SumEqual(LaneWeight, Init(c).lanes, 1);
  }

  // Every failure-free run that can go no further has delivered everything: all
  // goroutines are done, the output is the source, the counters are its length.
  lemma EveryScheduleDelivers(c: Config, ss: seq<State>, acts: seq<Action>)
    requires IsRun(c, ss, acts) && FailureFree(c, acts) && Numbered(c, ss)
    requires forall a :: Enabled(c, ss[|acts|], a) ==> IsDie(a)
    ensures var s := ss[|acts|];
      && Final(s)
      && s.rx.out == c.src
      && s.rx.counter == |c.src| % TWO64 && s.sent == |c.src| % TWO64
      && s.rx.pending == map[] && s.fan == []
      && forall i :: 0 <= i < |s.lanes| ==> s.lanes[i].rd.Ended? && s.lanes[i].exited
  {
    var s := ss[|acts|];
    RunHealthy(c, ss, acts, |acts|);
    Stuck(c, s);
    Exactness(c, ss, acts);
    EndCounted(c, s);
    forall i | 0 <= i < |s.lanes|
      ensures s.lanes[i].exited
    {
      assert LanePhaseOk(s.phase, i, s.lanes[i]);
    }
  }

  // ---------- nothing is ruled out ----------

  // Every number of stripes from 1 to 255, every capacity, source and limit.
  lemma EveryPipeStarts(n: nat, cap: nat, src: seq<byte>, limit: Option<nat>)
    requires 1 <= n <= 255 && cap >= 1
    ensures IsRun(Config(n, cap, src, limit), [Init(Config(n, cap, src, limit))], [])
  {
  }

  // m bytes more, with the error that ends the loop only if they are the last.
  predicate Yields(c: Config, s: State, m: nat, last: bool) {
    1 <= m <= 65536 && s.taken + m <= |c.src| && (last ==> s.taken + m == |c.src|)
  }

  predicate Idle(l: Lane) {
    !l.exited && l.rest == []
  }

  // In every reachable state the source may yield any number of bytes up to 65536 or
  // end once it has yielded all, any idle writer may be the one to take the chunk on
  // offer, and the reassembler may go on with whatever is first in the channel.
  lemma AnySplitAnyWriter(c: Config, ss: seq<State>, acts: seq<Action>, t: nat)
    requires IsRun(c, ss, acts) && t < |ss|
    ensures |ss[t].lanes| == c.n
    ensures ss[t].phase.Reading? ==> forall m, last | Yields(c, ss[t], m, last) :: Enabled(c, ss[t], Read(m, last))
    ensures ss[t].phase.Reading? && ss[t].taken == |c.src| ==> Enabled(c, ss[t], ReadEof)
    ensures ss[t].phase.Offering? ==> forall i | 0 <= i < c.n && Idle(ss[t].lanes[i]) :: Enabled(c, ss[t], On(i, Take))
    ensures ss[t].fan != [] && !ss[t].halted && !ss[t].rx.failed ==> Enabled(c, ss[t], Recv)
  {
    hide SourceOk, PhaseOk, OwnerOk, ArrivedOk, EndsOk, LanesOk;
    RunFlow(c, ss, acts, t);
    if ss[t].fan != [] { assert ss[t].fan[0] in ss[t].fan; }
  }

  // In every reachable state any live stream may die. A live one takes a byte while it
  // has room and a dead one fails the writer; a reader gets what is there to get, may
  // give up once its stream is dead, and sends while fewer than 8n items are queued.
  lemma AnyStreamAnyTime(c: Config, ss: seq<State>, acts: seq<Action>, t: nat, i: nat)
    requires IsRun(c, ss, acts) && t < |ss| && i < c.n
    ensures |ss[t].lanes| == c.n && |ss[t].fan| <= 8 * c.n
    ensures var s, l := ss[t], ss[t].lanes[i];
      && (l.alive ==> Enabled(c, s, On(i, Die)))
      && (l.alive && l.rest != [] && |l.wire| < c.cap ==> Enabled(c, s, On(i, Put)))
      && (!l.alive && l.rest != [] ==> Enabled(c, s, On(i, Fail)) && Enabled(c, s, On(i, Lose)))
      && (l.rd.Parsing? && l.wire != [] ==> Enabled(c, s, On(i, Pull)))
      && (l.rd.Parsing? && !l.alive ==> Enabled(c, s, On(i, Break)))
      && (l.rd.Holding? && |s.fan| < 8 * c.n ==> Enabled(c, s, On(i, Push)))
  {
    hide SourceOk, PhaseOk, OwnerOk, ArrivedOk, EndsOk, LanesOk;
    RunFlow(c, ss, acts, t);
  }

  // No more is in flight than the stream holds.
  lemma {:induction false} WireBounded(c: Config, ss: seq<State>, acts: seq<Action>, t: nat, i: nat)
    requires IsRun(c, ss, acts) && t < |ss| && i < c.n
    ensures |ss[t].lanes| == c.n && |ss[t].lanes[i].wire| <= c.cap
    decreases t
  {
    hide Apply;
    if t > 0 {
      WireBounded(c, ss, acts, t - 1, i);
      assert Enabled(c, ss[t - 1], acts[t - 1]);
      WireStep(c, ss[t - 1], acts[t - 1], i);
    }
  }

  // A death takes nothing that is in flight: the reader may still get all of it.
  lemma DeathKeepsWire(c: Config, s: State, i: nat)
    requires Enabled(c, s, On(i, Die))
    ensures var s' := Apply(c, s, On(i, Die)); s' == s.(lanes := s.lanes[i := s.lanes[i].(alive := false)])
  {
  }

  // Until the error is seen, a dead stream swallows what is written to it.
  lemma DeadSwallows(c: Config, s: State, i: nat)
    requires Enabled(c, s, On(i, Lose))
    ensures var s', l := Apply(c, s, On(i, Lose)), s.lanes[i];
      !l.alive && l.rest != [] && s' == s.(lanes := s.lanes[i := l.(rest := l.rest[1..])])
  {
  }

  lemma Extended(c: Config, ss: seq<State>, acts: seq<Action>, a: Action)
    requires IsRun(c, ss, acts) && FailureFree(c, acts) && Enabled(c, ss[|acts|], a) && !IsDie(a)
    ensures IsRun(c, ss + [Apply(c, ss[|acts|], a)], acts + [a]) && FailureFree(c, acts + [a])
  {
    hide Apply, Enabled;
    var ss', acts' := ss + [Apply(c, ss[|acts|], a)], acts + [a];
    forall t | 0 <= t < |acts'|
      ensures Enabled(c, ss'[t], acts'[t]) && ss'[t + 1] == Apply(c, ss'[t], acts'[t])
    {
      if t < |acts| { assert acts'[t] == acts[t]; }
    }
  }

  // Every failure-free run can be continued to the end of the pipe.
  lemma {:induction false} CanFinish(c: Config, ss: seq<State>, acts: seq<Action>)
    returns (ss': seq<State>, acts': seq<Action>)
    requires IsRun(c, ss, acts) && FailureFree(c, acts)
    ensures IsRun(c, ss', acts') && FailureFree(c, acts') && acts <= acts' && ss <= ss' && Final(ss'[|acts'|])
    decreases 38 * |c.src| + 34 * c.n + 2 - |acts|
  {
    hide Apply, Enabled, Final;
    if Final(ss[|acts|]) {
      return ss, acts;
    }
    NoDeadlock(c, ss, acts, |acts|);
    var a :| Enabled(c, ss[|acts|], a) && !IsDie(a);
    Extended(c, ss, acts, a);
    RunsEnd(c, ss + [Apply(c, ss[|acts|], a)], acts + [a]);
    ss', acts' := CanFinish(c, ss + [Apply(c, ss[|acts|], a)], acts + [a]);
  }
}
