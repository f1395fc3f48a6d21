// The invariant of the whole pipe, and that every step keeps it, whatever the
// schedule and whichever streams die.
module PipelineInvariant {
  import opened Bytes
  import opened Reorder
  import opened Pipeline
  import opened PipelineFlow
  import opened Sums

  // What has been read and numbered.
  ghost predicate SourceOk(c: Config, s: State) {
    && s.taken <= |c.src|
    && Flat(s.chunks) == c.src[..s.taken]
    && ChunksSized(s.chunks)
    && |s.owner| <= |s.chunks|
    && s.seqno == Num(|s.owner|)
    && s.sent == |Flat(s.chunks[..|s.owner|])| % TWO64
  }

  predicate MarkedIn(ph: Phase, i: nat) {
    ph.Finished? || (ph.Marking? && i <= ph.i)
  }

  // Where the dispatcher stands.
  ghost predicate PhaseOk(c: Config, s: State) {
    && (s.phase.Offering? ==> |s.chunks| == |s.owner| + 1 && s.chunks[|s.owner|] == s.phase.payload)
    && (s.phase.Offering? && s.phase.last ==> s.taken == |c.src|)
    && (!s.phase.Offering? ==> |s.chunks| == |s.owner|)
    && (!s.phase.Offering? && !s.phase.Reading? ==> s.taken == |c.src|)
    && (s.phase.Marking? ==> s.phase.i < |s.lanes|)
    && forall i :: 0 <= i < |s.lanes| ==> LanePhaseOk(s.phase, i, s.lanes[i])
  }

  predicate LanePhaseOk(ph: Phase, i: nat, l: Lane) {
    && l.marked == MarkedIn(ph, i)
    && (ph.Marking? || ph.Finished? ==> l.exited)
    && (l.exited && !(ph.Marking? && ph.i == i) ==> l.rest == [])
    && ((ph.Reading? || ph.Offering?) && l.alive ==> !l.exited)
  }

  // Each chunk was taken by exactly one writer.
  ghost predicate OwnerOk(s: State) {
    forall k :: 0 <= k < |s.owner| ==> s.owner[k] < |s.lanes| && k in s.lanes[s.owner[k]].picked
  }

  ghost predicate ArrivedOk(s: State) {
    && (forall i, j :: 0 <= i < |s.lanes| && 0 <= j < |s.lanes[i].picked| ==>
          (s.lanes[i].picked[j] in s.arrived <==> j < s.lanes[i].seen))
    && (forall k :: k in s.arrived ==> k < |s.owner|)
  }

  function SeenEnds(l: Lane): nat {
    if l.eofSeen then 1 else 0
  }

  function CountSeen(lanes: seq<Lane>): nat {
    Sum(SeenEnds, lanes)
  }

  ghost predicate EndsOk(s: State) {
    && s.eofs == CountSeen(s.lanes)
    && s.halted == (s.eofs == |s.lanes|)
  }

  ghost predicate LanesOk(s: State) {
    forall i :: 0 <= i < |s.lanes| ==> LaneOk(s.lanes[i], i, s.chunks, s.owner, s.seqno, Queued(s.fan, i))
  }

  ghost predicate FanOk(s: State) {
    && |s.fan| <= FAN_SLOTS * |s.lanes|
    && forall x :: x in s.fan ==> x.stripe < |s.lanes|
  }

  ghost predicate Flow(c: Config, s: State) {
    && ValidConfig(c)
    && |s.lanes| == c.n
    && SourceOk(c, s)
    && PhaseOk(c, s)
    && OwnerOk(s)
    && ArrivedOk(s)
    && EndsOk(s)
    && FanOk(s)
    && LanesOk(s)
  }

  lemma {:induction false} CountSeenBound(lanes: seq<Lane>)
    ensures CountSeen(lanes) <= |lanes|
    ensures CountSeen(lanes) == |lanes| ==> forall l :: l in lanes ==> l.eofSeen
    decreases |lanes|
  {
    if lanes != [] {
      CountSeenBound(lanes[..|lanes| - 1]);
      assert lanes == lanes[..|lanes| - 1] + [lanes[|lanes| - 1]];
    }
  }

  lemma CountSeenUpdate(lanes: seq<Lane>, i: nat, l: Lane)
    requires i < |lanes|
    ensures CountSeen(lanes[i := l])
         == CountSeen(lanes) - (if lanes[i].eofSeen then 1 else 0) + (if l.eofSeen then 1 else 0)
  {
    SumUpdate(SeenEnds, lanes, i, l);
  }

  lemma InitFlow(c: Config)
    requires ValidConfig(c)
    ensures Flow(c, Init(c))
  {
    hide LaneOk, SourceOk, PhaseOk;
    var s := Init(c);
    SumEqual(SeenEnds, s.lanes, 0);
    InitPhase(c);
    forall i | 0 <= i < |s.lanes|
      ensures LaneOk(s.lanes[i], i, s.chunks, s.owner, s.seqno, Queued(s.fan, i))
    {
      IdleLane(i);
    }
  }

  lemma InitPhase(c: Config)
    ensures SourceOk(c, Init(c)) && PhaseOk(c, Init(c))
  {
  }

  lemma IdleLane(i: nat)
    ensures LaneOk(Lane(false, [], [], true, Parsing([]), false, [], 0, 0, false), i, [], [], 0, Queued([], i))
  {
    assert Tagged([], []) == [];
  }

  // A step that leaves the history of every stripe as it is.
  ghost predicate SameHistory(s: State, s': State, i: nat) {
    && i < |s.lanes| == |s'.lanes|
    && s'.lanes == s.lanes[i := s'.lanes[i]]
    && s'.lanes[i].picked == s.lanes[i].picked
    && s'.lanes[i].seen == s.lanes[i].seen
    && s'.lanes[i].eofSeen == s.lanes[i].eofSeen
    && s'.owner == s.owner && s'.arrived == s.arrived && s'.eofs == s.eofs && s'.halted == s.halted
  }

  lemma HistoryKept(s: State, s': State, i: nat)
    requires OwnerOk(s) && ArrivedOk(s) && EndsOk(s) && SameHistory(s, s', i)
    ensures OwnerOk(s') && ArrivedOk(s') && EndsOk(s')
  {
    hide LaneOk;
    CountSeenUpdate(s.lanes, i, s'.lanes[i]);
    OwnerKept(s, s', i);
    forall i', j | 0 <= i' < |s'.lanes| && 0 <= j < |s'.lanes[i'].picked|
      ensures s'.lanes[i'].picked[j] in s'.arrived <==> j < s'.lanes[i'].seen
    {
      assert s'.lanes[i'].picked == s.lanes[i'].picked && s'.lanes[i'].seen == s.lanes[i'].seen;
    }
  }

  lemma OwnerKept(s: State, s': State, i: nat)
    requires OwnerOk(s) && i < |s.lanes| == |s'.lanes| && s'.owner == s.owner
    requires s'.lanes == s.lanes[i := s'.lanes[i]] && s'.lanes[i].picked == s.lanes[i].picked
    ensures OwnerOk(s')
  {
    forall k | 0 <= k < |s.owner|
      ensures s'.owner[k] < |s'.lanes| && k in s'.lanes[s'.owner[k]].picked
    {
      assert k in s.lanes[s.owner[k]].picked;
    }
  }

  // One stripe changes, the fan-in channel does not.
  lemma LanesKept(s: State, s': State, i: nat)
    requires LanesOk(s) && i < |s.lanes| == |s'.lanes| && s'.lanes == s.lanes[i := s'.lanes[i]]
    requires s'.chunks == s.chunks && s'.owner == s.owner && s'.seqno == s.seqno && s'.fan == s.fan
    requires LaneOk(s'.lanes[i], i, s.chunks, s.owner, s.seqno, Queued(s.fan, i))
    ensures LanesOk(s')
  {
  }

  predicate Local(step: LaneStep) {
    !step.Take? && !step.Push?
  }

  lemma LocalLane(c: Config, s: State, i: nat, step: LaneStep)
    requires ChunksSized(s.chunks) && LanesOk(s) && PhaseOk(c, s) && Enabled(c, s, On(i, step)) && Local(step)
    ensures LaneOk(StepLane(s, i, s.lanes[i], step), i, s.chunks, s.owner, s.seqno, Queued(s.fan, i))
  {
    var l, q := s.lanes[i], Queued(s.fan, i);
    assert LanePhaseOk(s.phase, i, l);
    if step.Put? {
      PutLane(l, i, s.chunks, s.owner, s.seqno, q);
    } else if step.Pull? {
      PullLane(l, i, s.chunks, s.owner, s.seqno, q);
    } else if step.Break? {
      BreakLane(l, i, s.chunks, s.owner, s.seqno, q);
    } else {
      SlackLane(l, StepLane(s, i, l, step), i, s.chunks, s.owner, s.seqno, q);
    }
  }

  lemma LocalPhase(c: Config, s: State, i: nat, step: LaneStep)
    requires PhaseOk(c, s) && Enabled(c, s, On(i, step)) && !step.Take?
    ensures PhaseOk(c, Apply(c, s, On(i, step)))
  {
    assert LanePhaseOk(s.phase, i, s.lanes[i]);
    assert LanePhaseOk(s.phase, i, StepLane(s, i, s.lanes[i], step));
  }

  lemma LocalFlow(c: Config, s: State, i: nat, step: LaneStep)
    requires Flow(c, s) && Enabled(c, s, On(i, step)) && Local(step)
    ensures Flow(c, Apply(c, s, On(i, step)))
  {
    hide LaneOk, LanePhaseOk, StepLane;
    LocalLane(c, s, i, step);
    LocalPhase(c, s, i, step);
    LocalSame(c, s, i, step);
    OneLaneFlow(c, s, Apply(c, s, On(i, step)), i);
  }

  lemma LocalSame(c: Config, s: State, i: nat, step: LaneStep)
    requires Enabled(c, s, On(i, step)) && Local(step)
    ensures var s' := Apply(c, s, On(i, step));
      s' == s.(lanes := s'.lanes) && SameHistory(s, s', i) && s'.lanes[i] == StepLane(s, i, s.lanes[i], step)
  {
  }

  lemma OneLaneFlow(c: Config, s: State, s': State, i: nat)
    requires Flow(c, s) && SameHistory(s, s', i) && s' == s.(lanes := s'.lanes) && PhaseOk(c, s')
    requires LaneOk(s'.lanes[i], i, s.chunks, s.owner, s.seqno, Queued(s.fan, i))
    ensures Flow(c, s')
  {
    hide LaneOk, LanePhaseOk;
    LanesKept(s, s', i);
    HistoryKept(s, s', i);
  }

  lemma ReadFlow(c: Config, s: State, a: Action)
    requires Flow(c, s) && Enabled(c, s, a) && (a.Read? || a.ReadEof?)
    ensures Flow(c, Apply(c, s, a))
  {
    hide LaneOk, LanePhaseOk;
    var s' := Apply(c, s, a);
    forall i | 0 <= i < |s'.lanes|
      ensures LaneOk(s'.lanes[i], i, s'.chunks, s'.owner, s'.seqno, Queued(s'.fan, i))
    {
      LaneGrows(s.lanes[i], i, s.chunks, s'.chunks, s.owner, s'.owner, s.seqno, s'.seqno, Queued(s.fan, i));
    }
    ReadPhase(c, s, a);
    ReadSource(c, s, a);
    hide SourceOk;
  }

  lemma ReadSource(c: Config, s: State, a: Action)
    requires SourceOk(c, s) && Enabled(c, s, a) && (a.Read? || a.ReadEof?)
    ensures SourceOk(c, Apply(c, s, a))
  {
    var s' := Apply(c, s, a);
    if a.Read? {
      var p := c.src[s.taken..s.taken + a.n];
      FlatAppend(s.chunks, p);
      assert c.src[..s'.taken] == c.src[..s.taken] + p;
      assert s'.chunks[..|s.owner|] == s.chunks[..|s.owner|];
    }
  }

  lemma ReadPhase(c: Config, s: State, a: Action)
    requires PhaseOk(c, s) && Enabled(c, s, a) && (a.Read? || a.ReadEof?)
    ensures PhaseOk(c, Apply(c, s, a))
  {
    var s' := Apply(c, s, a);
    forall j | 0 <= j < |s'.lanes|
      ensures LanePhaseOk(s'.phase, j, s'.lanes[j])
    {
      assert LanePhaseOk(s.phase, j, s.lanes[j]);
    }
  }

  lemma TakeFlow(c: Config, s: State, i: nat)
    requires Flow(c, s) && Enabled(c, s, On(i, Take))
    ensures Flow(c, Apply(c, s, On(i, Take)))
  {
    hide LaneOk, LanePhaseOk;
    TakeLanes(c, s, i);
    TakeSource(c, s, i);
    TakePhase(c, s, i);
    TakeHistory(c, s, i);
    CountSeenUpdate(s.lanes, i, Apply(c, s, On(i, Take)).lanes[i]);
  }

  lemma TakeSource(c: Config, s: State, i: nat)
    requires SourceOk(c, s) && PhaseOk(c, s) && Enabled(c, s, On(i, Take))
    ensures SourceOk(c, Apply(c, s, On(i, Take)))
  {
    var k := |s.owner|;
    NumNext(k);
    FlatNext(s.chunks, k);
    AddCounter(|Flat(s.chunks[..k])|, |s.phase.payload|);
  }

  lemma TakePhase(c: Config, s: State, i: nat)
    requires PhaseOk(c, s) && Enabled(c, s, On(i, Take))
    ensures PhaseOk(c, Apply(c, s, On(i, Take)))
  {
    var s' := Apply(c, s, On(i, Take));
    forall j | 0 <= j < |s'.lanes|
      ensures LanePhaseOk(s'.phase, j, s'.lanes[j])
    {
      assert LanePhaseOk(s.phase, j, s.lanes[j]);
    }
  }

  lemma TakeLanes(c: Config, s: State, i: nat)
    requires Flow(c, s) && Enabled(c, s, On(i, Take))
    ensures LanesOk(Apply(c, s, On(i, Take)))
  {
    var s' := Apply(c, s, On(i, Take));
    forall j | 0 <= j < |s'.lanes|
      ensures LaneOk(s'.lanes[j], j, s'.chunks, s'.owner, s'.seqno, Queued(s'.fan, j))
    {
      assert LanePhaseOk(s.phase, j, s.lanes[j]);
      if j == i {
        TakeLane(s.lanes[i], i, s.chunks, s.owner, s.seqno, s'.seqno, Queued(s.fan, i));
      } else {
        LaneGrows(s.lanes[j], j, s.chunks, s'.chunks, s.owner, s'.owner, s.seqno, s'.seqno, Queued(s.fan, j));
      }
    }
  }

  lemma TakeHistory(c: Config, s: State, i: nat)
    requires Flow(c, s) && Enabled(c, s, On(i, Take))
    ensures OwnerOk(Apply(c, s, On(i, Take))) && ArrivedOk(Apply(c, s, On(i, Take)))
  {
    hide WireOk, QueueOk;
    var s', l, k := Apply(c, s, On(i, Take)), s.lanes[i], |s.owner|;
    forall k' | 0 <= k' < |s'.owner|
      ensures s'.owner[k'] < |s'.lanes| && k' in s'.lanes[s'.owner[k']].picked
    {
      if k' == k {
        assert s'.lanes[i].picked[|l.picked|] == k;
      } else {
        assert k' in s.lanes[s.owner[k']].picked;
        assert s.lanes[s.owner[k']].picked <= s'.lanes[s'.owner[k']].picked;
      }
    }
    assert LaneOk(l, i, s.chunks, s.owner, s.seqno, Queued(s.fan, i));
    forall i', j | 0 <= i' < |s'.lanes| && 0 <= j < |s'.lanes[i'].picked|
      ensures s'.lanes[i'].picked[j] in s'.arrived <==> j < s'.lanes[i'].seen
    {
      if i' != i || j < |l.picked| {
        assert s'.lanes[i'].picked[j] == s.lanes[i'].picked[j];
      }
    }
  }

  lemma StartMarkFlow(c: Config, s: State, i: nat)
    requires Flow(c, s) && i < |s.lanes| && s.lanes[i].rest == []
    requires forall j :: 0 <= j < |s.lanes| ==> s.lanes[j].exited
    requires if s.phase.Closing? then i == 0
      else s.phase.Marking? && i == s.phase.i + 1 && s.lanes[s.phase.i].rest == []
    ensures Flow(c, StartMark(s, i))
  {
    hide WireOk, PickedOk, QueueOk, CutsOk;
    var s' := StartMark(s, i);
    assert LanePhaseOk(s.phase, i, s.lanes[i]);
    MarkLane(s.lanes[i], i, s.chunks, s.owner, s.seqno, Queued(s.fan, i));
    LanesKept(s, s', i);
    HistoryKept(s, s', i);
    StartMarkPhase(c, s, i);
  }

  lemma StartMarkPhase(c: Config, s: State, i: nat)
    requires PhaseOk(c, s) && i < |s.lanes| && s.lanes[i].rest == []
    requires forall j :: 0 <= j < |s.lanes| ==> s.lanes[j].exited
    requires if s.phase.Closing? then i == 0
      else s.phase.Marking? && i == s.phase.i + 1 && s.lanes[s.phase.i].rest == []
    ensures PhaseOk(c, StartMark(s, i))
  {
    var s' := StartMark(s, i);
    forall j | 0 <= j < |s'.lanes|
      ensures LanePhaseOk(s'.phase, j, s'.lanes[j])
    {
      assert LanePhaseOk(s.phase, j, s.lanes[j]);
    }
  }

  lemma MarkFlow(c: Config, s: State, a: Action)
    requires Flow(c, s) && Enabled(c, s, a) && (a.BeginMarks? || a.NextMark?)
    ensures Flow(c, Apply(c, s, a))
  {
    hide LaneOk;
    if a.BeginMarks? {
      StartMarkFlow(c, s, 0);
    } else if s.phase.i + 1 < |s.lanes| {
      StartMarkFlow(c, s, s.phase.i + 1);
    } else {
      assert LanesOk(s.(phase := Finished));
    }
  }

  lemma PushFlow(c: Config, s: State, i: nat)
    requires Flow(c, s) && Enabled(c, s, On(i, Push))
    ensures Flow(c, Apply(c, s, On(i, Push)))
  {
    hide LaneOk, LanePhaseOk;
    var s' := Apply(c, s, On(i, Push));
    PushLanes(c, s, i);
    PushFan(c, s, i);
    LocalPhase(c, s, i, Push);
    HistoryKept(s, s', i);
  }

  lemma PushFan(c: Config, s: State, i: nat)
    requires LanesOk(s) && FanOk(s) && Enabled(c, s, On(i, Push))
    ensures FanOk(Apply(c, s, On(i, Push)))
  {
    assert LaneOk(s.lanes[i], i, s.chunks, s.owner, s.seqno, Queued(s.fan, i));
  }

  lemma PushLanes(c: Config, s: State, i: nat)
    requires ChunksSized(s.chunks) && LanesOk(s) && Enabled(c, s, On(i, Push))
    ensures LanesOk(Apply(c, s, On(i, Push)))
  {
    var s', x := Apply(c, s, On(i, Push)), s.lanes[i].rd.item;
    forall j | 0 <= j < |s'.lanes|
      ensures LaneOk(s'.lanes[j], j, s'.chunks, s'.owner, s'.seqno, Queued(s'.fan, j))
    {
      assert LaneOk(s.lanes[i], i, s.chunks, s.owner, s.seqno, Queued(s.fan, i));
      QueuedAppend(s.fan, x, j);
      if j == i {
        PushLane(s.lanes[i], i, s.chunks, s.owner, s.seqno, Queued(s.fan, i));
      } else {
        assert Queued(s.fan, j) + [] == Queued(s.fan, j);
      }
    }
  }

  // What the reassembler receives: the next chunk of a stripe, none of whose
  // chunks it has skipped, or the end of one that has nothing left in the channel.
  lemma Head(c: Config, s: State)
    requires Flow(c, s) && s.fan != []
    ensures s.fan[0].stripe < |s.lanes|
    ensures var x, l := s.fan[0], s.lanes[s.fan[0].stripe];
      if x.Data? then
        l.seen < |l.picked| && l.picked[l.seen] < |s.chunks| && x == ItemOf(x.stripe, l.picked[l.seen], s.chunks)
        && l.picked[l.seen] !in s.arrived
      else
        l.rd.Ended? && !l.eofSeen && l.seen == l.got
    ensures var x, l := s.fan[0], s.lanes[s.fan[0].stripe];
      LaneOk(if x.Data? then l.(seen := l.seen + 1) else l.(eofSeen := true),
             x.stripe, s.chunks, s.owner, s.seqno, Queued(s.fan[1..], x.stripe))
  {
    hide WireOk, QueueOk, LanePhaseOk;
    var x, i := s.fan[0], s.fan[0].stripe;
    assert x in s.fan;
    var l := s.lanes[i];
    assert LaneOk(l, i, s.chunks, s.owner, s.seqno, Queued(s.fan, i));
    assert Queued(s.fan, i) == [x] + Queued(s.fan[1..], i);
    RecvLane(l, i, s.chunks, s.owner, s.seqno, Queued(s.fan, i));
    assert Queued(s.fan, i)[1..] == Queued(s.fan[1..], i);
  }

  lemma RecvFlow(c: Config, s: State)
    requires Flow(c, s) && Enabled(c, s, Recv)
    ensures Flow(c, Apply(c, s, Recv))
  {
    hide LaneOk, LanePhaseOk;
    var s', i := Apply(c, s, Recv), s.fan[0].stripe;
    RecvLanes(c, s);
    RecvEnds(c, s);
    RecvPhase(c, s);
    OwnerKept(s, s', i);
    RecvArrived(c, s);
  }

  lemma RecvEnds(c: Config, s: State)
    requires Flow(c, s) && Enabled(c, s, Recv)
    ensures EndsOk(Apply(c, s, Recv)) && FanOk(Apply(c, s, Recv))
  {
    hide LaneOk, LanePhaseOk;
    Head(c, s);
    var s', i := Apply(c, s, Recv), s.fan[0].stripe;
    CountSeenUpdate(s.lanes, i, s'.lanes[i]);
    CountSeenBound(s'.lanes);
  }

  lemma RecvPhase(c: Config, s: State)
    requires PhaseOk(c, s) && Enabled(c, s, Recv)
    ensures PhaseOk(c, Apply(c, s, Recv))
  {
    var s' := Apply(c, s, Recv);
    forall j | 0 <= j < |s'.lanes|
      ensures LanePhaseOk(s'.phase, j, s'.lanes[j])
    {
      assert LanePhaseOk(s.phase, j, s.lanes[j]);
    }
  }

  lemma RecvLanes(c: Config, s: State)
    requires Flow(c, s) && Enabled(c, s, Recv)
    ensures LanesOk(Apply(c, s, Recv))
  {
    hide LaneOk, LanePhaseOk;
    Head(c, s);
    var s', i := Apply(c, s, Recv), s.fan[0].stripe;
    forall j | 0 <= j < |s'.lanes|
      ensures LaneOk(s'.lanes[j], j, s'.chunks, s'.owner, s'.seqno, Queued(s'.fan, j))
    {
      if j != i {
        assert LaneOk(s.lanes[j], j, s.chunks, s.owner, s.seqno, Queued(s.fan, j));
        assert [] + Queued(s.fan[1..], j) == Queued(s.fan[1..], j);
      }
    }
  }

  lemma RecvArrived(c: Config, s: State)
    requires Flow(c, s) && Enabled(c, s, Recv)
    ensures ArrivedOk(Apply(c, s, Recv))
  {
    hide PickedOk, CutsOk, WireOk, QueueOk, PhaseOk, SourceOk, EndsOk, OwnerOk, ArrivedOk;
    Head(c, s);
    forall i | 0 <= i < |s.lanes|
      ensures PickedOk(s.lanes[i].picked, i, s.chunks, s.owner)
    {
      assert LaneOk(s.lanes[i], i, s.chunks, s.owner, s.seqno, Queued(s.fan, i));
    }
    hide LaneOk, LanesOk, FanOk;
    ArrivedMore(s, Apply(c, s, Recv), s.fan[0].stripe, s.fan[0].Data?);
  }

  // Stripe i's next chunk is received, or its end is.
  lemma ArrivedMore(s: State, s': State, i: nat, data: bool)
    requires ArrivedOk(s) && i < |s.lanes|
    requires forall j :: 0 <= j < |s.lanes| ==> PickedOk(s.lanes[j].picked, j, s.chunks, s.owner)
    requires s'.owner == s.owner && |s'.lanes| == |s.lanes|
    requires forall j :: 0 <= j < |s.lanes| ==> s'.lanes[j].picked == s.lanes[j].picked
    requires forall j :: 0 <= j < |s.lanes| ==>
      s'.lanes[j].seen == s.lanes[j].seen + if data && j == i then 1 else 0
    requires data ==> s.lanes[i].seen < |s.lanes[i].picked|
    requires s'.arrived == s.arrived + if data then {s.lanes[i].picked[s.lanes[i].seen]} else {}
    ensures ArrivedOk(s')
  {
    forall j, m | 0 <= j < |s.lanes| && 0 <= m < |s.lanes[j].picked|
      ensures s'.lanes[j].picked[m] in s'.arrived <==> m < s'.lanes[j].seen
    {
      assert s.lanes[j].picked[m] in s.arrived <==> m < s.lanes[j].seen;
      assert PickedOk(s.lanes[i].picked, i, s.chunks, s.owner);
    }
  }

  lemma StepFlow(c: Config, s: State, a: Action)
    requires Flow(c, s) && Enabled(c, s, a)
    ensures Flow(c, Apply(c, s, a))
  {
    hide Flow;
    match a
    case Read(_, _) => ReadFlow(c, s, a);
    case ReadEof => ReadFlow(c, s, a);
    case BeginMarks => MarkFlow(c, s, a);
    case NextMark => MarkFlow(c, s, a);
    case Recv => RecvFlow(c, s);
    case On(i, step) =>
      if step.Take? {
        TakeFlow(c, s, i);
      } else if step.Push? {
        PushFlow(c, s, i);
      } else {
        LocalFlow(c, s, i, step);
      }
  }

  lemma {:induction false} RunFlow(c: Config, ss: seq<State>, acts: seq<Action>, t: nat)
    requires IsRun(c, ss, acts) && t < |ss|
    ensures Flow(c, ss[t])
    decreases t
  {
    hide Flow, Apply;
    if t == 0 {
      InitFlow(c);
    } else {
      RunFlow(c, ss, acts, t - 1);
      assert Enabled(c, ss[t - 1], acts[t - 1]);
      StepFlow(c, ss[t - 1], acts[t - 1]);
    }
  }
}
