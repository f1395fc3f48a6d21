// What a dead stripe or a reader that gave up costs: a lost chunk and all after it.
module PipelineLosses {
  import opened Bytes
  import opened Codec
  import opened Reorder
  import opened Sender
  import opened Pipeline
  import opened PipelineFlow
  import opened PipelineInvariant
  import opened PipelineSafety
  import opened PipelineWriters

  // A stripe has lost chunk k of those its writer took: the stream died before the
  // whole frame was written, or the reader ended before parsing it.
  predicate Loses(l: Lane, chunks: seq<seq<byte>>, k: nat, wrote: seq<byte>) {
    exists j :: 0 <= j < |l.picked| && l.picked[j] == k && (CutOff(l, chunks, j, wrote) || (HasEnded(l) && l.got <= j))
  }

  predicate CutOff(l: Lane, chunks: seq<seq<byte>>, j: nat, wrote: seq<byte>)
    requires j < |l.picked|
  {
    !l.alive && |wrote| < |Frames(Tagged(l.picked[..j + 1], chunks))|
  }

  ghost predicate Lost(ss: seq<State>, acts: seq<Action>, t: nat, k: nat)
    requires t <= |acts| < |ss|
  {
    var s := ss[t];
    k < |s.owner| && s.owner[k] < |s.lanes|
    && Loses(s.lanes[s.owner[k]], s.chunks, k, Wrote(ss, acts, t, s.owner[k]))
  }

  lemma LaneEndedStays(c: Config, s: State, a: Action, i: nat)
    requires Enabled(c, s, a) && i < |s.lanes| && HasEnded(s.lanes[i])
    ensures var s' := Apply(c, s, a);
      && |s'.lanes| == |s.lanes| && s.owner <= s'.owner
      && HasEnded(s'.lanes[i]) && s'.lanes[i].got == s.lanes[i].got && s.lanes[i].picked <= s'.lanes[i].picked
  {
    match a
    case On(i', step) => if i' == i { EndedStays(c, s, i, s.lanes[i], step); }
    case Read(_, _) =>
    case ReadEof =>
    case BeginMarks =>
    case NextMark =>
    case Recv =>
  }

  lemma EndedStays(c: Config, s: State, i: nat, l: Lane, step: LaneStep)
    requires LaneEnabled(c, s, l, step) && HasEnded(l)
    ensures var l' := StepLane(s, i, l, step); HasEnded(l') && l'.got == l.got && l.picked <= l'.picked
  {
  }

  // A dead stream stays dead and accepts nothing.
  lemma DeadStays(c: Config, s: State, a: Action, i: nat)
    requires Enabled(c, s, a) && i < |s.lanes|
    ensures var s' := Apply(c, s, a);
      && |s'.lanes| == |s.lanes| && s.owner <= s'.owner && s.chunks <= s'.chunks
      && s.lanes[i].picked <= s'.lanes[i].picked
      && (!s.lanes[i].alive ==> !s'.lanes[i].alive && a != On(i, Put))
  {
    if a.On? && a.i == i { DeadLaneStays(c, s, s.lanes[i], i, a.step); }
  }

  lemma DeadLaneStays(c: Config, s: State, l: Lane, i: nat, step: LaneStep)
    requires LaneEnabled(c, s, l, step)
    ensures var l' := StepLane(s, i, l, step);
      l.picked <= l'.picked && (!l.alive ==> !l'.alive && !step.Put?)
  {
  }

  lemma CutOffStays(l: Lane, l': Lane, chunks: seq<seq<byte>>, chunks': seq<seq<byte>>, j: nat, wrote: seq<byte>)
    requires j < |l.picked| && l.picked <= l'.picked && chunks <= chunks' && !l'.alive
    requires forall m :: 0 <= m < |l.picked| ==> l.picked[m] < |chunks|
    requires CutOff(l, chunks, j, wrote)
    ensures CutOff(l', chunks', j, wrote)
  {
    assert l'.picked[..j + 1] == l.picked[..j + 1];
    SameTagged(l.picked[..j + 1], chunks, chunks');
  }

  lemma LosesStays(c: Config, s: State, a: Action, i: nat, k: nat, wrote: seq<byte>, wrote': seq<byte>)
    requires Enabled(c, s, a) && i < |s.lanes| && Loses(s.lanes[i], s.chunks, k, wrote)
    requires forall m :: 0 <= m < |s.lanes[i].picked| ==> s.lanes[i].picked[m] < |s.chunks|
    requires !s.lanes[i].alive && a != On(i, Put) ==> wrote' == wrote
    ensures var s' := Apply(c, s, a); |s'.lanes| == |s.lanes| && Loses(s'.lanes[i], s'.chunks, k, wrote')
  {
    hide Apply, CutOff, HasEnded;
    var s', l := Apply(c, s, a), s.lanes[i];
    DeadStays(c, s, a, i);
    var j :| 0 <= j < |l.picked| && l.picked[j] == k && (CutOff(l, s.chunks, j, wrote) || (HasEnded(l) && l.got <= j));
    if CutOff(l, s.chunks, j, wrote) {
      CutOffDead(l, s.chunks, j, wrote);
      CutOffStays(l, s'.lanes[i], s.chunks, s'.chunks, j, wrote);
    } else {
      LaneEndedStays(c, s, a, i);
    }
    assert s'.lanes[i].picked[j] == k;
  }

  lemma CutOffDead(l: Lane, chunks: seq<seq<byte>>, j: nat, wrote: seq<byte>)
    requires j < |l.picked| && CutOff(l, chunks, j, wrote)
    ensures !l.alive
  {
  }

  lemma LostStays(c: Config, ss: seq<State>, acts: seq<Action>, t: nat, k: nat)
    requires IsRun(c, ss, acts) && t < |acts| && Lost(ss, acts, t, k)
    ensures Lost(ss, acts, t + 1, k)
  {
    hide Flow, Loses, Apply;
    var s, a, i := ss[t], acts[t], ss[t].owner[k];
    assert Enabled(c, s, a);
    RunFlow(c, ss, acts, t);
    LanesCount(c, s);
    RunWrote(c, ss, acts, t, i);
    DeadStays(c, s, a, i);
    LosesStays(c, s, a, i, k, Wrote(ss, acts, t, i), Wrote(ss, acts, t + 1, i));
  }

  lemma LanesCount(c: Config, s: State)
    requires Flow(c, s)
    ensures |s.lanes| == c.n
  {
  }

  // What has been parsed was written, so a chunk cut off has not been.
  lemma CutOffUnparsed(l: Lane, chunks: seq<seq<byte>>, mark: u32, j: nat, wrote: seq<byte>)
    requires WroteOk(l, chunks, mark, wrote) && j < |l.picked| && CutOff(l, chunks, j, wrote)
    ensures l.got <= j
  {
    hide Tagged, Frames, Due, Out;
    if j < l.got {
      MoreFrames(l.picked, chunks, j + 1, l.got);
    }
  }

  lemma MoreFrames(ks: seq<nat>, chunks: seq<seq<byte>>, a: nat, b: nat)
    requires a <= b <= |ks|
    ensures |Frames(Tagged(ks[..a], chunks))| <= |Frames(Tagged(ks[..b], chunks))|
  {
    var cs := Tagged(ks[..b], chunks);
    FramesSplit(cs, a);
    assert cs[..a] == Tagged(ks[..a], chunks);
  }

  lemma LostNotArrived(c: Config, ss: seq<State>, acts: seq<Action>, t: nat, k: nat)
    requires IsRun(c, ss, acts) && t < |ss| && Lost(ss, acts, t, k)
    ensures k !in ss[t].arrived && k < |ss[t].chunks|
  {
    hide WroteOk, CutOff, PickedOk, WireOk, QueueOk, PhaseOk, EndsOk, FanOk, OwnerOk;
    var s, i := ss[t], ss[t].owner[k];
    var l, wrote := s.lanes[i], Wrote(ss, acts, t, i);
    RunFlow(c, ss, acts, t);
    RunWrote(c, ss, acts, t, i);
    assert LaneOk(l, i, s.chunks, s.owner, s.seqno, Queued(s.fan, i));
    var j :| 0 <= j < |l.picked| && l.picked[j] == k && (CutOff(l, s.chunks, j, wrote) || (HasEnded(l) && l.got <= j));
    if CutOff(l, s.chunks, j, wrote) {
      CutOffUnparsed(l, s.chunks, s.seqno, j, wrote);
    }
    assert s.lanes[i].picked[j] in s.arrived <==> j < s.lanes[i].seen;
  }

  // From the moment a chunk is lost not a byte of it or of anything past it is written,
  // for the rest of the run: from the death of its stream if its frame was not wholly
  // written by then, and from the end of its reader if it was not parsed.
  lemma {:induction false} LostForever(c: Config, ss: seq<State>, acts: seq<Action>, t: nat, t': nat, k: nat)
    requires IsRun(c, ss, acts) && Numbered(c, ss) && t <= t' < |ss| && Lost(ss, acts, t, k)
    ensures Lost(ss, acts, t', k) && k <= |ss[t'].chunks| && ss[t'].rx.written <= k
    ensures ss[t'].rx.out <= Flat(ss[t'].chunks[..k])
    decreases t'
  {
    hide Lost, Flow, Good;
    if t < t' {
      LostForever(c, ss, acts, t, t' - 1, k);
      LostStays(c, ss, acts, t' - 1, k);
    }
    LostNotArrived(c, ss, acts, t', k);
    RunRx(c, ss, acts, t');
    OutBefore(ss[t'].rx, ss[t'].chunks, ss[t'].arrived, k);
  }

  // Not a byte of a chunk that has not arrived is in the output.
  lemma OutBefore(r: Rx, chunks: seq<seq<byte>>, arrived: set<nat>, k: nat)
    requires Good(r, chunks, arrived) && k !in arrived && k <= |chunks|
    ensures r.written <= k && r.out <= Flat(chunks[..k])
  {
    var m := r.written;
    if r.failed {
      FlatNext(chunks, m);
      assert chunks[..k][..m + 1] == chunks[..m + 1];
      FlatPrefix(chunks[..k], m + 1);
      assert r.out <= Flat(chunks[..m + 1]);
    } else {
      assert chunks[..k][..m] == chunks[..m];
      FlatPrefix(chunks[..k], m);
    }
  }

  // ---------- a writer that failed ----------

  lemma ExitedStays(c: Config, s: State, a: Action, i: nat)
    requires Enabled(c, s, a) && i < |s.lanes| && s.lanes[i].exited
    ensures var s' := Apply(c, s, a);
      |s'.lanes| == |s.lanes| && s'.lanes[i].exited && s'.lanes[i].picked == s.lanes[i].picked && a != On(i, Take)
  {
    if a.On? && a.i == i { ExitedLaneStays(c, s, s.lanes[i], i, a.step); }
  }

  lemma ExitedLaneStays(c: Config, s: State, l: Lane, i: nat, step: LaneStep)
    requires LaneEnabled(c, s, l, step) && l.exited
    ensures var l' := StepLane(s, i, l, step); l'.exited && l'.picked == l.picked && !step.Take?
  {
  }

  // After a write error a writer never takes another chunk, for the rest of the run.
  lemma {:induction false} FailedWriterStops(c: Config, ss: seq<State>, acts: seq<Action>, t: nat, u: nat, i: nat)
    requires IsRun(c, ss, acts) && t < |acts| && acts[t] == On(i, Fail) && t < u < |ss|
    ensures i < |ss[t].lanes| == |ss[u].lanes| && ss[u].lanes[i].picked == ss[t].lanes[i].picked
    ensures ss[u].lanes[i].exited && (u < |acts| ==> acts[u] != On(i, Take))
    decreases u
  {
    hide Apply;
    if u == t + 1 {
      assert Enabled(c, ss[t], acts[t]);
      FailStops(c, ss[t], i);
    } else {
      FailedWriterStops(c, ss, acts, t, u - 1, i);
      assert Enabled(c, ss[u - 1], acts[u - 1]);
      ExitedStays(c, ss[u - 1], acts[u - 1], i);
    }
    if u < |acts| {
      assert Enabled(c, ss[u], acts[u]);
      ExitedStays(c, ss[u], acts[u], i);
    }
  }

  lemma FailStops(c: Config, s: State, i: nat)
    requires Enabled(c, s, On(i, Fail))
    ensures var s' := Apply(c, s, On(i, Fail));
      |s'.lanes| == |s.lanes| && s'.lanes[i].exited && s'.lanes[i].picked == s.lanes[i].picked
  {
  }
}
