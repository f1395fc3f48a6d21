// The accept fan-in of a session and its shutdown: one accept loop per
// sub-connection, any number of AcceptStream callers and any number of concurrent
// Close calls, interleaved in any order.
module Acceptor {
  import opened Sums

  const ACCEPT_SLOTS := 64

  // Where an accept loop stands: in c.AcceptStream; holding a stream at the select;
  // holding an error, about to read `closed`; about to report it; returned.
  datatype Loop = Accepting | Sending(id: nat) | Failed | Reporting | Exited

  // Where a Close call stands: before the compare-and-swap; closing sub-connection
  // k; waiting for the loops; returned after closing acceptCh; or returned at once.
  datatype Closer = Calling | Closing(k: nat) | WaitingAll | Closed | Turned

  datatype Msg = Stream(id: nat) | Error

  // Where an accepted stream went; which loop accepted it is history too. No step
  // looks at either.
  datatype Place = AtLoop(i: nat) | InChannel | Handed | Abandoned

  // `open[i]`: sub-connection i is up. A send on a closed acceptCh, or closing it
  // twice, panics.
  datatype State = State(open: seq<bool>, loops: seq<Loop>, closers: seq<Closer>, closed: bool,
                         ch: seq<Msg>, chClosed: bool, draining: bool, panicked: bool,
                         handed: seq<nat>, places: seq<Place>, origin: seq<nat>)

  function Init(n: nat): State {
    State(seq(n, _ => true), seq(n, _ => Accepting), [], false, [], false, false, false, [], [], [])
  }

  datatype Action =
    | Lost(i: nat)          // the peer or the network takes sub-connection i down
    | Accept(i: nat)        // loop i is given a stream
    | AcceptError(i: nat)   // loop i is given the error of a closed sub-connection
    | CheckClosed(i: nat)   // it reads the closed flag
    | Report(i: nat)        // it sends the error, if there is room
    | Send(i: nat)          // it sends its stream
    | GiveUp(i: nat)        // it sees its sub-connection done instead
    | Call                  // another Close is called
    | Swap(j: nat)          // closed.CompareAndSwap
    | CloseConn(j: nat)     // the winner closes one more sub-connection, or starts the drainer
    | Join(j: nat)          // acceptWG.Wait returns and the winner closes acceptCh
    | Receive               // an AcceptStream caller receives
    | Drain                 // the drainer receives

  predicate Enabled(s: State, a: Action) {
    match a
    case Lost(i) => i < |s.open| && s.open[i]
    case Accept(i) => i < |s.loops| == |s.open| && s.loops[i].Accepting? && s.open[i]
    case AcceptError(i) => i < |s.loops| == |s.open| && s.loops[i].Accepting? && !s.open[i]
    case CheckClosed(i) => i < |s.loops| && s.loops[i].Failed?
    case Report(i) => i < |s.loops| && s.loops[i].Reporting?
    case Send(i) => i < |s.loops| && s.loops[i].Sending? && |s.ch| < ACCEPT_SLOTS
    case GiveUp(i) => i < |s.loops| == |s.open| && s.loops[i].Sending? && !s.open[i]
    case Call => true
    case Swap(j) => j < |s.closers| && s.closers[j].Calling?
    case CloseConn(j) => j < |s.closers| && s.closers[j].Closing? && s.closers[j].k <= |s.open|
    case Join(j) => j < |s.closers| && s.closers[j].WaitingAll? && forall i :: 0 <= i < |s.loops| ==> s.loops[i].Exited?
    case Receive => s.ch != []
    case Drain => s.draining && s.ch != []
  }

  function Put(s: State, m: Msg): State {
    s.(ch := s.ch + [m], panicked := s.panicked || s.chClosed)
  }

  function Placed(s: State, id: nat, p: Place): State {
    if id < |s.places| then s.(places := s.places[id := p]) else s
  }

  function Apply(s: State, a: Action): State
    requires Enabled(s, a)
  {
    match a
    case Lost(i) => s.(open := s.open[i := false])
    case Accept(i) => s.(loops := s.loops[i := Sending(|s.places|)], places := s.places + [AtLoop(i)],
                         origin := s.origin + [i])
    case AcceptError(i) => s.(loops := s.loops[i := Failed])
    case CheckClosed(i) => s.(loops := s.loops[i := if s.closed then Exited else Reporting])
    case Report(i) =>
      var s' := s.(loops := s.loops[i := Exited]);
      if |s.ch| < ACCEPT_SLOTS then Put(s', Error) else s'
    case Send(i) =>
      var id := s.loops[i].id;
      Placed(Put(s.(loops := s.loops[i := Accepting]), Stream(id)), id, InChannel)
    case GiveUp(i) => Placed(s.(loops := s.loops[i := Exited]), s.loops[i].id, Abandoned)
    case Call => s.(closers := s.closers + [Calling])
    case Swap(j) => s.(closers := s.closers[j := if s.closed then Turned else Closing(0)], closed := true)
    case CloseConn(j) =>
      var k := s.closers[j].k;
      if k < |s.open| then s.(open := s.open[k := false], closers := s.closers[j := Closing(k + 1)])
      else s.(draining := true, closers := s.closers[j := WaitingAll])
    case Join(j) => s.(chClosed := true, panicked := s.panicked || s.chClosed, closers := s.closers[j := Closed])
    case Receive =>
      var s' := s.(ch := s.ch[1..]);
      if s.ch[0].Stream? then Placed(s'.(handed := s.handed + [s.ch[0].id]), s.ch[0].id, Handed) else s'
    case Drain =>
      var s' := s.(ch := s.ch[1..]);
      if s.ch[0].Stream? then Placed(s', s.ch[0].id, Abandoned) else s'
  }

  ghost predicate IsRun(n: nat, ss: seq<State>, acts: seq<Action>) {
    && |ss| == |acts| + 1
    && ss[0] == Init(n)
    && forall t {:trigger acts[t]} :: 0 <= t < |acts| ==> Enabled(ss[t], acts[t]) && ss[t + 1] == Apply(ss[t], acts[t])
  }

  // ---------- shutdown ----------

  predicate Winner(c: Closer) {
    c.Closing? || c.WaitingAll? || c.Closed?
  }

  // The flag is up just when one Close call has won; the channel is closed only by
  // it and only when every loop has returned; sub-connections it has passed are down.
  ghost predicate ShutOk(n: nat, s: State) {
    && |s.open| == |s.loops| == n
    && !s.panicked
    && (s.closed <==> exists j :: 0 <= j < |s.closers| && Winner(s.closers[j]))
    && (forall j, k :: 0 <= j < k < |s.closers| && Winner(s.closers[j]) ==> !Winner(s.closers[k]))
    && (s.chClosed <==> exists j :: 0 <= j < |s.closers| && s.closers[j].Closed?)
    && (s.chClosed ==> forall i :: 0 <= i < n ==> s.loops[i].Exited?)
    && (forall j :: 0 <= j < |s.closers| ==> CloserOk(n, s, s.closers[j]))
  }

  ghost predicate CloserOk(n: nat, s: State, c: Closer)
    requires |s.open| == n
  {
    && (c.Closing? ==> c.k <= n && forall i :: 0 <= i < c.k ==> !s.open[i])
    && (c.WaitingAll? || c.Closed? ==> s.draining && forall i :: 0 <= i < n ==> !s.open[i])
  }

  lemma CallStep(n: nat, s: State)
    requires ShutOk(n, s)
    ensures ShutOk(n, Apply(s, Call))
  {
    var s' := Apply(s, Call);
    assert forall k :: 0 <= k < |s.closers| ==> s'.closers[k] == s.closers[k];
    assert s'.closers[|s.closers|] == Calling;
    hide Apply;
    forall j | 0 <= j < |s'.closers|
      ensures CloserOk(n, s', s'.closers[j])
    {
      if j < |s.closers| { assert CloserOk(n, s, s.closers[j]); }
    }
  }

  lemma SwapStep(n: nat, s: State, j: nat)
    requires ShutOk(n, s) && Enabled(s, Swap(j))
    ensures ShutOk(n, Apply(s, Swap(j)))
  {
    var s' := Apply(s, Swap(j));
    assert forall k :: 0 <= k < |s.closers| && k != j ==> s'.closers[k] == s.closers[k];
    assert s'.closers[j] == if s.closed then Turned else Closing(0);
    hide Apply, Enabled;
    forall k | 0 <= k < |s'.closers|
      ensures CloserOk(n, s', s'.closers[k])
    {
      if k != j { assert CloserOk(n, s, s.closers[k]); }
    }
  }

  // Steps of the one Close call that won the flag.
  lemma WinnerStep(n: nat, s: State, a: Action)
    requires ShutOk(n, s) && Enabled(s, a) && (a.CloseConn? || a.Join?)
    ensures ShutOk(n, Apply(s, a))
  {
    var s' := Apply(s, a);
    assert forall k :: 0 <= k < |s.closers| && k != a.j ==> s'.closers[k] == s.closers[k];
    assert Winner(s.closers[a.j]) && !s.closers[a.j].Closed? && Winner(s'.closers[a.j]);
    assert CloserOk(n, s, s.closers[a.j]);
    assert forall k :: 0 <= k < |s.closers| ==> (Winner(s.closers[k]) <==> k == a.j);
    assert !s.chClosed;
  }

  lemma CloserStep(n: nat, s: State, a: Action)
    requires ShutOk(n, s) && Enabled(s, a) && ByCloser(a)
    ensures ShutOk(n, Apply(s, a))
  {
    hide ShutOk, Apply, Enabled;
    if a.Call? {
      CallStep(n, s);
    } else if a.Swap? {
      SwapStep(n, s, a.j);
    } else {
      WinnerStep(n, s, a);
    }
  }

  predicate ByCloser(a: Action) {
    a.Call? || a.Swap? || a.CloseConn? || a.Join?
  }

  // Nobody but a Close call touches the Close calls, the flag or the closing of the
  // channel; loops that have returned stay so and sub-connections that are down too.
  ghost predicate SameShut(s: State, s': State) {
    && s'.closers == s.closers && s'.closed == s.closed && s'.draining == s.draining && s'.chClosed == s.chClosed
    && |s'.open| == |s.open| && |s'.loops| == |s.loops|
    && (forall i :: 0 <= i < |s.open| && !s.open[i] ==> !s'.open[i])
    && (forall i :: 0 <= i < |s.loops| && s.loops[i].Exited? ==> s'.loops[i].Exited?)
  }

  lemma LoopSame(s: State, a: Action)
    requires Enabled(s, a) && !ByCloser(a)
    ensures SameShut(s, Apply(s, a))
  {
    hide SameShut, Apply, Enabled;
    if a.Receive? || a.Drain? {
      TakeSame(s, a);
    } else if a.Report? || a.Send? || a.GiveUp? {
      SendSame(s, a);
    } else {
      AcceptSame(s, a);
    }
  }

  lemma TakeSame(s: State, a: Action)
    requires Enabled(s, a) && (a.Receive? || a.Drain?)
    ensures SameShut(s, Apply(s, a))
  {
  }

  lemma SendSame(s: State, a: Action)
    requires Enabled(s, a) && (a.Report? || a.Send? || a.GiveUp?)
    ensures SameShut(s, Apply(s, a))
  {
  }

  lemma AcceptSame(s: State, a: Action)
    requires Enabled(s, a) && (a.Lost? || a.Accept? || a.AcceptError? || a.CheckClosed?)
    ensures SameShut(s, Apply(s, a))
  {
  }

  lemma LoopCalm(s: State, a: Action)
    requires Enabled(s, a) && !ByCloser(a) && !s.panicked
    requires s.chClosed ==> forall i :: 0 <= i < |s.loops| ==> s.loops[i].Exited?
    ensures !Apply(s, a).panicked
  {
  }

  lemma ShutKept(n: nat, s: State, s': State)
    requires ShutOk(n, s) && SameShut(s, s') && !s'.panicked
    ensures ShutOk(n, s')
  {
    hide Winner;
    forall j | 0 <= j < |s.closers|
      ensures CloserOk(n, s', s.closers[j])
    {
      assert CloserOk(n, s, s.closers[j]);
    }
  }

  lemma LoopStep(n: nat, s: State, a: Action)
    requires ShutOk(n, s) && Enabled(s, a) && !ByCloser(a)
    ensures ShutOk(n, Apply(s, a))
  {
    LoopCalm(s, a);
    hide Apply;
    LoopSame(s, a);
    ShutKept(n, s, Apply(s, a));
  }

  lemma {:induction false} RunShut(n: nat, ss: seq<State>, acts: seq<Action>, t: nat)
    requires IsRun(n, ss, acts) && t < |ss|
    ensures ShutOk(n, ss[t])
    decreases t
  {
    if t > 0 {
      RunShut(n, ss, acts, t - 1);
      var a := acts[t - 1];
      assert Enabled(ss[t - 1], a);
      if ByCloser(a) {
        CloserStep(n, ss[t - 1], a);
      } else {
        LoopStep(n, ss[t - 1], a);
      }
    }
  }

  // However the loops, the callers and the Close calls interleave: nothing is sent
  // on acceptCh once it is closed and it is closed at most once (neither panic
  // happens), at most one Close call does the work, and it closes the channel only
  // after the last loop has returned.
  lemma CleanShutdown(n: nat, ss: seq<State>, acts: seq<Action>, t: nat)
    requires IsRun(n, ss, acts) && t < |ss|
    ensures !ss[t].panicked
    ensures forall j, k :: 0 <= j < k < |ss[t].closers| && Winner(ss[t].closers[j]) ==> !Winner(ss[t].closers[k])
    ensures ss[t].chClosed ==> forall i :: 0 <= i < |ss[t].loops| ==> ss[t].loops[i].Exited?
  {
    RunShut(n, ss, acts, t);
  }

  // ---------- streams ----------

  // Held by its loop, queued once, or handed out once: whatever history says.
  ghost predicate Held(loops: seq<Loop>, places: seq<Place>) {
    forall i :: 0 <= i < |loops| && loops[i].Sending? ==> loops[i].id < |places| && places[loops[i].id] == AtLoop(i)
  }

  ghost predicate Queued(ch: seq<Msg>, places: seq<Place>) {
    && (forall p :: 0 <= p < |ch| && ch[p].Stream? ==> ch[p].id < |places| && places[ch[p].id].InChannel?)
    && (forall p, q :: 0 <= p < q < |ch| && ch[p].Stream? && ch[q].Stream? ==> ch[p].id != ch[q].id)
  }

  ghost predicate Given(handed: seq<nat>, places: seq<Place>) {
    && (forall p :: 0 <= p < |handed| ==> handed[p] < |places| && places[handed[p]].Handed?)
    && (forall p, q :: 0 <= p < q < |handed| ==> handed[p] != handed[q])
  }

  ghost predicate StreamsOk(s: State) {
    Held(s.loops, s.places) && Queued(s.ch, s.places) && Given(s.handed, s.places)
  }

  lemma MoveStreams(s: State, a: Action)
    requires StreamsOk(s) && Enabled(s, a) && (a.Accept? || a.Send? || a.GiveUp?)
    ensures StreamsOk(Apply(s, a))
  {
    var s' := Apply(s, a);
    assert Given(s'.handed, s'.places) by {
      assert forall p :: 0 <= p < |s.handed| ==> s'.places[s.handed[p]] == s.places[s.handed[p]];
    }
    assert forall i :: 0 <= i < |s.loops| && i != a.i ==> s'.loops[i] == s.loops[i];
  }

  lemma HeldElsewhere(loops: seq<Loop>, places: seq<Place>, id: nat, p: Place)
    requires Held(loops, places) && id < |places| && !places[id].AtLoop?
    ensures Held(loops, places[id := p])
  {
  }

  lemma QueueShrinks(ch: seq<Msg>, places: seq<Place>, p: Place)
    requires Queued(ch, places) && ch != []
    ensures Queued(ch[1..], places)
    ensures ch[0].Stream? ==> ch[0].id < |places| && Queued(ch[1..], places[ch[0].id := p])
  {
    var rest := ch[1..];
    assert forall p :: 0 <= p < |rest| ==> rest[p] == ch[p + 1];
  }

  lemma TakeStreams(s: State, a: Action)
    requires StreamsOk(s) && Enabled(s, a) && (a.Receive? || a.Drain?)
    ensures StreamsOk(Apply(s, a))
  {
    hide Held;
    var p := if a.Receive? then Handed else Abandoned;
    QueueShrinks(s.ch, s.places, p);
    if s.ch[0].Stream? {
      HeldElsewhere(s.loops, s.places, s.ch[0].id, p);
      hide Queued;
    }
  }

  lemma QueueError(ch: seq<Msg>, places: seq<Place>)
    requires Queued(ch, places)
    ensures Queued(ch + [Error], places)
  {
  }

  lemma OtherStreams(s: State, a: Action)
    requires StreamsOk(s) && Enabled(s, a)
    requires !a.Accept? && !a.Send? && !a.GiveUp? && !a.Receive? && !a.Drain?
    ensures StreamsOk(Apply(s, a))
  {
    hide Given, Queued;
    var s' := Apply(s, a);
    QueueError(s.ch, s.places);
    assert s'.ch == s.ch || s'.ch == s.ch + [Error];
    assert forall i :: 0 <= i < |s'.loops| && s'.loops[i].Sending? ==> s'.loops[i] == s.loops[i];
  }

  lemma StepStreams(s: State, a: Action)
    requires StreamsOk(s) && Enabled(s, a)
    ensures StreamsOk(Apply(s, a))
  {
    hide StreamsOk, Apply;
    if a.Accept? || a.Send? || a.GiveUp? {
      MoveStreams(s, a);
    } else if a.Receive? || a.Drain? {
      TakeStreams(s, a);
    } else {
      OtherStreams(s, a);
    }
  }

  lemma {:induction false} RunStreams(n: nat, ss: seq<State>, acts: seq<Action>, t: nat)
    requires IsRun(n, ss, acts) && t < |ss|
    ensures StreamsOk(ss[t])
    decreases t
  {
    if t > 0 {
      RunStreams(n, ss, acts, t - 1);
      assert Enabled(ss[t - 1], acts[t - 1]);
      StepStreams(ss[t - 1], acts[t - 1]);
    }
  }

  // ---------- no stream is lost ----------

  // Every accepted stream is where history says it is; it is thrown away only by the
  // drainer, or by a loop whose sub-connection is down.
  ghost predicate Accounted(s: State) {
    && (forall id :: 0 <= id < |s.places| && s.places[id].AtLoop? ==> AtItsLoop(s.loops, s.places[id].i, id))
    && Kept(s.ch, s.handed, s.places)
    && (forall id :: 0 <= id < |s.places| && s.places[id].Abandoned? ==> Down(s))
  }

  ghost predicate Kept(ch: seq<Msg>, handed: seq<nat>, places: seq<Place>) {
    && (forall id :: 0 <= id < |places| && places[id].InChannel? ==> Stream(id) in ch)
    && (forall id :: 0 <= id < |places| && places[id].Handed? ==> id in handed)
  }

  predicate AtItsLoop(loops: seq<Loop>, i: nat, id: nat) {
    i < |loops| && loops[i] == Sending(id)
  }

  predicate Down(s: State) {
    s.draining || exists i :: 0 <= i < |s.open| && !s.open[i]
  }

  lemma StaysDown(s: State, a: Action)
    requires Enabled(s, a) && Down(s)
    ensures Down(Apply(s, a))
  {
    if !s.draining {
      var i :| 0 <= i < |s.open| && !s.open[i];
      OpenOnlyFalls(s, a);
      assert !Apply(s, a).open[i];
    } else {
      OpenOnlyFalls(s, a);
    }
  }

  lemma OpenOnlyFalls(s: State, a: Action)
    requires Enabled(s, a)
    ensures |Apply(s, a).open| == |s.open| && (s.draining ==> Apply(s, a).draining)
    ensures forall i :: 0 <= i < |s.open| && !s.open[i] ==> !Apply(s, a).open[i]
  {
    if ByCloser(a) {
      CloserOnlyCloses(s, a);
    } else {
      hide Apply, Enabled;
      LoopSame(s, a);
    }
  }

  lemma CloserOnlyCloses(s: State, a: Action)
    requires Enabled(s, a) && ByCloser(a)
    ensures |Apply(s, a).open| == |s.open| && (s.draining ==> Apply(s, a).draining)
    ensures forall i :: 0 <= i < |s.open| && !s.open[i] ==> !Apply(s, a).open[i]
  {
  }

  // Loop i accepts a stream, sends it or gives it up.
  lemma MoveAccounted(s: State, a: Action)
    requires Accounted(s) && StreamsOk(s) && Enabled(s, a) && (a.Accept? || a.Send? || a.GiveUp?)
    ensures Accounted(Apply(s, a))
  {
    hide Down;
    var s' := Apply(s, a);
    if Down(s) { StaysDown(s, a); }
    if a.GiveUp? { assert Down(s') by { GivenUp(s, a.i); } }
    forall id | 0 <= id < |s'.places| && s'.places[id].InChannel?
      ensures Stream(id) in s'.ch
    {
      if id < |s.places| && s.places[id].InChannel? {
        assert Stream(id) in s.ch;
      } else {
        assert s'.ch[|s.ch|] == Stream(id);
      }
    }
  }

  lemma GivenUp(s: State, i: nat)
    requires Enabled(s, GiveUp(i))
    ensures Down(Apply(s, GiveUp(i)))
  {
    assert !Apply(s, GiveUp(i)).open[i];
  }

  // The head of the channel is taken; a stream goes to a caller or is thrown away.
  lemma KeptTaken(ch: seq<Msg>, handed: seq<nat>, places: seq<Place>, p: Place)
    requires Kept(ch, handed, places) && ch != [] && (p.Handed? || p.Abandoned?)
    ensures ch[0].Error? ==> Kept(ch[1..], handed, places)
    ensures ch[0].Stream? && ch[0].id < |places| ==>
      Kept(ch[1..], if p.Handed? then handed + [ch[0].id] else handed, places[ch[0].id := p])
  {
    assert ch == [ch[0]] + ch[1..];
  }

  lemma TakeAccounted(s: State, a: Action)
    requires Accounted(s) && StreamsOk(s) && Enabled(s, a) && (a.Receive? || a.Drain?)
    ensures Accounted(Apply(s, a))
  {
    hide Given, Held, Kept, Down;
    var p := if a.Receive? then Handed else Abandoned;
    KeptTaken(s.ch, s.handed, s.places, p);
    if Down(s) { StaysDown(s, a); }
    if a.Drain? { assert Down(Apply(s, a)) by { Drained(s); } }
    TakeParts(s, a);
    hide Apply, Queued;
  }

  lemma Drained(s: State)
    requires Enabled(s, Drain)
    ensures Down(Apply(s, Drain))
  {
  }

  lemma TakeParts(s: State, a: Action)
    requires StreamsOk(s) && Enabled(s, a) && (a.Receive? || a.Drain?)
    ensures var s', x := Apply(s, a), s.ch[0];
      && s'.loops == s.loops && s'.ch == s.ch[1..]
      && (x.Error? ==> s'.places == s.places && s'.handed == s.handed)
      && (x.Stream? ==>
           && x.id < |s.places| && s.places[x.id].InChannel?
           && s'.places == s.places[x.id := if a.Receive? then Handed else Abandoned]
           && s'.handed == if a.Receive? then s.handed + [x.id] else s.handed)
  {
    hide Given, Held;
  }

  lemma OtherAccounted(s: State, a: Action)
    requires Accounted(s) && Enabled(s, a)
    requires !a.Accept? && !a.Send? && !a.GiveUp? && !a.Receive? && !a.Drain?
    ensures Accounted(Apply(s, a))
  {
    hide Down;
    var s' := Apply(s, a);
    if Down(s) { StaysDown(s, a); }
    OtherSame(s, a);
    hide Apply, Enabled;
    assert forall m :: m in s.ch ==> m in s'.ch;
  }

  lemma OtherSame(s: State, a: Action)
    requires Enabled(s, a) && !a.Accept? && !a.Send? && !a.GiveUp? && !a.Receive? && !a.Drain?
    ensures var s' := Apply(s, a);
      && s'.places == s.places && s'.handed == s.handed && (s'.ch == s.ch || s'.ch == s.ch + [Error])
      && |s'.loops| == |s.loops|
      && forall i :: 0 <= i < |s.loops| && s.loops[i].Sending? ==> s'.loops[i] == s.loops[i]
  {
  }

  lemma {:induction false} RunAccounted(n: nat, ss: seq<State>, acts: seq<Action>, t: nat)
    requires IsRun(n, ss, acts) && t < |ss|
    ensures Accounted(ss[t])
    decreases t
  {
    hide Accounted, StreamsOk, Apply;
    if t == 0 {
      NoneAccepted(n);
    } else {
      var s, a := ss[t - 1], acts[t - 1];
      RunAccounted(n, ss, acts, t - 1);
      RunStreams(n, ss, acts, t - 1);
      assert Enabled(s, a);
      if a.Accept? || a.Send? || a.GiveUp? {
        MoveAccounted(s, a);
      } else if a.Receive? || a.Drain? {
        TakeAccounted(s, a);
      } else {
        OtherAccounted(s, a);
      }
    }
  }

  lemma NoneAccepted(n: nat)
    ensures Accounted(Init(n))
  {
  }

  // While every sub-connection is up and no Close call is draining, every accepted
  // stream is held by a loop, queued, or has been handed out.
  lemma NoneLost(n: nat, ss: seq<State>, acts: seq<Action>, t: nat, id: nat)
    requires IsRun(n, ss, acts) && t < |ss| && id < |ss[t].places|
    ensures (exists i :: AtItsLoop(ss[t].loops, i, id)) || Stream(id) in ss[t].ch || id in ss[t].handed || Down(ss[t])
  {
    RunAccounted(n, ss, acts, t);
    if ss[t].places[id].AtLoop? {
      assert AtItsLoop(ss[t].loops, ss[t].places[id].i, id);
    }
  }

  // Every accepted stream is handed to at most one AcceptStream caller and at most
  // once, and none that was handed out is still held by a loop or queued.
  lemma HandedOnce(n: nat, ss: seq<State>, acts: seq<Action>, t: nat)
    requires IsRun(n, ss, acts) && t < |ss|
    ensures forall p, q :: 0 <= p < q < |ss[t].handed| ==> ss[t].handed[p] != ss[t].handed[q]
    ensures forall p, i :: 0 <= p < |ss[t].handed| && 0 <= i < |ss[t].loops| ==>
      ss[t].loops[i] != Sending(ss[t].handed[p])
    ensures forall p :: 0 <= p < |ss[t].handed| ==> Stream(ss[t].handed[p]) !in ss[t].ch
  {
    RunStreams(n, ss, acts, t);
  }

  // ---------- service ----------

  ghost predicate Path(s: State, ss: seq<State>, acts: seq<Action>) {
    && |ss| == |acts| + 1
    && ss[0] == s
    && forall t {:trigger acts[t]} :: 0 <= t < |acts| ==> Enabled(ss[t], acts[t]) && ss[t + 1] == Apply(ss[t], acts[t])
  }

  predicate Serving(l: Loop) {
    l.Accepting? || l.Sending?
  }

  // While a sub-connection is up its loop accepts, or waits to hand over what it
  // accepted.
  ghost predicate LoopsServe(s: State) {
    |s.open| == |s.loops| && forall i :: 0 <= i < |s.loops| && s.open[i] ==> Serving(s.loops[i])
  }

  lemma ServeStep(s: State, a: Action)
    requires LoopsServe(s) && Enabled(s, a)
    ensures LoopsServe(Apply(s, a))
  {
    hide Apply, Enabled, LoopsServe;
    if ByCloser(a) {
      CloserServe(s, a);
    } else if a.Receive? || a.Drain? {
      TakeServe(s, a);
    } else if a.Report? || a.Send? || a.GiveUp? {
      SendServe(s, a);
    } else {
      AcceptServe(s, a);
    }
  }

  lemma CloserServe(s: State, a: Action)
    requires LoopsServe(s) && Enabled(s, a) && ByCloser(a)
    ensures LoopsServe(Apply(s, a))
  {
  }

  lemma TakeServe(s: State, a: Action)
    requires LoopsServe(s) && Enabled(s, a) && (a.Receive? || a.Drain?)
    ensures LoopsServe(Apply(s, a))
  {
  }

  lemma SendServe(s: State, a: Action)
    requires LoopsServe(s) && Enabled(s, a) && (a.Report? || a.Send? || a.GiveUp?)
    ensures LoopsServe(Apply(s, a))
  {
  }

  lemma AcceptServe(s: State, a: Action)
    requires LoopsServe(s) && Enabled(s, a) && (a.Lost? || a.Accept? || a.AcceptError? || a.CheckClosed?)
    ensures LoopsServe(Apply(s, a))
  {
  }

  // In every reachable state the loop of a sub-connection that is up has not returned
  // and is not about to: it ends only with its sub-connection.
  lemma {:induction false} KeepsServing(n: nat, ss: seq<State>, acts: seq<Action>, t: nat)
    requires IsRun(n, ss, acts) && t < |ss|
    ensures |ss[t].open| == |ss[t].loops| == n
    ensures forall i :: 0 <= i < n && ss[t].open[i] ==> Serving(ss[t].loops[i])
    decreases t
  {
    RunShut(n, ss, acts, t);
    if t > 0 {
      hide Apply;
      KeepsServing(n, ss, acts, t - 1);
      assert Enabled(ss[t - 1], acts[t - 1]);
      ServeStep(ss[t - 1], acts[t - 1]);
    }
  }

  // A stream on a sub-connection that is up is accepted, queued and handed to a caller,
  // and the loop is ready for the next.
  lemma StreamHandedOver(s: State, i: nat) returns (ss: seq<State>)
    requires i < |s.loops| == |s.open| && s.open[i] && s.loops[i].Accepting? && s.ch == []
    ensures Path(s, ss, [Accept(i), Send(i), Receive])
    ensures ss[3].handed == s.handed + [|s.places|] && ss[3].loops == s.loops && ss[3].ch == []
    ensures ss[3].open == s.open && ss[3].places == s.places + [Handed]
  {
    var s1 := Apply(s, Accept(i));
    var s2 := Apply(s1, Send(i));
    ss := [s, s1, s2, Apply(s2, Receive)];
  }

  // Unless Close has been called, the loss of a sub-connection is reported: its loop
  // puts an error into the channel whenever there is room, and returns.
  lemma LossReported(s: State, i: nat) returns (ss: seq<State>)
    requires i < |s.loops| == |s.open| && s.open[i] && s.loops[i].Accepting? && !s.closed
    ensures Path(s, ss, [Lost(i), AcceptError(i), CheckClosed(i), Report(i)])
    ensures ss[4].ch == if |s.ch| < 64 then s.ch + [Error] else s.ch
    ensures ss[4].open == s.open[i := false] && ss[4].loops == s.loops[i := Exited]
  {
    var s1 := Apply(s, Lost(i));
    var s2 := Apply(s1, AcceptError(i));
    var s3 := Apply(s2, CheckClosed(i));
    ss := [s, s1, s2, s3, Apply(s3, Report(i))];
  }

  // Once Close has been called it is not: the loop returns without a word.
  lemma ClosedSilently(s: State, i: nat) returns (ss: seq<State>)
    requires i < |s.loops| == |s.open| && s.open[i] && s.loops[i].Accepting? && s.closed
    ensures Path(s, ss, [Lost(i), AcceptError(i), CheckClosed(i)])
    ensures ss[3] == s.(open := s.open[i := false], loops := s.loops[i := Exited])
  {
    var s1 := Apply(s, Lost(i));
    var s2 := Apply(s1, AcceptError(i));
    ss := [s, s1, s2, Apply(s2, CheckClosed(i))];
  }

  // A loop that holds a stream when its sub-connection goes down may return at once,
  // with the stream and without a word.
  lemma GivesUpSilently(s: State, i: nat) returns (ss: seq<State>)
    requires i < |s.loops| == |s.open| && s.open[i] && s.loops[i].Sending? && s.loops[i].id < |s.places|
    ensures Path(s, ss, [Lost(i), GiveUp(i)])
    ensures ss[2] == s.(open := s.open[i := false], loops := s.loops[i := Exited],
                        places := s.places[s.loops[i].id := Abandoned])
  {
    var s1 := Apply(s, Lost(i));
    ss := [s, s1, Apply(s1, GiveUp(i))];
  }

  // Close may be called at any time, and once it drains it may take whatever comes.
  lemma CloseAnyTime(s: State)
    ensures Enabled(s, Call) && Apply(s, Call).closers == s.closers + [Calling]
    ensures s.draining && s.ch != [] ==> Enabled(s, Drain) && Apply(s, Drain).ch == s.ch[1..]
    ensures s.draining && s.ch != [] ==> Apply(s, Drain).handed == s.handed
  {
  }

  // All this from the start.
  lemma Begins(n: nat, i: nat)
    requires i < n
    ensures i < |Init(n).loops| == |Init(n).open| && Init(n).open[i] && Init(n).loops[i].Accepting?
    ensures Init(n).ch == [] && !Init(n).closed && IsRun(n, [Init(n)], [])
  {
  }

  // ---------- order ----------

  function Ids(ch: seq<Msg>): seq<nat> {
    if ch == [] then [] else (if ch[0].Stream? then [ch[0].id] else []) + Ids(ch[1..])
  }

  lemma {:induction false} IdsAppend(ch: seq<Msg>, m: Msg)
    ensures Ids(ch + [m]) == Ids(ch) + if m.Stream? then [m.id] else []
    decreases |ch|
  {
    if ch == [] {
      IdsFirst([m]);
      assert [m][1..] == [];
    } else {
      IdsFirst(ch);
      IdsFirst(ch + [m]);
      assert (ch + [m])[1..] == ch[1..] + [m];
      IdsAppend(ch[1..], m);
      hide Ids;
    }
  }

  lemma IdsFirst(ch: seq<Msg>)
    requires ch != []
    ensures Ids(ch) == (if ch[0].Stream? then [ch[0].id] else []) + Ids(ch[1..])
  {
  }

  // The streams handed out, then those queued.
  function Line(s: State): seq<nat> {
    s.handed + Ids(s.ch)
  }

  // Streams of one sub-connection stand in the line in the order they were accepted,
  // and before the one their loop holds.
  ghost predicate Ordered(line: seq<nat>, origin: seq<nat>, loops: seq<Loop>) {
    && (forall p :: 0 <= p < |line| ==> line[p] < |origin|)
    && (forall p, q :: 0 <= p < q < |line| && origin[line[p]] == origin[line[q]] ==> line[p] < line[q])
    && (forall i :: 0 <= i < |loops| && loops[i].Sending? ==> loops[i].id < |origin| && origin[loops[i].id] == i)
    && (forall i, p :: 0 <= i < |loops| && loops[i].Sending? && 0 <= p < |line| && origin[line[p]] == i ==>
          line[p] < loops[i].id)
  }

  ghost predicate OrderOk(s: State) {
    |s.origin| == |s.places| && Ordered(Line(s), s.origin, s.loops)
  }

  lemma AcceptOrder(s: State, i: nat)
    requires OrderOk(s) && Enabled(s, Accept(i))
    ensures OrderOk(Apply(s, Accept(i)))
  {
    hide Ids;
    assert Line(Apply(s, Accept(i))) == Line(s);
  }

  lemma SendOrder(s: State, i: nat)
    requires OrderOk(s) && Enabled(s, Send(i))
    ensures OrderOk(Apply(s, Send(i)))
  {
    hide Ids;
    IdsAppend(s.ch, Stream(s.loops[i].id));
    assert Line(Apply(s, Send(i))) == Line(s) + [s.loops[i].id];
  }

  lemma OtherOrder(s: State, a: Action)
    requires OrderOk(s) && Enabled(s, a) && !a.Accept? && !a.Send?
    ensures OrderOk(Apply(s, a))
  {
    hide Apply, Enabled, Line;
    if a.Receive? || a.Drain? {
      TakeLine(s, a);
    } else if ByCloser(a) {
      CloserLine(s, a);
    } else {
      OtherLine(s, a);
    }
  }

  // A caller takes the first in the line of the queued, the drainer takes it away.
  lemma TakeLine(s: State, a: Action)
    requires Enabled(s, a) && (a.Receive? || a.Drain?)
    ensures var s', h := Apply(s, a), |s.handed|;
      && s'.origin == s.origin && |s'.places| == |s.places| && s'.loops == s.loops
      && (Line(s') == Line(s) || (h < |Line(s)| && Line(s') == Line(s)[..h] + Line(s)[h + 1..]))
  {
    hide Ids;
    IdsFirst(s.ch);
    var h, ids := |s.handed|, Ids(s.ch[1..]);
    if s.ch[0].Stream? {
      var x := s.ch[0].id;
      assert Line(s) == s.handed + [x] + ids;
      assert (s.handed + [x] + ids)[..h] == s.handed && (s.handed + [x] + ids)[h + 1..] == ids;
    }
  }

  lemma OtherLine(s: State, a: Action)
    requires Enabled(s, a) && !a.Accept? && !a.Send? && !a.Receive? && !a.Drain? && !ByCloser(a)
    ensures var s' := Apply(s, a);
      && s'.origin == s.origin && |s'.places| == |s.places| && Line(s') == Line(s)
      && (forall i :: 0 <= i < |s'.loops| && s'.loops[i].Sending? ==> i < |s.loops| && s'.loops[i] == s.loops[i])
  {
    hide Ids;
    if a.Report? { IdsAppend(s.ch, Error); }
  }

  lemma CloserLine(s: State, a: Action)
    requires Enabled(s, a) && ByCloser(a)
    ensures var s' := Apply(s, a);
      s'.origin == s.origin && |s'.places| == |s.places| && Line(s') == Line(s) && s'.loops == s.loops
  {
    hide Ids;
  }

  lemma {:induction false} RunOrder(n: nat, ss: seq<State>, acts: seq<Action>, t: nat)
    requires IsRun(n, ss, acts) && t < |ss|
    ensures OrderOk(ss[t])
    decreases t
  {
    if t > 0 {
      hide Apply, OrderOk;
      RunOrder(n, ss, acts, t - 1);
      var s, a := ss[t - 1], acts[t - 1];
      assert Enabled(s, a);
      if a.Accept? {
        AcceptOrder(s, a.i);
      } else if a.Send? {
        SendOrder(s, a.i);
      } else {
        OtherOrder(s, a);
      }
    }
  }

  // The streams of each sub-connection are handed out in the order they were accepted.
  lemma HandedInOrder(n: nat, ss: seq<State>, acts: seq<Action>, t: nat, p: nat, q: nat)
    requires IsRun(n, ss, acts) && t < |ss| && p < q < |ss[t].handed|
    ensures ss[t].handed[p] < |ss[t].origin| && ss[t].handed[q] < |ss[t].origin|
    ensures ss[t].origin[ss[t].handed[p]] == ss[t].origin[ss[t].handed[q]] ==> ss[t].handed[p] < ss[t].handed[q]
  {
    RunOrder(n, ss, acts, t);
    var s := ss[t];
    assert Line(s)[p] == s.handed[p] && Line(s)[q] == s.handed[q];
  }

  // ---------- Close returns ----------

  function LoopWeight(l: Loop): nat {
    match l
    case Accepting => 4
    case Sending(_) => 6
    case Failed => 3
    case Reporting => 2
    case Exited => 0
  }

  function LoopsWeight(loops: seq<Loop>): nat {
    Sum(LoopWeight, loops)
  }

  lemma LoopsWeightUpdate(loops: seq<Loop>, i: nat, l: Loop)
    requires i < |loops|
    ensures LoopsWeight(loops[i := l]) == LoopsWeight(loops) - LoopWeight(loops[i]) + LoopWeight(l)
  {
    SumUpdate(LoopWeight, loops, i, l);
  }

  // What is left to do before every loop has returned and the channel is empty.
  function Weight(s: State): nat {
    LoopsWeight(s.loops) + |s.ch|
  }

  // Close call j has closed every sub-connection and waits.
  ghost predicate Waiting(n: nat, s: State, j: nat) {
    ShutOk(n, s) && j < |s.closers| && s.closers[j].WaitingAll?
  }

  lemma TakeDescends(s: State, a: Action)
    requires Enabled(s, a) && (a.Receive? || a.Drain?)
    ensures Weight(Apply(s, a)) < Weight(s)
  {
  }

  lemma LoopDescends(s: State, a: Action)
    requires Enabled(s, a) && !ByCloser(a) && !a.Receive? && !a.Drain?
    requires |s.open| == |s.loops| && forall i :: 0 <= i < |s.open| ==> !s.open[i]
    ensures Weight(Apply(s, a)) < Weight(s)
  {
    hide LoopsWeight;
    LoopsWeightUpdate(s.loops, a.i, Apply(s, a).loops[a.i]);
  }

  // From then on whatever anyone does, other than calling Close, is a step towards
  // the end: there are only so many.
  lemma WaitingDescends(n: nat, s: State, j: nat, a: Action)
    requires Waiting(n, s, j) && Enabled(s, a) && !ByCloser(a)
    ensures Waiting(n, Apply(s, a), j) && Weight(Apply(s, a)) < Weight(s)
  {
    hide ShutOk, Weight, Apply, Enabled;
    LoopStep(n, s, a);
    LoopSame(s, a);
    AllDown(n, s, j);
    if a.Receive? || a.Drain? {
      TakeDescends(s, a);
    } else {
      LoopDescends(s, a);
    }
  }

  lemma AllDown(n: nat, s: State, j: nat)
    requires Waiting(n, s, j)
    ensures |s.open| == |s.loops| == n && forall i :: 0 <= i < n ==> !s.open[i]
  {
    assert CloserOk(n, s, s.closers[j]);
  }

  // And until every loop has returned one of them can move, without the help of
  // any AcceptStream caller or of the drainer: a loop blocked on a full channel
  // sees its sub-connection done.
  lemma WaitingMoves(n: nat, s: State, j: nat) returns (a: Action)
    requires Waiting(n, s, j)
    ensures Enabled(s, a) && (a == Join(j) || (!ByCloser(a) && !a.Receive? && !a.Drain?))
  {
    AllDown(n, s, j);
    if i :| 0 <= i < n && !s.loops[i].Exited? {
      match s.loops[i]
      case Accepting => a := AcceptError(i);
      case Sending(_) => a := GiveUp(i);
      case Failed => a := CheckClosed(i);
      case Reporting => a := Report(i);
    } else {
      a := Join(j);
    }
  }

  // Nobody receives, neither a caller of AcceptStream nor the drainer.
  predicate Unread(acts: seq<Action>) {
    forall t :: 0 <= t < |acts| ==> !acts[t].Receive? && !acts[t].Drain?
  }

  ghost predicate Returned(s: State, j: nat) {
    j < |s.closers| && s.closers[j].Closed?
  }

  // There is a way for Close call j to return with nobody receiving.
  ghost predicate CanReturn(s: State, j: nat) {
    exists ss: seq<State>, acts: seq<Action> :: Path(s, ss, acts) && Unread(acts) && Returned(ss[|acts|], j)
  }

  lemma PathStep(s: State, a: Action, j: nat)
    requires Enabled(s, a) && !a.Receive? && !a.Drain? && CanReturn(Apply(s, a), j)
    ensures CanReturn(s, j)
  {
    hide Apply, Enabled;
    var ss: seq<State>, acts: seq<Action> :| Path(Apply(s, a), ss, acts) && Unread(acts) && Returned(ss[|acts|], j);
    var ss', acts' := [s] + ss, [a] + acts;
    assert Path(s, ss', acts') by {
      forall t | 0 <= t < |acts'|
        ensures Enabled(ss'[t], acts'[t]) && ss'[t + 1] == Apply(ss'[t], acts'[t])
      {
        if t > 0 { assert acts'[t] == acts[t - 1]; }
      }
    }
    assert ss'[|acts'|] == ss[|acts|];
  }

  lemma {:induction false} WinnerCanReturn(n: nat, s: State, j: nat)
    requires ShutOk(n, s) && j < |s.closers| && Winner(s.closers[j])
    ensures CanReturn(s, j)
    decreases (if s.closers[j].Closing? then 1 + |s.open| - s.closers[j].k else 0), Weight(s), !s.closers[j].Closed?
  {
    hide Weight, Apply, ShutOk;
    if s.closers[j].Closed? {
      assert Path(s, [s], []) && Unread([]) && Returned([s][0], j);
    } else if s.closers[j].Closing? {
      var a := CloseConn(j);
      ClosingMoves(n, s, j);
      CloserStep(n, s, a);
      WinnerCanReturn(n, Apply(s, a), j);
      PathStep(s, a, j);
    } else {
      var a := WaitingMoves(n, s, j);
      if a == Join(j) {
        CloserStep(n, s, a);
        Joined(s, j);
      } else {
        WaitingDescends(n, s, j, a);
      }
      WinnerCanReturn(n, Apply(s, a), j);
      PathStep(s, a, j);
    }
  }

  lemma ClosingMoves(n: nat, s: State, j: nat)
    requires ShutOk(n, s) && j < |s.closers| && s.closers[j].Closing?
    ensures Enabled(s, CloseConn(j)) && |Apply(s, CloseConn(j)).open| == |s.open|
    ensures |Apply(s, CloseConn(j)).closers| == |s.closers|
    ensures var c := Apply(s, CloseConn(j)).closers[j]; c == Closing(s.closers[j].k + 1) || c == WaitingAll
  {
    assert CloserOk(n, s, s.closers[j]);
  }

  lemma Joined(s: State, j: nat)
    requires Enabled(s, Join(j))
    ensures |Apply(s, Join(j)).closers| == |s.closers| && Apply(s, Join(j)).closers[j].Closed?
    ensures Weight(Apply(s, Join(j))) == Weight(s)
  {
  }

  // In every reachable state the Close call that won can still return: with every
  // stream unread, every channel slot full and nobody calling AcceptStream.
  lemma CloseCanReturn(n: nat, ss: seq<State>, acts: seq<Action>, t: nat, j: nat)
    requires IsRun(n, ss, acts) && t < |ss| && j < |ss[t].closers| && Winner(ss[t].closers[j])
    ensures CanReturn(ss[t], j)
  {
    RunShut(n, ss, acts, t);
    WinnerCanReturn(n, ss[t], j);
  }

  // ---------- every schedule ----------

  // How many steps are not a Close call's.
  function Moves(acts: seq<Action>): nat {
    if acts == [] then 0 else Moves(acts[..|acts| - 1]) + (if ByCloser(acts[|acts| - 1]) then 0 else 1)
  }

  // Other Close calls come and go without effect.
  lemma OthersTurnBack(n: nat, s: State, j: nat, a: Action)
    requires Waiting(n, s, j) && Enabled(s, a) && ByCloser(a) && a != Join(j)
    ensures Waiting(n, Apply(s, a), j) && Weight(Apply(s, a)) == Weight(s)
  {
    CloserStep(n, s, a);
    hide LoopsWeight;
    assert Winner(s.closers[j]) && s.closed;
    assert a.Call? || a.Swap?;
  }

  // However the loops, the callers, the drainer and other Close calls are scheduled,
  // the waiting one stays on the way: no more than Weight(s) steps can be taken by
  // anyone but Close calls before it joins.
  lemma {:induction false} WaitBounded(n: nat, s: State, j: nat, ss: seq<State>, acts: seq<Action>, t: nat)
    requires Waiting(n, s, j) && Path(s, ss, acts) && Join(j) !in acts && t <= |acts|
    ensures Waiting(n, ss[t], j) && Moves(acts[..t]) + Weight(ss[t]) <= Weight(s)
    decreases t
  {
    hide Waiting, Weight, Apply;
    if t > 0 {
      WaitBounded(n, s, j, ss, acts, t - 1);
      var a := acts[t - 1];
      assert Enabled(ss[t - 1], a) && a in acts;
      assert acts[..t][..t - 1] == acts[..t - 1];
      if ByCloser(a) {
        OthersTurnBack(n, ss[t - 1], j, a);
      } else {
        WaitingDescends(n, ss[t - 1], j, a);
      }
    }
  }

  // So under every schedule the wait ends: a path that Close calls alone could still
  // continue has every loop returned, and then Close call j can close the channel.
  lemma WaitEnds(n: nat, s: State, j: nat, ss: seq<State>, acts: seq<Action>)
    requires Waiting(n, s, j) && Path(s, ss, acts) && Join(j) !in acts
    ensures Moves(acts) <= Weight(s)
    ensures (forall a :: Enabled(ss[|acts|], a) ==> ByCloser(a)) ==> Enabled(ss[|acts|], Join(j))
  {
    hide Weight, Apply, Enabled, Waiting;
    WaitBounded(n, s, j, ss, acts, |acts|);
    assert acts[..|acts|] == acts;
    var a := WaitingMoves(n, ss[|acts|], j);
  }
}
