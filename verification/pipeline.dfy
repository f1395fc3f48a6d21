// One direction of the striped pipe as a transition system: the dispatcher, n
// writers, n byte streams of bounded capacity, n readers, the bounded fan-in
// channel and the reassembler, interleaved in any order.
module Pipeline {
  import opened Bytes
  import opened Codec
  import opened Reorder

  const CHUNK_SIZE := 0x1_0000

  // Fan-in slots per stripe.
  const FAN_SLOTS := 8

  // n stripes, each holding at most `cap` bytes in flight; the bytes the source
  // yields before it ends; and how much the destination takes before it fails.
  datatype Config = Config(n: nat, cap: nat, src: seq<byte>, limit: Option<nat>)

  predicate ValidConfig(c: Config) {
    1 <= c.n <= 255 && c.cap >= 1
  }

  // Where writeStripes stands: at src.Read, at the send on the unbuffered
  // dispatch channel (`last`: the read also returned an error), past
  // close(dispatch), writing the end marker of stream i, or returned.
  datatype Phase = Reading | Offering(payload: seq<byte>, last: bool) | Closing | Marking(i: nat) | Finished

  // Where a reader stands: in readChunk with `acc` read so far, at the send on
  // the fan-in channel, or returned.
  datatype Reader = Parsing(acc: seq<byte>) | Holding(item: Item) | Ended

  // One stripe: its writer (`rest` is what the current writeChunk has yet to
  // write), the bytes in flight, whether the stream is alive, and its reader.
  // The second line is history, which no step looks at: whether the end marker
  // has been started, the chunks its writer took, how many of them the reader
  // has parsed and the reassembler has received, and whether the reassembler has
  // received its end.
  datatype Lane = Lane(exited: bool, rest: seq<byte>, wire: seq<byte>, alive: bool, rd: Reader,
                       marked: bool, picked: seq<nat>, got: nat, seen: nat, eofSeen: bool)

  // The last line is history again: every chunk read from the source, which
  // stripe took each, and which have reached the reassembler.
  datatype State = State(taken: nat, phase: Phase, seqno: u32, sent: u64,
                         lanes: seq<Lane>, fan: seq<Item>, rx: Rx, eofs: nat, halted: bool,
                         chunks: seq<seq<byte>>, owner: seq<nat>, arrived: set<nat>)

  function Init(c: Config): State {
    var idle := Lane(false, [], [], true, Parsing([]), false, [], 0, 0, false);
    State(0, Reading, 0, 0, seq(c.n, _ => idle), [], Start(c.limit), 0, false, [], [], {})
  }

  // What one stripe does.
  datatype LaneStep =
    | Take   // its writer receives from the dispatch channel
    | Exit   // its writer finds the dispatch channel closed
    | Put    // the stream accepts one byte
    | Die    // the stream dies
    | Lose   // the dead stream swallows one byte
    | Fail   // the dead stream returns the write error
    | Pull   // the reader gets one byte
    | Break  // the reader gets the read error of the dead stream
    | Push   // the reader sends on the fan-in channel

  datatype Action =
    | Read(n: nat, last: bool)  // src.Read returns n bytes, perhaps with the error that ends the loop
    | ReadEof                   // src.Read returns 0 bytes and an error
    | BeginMarks                // wg.Wait returns
    | NextMark                  // one end marker is written out, on to the next
    | Recv                      // the reassembler receives and handles one item
    | On(i: nat, step: LaneStep)

  predicate LaneEnabled(c: Config, s: State, l: Lane, step: LaneStep) {
    match step
    case Take => s.phase.Offering? && !l.exited && l.rest == []
    case Exit => s.phase.Closing? && !l.exited && l.rest == []
    case Put => l.rest != [] && l.alive && |l.wire| < c.cap
    case Die => l.alive
    case Lose => l.rest != [] && !l.alive
    case Fail => l.rest != [] && !l.alive
    case Pull => l.rd.Parsing? && l.wire != []
    case Break => l.rd.Parsing? && !l.alive
    case Push => l.rd.Holding? && |s.fan| < FAN_SLOTS * |s.lanes|
  }

  predicate Enabled(c: Config, s: State, a: Action) {
    match a
    case Read(n, last) =>
      s.phase.Reading? && 1 <= n <= CHUNK_SIZE && s.taken + n <= |c.src| && (last ==> s.taken + n == |c.src|)
    case ReadEof => s.phase.Reading? && s.taken == |c.src|
    case BeginMarks => s.phase.Closing? && |s.lanes| > 0 && forall i :: 0 <= i < |s.lanes| ==> s.lanes[i].exited
    case NextMark => s.phase.Marking? && s.phase.i < |s.lanes| && s.lanes[s.phase.i].rest == []
    case Recv => s.fan != [] && s.fan[0].stripe < |s.lanes| && !s.halted && !s.rx.failed
    case On(i, step) => i < |s.lanes| && LaneEnabled(c, s, s.lanes[i], step)
  }

  // writeChunk(s, seq, nil) on stream i.
  function StartMark(s: State, i: nat): State
    requires i < |s.lanes|
  {
    var l := s.lanes[i];
    s.(phase := Marking(i), lanes := s.lanes[i := l.(rest := Frame(Chunk(s.seqno, [])), marked := true)])
  }

  // The reader's loop body once its chunk is complete.
  function Parsed(l: Lane, i: nat, acc: seq<byte>): Lane {
    match ParseChunk(acc)
    case Short => l.(rd := Parsing(acc))
    case Got(c, _) =>
      if c.payload == [] then l.(rd := Holding(Eof(i, c.seqno)))
      else l.(rd := Holding(Data(i, c.seqno, c.payload)), got := l.got + 1)
  }

  // What a step does to its own stripe.
  function StepLane(s: State, i: nat, l: Lane, step: LaneStep): Lane {
    match step
    case Take =>
      if !s.phase.Offering? then l
      else l.(rest := Frame(Chunk(s.seqno, s.phase.payload)), picked := l.picked + [|s.owner|])
    case Exit => l.(exited := true)
    case Put => if l.rest == [] then l else l.(rest := l.rest[1..], wire := l.wire + [l.rest[0]])
    case Die => l.(alive := false)
    case Lose => if l.rest == [] then l else l.(rest := l.rest[1..])
    case Fail => l.(rest := [], exited := true)
    case Pull =>
      if l.wire == [] || !l.rd.Parsing? then l
      else Parsed(l.(wire := l.wire[1..]), i, l.rd.acc + [l.wire[0]])
    case Break => l.(rd := Holding(Eof(i, 0)))
    case Push => if l.rd.Holding? && l.rd.item.Eof? then l.(rd := Ended) else l.(rd := Parsing([]))
  }

  // The reassembler's loop body, and its way out of the loop.
  function Receive(s: State): State
    requires s.fan != [] && s.fan[0].stripe < |s.lanes|
  {
    var x, i := s.fan[0], s.fan[0].stripe;
    var l := s.lanes[i];
    match x
    case Data(_, seqno, payload) =>
      s.(fan := s.fan[1..], rx := Arrive(s.rx, seqno, payload),
         lanes := s.lanes[i := l.(seen := l.seen + 1)],
         arrived := if l.seen < |l.picked| then s.arrived + {l.picked[l.seen]} else s.arrived)
    case Eof(_, _) =>
      var halt := s.eofs + 1 == |s.lanes|;
      s.(fan := s.fan[1..], eofs := s.eofs + 1, halted := halt, rx := if halt then Drain(s.rx) else s.rx,
         lanes := s.lanes[i := l.(eofSeen := true)])
  }

  function Apply(c: Config, s: State, a: Action): State
    requires Enabled(c, s, a)
  {
    match a
    case Read(n, last) =>
      var payload := c.src[s.taken..s.taken + n];
      s.(taken := s.taken + n, phase := Offering(payload, last), chunks := s.chunks + [payload])
    case ReadEof => s.(phase := Closing)
    case BeginMarks => StartMark(s, 0)
    case NextMark => if s.phase.i + 1 < |s.lanes| then StartMark(s, s.phase.i + 1) else s.(phase := Finished)
    case Recv => Receive(s)
    case On(i, step) =>
      var s' := s.(lanes := s.lanes[i := StepLane(s, i, s.lanes[i], step)]);
      match step
      case Take =>
        s'.(phase := if s.phase.last then Closing else Reading,
            seqno := (s.seqno + 1) % TWO32, sent := Add64(s.sent, |s.phase.payload|), owner := s.owner + [i])
      case Push => s'.(fan := s.fan + [s.lanes[i].rd.item])
      case _ => s'
  }

  // A run: any schedule of the goroutines, any way the source splits its bytes,
  // any stream dying at any moment.
  ghost predicate IsRun(c: Config, ss: seq<State>, acts: seq<Action>) {
    && ValidConfig(c)
    && |ss| == |acts| + 1
    && ss[0] == Init(c)
    && forall t {:trigger acts[t]} :: 0 <= t < |acts| ==>
         Enabled(c, ss[t], acts[t]) && ss[t + 1] == Apply(c, ss[t], acts[t])
  }

  ghost predicate FailureFree(c: Config, acts: seq<Action>) {
    && c.limit.None?
    && forall t :: 0 <= t < |acts| ==> !(acts[t].On? && acts[t].step.Die?)
  }

  // The true index of the chunk the reassembler receives next.
  ghost predicate HeadInWindow(s: State) {
    s.fan != [] && s.fan[0].Data? && s.fan[0].stripe < |s.lanes| ==>
      var l := s.lanes[s.fan[0].stripe];
      l.seen < |l.picked| ==> l.picked[l.seen] < s.rx.written + TWO32
  }

  // No chunk is received 2^32 or more ahead of the one waited for.
  ghost predicate Windowed(ss: seq<State>) {
    forall t :: 0 <= t < |ss| ==> HeadInWindow(ss[t])
  }
}
