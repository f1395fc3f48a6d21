// What every step of the pipe keeps, stripe by stripe: which chunks a stripe
// carries, where each of its bytes is, and what of it lies in the fan-in channel.
module PipelineFlow {
  import opened Bytes
  import opened Codec
  import opened Reorder
  import opened Pipeline

  // ---------- one stripe ----------

  // The chunks with indices ks, as framed.
  function Tagged(ks: seq<nat>, chunks: seq<seq<byte>>): seq<Chunk> {
    seq(|ks|, j requires 0 <= j < |ks| => Chunk(Num(ks[j]), if ks[j] < |chunks| then chunks[ks[j]] else []))
  }

  function ItemOf(i: nat, k: nat, chunks: seq<seq<byte>>): Item {
    Data(i, Num(k), if k < |chunks| then chunks[k] else [])
  }

  predicate ChunksSized(chunks: seq<seq<byte>>) {
    forall k :: 0 <= k < |chunks| ==> 1 <= |chunks[k]| <= CHUNK_SIZE
  }

  // The stripe's chunks are the ones its writer took, in the order of the source.
  predicate PickedOk(picked: seq<nat>, i: nat, chunks: seq<seq<byte>>, owner: seq<nat>) {
    && |owner| <= |chunks|
    && (forall j :: 0 <= j < |picked| ==> picked[j] < |owner| && owner[picked[j]] == i)
    && (forall j, k :: 0 <= j < k < |picked| ==> picked[j] < picked[k])
  }

  predicate HasEnded(l: Lane) {
    l.rd.Ended? || (l.rd.Holding? && l.rd.item.Eof?)
  }

  // How many chunks have gone into the fan-in channel.
  function Pushed(l: Lane): int {
    if l.rd.Holding? && l.rd.item.Data? then l.got - 1 else l.got
  }

  predicate CutsOk(l: Lane) {
    l.seen <= Pushed(l) <= l.got <= |l.picked|
  }

  function Acc(l: Lane): seq<byte> {
    if l.rd.Parsing? then l.rd.acc else []
  }

  // The bytes the reader has yet to parse, if every writeChunk so far succeeds.
  function Ahead(l: Lane, chunks: seq<seq<byte>>, mark: u32): seq<byte>
    requires l.got <= |l.picked|
  {
    Frames(Tagged(l.picked[l.got..], chunks)) + (if l.marked then Frame(Chunk(mark, [])) else [])
  }

  predicate Fits(acc: seq<byte>, wire: seq<byte>, rest: seq<byte>, ahead: seq<byte>, alive: bool) {
    acc + wire <= ahead && (alive ==> acc + wire + rest == ahead)
  }

  lemma FitsMore(acc: seq<byte>, wire: seq<byte>, rest: seq<byte>, ahead: seq<byte>, alive: bool, f: seq<byte>)
    requires Fits(acc, wire, rest, ahead, alive) && rest == []
    ensures Fits(acc, wire, f, ahead + f, alive)
  {
    assert acc + wire + [] == acc + wire;
  }

  lemma FitsMoved(acc: seq<byte>, wire: seq<byte>, rest: seq<byte>, ahead: seq<byte>, alive: bool)
    requires Fits(acc, wire, rest, ahead, alive)
    ensures wire != [] ==> Fits(acc + [wire[0]], wire[1..], rest, ahead, alive)
    ensures rest != [] && alive ==> Fits(acc, wire + [rest[0]], rest[1..], ahead, alive)
  {
    if wire != [] {
      assert acc + [wire[0]] + wire[1..] == acc + wire;
    }
    if rest != [] {
      assert acc + (wire + [rest[0]]) + rest[1..] == acc + wire + rest;
    }
  }

  lemma FitsParsed(f: seq<byte>, wire: seq<byte>, rest: seq<byte>, tail: seq<byte>, alive: bool)
    requires Fits(f, wire, rest, f + tail, alive)
    ensures Fits([], wire, rest, tail, alive)
  {
    assert (f + wire)[|f|..] == wire && (f + tail)[|f|..] == tail;
    assert (f + tail)[|f|..][..|wire|] == (f + tail)[..|f| + |wire|][|f|..];
    assert (f + wire + rest)[|f|..] == wire + rest;
    assert [] + wire == wire;
  }

  // Every byte is accounted for: what the reader has of the next chunk, what is in
  // flight and, on a live stream, what is still to be written make up exactly the
  // frames ahead. On a dead one only a beginning of them is left.
  predicate WireOk(l: Lane, i: nat, chunks: seq<seq<byte>>, mark: u32)
    requires CutsOk(l)
  {
    && (HasEnded(l) ==> l.alive ==> l.got == |l.picked| && l.marked && l.wire == [] && l.rest == [])
    && (!HasEnded(l) ==> Fits(Acc(l), l.wire, l.rest, Ahead(l, chunks, mark), l.alive))
    && (l.rd.Parsing? ==> ParseChunk(l.rd.acc).Short?)
    && (l.rd.Holding? ==> l.rd.item.stripe == i)
    && (l.rd.Holding? && l.rd.item.Data? ==> l.got > 0 && l.rd.item == ItemOf(i, l.picked[l.got - 1], chunks))
  }

  // The stripe's share of the fan-in channel: its chunks between the one last
  // received and the one last sent, then its end if that was sent.
  predicate QueueOk(picked: seq<nat>, seen: nat, pushed: int, ended: bool, eofSeen: bool,
                    i: nat, chunks: seq<seq<byte>>, queued: seq<Item>)
    requires seen <= pushed <= |picked|
  {
    && |queued| == pushed - seen + (if ended && !eofSeen then 1 else 0)
    && (forall j :: 0 <= j < pushed - seen ==> queued[j] == ItemOf(i, picked[seen + j], chunks))
    && (ended && !eofSeen ==> queued[pushed - seen].Eof?)
    && (eofSeen ==> ended && seen == pushed)
  }

  predicate LaneOk(l: Lane, i: nat, chunks: seq<seq<byte>>, owner: seq<nat>, mark: u32, queued: seq<Item>) {
    && PickedOk(l.picked, i, chunks, owner)
    && CutsOk(l)
    && WireOk(l, i, chunks, mark)
    && QueueOk(l.picked, l.seen, Pushed(l), l.rd.Ended?, l.eofSeen, i, chunks, queued)
  }

  // The items of stripe i in the fan-in channel.
  function Queued(fan: seq<Item>, i: nat): seq<Item> {
    if fan == [] then []
    else (if fan[0].stripe == i then [fan[0]] else []) + Queued(fan[1..], i)
  }

  lemma {:induction false} QueuedAppend(fan: seq<Item>, x: Item, i: nat)
    ensures Queued(fan + [x], i) == Queued(fan, i) + if x.stripe == i then [x] else []
    decreases |fan|
  {
    if fan == [] {
      assert [x][1..] == [];
    } else {
      assert (fan + [x])[1..] == fan[1..] + [x];
      QueuedAppend(fan[1..], x, i);
    }
  }

  // More chunks read, or taken by others, change nothing for a stripe.
  lemma LaneGrows(l: Lane, i: nat, chunks: seq<seq<byte>>, chunks': seq<seq<byte>>, owner: seq<nat>, owner': seq<nat>,
                  mark: u32, mark': u32, queued: seq<Item>)
    requires LaneOk(l, i, chunks, owner, mark, queued)
    requires chunks <= chunks' && owner <= owner' && |owner'| <= |chunks'|
    requires mark == mark' || !l.marked
    ensures LaneOk(l, i, chunks', owner', mark', queued)
  {
    hide Frame, Frames, Num, ParseChunk, Fits;
    assert Tagged(l.picked[l.got..], chunks') == Tagged(l.picked[l.got..], chunks);
  }

  // The writer takes chunk k = |owner|.
  lemma TakeLane(l: Lane, i: nat, chunks: seq<seq<byte>>, owner: seq<nat>, mark: u32, mark': u32, queued: seq<Item>)
    requires LaneOk(l, i, chunks, owner, mark, queued)
    requires |chunks| == |owner| + 1 && !l.marked && l.rest == []
    ensures LaneOk(l.(rest := Frame(Chunk(Num(|owner|), chunks[|owner|])), picked := l.picked + [|owner|]),
                   i, chunks, owner + [i], mark', queued)
  {
    hide Frame, Num, PickedOk, WireOk, QueueOk;
    TakePicked(l.picked, i, chunks, owner);
    TakeWire(l, i, |owner|, chunks, mark, mark');
    TakeQueue(l.picked, |owner|, l.seen, Pushed(l), l.rd.Ended?, l.eofSeen, i, chunks, queued);
  }

  lemma TakePicked(picked: seq<nat>, i: nat, chunks: seq<seq<byte>>, owner: seq<nat>)
    requires PickedOk(picked, i, chunks, owner) && |owner| < |chunks|
    ensures PickedOk(picked + [|owner|], i, chunks, owner + [i])
  {
  }

  lemma TakeWire(l: Lane, i: nat, k: nat, chunks: seq<seq<byte>>, mark: u32, mark': u32)
    requires CutsOk(l) && WireOk(l, i, chunks, mark) && !l.marked && l.rest == [] && k < |chunks|
    ensures WireOk(l.(rest := Frame(Chunk(Num(k), chunks[k])), picked := l.picked + [k]), i, chunks, mark')
  {
    hide Frame, Num, Ahead, Fits;
    AheadTakes(l, k, chunks, mark, mark');
    if !HasEnded(l) {
      FitsMore(Acc(l), l.wire, l.rest, Ahead(l, chunks, mark), l.alive, Frame(Chunk(Num(k), chunks[k])));
    }
  }

  lemma TakeQueue(picked: seq<nat>, k: nat, seen: nat, pushed: int, ended: bool, eofSeen: bool,
                  i: nat, chunks: seq<seq<byte>>, queued: seq<Item>)
    requires seen <= pushed <= |picked| && QueueOk(picked, seen, pushed, ended, eofSeen, i, chunks, queued)
    ensures QueueOk(picked + [k], seen, pushed, ended, eofSeen, i, chunks, queued)
  {
  }

  lemma AheadTakes(l: Lane, k: nat, chunks: seq<seq<byte>>, mark: u32, mark': u32)
    requires l.got <= |l.picked| && !l.marked && k < |chunks|
    ensures Ahead(l.(rest := Frame(Chunk(Num(k), chunks[k])), picked := l.picked + [k]), chunks, mark')
         == Ahead(l, chunks, mark) + Frame(Chunk(Num(k), chunks[k]))
  {
    var c := Chunk(Num(k), chunks[k]);
    assert (l.picked + [k])[l.got..] == l.picked[l.got..] + [k];
    assert Tagged(l.picked[l.got..] + [k], chunks) == Tagged(l.picked[l.got..], chunks) + [c];
    FramesAppend(Tagged(l.picked[l.got..], chunks), c);
  }

  lemma AheadMarked(l: Lane, chunks: seq<seq<byte>>, mark: u32)
    requires l.got <= |l.picked| && !l.marked
    ensures Ahead(l.(rest := Frame(Chunk(mark, [])), marked := true), chunks, mark)
         == Ahead(l, chunks, mark) + Frame(Chunk(mark, []))
  {
  }

  // The end marker is started.
  lemma MarkLane(l: Lane, i: nat, chunks: seq<seq<byte>>, owner: seq<nat>, mark: u32, queued: seq<Item>)
    requires LaneOk(l, i, chunks, owner, mark, queued) && !l.marked && l.rest == []
    ensures LaneOk(l.(rest := Frame(Chunk(mark, [])), marked := true), i, chunks, owner, mark, queued)
  {
    hide Frame, Num, PickedOk, QueueOk, Ahead, Fits;
    AheadMarked(l, chunks, mark);
    if !HasEnded(l) {
      FitsMore(Acc(l), l.wire, l.rest, Ahead(l, chunks, mark), l.alive, Frame(Chunk(mark, [])));
    }
  }

  // The frames ahead depend on little of the stripe.
  lemma AheadSame(l: Lane, l': Lane, chunks: seq<seq<byte>>, mark: u32)
    requires l.got == l'.got <= |l.picked| && l.picked == l'.picked && l.marked == l'.marked
    ensures Ahead(l', chunks, mark) == Ahead(l, chunks, mark)
  {
  }

  // The writer finds the dispatch channel closed, or the stream dies, or on a dead
  // stream the rest of a write vanishes.
  lemma SlackLane(l: Lane, l': Lane, i: nat, chunks: seq<seq<byte>>, owner: seq<nat>, mark: u32, queued: seq<Item>)
    requires LaneOk(l, i, chunks, owner, mark, queued)
    requires l' == l.(exited := true) || l' == l.(alive := false)
      || (!l.alive && l' == l.(rest := l'.rest, exited := l'.exited))
    ensures LaneOk(l', i, chunks, owner, mark, queued)
  {
    hide PickedOk, QueueOk, Ahead;
    AheadSame(l, l', chunks, mark);
  }

  // The reader of a dead stream gives up.
  lemma BreakLane(l: Lane, i: nat, chunks: seq<seq<byte>>, owner: seq<nat>, mark: u32, queued: seq<Item>)
    requires LaneOk(l, i, chunks, owner, mark, queued) && !l.alive && l.rd.Parsing?
    ensures LaneOk(l.(rd := Holding(Eof(i, 0))), i, chunks, owner, mark, queued)
  {
    hide PickedOk, QueueOk, Ahead, Fits;
  }

  lemma PutLane(l: Lane, i: nat, chunks: seq<seq<byte>>, owner: seq<nat>, mark: u32, queued: seq<Item>)
    requires LaneOk(l, i, chunks, owner, mark, queued) && l.alive && l.rest != []
    ensures LaneOk(l.(rest := l.rest[1..], wire := l.wire + [l.rest[0]]), i, chunks, owner, mark, queued)
  {
    hide PickedOk, QueueOk, Ahead, Fits;
    AheadSame(l, l.(rest := l.rest[1..], wire := l.wire + [l.rest[0]]), chunks, mark);
    if !HasEnded(l) {
      FitsMoved(Acc(l), l.wire, l.rest, Ahead(l, chunks, mark), l.alive);
    }
  }

  // One byte more completes at most one frame, and then exactly that frame.
  lemma NextFrame(acc: seq<byte>, b: byte, c: Chunk, tail: seq<byte>)
    requires Sized(c) && ParseChunk(acc).Short? && ParseChunk(acc + [b]).Got? && acc + [b] <= Frame(c) + tail
    ensures acc + [b] == Frame(c) && ParseChunk(acc + [b]) == Got(c, [])
  {
    var s, n := Frame(c) + tail, |acc|;
    assert s[..n] == acc && s[..n + 1] == acc + [b];
    ParsePrefix(c, tail, n);
    ParsePrefix(c, tail, n + 1);
    assert tail[..0] == [];
    assert s[..n + 1] == Frame(c);
  }

  lemma PullLane(l: Lane, i: nat, chunks: seq<seq<byte>>, owner: seq<nat>, mark: u32, queued: seq<Item>)
    requires LaneOk(l, i, chunks, owner, mark, queued) && ChunksSized(chunks) && l.rd.Parsing? && l.wire != []
    ensures LaneOk(Parsed(l.(wire := l.wire[1..]), i, l.rd.acc + [l.wire[0]]), i, chunks, owner, mark, queued)
  {
    hide PickedOk, QueueOk, Ahead, Fits;
    var acc := l.rd.acc + [l.wire[0]];
    AheadSame(l, l.(rd := Parsing(acc), wire := l.wire[1..]), chunks, mark);
    FitsMoved(l.rd.acc, l.wire, l.rest, Ahead(l, chunks, mark), l.alive);
    if ParseChunk(acc).Got? {
      if l.got < |l.picked| {
        PullData(l, i, chunks, owner, mark, queued);
      } else {
        PullMark(l, i, chunks, owner, mark, queued);
      }
    }
  }

  lemma PullData(l: Lane, i: nat, chunks: seq<seq<byte>>, owner: seq<nat>, mark: u32, queued: seq<Item>)
    requires LaneOk(l, i, chunks, owner, mark, queued) && ChunksSized(chunks) && l.rd.Parsing? && l.wire != []
    requires Fits(l.rd.acc + [l.wire[0]], l.wire[1..], l.rest, Ahead(l, chunks, mark), l.alive)
    requires ParseChunk(l.rd.acc + [l.wire[0]]).Got? && l.got < |l.picked|
    ensures LaneOk(Parsed(l.(wire := l.wire[1..]), i, l.rd.acc + [l.wire[0]]), i, chunks, owner, mark, queued)
  {
    hide Frame, Num, QueueOk, Ahead;
    var k, tail := l.picked[l.got], Ahead(l.(got := l.got + 1), chunks, mark);
    AheadNext(l, chunks, mark);
    NextFrame(l.rd.acc, l.wire[0], Chunk(Num(k), chunks[k]), tail);
    FitsParsed(Frame(Chunk(Num(k), chunks[k])), l.wire[1..], l.rest, tail, l.alive);
    HoldData(l, i, chunks, owner, mark, queued, l.wire[1..]);
  }

  lemma AheadNext(l: Lane, chunks: seq<seq<byte>>, mark: u32)
    requires l.got < |l.picked| && l.picked[l.got] < |chunks|
    ensures var k := l.picked[l.got];
      Ahead(l, chunks, mark) == Frame(Chunk(Num(k), chunks[k])) + Ahead(l.(got := l.got + 1), chunks, mark)
  {
    assert Tagged(l.picked[l.got..], chunks)[1..] == Tagged(l.picked[l.got + 1..], chunks);
  }

  lemma HoldData(l: Lane, i: nat, chunks: seq<seq<byte>>, owner: seq<nat>, mark: u32, queued: seq<Item>,
                 wire: seq<byte>)
    requires LaneOk(l, i, chunks, owner, mark, queued) && l.rd.Parsing? && l.got < |l.picked|
    requires Fits([], wire, l.rest, Ahead(l.(got := l.got + 1), chunks, mark), l.alive)
    ensures LaneOk(l.(wire := wire, rd := Holding(ItemOf(i, l.picked[l.got], chunks)), got := l.got + 1),
                   i, chunks, owner, mark, queued)
  {
    hide PickedOk, QueueOk, Ahead, Fits;
    var l' := l.(wire := wire, rd := Holding(ItemOf(i, l.picked[l.got], chunks)), got := l.got + 1);
    AheadSame(l.(got := l.got + 1), l', chunks, mark);
    assert Ahead(l', chunks, mark) == Ahead(l.(got := l.got + 1), chunks, mark);
  }

  lemma PullMark(l: Lane, i: nat, chunks: seq<seq<byte>>, owner: seq<nat>, mark: u32, queued: seq<Item>)
    requires LaneOk(l, i, chunks, owner, mark, queued) && ChunksSized(chunks) && l.rd.Parsing? && l.wire != []
    requires Fits(l.rd.acc + [l.wire[0]], l.wire[1..], l.rest, Ahead(l, chunks, mark), l.alive)
    requires ParseChunk(l.rd.acc + [l.wire[0]]).Got? && l.got == |l.picked|
    ensures LaneOk(Parsed(l.(wire := l.wire[1..]), i, l.rd.acc + [l.wire[0]]), i, chunks, owner, mark, queued)
  {
    hide Frame, PickedOk, QueueOk, Fits;
    assert Tagged(l.picked[l.got..], chunks) == [];
    assert l.marked by { FitsSome(l.rd.acc + [l.wire[0]], l.wire[1..], l.rest, Ahead(l, chunks, mark), l.alive); }
    MarkParsed(l.rd.acc, l.wire, l.rest, l.alive, mark, Ahead(l, chunks, mark));
  }

  lemma FitsSome(acc: seq<byte>, wire: seq<byte>, rest: seq<byte>, ahead: seq<byte>, alive: bool)
    requires Fits(acc, wire, rest, ahead, alive) && acc != []
    ensures ahead != []
  {
  }

  lemma MarkParsed(acc: seq<byte>, wire: seq<byte>, rest: seq<byte>, alive: bool, mark: u32, ahead: seq<byte>)
    requires wire != [] && ParseChunk(acc).Short? && ParseChunk(acc + [wire[0]]).Got?
    requires ahead == [] + Frame(Chunk(mark, [])) && Fits(acc + [wire[0]], wire[1..], rest, ahead, alive)
    ensures ParseChunk(acc + [wire[0]]) == Got(Chunk(mark, []), [])
    ensures wire[1..] == [] && (alive ==> rest == [])
  {
    var f := Frame(Chunk(mark, []));
    assert ahead == f + [];
    NextFrame(acc, wire[0], Chunk(mark, []), []);
    FitsParsed(f, wire[1..], rest, [], alive);
  }

  lemma PushLane(l: Lane, i: nat, chunks: seq<seq<byte>>, owner: seq<nat>, mark: u32, queued: seq<Item>)
    requires LaneOk(l, i, chunks, owner, mark, queued) && l.rd.Holding?
    ensures LaneOk(if l.rd.item.Eof? then l.(rd := Ended) else l.(rd := Parsing([])),
                   i, chunks, owner, mark, queued + [l.rd.item])
  {
    hide PickedOk, Ahead, Fits, Frame, Num;
    AheadSame(l, l.(rd := Parsing([])), chunks, mark);
  }

  lemma RecvQueue(picked: seq<nat>, seen: nat, pushed: int, ended: bool, eofSeen: bool,
                  i: nat, chunks: seq<seq<byte>>, queued: seq<Item>)
    requires seen <= pushed <= |picked| && queued != []
    requires QueueOk(picked, seen, pushed, ended, eofSeen, i, chunks, queued)
    ensures queued[0].Data? ==> seen < pushed && queued[0] == ItemOf(i, picked[seen], chunks)
    ensures queued[0].Data? ==> QueueOk(picked, seen + 1, pushed, ended, eofSeen, i, chunks, queued[1..])
    ensures queued[0].Eof? ==> ended && !eofSeen && seen == pushed && |queued| == 1
    ensures queued[0].Eof? ==> QueueOk(picked, seen, pushed, ended, true, i, chunks, queued[1..])
  {
    hide Num;
  }

  // What the reassembler has seen does not matter to the bytes.
  lemma SeenWire(l: Lane, l': Lane, i: nat, chunks: seq<seq<byte>>, mark: u32)
    requires CutsOk(l) && WireOk(l, i, chunks, mark)
    requires l' == l.(seen := l'.seen, eofSeen := l'.eofSeen) && CutsOk(l')
    ensures WireOk(l', i, chunks, mark)
  {
    hide Ahead, Fits, Num, ParseChunk;
    AheadSame(l, l', chunks, mark);
  }

  lemma RecvLane(l: Lane, i: nat, chunks: seq<seq<byte>>, owner: seq<nat>, mark: u32, queued: seq<Item>)
    requires LaneOk(l, i, chunks, owner, mark, queued) && queued != []
    ensures queued[0].Data? ==> l.seen < Pushed(l) && queued[0] == ItemOf(i, l.picked[l.seen], chunks)
    ensures queued[0].Eof? ==> l.rd.Ended? && !l.eofSeen && l.seen == l.got && |queued| == 1
    ensures LaneOk(if queued[0].Data? then l.(seen := l.seen + 1) else l.(eofSeen := true),
                   i, chunks, owner, mark, queued[1..])
  {
    hide PickedOk, WireOk, QueueOk, ItemOf;
    RecvQueue(l.picked, l.seen, Pushed(l), l.rd.Ended?, l.eofSeen, i, chunks, queued);
    SeenWire(l, if queued[0].Data? then l.(seen := l.seen + 1) else l.(eofSeen := true), i, chunks, mark);
  }
}
