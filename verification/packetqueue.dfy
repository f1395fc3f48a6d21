// The drop-tail queue between the packet connection and its reader.
module PacketQueue {
  import opened Bytes

  const BUF_SIZE := 0x1_0000
  const QUEUE_SLOTS := 4096

  datatype Datagram = Datagram(data: seq<byte>, addr: string)

  // What fits into a buffer of n bytes.
  function Truncate(d: Datagram, n: nat): Datagram {
    if |d.data| <= n then d else d.(data := d.data[..n])
  }

  // The drain loop's step and the reader's, on the queue's contents.
  function Enqueue(q: seq<Datagram>, d: Datagram): seq<Datagram> {
    if |q| < QUEUE_SLOTS then q + [Truncate(d, BUF_SIZE)] else q
  }

  // ---------- the code ----------

  datatype Packet = Packet(data: array<byte>, addr: string)

  function Contents(queue: seq<Packet>): (q: seq<Datagram>)
    reads set k | 0 <= k < |queue| :: queue[k].data
    ensures |q| == |queue| && forall k :: 0 <= k < |queue| ==> q[k] == Datagram(queue[k].data[..], queue[k].addr)
  {
    if queue == [] then []
    else Contents(queue[..|queue| - 1]) + [Datagram(queue[|queue| - 1].data[..], queue[|queue| - 1].addr)]
  }

  class BufferedPacketConn {
    const buf: array<byte>
    var queue: seq<Packet>
    var done: bool

    constructor ()
      ensures Valid() && Queued() == [] && !done && fresh(buf)
    {
      buf := new byte[BUF_SIZE];
      queue, done := [], false;
    }

    // No queued packet shares the drain buffer.
    ghost predicate Valid()
      reads this
    {
      && buf.Length == BUF_SIZE
      && |queue| <= QUEUE_SLOTS
      && forall k :: 0 <= k < |queue| ==> queue[k].data != buf
    }

    function Queued(): seq<Datagram>
      reads this, set k | 0 <= k < |queue| :: queue[k].data
    {
      Contents(queue)
    }

    // One turn of the drain loop, on which the connection yields d into the reused
    // buffer.
    method Drain(d: Datagram)
      requires Valid()
      modifies this`queue, buf
      ensures Valid()
      ensures Queued() == Enqueue(old(Queued()), d)
      ensures |d.data| <= 65507 && |old(Queued())| < 4096 ==> Queued() == old(Queued()) + [d]
      ensures |old(Queued())| == 4096 ==> Queued() == old(Queued())
    {
      var n := Receive(d);
      var data := CopyOut(buf, n);
      if |queue| < QUEUE_SLOTS {
        var p := Packet(data, d.addr);
        assert (queue + [p])[..|queue|] == queue;
        queue := queue + [p];
      }
    }

    // PacketConn.ReadFrom(buf): it may scribble on the rest of the buffer.
    method Receive(d: Datagram) returns (n: nat)
      requires Valid()
      modifies buf
      ensures n <= BUF_SIZE && buf[..n] == Truncate(d, BUF_SIZE).data
      ensures Queued() == old(Queued())
    {
      n := if |d.data| <= BUF_SIZE then |d.data| else BUF_SIZE;
      forall k | 0 <= k < BUF_SIZE { buf[k] := if k < n then d.data[k] else 0; }
    }

    // The connection fails: the loop closes done and ends.
    method DrainFails()
      requires Valid() && !done
      modifies this`done
      ensures Valid() && done && Queued() == old(Queued())
    {
      done := true;
    }

    // copy(p, data)
    method Copy(p: array<byte>, data: array<byte>) returns (n: nat)
      requires p != data
      modifies p
      ensures n == (if data.Length <= p.Length then data.Length else p.Length) && p[..n] == data[..n]
    {
      n := if data.Length <= p.Length then data.Length else p.Length;
      forall k | 0 <= k < n { p[k] := data[k]; }
    }

    // ReadFrom into p, once it can go on; `closed` is the choice select makes when
    // both its channels are ready.
    method ReadFrom(p: array<byte>, closed: bool) returns (r: Option<(nat, string)>)
      requires Valid() && (queue != [] || done) && p != buf
      requires forall k :: 0 <= k < |queue| ==> queue[k].data != p
      modifies this`queue, p
      ensures Valid() && done == old(done)
      ensures r.None? <==> old(queue) == [] || (done && closed)
      ensures r.None? ==> Queued() == old(Queued()) && p[..] == old(p[..])
      ensures r.Some? ==>
        var d := Truncate(old(Queued())[0], p.Length);
        Queued() == old(Queued())[1..] && r.value == (|d.data|, d.addr) && p[..|d.data|] == d.data
    {
      if queue == [] || (done && closed) { return None; }
      ghost var q := Queued();
      var pkt := queue[0];
      var n := Copy(p, pkt.data);
      queue := queue[1..];
      assert Contents(queue) == q[1..];
      assert p[..n] == Truncate(q[0], p.Length).data;
      return Some((n, pkt.addr));
    }
  }

  // ---------- whole runs ----------

  // A turn of the drain loop or a successful read into a buffer of `room` bytes.
  datatype Event = Drained(d: Datagram) | Read(room: nat)

  // The queue with everything drained and returned so far. History: which of the
  // drained ones were queued, and the rooms they were read into.
  datatype Trace = Trace(drained: seq<Datagram>, queue: seq<Datagram>, returned: seq<Datagram>,
                         kept: seq<nat>, rooms: seq<nat>)

  predicate Possible(t: Trace, e: Event) {
    e.Read? ==> t.queue != []
  }

  // The connection may yield a datagram at any time, and one queued may be read.
  lemma AnyTime(t: Trace, d: Datagram, room: nat)
    ensures Possible(t, Drained(d)) && (Possible(t, Read(room)) <==> t.queue != [])
  {
  }

  function Next(t: Trace, e: Event): Trace
    requires Possible(t, e)
  {
    match e
    case Drained(d) =>
      t.(drained := t.drained + [d], queue := Enqueue(t.queue, d),
         kept := if |t.queue| < QUEUE_SLOTS then t.kept + [|t.drained|] else t.kept)
    case Read(room) =>
      t.(queue := t.queue[1..], returned := t.returned + [Truncate(t.queue[0], room)], rooms := t.rooms + [room])
  }

  const EMPTY := Trace([], [], [], [], [])

  ghost predicate IsRun(ts: seq<Trace>, es: seq<Event>) {
    && |ts| == |es| + 1
    && ts[0] == EMPTY
    && forall k {:trigger es[k]} :: 0 <= k < |es| ==> Possible(ts[k], es[k]) && ts[k + 1] == Next(ts[k], es[k])
  }

  // The kept datagrams, in the order drained and none twice, are the returned ones
  // and then the queued ones, each as it was but for the cut to a buffer's size.
  ghost predicate Inv(t: Trace) {
    && |t.queue| <= QUEUE_SLOTS
    && |t.kept| == |t.returned| + |t.queue|
    && |t.rooms| == |t.returned|
    && (forall j :: 0 <= j < |t.kept| ==> t.kept[j] < |t.drained|)
    && (forall j, k :: 0 <= j < k < |t.kept| ==> t.kept[j] < t.kept[k])
    && (forall j :: 0 <= j < |t.returned| ==>
          t.returned[j] == Truncate(Truncate(t.drained[t.kept[j]], BUF_SIZE), t.rooms[j]))
    && (forall j :: 0 <= j < |t.queue| ==> t.queue[j] == Truncate(t.drained[t.kept[|t.returned| + j]], BUF_SIZE))
  }

  lemma NextInv(t: Trace, e: Event)
    requires Inv(t) && Possible(t, e)
    ensures Inv(Next(t, e))
  {
    hide Truncate;
  }

  lemma {:induction false} RunInv(ts: seq<Trace>, es: seq<Event>, k: nat)
    requires IsRun(ts, es) && k < |ts|
    ensures Inv(ts[k])
    decreases k
  {
    if k > 0 {
      RunInv(ts, es, k - 1);
      assert Possible(ts[k - 1], es[k - 1]);
      NextInv(ts[k - 1], es[k - 1]);
    }
  }

  // Over any run, what the reader gets is an in-order, duplicate-free subsequence of
  // what was drained, and so is what is queued after it: datagrams as they were, those
  // returned cut to the reader's buffer.
  lemma InOrder(ts: seq<Trace>, es: seq<Event>, k: nat)
    requires IsRun(ts, es) && k < |ts|
    ensures var t := ts[k];
      && |t.kept| == |t.returned| + |t.queue| && |t.rooms| == |t.returned| && |t.queue| <= 4096
      && (forall j :: 0 <= j < |t.kept| ==> t.kept[j] < |t.drained|)
      && (forall i, j :: 0 <= i < j < |t.kept| ==> t.kept[i] < t.kept[j])
    ensures var t := ts[k]; forall j :: 0 <= j < |t.returned| && |t.drained[t.kept[j]].data| <= 65507 ==>
      t.returned[j] == Truncate(t.drained[t.kept[j]], t.rooms[j])
    ensures var t := ts[k]; forall j :: 0 <= j < |t.queue| && |t.drained[t.kept[|t.returned| + j]].data| <= 65507 ==>
      t.queue[j] == t.drained[t.kept[|t.returned| + j]]
  {
    RunInv(ts, es, k);
  }

  // A datagram is dropped exactly when it was drained with 4096 queued: then, and
  // only then, it is not among the kept ones at any later time.
  lemma DroppedOnlyWhenFull(ts: seq<Trace>, es: seq<Event>, k: nat, m: nat)
    requires IsRun(ts, es) && k < |es| && es[k].Drained? && k < m < |ts|
    ensures |ts[k].drained| !in ts[m].kept <==> |ts[k].queue| == 4096
  {
    var id := |ts[k].drained|;
    RunInv(ts, es, k);
    assert Possible(ts[k], es[k]);
    assert id in ts[k + 1].kept <==> |ts[k].queue| < QUEUE_SLOTS by {
      assert |ts[k].queue| < QUEUE_SLOTS ==> ts[k + 1].kept[|ts[k].kept|] == id;
    }
    KeptStays(ts, es, k + 1, m, id);
  }

  lemma {:induction false} KeptStays(ts: seq<Trace>, es: seq<Event>, k: nat, m: nat, id: nat)
    requires IsRun(ts, es) && k <= m < |ts| && id < |ts[k].drained|
    ensures id < |ts[m].drained| && (id in ts[m].kept <==> id in ts[k].kept)
    decreases m
  {
    if k < m {
      KeptStays(ts, es, k, m - 1, id);
      assert Possible(ts[m - 1], es[m - 1]);
    }
  }
}
