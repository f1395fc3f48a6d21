// The receiving end of the pipe: the reorder map that turns chunks arriving in
// any order back into the byte stream.
module Reorder {
  import opened Bytes
  import opened Codec

  // The concatenation of the chunks read from the source.
  function Flat(chunks: seq<seq<byte>>): (b: seq<byte>)
    ensures chunks == [] ==> b == []
  {
    if chunks == [] then [] else Flat(chunks[..|chunks| - 1]) + chunks[|chunks| - 1]
  }

  lemma FlatAppend(chunks: seq<seq<byte>>, p: seq<byte>)
    ensures Flat(chunks + [p]) == Flat(chunks) + p
  {
    assert (chunks + [p])[..|chunks|] == chunks;
  }

  lemma {:induction false} FlatPrefix(chunks: seq<seq<byte>>, m: nat)
    requires m <= |chunks|
    ensures Flat(chunks[..m]) <= Flat(chunks)
    decreases |chunks|
  {
    if m < |chunks| {
      var init := chunks[..|chunks| - 1];
      FlatPrefix(init, m);
      assert init[..m] == chunks[..m];
    } else {
      assert chunks[..m] == chunks;
    }
  }

  // The state of the reassembly loop: the map of early chunks, the sequence
  // number it waits for, and what it has written to a destination which fails
  // once it has taken `limit` bytes (None: it never fails). `written` is the
  // unbounded twin of the 32-bit `next`; the loop itself never looks at it.
  datatype Rx = Rx(pending: map<u32, seq<byte>>, next: u32, out: seq<byte>, counter: u64,
                   limit: Option<nat>, failed: bool, written: nat)

  function Start(limit: Option<nat>): Rx {
    Rx(map[], 0, [], 0, limit, false, 0)
  }

  // dst.Write of one payload, counter and nextSeq.
  function WriteOut(r: Rx, p: seq<byte>): Rx {
    if r.limit.Some? && |r.out| + |p| > r.limit.value then
      var took := if |r.out| <= r.limit.value then r.limit.value - |r.out| else 0;
      r.(out := r.out + p[..took], failed := true)
    else
      r.(out := r.out + p, counter := Add64(r.counter, |p|), next := (r.next + 1) % TWO32, written := r.written + 1)
  }

  // The inner loop: write out whatever has become consecutive.
  function Drain(r: Rx): Rx
    decreases |r.pending|
  {
    if r.failed || r.next !in r.pending then r
    else Drain(WriteOut(r.(pending := r.pending - {r.next}), r.pending[r.next]))
  }

  // One data chunk off the fan-in channel.
  function Arrive(r: Rx, seqno: u32, payload: seq<byte>): Rx {
    if seqno != r.next then r.(pending := r.pending[seqno := payload])
    else Drain(WriteOut(r, payload))
  }

  // The loop over everything that comes off the channel. It ends at the n-th end
  // of stream, or when the channel is closed, with one last drain; or when the
  // destination fails.
  function Consume(items: seq<Item>, n: nat, r: Rx, eofs: nat): Rx {
    if r.failed then r
    else if items == [] then Drain(r)
    else match items[0]
      case Eof(_, _) => if eofs + 1 == n then Drain(r) else Consume(items[1..], n, r, eofs + 1)
      case Data(_, seqno, payload) => Consume(items[1..], n, Arrive(r, seqno, payload), eofs)
  }

  // The inner loop as it stands in the code.
  method DrainPending(r0: Rx) returns (r: Rx)
    requires !r0.failed
    ensures r == Drain(r0)
  {
    var pending: map<u32, seq<byte>>, next: u32, counter: u64 := r0.pending, r0.next, r0.counter;
    var out, written := r0.out, r0.written;
    while true
      invariant Drain(r0) == Drain(Rx(pending, next, out, counter, r0.limit, false, written))
      decreases |pending|
    {
      ghost var was := Rx(pending, next, out, counter, r0.limit, false, written);
      if next !in pending {
        break;
      }
      var p := pending[next];
      pending := pending - {next};
      if r0.limit.Some? && |out| + |p| > r0.limit.value {
        var took := if |out| <= r0.limit.value then r0.limit.value - |out| else 0;
        return Rx(pending, next, out + p[..took], counter, r0.limit, true, written);
      }
      out := out + p;
      counter := Add64(counter, |p|);
      next := (next + 1) % TWO32;
      written := written + 1;
      assert Drain(was) == Drain(Rx(pending, next, out, counter, r0.limit, false, written));
    }
    return Rx(pending, next, out, counter, r0.limit, false, written);
  }

  // readStripesToTCP after its readers are started: `arrivals` is what comes off
  // the fan-in channel until it is closed.
  method Reassemble(arrivals: seq<Item>, n: nat, limit: Option<nat>) returns (r: Rx)
    ensures r == Consume(arrivals, n, Start(limit), 0)
  {
    r := Start(limit);
    var eofs := 0;
    for i := 0 to |arrivals|
      invariant !r.failed
      invariant Consume(arrivals, n, Start(limit), 0) == Consume(arrivals[i..], n, r, eofs)
    {
      var c := arrivals[i];
      assert arrivals[i..][1..] == arrivals[i + 1..];
      if c.Eof? {
        eofs := eofs + 1;
        if eofs == n { break; }
        continue;
      }
      if c.seqno == r.next {
        r := WriteOut(r, c.payload);
        if r.failed { return; }
        r := DrainPending(r);
        if r.failed { return; }
      } else {
        r := r.(pending := r.pending[c.seqno := c.payload]);
      }
    }
    r := DrainPending(r);
  }

  // ---------- what the loop is for ----------

  // The state stands for the set `arrived` of chunk indices: everything up to the
  // first gap is written, everything above it is pending under its 32-bit number.
  ghost predicate Represents(r: Rx, chunks: seq<seq<byte>>, arrived: set<nat>) {
    && !r.failed
    && r.written !in arrived
    && Written(r, chunks, arrived)
  }

  // The same, but the chunk waited for may itself be pending: between two turns
  // of the inner loop.
  ghost predicate Written(r: Rx, chunks: seq<seq<byte>>, arrived: set<nat>) {
    && r.written <= |chunks|
    && UpTo(r.written, |chunks|, arrived)
    && Holds(r.pending, r.written, chunks, arrived)
    && r.next == Num(r.written)
    && r.out == Flat(chunks[..r.written])
    && r.counter == |r.out| % TWO64
  }

  // The number a chunk travels under.
  function Num(k: nat): u32 {
    k % TWO32
  }

  ghost predicate UpTo(m: nat, n: nat, arrived: set<nat>) {
    && (forall k :: 0 <= k < m ==> k in arrived)
    && (forall k :: k in arrived ==> k < n && k < m + TWO32)
  }

  ghost predicate Holds(pending: map<u32, seq<byte>>, m: nat, chunks: seq<seq<byte>>, arrived: set<nat>) {
    && (forall k :: k in arrived && m <= k < |chunks| ==> Num(k) in pending && pending[Num(k)] == chunks[k])
    && (forall u :: u in pending ==> exists k :: k in arrived && m <= k && Num(k) == u)
  }

  // The destination failed in the middle of one chunk.
  ghost predicate Broken(r: Rx, chunks: seq<seq<byte>>, arrived: set<nat>) {
    && r.failed
    && r.written in arrived
    && r.written < |chunks|
    && (forall k :: 0 <= k < r.written ==> k in arrived)
    && (exists j :: 0 <= j < |chunks[r.written]| && r.out == Flat(chunks[..r.written]) + chunks[r.written][..j])
    && r.counter == |Flat(chunks[..r.written])| % TWO64
  }

  lemma StartRepresents(limit: Option<nat>, chunks: seq<seq<byte>>)
    ensures Represents(Start(limit), chunks, {})
  {
    assert chunks[..0] == [];
  }

  lemma AddCounter(a: nat, b: nat)
    ensures Add64(a % TWO64, b) == (a + b) % TWO64
  {
    var c, q, d := a % TWO64 + b, a / TWO64, (a % TWO64 + b) / TWO64;
    assert a + b == TWO64 * (q + d) + c % TWO64;
  }

  // Writing the chunk waited for, whether it just arrived or was pending.
  lemma WriteOutKeeps(r: Rx, chunks: seq<seq<byte>>, arrived: set<nat>)
    requires !r.failed && r.written in arrived && r.written < |chunks| && chunks[r.written] != []
    requires r.limit.Some? ==> |r.out| <= r.limit.value
    requires Written(r.(pending := r.pending[r.next := chunks[r.written]]), chunks, arrived)
    requires r.next !in r.pending
    ensures var w := WriteOut(r, chunks[r.written]);
      if w.failed then Broken(w, chunks, arrived) else Written(w, chunks, arrived)
    ensures var w := WriteOut(r, chunks[r.written]);
      w.limit == r.limit && (w.limit.Some? ==> |w.out| <= w.limit.value)
  {
    var m, p := r.written, chunks[r.written];
    if !WriteOut(r, p).failed {
      HoldsNext(r.pending, m, chunks, arrived);
      FlatNext(chunks, m);
      AddCounter(|r.out|, |p|);
      NumNext(m);
    }
  }

  lemma FlatNext(chunks: seq<seq<byte>>, m: nat)
    requires m < |chunks|
    ensures Flat(chunks[..m + 1]) == Flat(chunks[..m]) + chunks[m]
  {
    assert chunks[..m + 1] == chunks[..m] + [chunks[m]];
    FlatAppend(chunks[..m], chunks[m]);
  }

  lemma NumNext(m: nat)
    ensures Num(m + 1) == (Num(m) + 1) % TWO32
  {
  }

  lemma HoldsNext(pending: map<u32, seq<byte>>, m: nat, chunks: seq<seq<byte>>, arrived: set<nat>)
    requires m < |chunks| && Num(m) !in pending && UpTo(m, |chunks|, arrived)
    requires Holds(pending[Num(m) := chunks[m]], m, chunks, arrived)
    ensures Holds(pending, m + 1, chunks, arrived)
  {
    forall k | k in arrived && m + 1 <= k < |chunks|
      ensures Num(k) in pending && pending[Num(k)] == chunks[k]
    {
      Apart(m, k);
    }
    forall u | u in pending
      ensures exists k :: k in arrived && m + 1 <= k && Num(k) == u
    {
      assert u in pending[Num(m) := chunks[m]];
      var k :| k in arrived && m <= k && Num(k) == u;
    }
  }

  // Two indices fewer than 2^32 apart have different 32-bit numbers.
  lemma Apart(a: nat, b: nat)
    requires a < b < a + TWO32
    ensures Num(a) != Num(b)
  {
  }

  ghost predicate Good(r: Rx, chunks: seq<seq<byte>>, arrived: set<nat>) {
    && (if r.failed then Broken(r, chunks, arrived) else Represents(r, chunks, arrived))
    && (r.limit.Some? ==> |r.out| <= r.limit.value)
  }

  lemma {:induction false} DrainKeeps(r: Rx, chunks: seq<seq<byte>>, arrived: set<nat>)
    requires forall k :: 0 <= k < |chunks| ==> chunks[k] != []
    requires r.limit.Some? ==> |r.out| <= r.limit.value
    requires if r.failed then Broken(r, chunks, arrived) else Written(r, chunks, arrived)
    ensures Good(Drain(r), chunks, arrived) && Drain(r).limit == r.limit
    decreases |r.pending|
  {
    if !r.failed && r.next in r.pending {
      var k :| k in arrived && r.written <= k && Num(k) == r.next;
      if k != r.written { Apart(r.written, k); }
      var p := r.pending[r.next];
      var r' := r.(pending := r.pending - {r.next});
      assert r'.pending[r.next := p] == r.pending;
      assert r'.(pending := r.pending) == r;
      WriteOutKeeps(r', chunks, arrived);
      assert r'.pending.Keys == r.pending.Keys - {r.next};
      DrainKeeps(WriteOut(r', p), chunks, arrived);
    }
  }

  // One arrival: any chunk not seen before whose index is fewer than 2^32 ahead
  // of the one waited for, 32-bit wrap and all.
  lemma ArriveKeeps(r: Rx, chunks: seq<seq<byte>>, arrived: set<nat>, k: nat)
    requires forall k :: 0 <= k < |chunks| ==> chunks[k] != []
    requires !r.failed && Good(r, chunks, arrived)
    requires k !in arrived && k < |chunks| && k < r.written + TWO32
    ensures Good(Arrive(r, Num(k), chunks[k]), chunks, arrived + {k})
    ensures Arrive(r, Num(k), chunks[k]).limit == r.limit
  {
    var arrived', m := arrived + {k}, r.written;
    HoldsMore(r.pending, m, chunks, arrived, k);
    if k == m {
      NothingLeft(r, chunks, arrived);
      WriteOutKeeps(r, chunks, arrived');
      DrainKeeps(WriteOut(r, chunks[m]), chunks, arrived');
    } else {
      Apart(m, k);
    }
  }

  lemma HoldsMore(pending: map<u32, seq<byte>>, m: nat, chunks: seq<seq<byte>>, arrived: set<nat>, k: nat)
    requires UpTo(m, |chunks|, arrived) && Holds(pending, m, chunks, arrived)
    requires k !in arrived && m <= k < |chunks| && k < m + TWO32
    ensures Holds(pending[Num(k) := chunks[k]], m, chunks, arrived + {k})
  {
    var q, arrived' := pending[Num(k) := chunks[k]], arrived + {k};
    forall j | j in arrived' && m <= j < |chunks|
      ensures Num(j) in q && q[Num(j)] == chunks[j]
    {
      if j < k { Apart(j, k); } else if k < j { Apart(k, j); }
    }
    forall u | u in q
      ensures exists j :: j in arrived' && m <= j && Num(j) == u
    {
      if u == Num(k) {
        assert k in arrived';
      } else {
        var j :| j in arrived && m <= j && Num(j) == u;
        assert j in arrived';
      }
    }
  }

  // ---------- whole arrival sequences ----------

  // Item j, when it is data, is chunk idx[j] under its 32-bit number, and no
  // chunk comes twice.
  ghost predicate Carries(items: seq<Item>, idx: seq<nat>, chunks: seq<seq<byte>>, arrived: set<nat>)
    requires |idx| == |items|
  {
    items != [] ==>
      && (items[0].Data? ==>
        && idx[0] < |chunks| && idx[0] !in arrived
        && items[0].seqno == Num(idx[0]) && items[0].payload == chunks[idx[0]])
      && Carries(items[1..], idx[1..], chunks, if items[0].Data? then arrived + {idx[0]} else arrived)
  }

  // Every chunk is fewer than 2^32 ahead of the one waited for when it arrives.
  ghost predicate InWindow(items: seq<Item>, idx: seq<nat>, r: Rx)
    requires |idx| == |items|
  {
    items != [] && !r.failed ==>
      if items[0].Eof? then InWindow(items[1..], idx[1..], r)
      else idx[0] < r.written + TWO32 && InWindow(items[1..], idx[1..], Arrive(r, items[0].seqno, items[0].payload))
  }

  ghost function Indices(items: seq<Item>, idx: seq<nat>): set<nat>
    requires |idx| == |items|
  {
    set j | 0 <= j < |items| && items[j].Data? :: idx[j]
  }

  function CountEofs(items: seq<Item>): nat {
    if items == [] then 0 else (if items[0].Eof? then 1 else 0) + CountEofs(items[1..])
  }

  lemma IndicesStep(items: seq<Item>, idx: seq<nat>)
    requires |idx| == |items| && items != []
    ensures Indices(items, idx) == (if items[0].Data? then {idx[0]} else {}) + Indices(items[1..], idx[1..])
  {
    forall k | k in Indices(items, idx)
      ensures k in (if items[0].Data? then {idx[0]} else {}) + Indices(items[1..], idx[1..])
    {
      var j :| 0 <= j < |items| && items[j].Data? && idx[j] == k;
      if j > 0 { assert items[1..][j - 1].Data? && idx[1..][j - 1] == k; }
    }
    forall k | k in Indices(items[1..], idx[1..])
      ensures k in Indices(items, idx)
    {
      var j :| 0 <= j < |items[1..]| && items[1..][j].Data? && idx[1..][j] == k;
      assert items[j + 1].Data? && idx[j + 1] == k;
    }
  }

  lemma BrokenMonotone(r: Rx, chunks: seq<seq<byte>>, a: set<nat>, b: set<nat>)
    requires Broken(r, chunks, a) && a <= b
    ensures Broken(r, chunks, b)
  {
  }

  lemma {:induction false} ConsumeKeeps(items: seq<Item>, idx: seq<nat>, chunks: seq<seq<byte>>, arrived: set<nat>,
                                        n: nat, r: Rx, eofs: nat)
    requires |idx| == |items|
    requires forall k :: 0 <= k < |chunks| ==> chunks[k] != []
    requires Carries(items, idx, chunks, arrived) && InWindow(items, idx, r)
    requires items != [] ==> eofs + CountEofs(items[..|items| - 1]) < n
    requires Good(r, chunks, arrived)
    ensures Good(Consume(items, n, r, eofs), chunks, arrived + Indices(items, idx))
    decreases |items|
  {
    if r.failed {
      BrokenMonotone(r, chunks, arrived, arrived + Indices(items, idx));
    } else if items == [] {
      NothingLeft(r, chunks, arrived);
      assert arrived + Indices(items, idx) == arrived;
    } else {
      IndicesStep(items, idx);
      var init := items[..|items| - 1];
      if |items| > 1 {
        assert init[1..] == items[1..][..|items[1..]| - 1];
      } else {
        assert Indices(items[1..], idx[1..]) == {};
      }
      if items[0].Eof? {
        if eofs + 1 == n {
          assert |items| == 1;
          NothingLeft(r, chunks, arrived);
          assert arrived + Indices(items, idx) == arrived;
        } else {
          ConsumeKeeps(items[1..], idx[1..], chunks, arrived, n, r, eofs + 1);
          assert arrived + Indices(items, idx) == arrived + Indices(items[1..], idx[1..]);
        }
      } else {
        ArriveKeeps(r, chunks, arrived, idx[0]);
        var r' := Arrive(r, items[0].seqno, items[0].payload);
        ConsumeKeeps(items[1..], idx[1..], chunks, arrived + {idx[0]}, n, r', eofs);
        assert arrived + Indices(items, idx) == arrived + {idx[0]} + Indices(items[1..], idx[1..]);
      }
    }
  }

  // Between iterations the number waited for is never pending, so the final
  // drain has nothing to do.
  lemma NothingLeft(r: Rx, chunks: seq<seq<byte>>, arrived: set<nat>)
    requires Represents(r, chunks, arrived)
    ensures r.next !in r.pending && Drain(r) == r
  {
    if r.next in r.pending {
      var k :| k in arrived && r.written <= k && Num(k) == r.next;
      Apart(r.written, k);
      assert false;
    }
  }

  // A sequence of items that carries distinct chunks, within the window, and
  // brings at most its last end of stream to n.
  ghost predicate Arrival(items: seq<Item>, idx: seq<nat>, chunks: seq<seq<byte>>, n: nat, limit: Option<nat>) {
    && |idx| == |items|
    && (forall k :: 0 <= k < |chunks| ==> chunks[k] != [])
    && Carries(items, idx, chunks, {})
    && InWindow(items, idx, Start(limit))
    && (items != [] ==> CountEofs(items[..|items| - 1]) < n)
  }

  // Whatever order the chunks arrive in, at most n - 1 ends of stream among them,
  // the output is chunks 0..m-1 for the first m that has not arrived, and what
  // lies above m is pending.
  lemma ReassemblyCorrect(items: seq<Item>, idx: seq<nat>, chunks: seq<seq<byte>>, n: nat, limit: Option<nat>)
    requires Arrival(items, idx, chunks, n, limit)
    ensures Good(Consume(items, n, Start(limit), 0), chunks, Indices(items, idx))
  {
    StartRepresents(limit, chunks);
    ConsumeKeeps(items, idx, chunks, {}, n, Start(limit), 0);
    assert {} + Indices(items, idx) == Indices(items, idx);
  }

  // The state is a function of the set that arrived.
  lemma RepresentsUnique(a: Rx, b: Rx, chunks: seq<seq<byte>>, arrived: set<nat>)
    requires Represents(a, chunks, arrived) && Represents(b, chunks, arrived)
    ensures a.out == b.out && a.pending == b.pending && a.next == b.next && a.counter == b.counter
  {
    assert a.written == b.written;
    PendingWithin(a, b, chunks, arrived);
    PendingWithin(b, a, chunks, arrived);
  }

  lemma PendingWithin(a: Rx, b: Rx, chunks: seq<seq<byte>>, arrived: set<nat>)
    requires Represents(a, chunks, arrived) && Represents(b, chunks, arrived) && a.written == b.written
    ensures forall u :: u in a.pending ==> u in b.pending && a.pending[u] == b.pending[u]
  {
    forall u | u in a.pending
      ensures u in b.pending && a.pending[u] == b.pending[u]
    {
      var k :| k in arrived && a.written <= k && Num(k) == u;
      assert a.pending[u] == chunks[k];
    }
  }

  lemma Unlimited(items: seq<Item>, idx: seq<nat>, chunks: seq<seq<byte>>, n: nat)
    requires Arrival(items, idx, chunks, n, None)
    ensures Represents(Consume(items, n, Start(None), 0), chunks, Indices(items, idx))
  {
    ReassemblyCorrect(items, idx, chunks, n, None);
    ConsumeKeepsLimit(items, n, Start(None), 0);
  }

  // So two arrival orders of the same chunks end in the same state.
  lemma OrderIrrelevant(items: seq<Item>, idx: seq<nat>, items': seq<Item>, idx': seq<nat>,
                        chunks: seq<seq<byte>>, n: nat)
    requires Arrival(items, idx, chunks, n, None) && Arrival(items', idx', chunks, n, None)
    requires Indices(items, idx) == Indices(items', idx')
    ensures Consume(items, n, Start(None), 0).out == Consume(items', n, Start(None), 0).out
    ensures Consume(items, n, Start(None), 0).pending == Consume(items', n, Start(None), 0).pending
  {
    Unlimited(items, idx, chunks, n);
    Unlimited(items', idx', chunks, n);
    SameState(Consume(items, n, Start(None), 0), Consume(items', n, Start(None), 0), chunks,
              Indices(items, idx), Indices(items', idx'));
  }

  lemma SameState(a: Rx, b: Rx, chunks: seq<seq<byte>>, arrived: set<nat>, arrived': set<nat>)
    requires Represents(a, chunks, arrived) && Represents(b, chunks, arrived') && arrived == arrived'
    ensures a.out == b.out && a.pending == b.pending
  {
    RepresentsUnique(a, b, chunks, arrived);
  }

  lemma {:induction false} DrainKeepsLimit(r: Rx)
    ensures Drain(r).limit == r.limit && (r.limit.None? && !r.failed ==> !Drain(r).failed)
    decreases |r.pending|
  {
    if !r.failed && r.next in r.pending {
      var r' := r.(pending := r.pending - {r.next});
      assert r'.pending.Keys == r.pending.Keys - {r.next};
      DrainKeepsLimit(WriteOut(r', r.pending[r.next]));
    }
  }

  lemma {:induction false} ConsumeKeepsLimit(items: seq<Item>, n: nat, r: Rx, eofs: nat)
    ensures r.limit.None? && !r.failed ==> !Consume(items, n, r, eofs).failed
    decreases |items|
  {
    DrainKeepsLimit(r);
    if items != [] {
      match items[0]
      case Eof(_, _) => ConsumeKeepsLimit(items[1..], n, r, eofs + 1);
      case Data(_, q, p) =>
        DrainKeepsLimit(WriteOut(r, p));
        ConsumeKeepsLimit(items[1..], n, Arrive(r, q, p), eofs);
    }
  }

  // When every chunk arrives, every byte comes out and nothing stays behind.
  lemma AllArrived(r: Rx, chunks: seq<seq<byte>>, arrived: set<nat>)
    requires Represents(r, chunks, arrived)
    requires forall k :: 0 <= k < |chunks| ==> k in arrived
    ensures r.out == Flat(chunks) && r.counter == |Flat(chunks)| % TWO64 && r.pending == map[]
  {
    assert r.written == |chunks|;
    assert chunks[..|chunks|] == chunks;
    assert r.pending.Keys == {};
  }

  // With no more than 2^32 chunks the window is never left.
  lemma {:induction false} SmallInWindow(items: seq<Item>, idx: seq<nat>, chunks: seq<seq<byte>>,
                                         arrived: set<nat>, r: Rx)
    requires |idx| == |items| && |chunks| <= TWO32
    requires Carries(items, idx, chunks, arrived)
    ensures InWindow(items, idx, r)
    decreases |items|
  {
    if items != [] && !r.failed {
      if items[0].Eof? {
        SmallInWindow(items[1..], idx[1..], chunks, arrived, r);
      } else {
        SmallInWindow(items[1..], idx[1..], chunks, arrived + {idx[0]}, Arrive(r, items[0].seqno, items[0].payload));
      }
    }
  }

  // 2^32 + 1 chunks of one byte, the last of them different.
  function WrapChunks(): seq<seq<byte>> {
    seq(TWO32 + 1, k requires 0 <= k < TWO32 + 1 => if k == TWO32 then [1] else [0])
  }

  // Should the last of them arrive first, it is written at once, and what is written is
  // no beginning of the source.
  lemma WrapMisplaces(stripe: nat)
    ensures var chunks, items, idx := WrapChunks(), [Data(stripe, 0, [1])], [TWO32];
      && Carries(items, idx, chunks, {}) && !InWindow(items, idx, Start(None))
      && Consume(items, 3, Start(None), 0).out == [1]
      && !([1] <= Flat(chunks))
  {
    var chunks: seq<seq<byte>>, items, idx := WrapChunks(), [Data(stripe, 0, [1])], [TWO32];
    assert Num(TWO32) == 0 && chunks[TWO32] == [1];
    assert items[1..] == [] && idx[1..] == [];
    var r := WriteOut(Start(None), [1]);
    assert r.out == [] + [1] && r.pending == map[];
    FlatPrefix(chunks, 1);
    assert chunks[..1] == [[0]];
    assert Flat([[0]]) == [0] by { FlatAppend([], [0]); }
  }
}
