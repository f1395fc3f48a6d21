// What 32-bit sequence numbers cost the reassembly: exactly which arrival orders
// come out right, whatever the chunks hold.
module ReorderWindow {
  import opened Bytes
  import opened Codec
  import opened Reorder

  // The chunks as they come off the channel, in this order of their indices. The loop
  // does not look at the stripe of a chunk.
  function Feed(order: seq<nat>, chunks: seq<seq<byte>>): seq<Item> {
    seq(|order|, j requires 0 <= j < |order| => Data(0, Num(order[j]), At(chunks, order[j])))
  }

  function At(chunks: seq<seq<byte>>, k: nat): seq<byte> {
    if k < |chunks| then chunks[k] else []
  }

  // Every chunk once.
  ghost predicate Complete(order: seq<nat>, n: nat) {
    && (forall j, k :: 0 <= j < k < |order| ==> order[j] != order[k])
    && (forall j :: 0 <= j < |order| ==> order[j] < n)
    && (forall k :: 0 <= k < n ==> k in order)
  }

  ghost predicate Filled(chunks: seq<seq<byte>>, n: nat) {
    |chunks| == n && forall k :: 0 <= k < n ==> chunks[k] != []
  }

  // When chunk number j of the order arrives, all that are 2^32 or more before it are
  // there: it is fewer than 2^32 ahead of the first one missing.
  ghost predicate NearAt(order: seq<nat>, j: nat)
    requires j < |order|
  {
    forall i :: 0 <= i && i + 0x1_0000_0000 <= order[j] ==> i in order[..j]
  }

  ghost predicate Near(order: seq<nat>) {
    forall j :: 0 <= j < |order| ==> NearAt(order, j)
  }

  // The output is the source, whatever the chunks hold.
  ghost predicate ComesOutRight(order: seq<nat>, n: nat, stripes: nat) {
    forall chunks :: Filled(chunks, n) ==> Consume(Feed(order, chunks), stripes, Start(None), 0).out == Flat(chunks)
  }

  // ---------- the loop, item by item ----------

  // The state after these arrivals.
  function Fed(order: seq<nat>, chunks: seq<seq<byte>>): Rx {
    if order == [] then Start(None)
    else
      var k := order[|order| - 1];
      Arrive(Fed(order[..|order| - 1], chunks), Num(k), At(chunks, k))
  }

  lemma ArriveKeepsLimit(r: Rx, u: u32, p: seq<byte>)
    requires r.limit.None? && !r.failed
    ensures Arrive(r, u, p).limit.None? && !Arrive(r, u, p).failed
  {
    DrainKeepsLimit(WriteOut(r, p));
  }

  lemma {:induction false} FedUnlimited(order: seq<nat>, chunks: seq<seq<byte>>)
    ensures Fed(order, chunks).limit.None? && !Fed(order, chunks).failed
    decreases |order|
  {
    if order != [] {
      FedUnlimited(order[..|order| - 1], chunks);
      var k := order[|order| - 1];
      ArriveKeepsLimit(Fed(order[..|order| - 1], chunks), Num(k), At(chunks, k));
    }
  }

  lemma {:induction false} FedConsume(order: seq<nat>, rest: seq<Item>, chunks: seq<seq<byte>>, stripes: nat)
    ensures Consume(Feed(order, chunks) + rest, stripes, Start(None), 0)
         == Consume(rest, stripes, Fed(order, chunks), 0)
    decreases |order|
  {
    hide Arrive, Num;
    if order == [] {
      assert Feed(order, chunks) + rest == rest;
    } else {
      var init, k := order[..|order| - 1], order[|order| - 1];
      var x := Data(0, Num(k), At(chunks, k));
      FedConsume(init, [x] + rest, chunks, stripes);
      FedUnlimited(init, chunks);
      assert Feed(order, chunks) + rest == Feed(init, chunks) + ([x] + rest);
      assert ([x] + rest)[1..] == rest;
    }
  }

  lemma FedDrained(order: seq<nat>, chunks: seq<seq<byte>>, stripes: nat)
    ensures Consume(Feed(order, chunks), stripes, Start(None), 0) == Drain(Fed(order, chunks))
  {
    FedConsume(order, [], chunks, stripes);
    FedUnlimited(order, chunks);
    assert Feed(order, chunks) + [] == Feed(order, chunks);
  }

  // ---------- near orders come out right ----------

  ghost function Elements(order: seq<nat>): set<nat> {
    set k | k in order
  }

  lemma ArriveNear(r: Rx, chunks: seq<seq<byte>>, order: seq<nat>, j: nat)
    requires j < |order| && Represents(r, chunks, Elements(order[..j])) && r.limit.None? && NearAt(order, j)
    requires Filled(chunks, |chunks|) && order[j] < |chunks| && order[j] !in order[..j]
    ensures Represents(Arrive(r, Num(order[j]), chunks[order[j]]), chunks, Elements(order[..j]) + {order[j]})
  {
    hide Arrive, UpTo, Holds;
    var k := order[j];
    NearMissing(order, j, r.written);
    ArriveKeeps(r, chunks, Elements(order[..j]), k);
    ArriveKeepsLimit(r, Num(k), chunks[k]);
  }

  lemma {:induction false} FedGood(order: seq<nat>, chunks: seq<seq<byte>>)
    requires forall j, k :: 0 <= j < k < |order| ==> order[j] != order[k]
    requires forall j :: 0 <= j < |order| ==> order[j] < |chunks|
    requires Filled(chunks, |chunks|) && Near(order)
    ensures Represents(Fed(order, chunks), chunks, Elements(order))
    decreases |order|
  {
    hide Represents, NearAt, Arrive, Num;
    if order == [] {
      StartRepresents(None, chunks);
      assert Elements(order) == {};
    } else {
      var m := |order| - 1;
      NearInit(order, m);
      FedGood(order[..m], chunks);
      FedUnlimited(order[..m], chunks);
      ArriveNear(Fed(order[..m], chunks), chunks, order, m);
      assert order == order[..m] + [order[m]];
      assert Elements(order) == Elements(order[..m]) + {order[m]};
    }
  }

  lemma NearMissing(order: seq<nat>, j: nat, missing: nat)
    requires j < |order| && NearAt(order, j) && missing !in order[..j]
    ensures order[j] < missing + TWO32
  {
  }

  lemma NearInit(order: seq<nat>, m: nat)
    requires Near(order) && m <= |order|
    ensures Near(order[..m])
  {
    forall j | 0 <= j < m
      ensures NearAt(order[..m], j)
    {
      assert NearAt(order, j);
      assert order[..m][..j] == order[..j];
    }
  }

  lemma NearRight(order: seq<nat>, n: nat, stripes: nat, chunks: seq<seq<byte>>)
    requires Complete(order, n) && Near(order) && Filled(chunks, n)
    ensures Consume(Feed(order, chunks), stripes, Start(None), 0).out == Flat(chunks)
  {
    FedGood(order, chunks);
    FedDrained(order, chunks, stripes);
    NothingLeft(Fed(order, chunks), chunks, Elements(order));
    AllArrived(Fed(order, chunks), chunks, Elements(order));
  }

  // ---------- others do not ----------

  // One-byte chunks, all the same but one.
  function Odd(n: nat, odd: nat): seq<seq<byte>> {
    seq(n, k requires 0 <= k < n => if k == odd then [1] else [0])
  }

  lemma {:induction false} FlatOdd(n: nat, odd: nat, m: nat)
    requires m <= n
    ensures |Flat(Odd(n, odd)[..m])| == m
    ensures forall p :: 0 <= p < m ==> Flat(Odd(n, odd)[..m])[p] == if p == odd then 1 else 0
    decreases m
  {
    if m > 0 {
      FlatOdd(n, odd, m - 1);
      FlatNext(Odd(n, odd), m - 1);
    }
  }

  predicate Zeros(out: seq<byte>) {
    forall p :: 0 <= p < |out| ==> out[p] == 0
  }

  // The odd byte is gone.
  predicate Gone(r: Rx) {
    Zeros(r.out) && forall u :: u in r.pending ==> r.pending[u] == [0]
  }

  // It is in the output, out of place.
  predicate Misplaced(r: Rx, odd: nat) {
    exists p :: 0 <= p < |r.out| && p != odd && r.out[p] == 1
  }

  // It is pending under the number of an earlier chunk q.
  predicate Lurking(r: Rx, q: nat, odd: nat) {
    && Zeros(r.out) && |r.out| == r.written && r.next == Num(r.written)
    && r.written <= q < odd && q < r.written + TWO32
    && Num(q) in r.pending && r.pending[Num(q)] == [1]
    && forall u :: u in r.pending && u != Num(q) ==> r.pending[u] == [0]
  }

  predicate Spoiled(r: Rx, q: nat, odd: nat) {
    r.limit.None? && !r.failed && (Gone(r) || Misplaced(r, odd) || Lurking(r, q, odd))
  }

  lemma OutGrows(r: Rx, r': Rx, odd: nat)
    requires Misplaced(r, odd) && r.out <= r'.out
    ensures Misplaced(r', odd)
  {
    var p :| 0 <= p < |r.out| && p != odd && r.out[p] == 1;
    assert r'.out[p] == 1;
  }

  lemma {:induction false} DrainSpoiled(r: Rx, q: nat, odd: nat)
    requires Spoiled(r, q, odd)
    ensures Spoiled(Drain(r), q, odd)
    decreases |r.pending|
  {
    if r.next in r.pending {
      var p := r.pending[r.next];
      var r' := r.(pending := r.pending - {r.next});
      assert r'.pending.Keys == r.pending.Keys - {r.next};
      var w := WriteOut(r', p);
      if Misplaced(r, odd) {
        OutGrows(r, w, odd);
      } else if Lurking(r, q, odd) && !Gone(r) {
        LurkingWritten(r, q, odd, w);
      }
      DrainSpoiled(w, q, odd);
    }
  }

  // Written out from where it lurks, the odd byte is at the place of chunk q.
  lemma LurkingWritten(r: Rx, q: nat, odd: nat, w: Rx)
    requires r.limit.None? && Lurking(r, q, odd) && r.next in r.pending
    requires w == WriteOut(r.(pending := r.pending - {r.next}), r.pending[r.next])
    ensures Misplaced(w, odd) || Lurking(w, q, odd)
  {
    if r.written == q {
      assert w.out[q] == 1;
    } else {
      Apart(r.written, q);
      NumNext(r.written);
    }
  }

  lemma ArriveSpoiled(r: Rx, q: nat, odd: nat, u: u32)
    requires Spoiled(r, q, odd) && r.next !in r.pending
    ensures Spoiled(Arrive(r, u, [0]), q, odd) && Arrive(r, u, [0]).next !in Arrive(r, u, [0]).pending
  {
    if u == r.next {
      var w := WriteOut(r, [0]);
      if Misplaced(r, odd) {
        OutGrows(r, w, odd);
      } else if Lurking(r, q, odd) && !Gone(r) {
        Apart(r.written, q);
        NumNext(r.written);
      }
      DrainSpoiled(w, q, odd);
      DrainEnds(w);
    } else if Misplaced(r, odd) {
      OutGrows(r, Arrive(r, u, [0]), odd);
    }
  }

  lemma {:induction false} DrainEnds(r: Rx)
    requires r.limit.None? && !r.failed
    ensures Drain(r).next !in Drain(r).pending
    decreases |r.pending|
  {
    if r.next in r.pending {
      var r' := r.(pending := r.pending - {r.next});
      assert r'.pending.Keys == r.pending.Keys - {r.next};
      DrainEnds(WriteOut(r', r.pending[r.next]));
    }
  }

  lemma NearMore(order: seq<nat>)
    requires order != [] && Near(order[..|order| - 1]) && NearAt(order, |order| - 1)
    ensures Near(order)
  {
    var init := order[..|order| - 1];
    forall j | 0 <= j < |init|
      ensures NearAt(order, j)
    {
      assert NearAt(init, j);
      assert init[..j] == order[..j];
    }
  }

  // The first arrival out of the window.
  lemma {:induction false} FirstFar(order: seq<nat>) returns (j: nat, i: nat)
    requires !Near(order)
    ensures j < |order| && Near(order[..j]) && i + TWO32 <= order[j] && i !in order[..j]
    decreases |order|
  {
    var m := |order| - 1;
    if Near(order[..m]) {
      j := m;
      if NearAt(order, m) { NearMore(order); }
      i :| 0 <= i && i + TWO32 <= order[j] && i !in order[..j];
    } else {
      j, i := FirstFar(order[..m]);
      assert order[..m][..j] == order[..j];
    }
  }

  // The index within the window that has k's number.
  function Twin(m: nat, k: nat): (q: nat)
    requires m + TWO32 <= k
    ensures m <= q < m + TWO32 && q + TWO32 <= k && Num(q) == Num(k)
  {
    TwinNumber(m, k);
    m + (k - m) % TWO32
  }

  lemma TwinNumber(m: nat, k: nat)
    requires m + TWO32 <= k
    ensures var q := m + (k - m) % TWO32; q + TWO32 <= k && Num(q) == Num(k)
  {
    var d := (k - m) / TWO32;
    assert k == m + (k - m) % TWO32 + d * TWO32;
    NumPeriod(m + (k - m) % TWO32, d);
  }

  lemma NumPeriod(q: nat, d: nat)
    ensures Num(q + d * TWO32) == Num(q)
  {
  }

  // All that is written and pending is what the chunks that arrived hold.
  lemma OddState(r: Rx, n: nat, odd: nat, arrived: set<nat>)
    requires Represents(r, Odd(n, odd), arrived) && r.written <= odd
    ensures Zeros(r.out) && |r.out| == r.written
    ensures forall u :: u in r.pending ==>
      exists k :: k in arrived && k < n && Num(k) == u && r.pending[u] == Odd(n, odd)[k]
  {
    FlatOdd(n, odd, r.written);
    forall u | u in r.pending
      ensures exists k :: k in arrived && k < n && Num(k) == u && r.pending[u] == Odd(n, odd)[k]
    {
      var k :| k in arrived && r.written <= k && Num(k) == u;
      assert r.pending[u] == Odd(n, odd)[k];
    }
  }

  // An arrival out of the window spoils the state for one content or another: chunk k
  // takes the place of the chunk waited for; or overwrites chunk q, pending under the
  // same number; or lies in wait under that number.
  lemma FarSpoils(r: Rx, n: nat, arrived: set<nat>, k: nat, q: nat, odd: nat)
    requires r.written + TWO32 <= k < n && k !in arrived && q == Twin(r.written, k)
    requires odd == (if q in arrived then q else k)
    requires Represents(r, Odd(n, odd), arrived) && r.limit.None?
    ensures Spoiled(Arrive(r, Num(k), Odd(n, odd)[k]), q, odd)
    ensures Arrive(r, Num(k), Odd(n, odd)[k]).next !in Arrive(r, Num(k), Odd(n, odd)[k]).pending
  {
    var chunks := Odd(n, odd);
    OddState(r, n, odd, arrived);
    NothingLeft(r, chunks, arrived);
    if q == r.written {
      var w := WriteOut(r, [1]);
      assert w.out[q] == 1;
      DrainSpoiled(w, q, odd);
      DrainEnds(w);
    } else {
      Apart(r.written, q);
      if q in arrived {
        Overwritten(r, n, arrived, k, q);
      } else {
        Waits(r, n, arrived, k, q);
      }
    }
  }

  lemma Overwritten(r: Rx, n: nat, arrived: set<nat>, k: nat, q: nat)
    requires Represents(r, Odd(n, q), arrived) && r.written <= q < k < n && Num(q) == Num(k)
    ensures Gone(r.(pending := r.pending[Num(k) := Odd(n, q)[k]]))
  {
    OddState(r, n, q, arrived);
  }

  lemma Waits(r: Rx, n: nat, arrived: set<nat>, k: nat, q: nat)
    requires Represents(r, Odd(n, k), arrived) && k !in arrived && q !in arrived
    requires r.written <= q < k < n && q < r.written + TWO32 && Num(q) == Num(k)
    ensures Lurking(r.(pending := r.pending[Num(k) := [1]]), q, k)
  {
    OddState(r, n, k, arrived);
  }

  // Nothing that arrives later mends it.
  lemma {:induction false} StaysSpoiled(order: seq<nat>, j: nat, n: nat, q: nat, odd: nat)
    requires j <= |order| && forall m :: j <= m < |order| ==> order[m] < n && order[m] != odd
    requires var r := Fed(order[..j], Odd(n, odd)); Spoiled(r, q, odd) && r.next !in r.pending
    ensures var r := Fed(order, Odd(n, odd)); Spoiled(r, q, odd) && r.next !in r.pending
    decreases |order|
  {
    if j == |order| {
      assert order[..j] == order;
    } else {
      var init, k := order[..|order| - 1], order[|order| - 1];
      assert init[..j] == order[..j];
      StaysSpoiled(init, j, n, q, odd);
      ArriveSpoiled(Fed(init, Odd(n, odd)), q, odd, Num(k));
    }
  }

  lemma SpoiledWrong(r: Rx, n: nat, q: nat, odd: nat)
    requires Spoiled(r, q, odd) && odd < n
    ensures Drain(r).out != Flat(Odd(n, odd))
  {
    DrainSpoiled(r, q, odd);
    FlatOdd(n, odd, n);
    assert Odd(n, odd)[..n] == Odd(n, odd);
    assert Flat(Odd(n, odd))[odd] == 1;
  }

  lemma SameWritten(a: Rx, ca: seq<seq<byte>>, b: Rx, cb: seq<seq<byte>>, arrived: set<nat>)
    requires Represents(a, ca, arrived) && Represents(b, cb, arrived)
    ensures a.written == b.written
  {
  }

  lemma Later(order: seq<nat>, j: nat, k: nat)
    requires forall a, b :: 0 <= a < b < |order| ==> order[a] != order[b]
    requires j < |order| && (k in order[..j] || k == order[j])
    ensures forall m :: j + 1 <= m < |order| ==> order[m] != k
  {
  }

  // The chunk the loop waits for is the same whatever the chunks hold.
  lemma SameWaited(init: seq<nat>, a: seq<seq<byte>>, b: seq<seq<byte>>, n: nat)
    requires forall j, k :: 0 <= j < k < |init| ==> init[j] != init[k]
    requires (forall j :: 0 <= j < |init| ==> init[j] < n) && Near(init) && Filled(a, n) && Filled(b, n)
    ensures Fed(init, a).written == Fed(init, b).written
  {
    hide Near;
    FedGood(init, a);
    FedGood(init, b);
    SameWritten(Fed(init, a), a, Fed(init, b), b, Elements(init));
  }

  lemma Waited(init: seq<nat>, chunks: seq<seq<byte>>, missing: nat)
    requires Represents(Fed(init, chunks), chunks, Elements(init)) && missing !in init
    ensures Fed(init, chunks).written <= missing
  {
    assert missing !in Elements(init);
  }

  // The state after an arrival out of the window, for the content it spoils.
  lemma FirstSpoils(order: seq<nat>, n: nat, j: nat, i: nat) returns (q: nat, odd: nat)
    requires Complete(order, n) && j < |order| && Near(order[..j]) && i + TWO32 <= order[j] && i !in order[..j]
    ensures odd < n && (odd in order[..j] || odd == order[j])
    ensures var r := Fed(order[..j + 1], Odd(n, odd)); Spoiled(r, q, odd) && r.next !in r.pending
  {
    hide Arrive, Spoiled, Num, Represents, Near;
    var init, k := order[..j], order[j];
    FedGood(init, Odd(n, k));
    Waited(init, Odd(n, k), i);
    q := Twin(Fed(init, Odd(n, k)).written, k);
    odd := if q in init then q else k;
    SameWaited(init, Odd(n, k), Odd(n, odd), n);
    FedGood(init, Odd(n, odd));
    FedUnlimited(init, Odd(n, odd));
    FarSpoils(Fed(init, Odd(n, odd)), n, Elements(init), k, q, odd);
    assert order[..j + 1][..j] == init;
  }

  // A complete order that leaves the window once comes out wrong for some content.
  lemma FarWrong(order: seq<nat>, n: nat, stripes: nat) returns (chunks: seq<seq<byte>>)
    requires Complete(order, n) && !Near(order)
    ensures Filled(chunks, n) && Consume(Feed(order, chunks), stripes, Start(None), 0).out != Flat(chunks)
  {
    hide Spoiled, Near, Fed, Consume;
    var j, i := FirstFar(order);
    var q, odd := FirstSpoils(order, n, j, i);
    chunks := Odd(n, odd);
    Later(order, j, odd);
    StaysSpoiled(order, j + 1, n, q, odd);
    SpoiledWrong(Fed(order, chunks), n, q, odd);
    FedDrained(order, chunks, stripes);
  }

  // Reassembly comes out right, whatever the chunks hold, for exactly the arrival
  // orders in which every chunk is fewer than 2^32 ahead of the first one missing.
  lemma WindowExact(order: seq<nat>, n: nat, stripes: nat)
    requires Complete(order, n)
    ensures ComesOutRight(order, n, stripes) <==> Near(order)
  {
    hide Consume, Near;
    if Near(order) {
      forall chunks | Filled(chunks, n)
        ensures Consume(Feed(order, chunks), stripes, Start(None), 0).out == Flat(chunks)
      {
        NearRight(order, n, stripes, chunks);
      }
    } else {
      var chunks := FarWrong(order, n, stripes);
    }
  }

  // Near is what keeps every arrival in the window of the loop's own counter.
  lemma NearIsWindow(order: seq<nat>, chunks: seq<seq<byte>>, j: nat)
    requires Complete(order, |chunks|) && Filled(chunks, |chunks|) && j < |order| && Near(order[..j])
    ensures NearAt(order, j) <==> order[j] < Fed(order[..j], chunks).written + TWO32
  {
    FedGood(order[..j], chunks);
    var m := Fed(order[..j], chunks).written;
    assert m !in Elements(order[..j]);
    assert forall i :: i in Elements(order[..j]) <==> i in order[..j];
    hide Represents;
    if order[j] >= m + TWO32 {
      assert m !in order[..j];
    }
  }
}
