// Which of the parallel sub-connections each new stream is opened on.
module Opener {
  import opened Bytes

  const NUM_SUBCONNS := 4

  // The round-robin counter of a session with n sub-connections.
  class RoundRobin {
    const n: nat
    var next: u64

    constructor (n: nat, next: u64)
      ensures this.n == n && this.next == next
    {
      this.n, this.next := n, next;
    }

    // The index OpenStream picks; the counter advances whether or not the
    // sub-connection then yields a stream.
    method Pick() returns (i: nat)
      requires n > 0
      modifies this
      ensures next == (old(next) + 1) % TWO64
      ensures i == PickAt(old(next), 0, n)
    {
      next := (next + 1) % TWO64;
      i := next % n;
    }
  }

  // The j-th pick after the counter stood at `start`.
  function PickAt(start: u64, j: nat, n: nat): nat
    requires n > 0
  {
    (start + 1 + j) % TWO64 % n
  }

  // Calls follow one another: the counter after j picks is start + j, wrapped.
  lemma PickNext(start: u64, j: nat, n: nat)
    requires n > 0
    ensures PickAt((start + 1) % TWO64, j, n) == PickAt(start, j + 1, n)
  {
    if start + 1 == TWO64 {
      AddWrap(1 + j);
      assert start + 1 + (j + 1) == 1 + j + TWO64;
    } else {
      assert (start + 1) % TWO64 + 1 + j == start + 1 + (j + 1);
    }
  }

  lemma AddWrap(x: nat)
    ensures (x + TWO64) % TWO64 == x % TWO64
  {
  }

  // A multiple of n other than zero is at least n away from zero.
  lemma Multiple(n: int, d: int)
    requires n > 0 && d != 0
    ensures n * d >= n || n * d <= -n
  {
    if d > 0 {
      MulMonotone(n, 1, d);
    } else {
      MulMonotone(n, d, -1);
    }
  }

  lemma MulMonotone(n: int, a: int, b: int)
    requires n > 0 && a <= b
    ensures n * a <= n * b
  {
  }

  lemma ModUnique(x: int, n: nat, q: int, r: int)
    requires n > 0 && x == n * q + r && 0 <= r < n
    ensures x % n == r
  {
    var d := q - x / n;
    assert n * d == x % n - r;
    if d != 0 { Multiple(n, d); }
  }

  // When n divides 2^64 the wrap cannot be seen.
  lemma WrapInvisible(x: nat, n: nat)
    requires n > 0 && TWO64 % n == 0
    ensures x % TWO64 % n == x % n
  {
    var m, q, y := TWO64 / n, x / TWO64, x % TWO64;
    assert TWO64 == n * m;
    assert TWO64 * q == n * (m * q) by { Assoc(n, m, q); }
    var z := y / n;
    assert x == n * (m * q) + n * z + y % n;
    assert n * (m * q) + n * z == n * (m * q + z) by { Distribute(n, m * q, z); }
    ModUnique(x, n, m * q + z, y % n);
  }

  lemma Assoc(a: int, b: int, c: int)
    ensures a * b * c == a * (b * c)
  {
  }

  lemma Distribute(a: int, b: int, c: int)
    ensures a * b + a * c == a * (b + c)
  {
  }

  lemma SameResidue(x: nat, y: nat, n: nat)
    requires n > 0 && x < y < x + n
    ensures x % n != y % n
  {
    var d := y / n - x / n;
    Distribute(n, y / n, -(x / n));
    assert y - x == n * d + (y % n - x % n);
    if d != 0 { Multiple(n, d); }
  }

  // Any n picks in a row are different, wherever the counter stands.
  ghost predicate AlwaysDistinct(n: nat)
    requires n > 0
  {
    forall start: u64, j, k :: 0 <= j < k < n ==> PickAt(start, j, n) != PickAt(start, k, n)
  }

  // That survives the wrap of the 64-bit counter exactly when n divides 2^64.
  lemma DistinctIffDivides(n: nat)
    requires 1 <= n <= TWO64
    ensures AlwaysDistinct(n) <==> TWO64 % n == 0
  {
    if TWO64 % n == 0 {
      DividesDistinct(n);
    } else {
      var r := TWO64 % n;
      WrapRepeats(n);
      var start: u64 := TWO64 - r - 1;
      assert PickAt(start, 0, n) == PickAt(start, r, n);
    }
  }

  lemma DividesDistinct(n: nat)
    requires 1 <= n && TWO64 % n == 0
    ensures AlwaysDistinct(n)
  {
    forall start: u64, j, k | 0 <= j < k < n
      ensures PickAt(start, j, n) != PickAt(start, k, n)
    {
      WrapInvisible(start + 1 + j, n);
      WrapInvisible(start + 1 + k, n);
      SameResidue(start + 1 + j, start + 1 + k, n);
    }
  }

  // Otherwise the wrap picks 0 again fewer than n picks after the last time.
  lemma WrapRepeats(n: nat)
    requires 1 <= n <= TWO64 && TWO64 % n != 0
    ensures var r := TWO64 % n;
      r < n && r < TWO64 && PickAt(TWO64 - r - 1, 0, n) == 0 && PickAt(TWO64 - r - 1, r, n) == 0
  {
    var r, q := TWO64 % n, TWO64 / n;
    assert TWO64 == n * q + r;
    if q != 0 { Multiple(n, q); }
    ModUnique(TWO64 - r, n, q, 0);
    ModUnique(0, n, 0, 0);
    var c := TWO64 - r - 1 + 1;
    assert c % TWO64 == TWO64 - r && (c + r) % TWO64 == 0;
  }

  // How many of the first k picks are sub-connection i.
  function Count(start: u64, k: nat, i: nat): nat {
    if k == 0 then 0
    else Count(start, k - 1, i) + (if PickAt(start, k - 1, NUM_SUBCONNS) == i then 1 else 0)
  }

  // Numbers below x that leave remainder i.
  function Below(x: int, i: nat): int {
    (x - i + 3) / NUM_SUBCONNS
  }

  lemma WrapOfFour(x: nat)
    ensures x % TWO64 % NUM_SUBCONNS == x % NUM_SUBCONNS
  {
    var q := x / TWO64;
    assert x == 4 * (0x4000_0000_0000_0000 * q) + x % TWO64;
  }

  lemma BelowStep(x: nat, i: nat)
    requires i < NUM_SUBCONNS
    ensures Below(x + 1, i) == Below(x, i) + if x % NUM_SUBCONNS == i then 1 else 0
  {
  }

  lemma {:induction false} CountBelow(start: u64, k: nat, i: nat)
    requires i < NUM_SUBCONNS
    ensures Count(start, k, i) == Below(start + 1 + k, i) - Below(start + 1, i)
    decreases k
  {
    hide Below;
    if k > 0 {
      CountBelow(start, k - 1, i);
      WrapOfFour(start + k);
      BelowStep(start + k, i);
    }
  }

  // Over any k consecutive openings each of the four sub-connections is chosen
  // floor(k/4) or ceil(k/4) times.
  lemma Balanced(start: u64, k: nat, i: nat)
    requires i < 4
    ensures k / 4 <= Count(start, k, i) <= (k + 3) / 4
  {
    CountBelow(start, k, i);
  }

  // The picks of k openings in a row.
  method OpenMany(rr: RoundRobin, k: nat) returns (picks: seq<nat>)
    requires rr.n > 0
    modifies rr
    ensures |picks| == k && rr.next == (old(rr.next) + k) % TWO64
    ensures forall j :: 0 <= j < k ==> picks[j] == PickAt(old(rr.next), j, rr.n)
    ensures rr.n == 4 ==> forall i :: 0 <= i < 4 ==>
      k / 4 <= multiset(picks)[i] <= (k + 3) / 4
  {
    ghost var start := rr.next;
    hide PickAt;
    picks := [];
    for m := 0 to k
      invariant |picks| == m && rr.next == (start + m) % TWO64
      invariant forall j :: 0 <= j < m ==> picks[j] == PickAt(start, j, rr.n)
    {
      PickAfter(start, m, rr.n);
      var i := rr.Pick();
      picks := picks + [i];
    }
    if rr.n == 4 {
      forall i | 0 <= i < 4
        ensures k / 4 <= multiset(picks)[i] <= (k + 3) / 4
      {
        CountPicks(picks, start, i);
        Balanced(start, k, i);
      }
    }
  }

  // After m picks the next is pick m, and the counter has moved on by m.
  lemma {:induction false} PickAfter(start: u64, m: nat, n: nat)
    requires n > 0
    ensures PickAt((start + m) % TWO64, 0, n) == PickAt(start, m, n)
    ensures ((start + m) % TWO64 + 1) % TWO64 == (start + (m + 1)) % TWO64
    decreases m
  {
    if m > 0 {
      var next: u64 := (start + 1) % TWO64;
      PickAfter(next, m - 1, n);
      PickNext(start, m - 1, n);
      SumWrap(start, m);
    }
    StepWrap(start + m);
  }

  lemma SumWrap(start: u64, m: nat)
    requires m > 0
    ensures ((start + 1) % TWO64 + (m - 1)) % TWO64 == (start + m) % TWO64
  {
    if start + 1 == TWO64 { AddWrap(m - 1); }
  }

  lemma StepWrap(x: nat)
    ensures (x % TWO64 + 1) % TWO64 == (x + 1) % TWO64
  {
  }

  lemma {:induction false} CountPicks(picks: seq<nat>, start: u64, i: nat)
    requires forall j :: 0 <= j < |picks| ==> picks[j] == PickAt(start, j, NUM_SUBCONNS)
    ensures multiset(picks)[i] == Count(start, |picks|, i)
    decreases |picks|
  {
    hide PickAt;
    if picks != [] {
      var init := picks[..|picks| - 1];
      assert picks == init + [picks[|picks| - 1]];
      CountPicks(init, start, i);
    }
  }
}
