// The opening side: a TCP connection is given a session id and its stripes, each
// announced by a header.
module Listener {
  import opened Bytes
  import opened Codec
  import Router

  // One tunnelled connection: its listener's name, the random draw and the number
  // of stripes.
  datatype Opening = Opening(name: Tag, random: u64, n: nat)

  // 0 is reserved.
  function SessionID(random: u64): u64 {
    if random == 0 then 1 else random
  }

  // It is never the reserved 0, and different draws give different ids, but for 0 and 1.
  lemma SessionIDs(random: u64, random': u64)
    ensures SessionID(random) != 0 && (random != 0 ==> SessionID(random) == random)
    ensures SessionID(random) == SessionID(random') <==> random == random' || (random <= 1 && random' <= 1)
  {
    assert SessionID(0) == 1;
  }

  // The header of stripe i; index and count are cut to a byte.
  function StripeHeader(o: Opening, i: nat): Header {
    Header(o.name, SessionID(o.random), i % 0x100, o.n % 0x100)
  }

  function StripeHeaders(o: Opening): seq<Header> {
    seq(o.n, i requires 0 <= i < o.n => StripeHeader(o, i))
  }

  // conns[i] is what the i-th call of OpenStream gives: a stream, or an error.
  ghost predicate Apart(conns: seq<Option<ByteWriter>>) {
    forall i, j :: 0 <= i < j < |conns| && conns[i].Some? && conns[j].Some? ==> conns[i].value != conns[j].value
  }

  ghost function Writers(conns: seq<Option<ByteWriter>>): set<object> {
    set i | 0 <= i < |conns| && conns[i].Some? :: conns[i].value
  }

  // The stream of stripe i is there and has room for its header.
  ghost predicate Opens(o: Opening, conns: seq<Option<ByteWriter>>, i: nat)
    requires i < |conns|
    reads Writers(conns)
  {
    conns[i].Some? && WritableTag(o.name) && conns[i].value.Takes(|EncodeHeader(StripeHeader(o, i))|)
  }

  ghost predicate FirstToFail(o: Opening, conns: seq<Option<ByteWriter>>, k: nat)
    requires k < |conns|
    reads Writers(conns)
  {
    !Opens(o, conns, k) && forall i :: 0 <= i < k ==> Opens(o, conns, i)
  }

  // The bytes are a header, and nothing else, that names the listener, the session, the
  // stripe and the count.
  predicate Announces(bytes: seq<byte>, o: Opening, i: nat)
    requires i < 0x100 && o.n < 0x100
  {
    DecodeHeader(bytes) == Accepted(Header(o.name, if o.random == 0 then 1 else o.random, i, o.n), [])
  }

  lemma HeaderAnnounces(o: Opening, i: nat)
    requires WritableTag(o.name) && i < o.n < 0x100
    ensures Announces(EncodeHeader(StripeHeader(o, i)), o, i)
  {
    HeaderRoundTrip(StripeHeader(o, i), []);
    assert EncodeHeader(StripeHeader(o, i)) + [] == EncodeHeader(StripeHeader(o, i));
  }

  // Stream w, which had sent `before`, has now sent the header of stripe i too.
  ghost predicate Sent(w: ByteWriter, o: Opening, i: nat, before: seq<byte>)
    reads w
  {
    WritableTag(o.name) && w.sent == before + EncodeHeader(StripeHeader(o, i))
  }

  // What is closed are the streams opened up to stripe k.
  ghost predicate ClosedUpTo(conns: seq<Option<ByteWriter>>, closing: seq<ByteWriter>, k: nat)
    requires k < |conns|
  {
    && |closing| == (if conns[k].Some? then k + 1 else k)
    && forall i :: 0 <= i < |closing| ==> conns[i] == Some(closing[i])
  }

  // It succeeds exactly when every stream opens and takes its header, and then
  // stripe i has been sent the header naming i. Otherwise it stops at the first
  // stripe that does not and closes every stream it has opened, and only those.
  method OpenStripes(o: Opening, conns: seq<Option<ByteWriter>>)
    returns (ok: bool, streams: seq<ByteWriter>, closing: seq<ByteWriter>)
    requires |conns| == o.n && Apart(conns)
    modifies Writers(conns)
    ensures ok <==> forall i :: 0 <= i < o.n ==> old(Opens(o, conns, i))
    ensures ok ==> closing == [] && |streams| == o.n
    ensures ok ==> forall i :: 0 <= i < o.n ==>
      conns[i] == Some(streams[i]) && Sent(streams[i], o, i, old(streams[i].sent))
    ensures ok && o.n < 0x100 ==> forall i :: 0 <= i < o.n ==>
      old(streams[i].sent) <= streams[i].sent && Announces(streams[i].sent[|old(streams[i].sent)|..], o, i)
    ensures !ok ==> streams == []
    ensures !ok ==> exists k :: 0 <= k < o.n && ClosedUpTo(conns, closing, k) && old(FirstToFail(o, conns, k))
  {
    streams, closing := [], [];
    var sessionID := if o.random == 0 then 1 else o.random;
    for i := 0 to o.n
      invariant |streams| == i && closing == []
      invariant forall j :: 0 <= j < i ==> old(Opens(o, conns, j)) && conns[j] == Some(streams[j])
      invariant forall j :: 0 <= j < i ==> Sent(streams[j], o, j, old(streams[j].sent))
      invariant forall j :: i <= j < o.n && conns[j].Some? ==> unchanged(conns[j].value)
    {
      if conns[i].None? {
        assert old(FirstToFail(o, conns, i)) && ClosedUpTo(conns, streams, i);
        return false, [], streams;
      }
      var s := conns[i].value;
      var written := WriteStreamHeader(s, Header(o.name, sessionID, i % 0x100, o.n % 0x100));
      if !written {
        assert old(FirstToFail(o, conns, i));
        assert ClosedUpTo(conns, streams + [s], i);
        return false, [], streams + [s];
      }
      streams := streams + [s];
    }
    ok := true;
    if o.n < 0x100 {
      forall i | 0 <= i < o.n
        ensures Announces(streams[i].sent[|old(streams[i].sent)|..], o, i)
      {
        HeaderAnnounces(o, i);
        assert Sent(streams[i], o, i, old(streams[i].sent));
      }
    }
  }

  // ---------- what the router may rely on ----------

  // Header i of `hs` is stripe from[i].1 of opening from[i].0; some stripes may be
  // missing, none is sent twice.
  ghost predicate SentBy(os: seq<Opening>, hs: seq<Header>, from: seq<(nat, nat)>) {
    && |from| == |hs|
    && (forall i :: 0 <= i < |hs| ==>
          from[i].0 < |os| && from[i].1 < os[from[i].0].n && hs[i] == StripeHeader(os[from[i].0], from[i].1))
    && (forall i, j :: 0 <= i < j < |hs| ==> from[i] != from[j])
  }

  // No two sessions drew the same number, nor one 0 and one 1.
  ghost predicate Drawn(os: seq<Opening>) {
    forall a, b :: 0 <= a < b < |os| ==>
      os[a].random != os[b].random && (os[a].random > 1 || os[b].random > 1)
  }

  // Whatever sessions are opened, in whatever order and however incompletely their
  // headers come in: with different draws and at most 255 stripes each, they
  // are what the router's grouping needs.
  lemma OpenedConsistent(os: seq<Opening>, hs: seq<Header>, from: seq<(nat, nat)>)
    requires SentBy(os, hs, from) && forall a :: 0 <= a < |os| ==> os[a].n <= 255
    requires Drawn(os)
    ensures Router.Consistent(hs)
  {
    forall i, j | 0 <= i < j < |hs| && hs[i].sessionID == hs[j].sessionID
      ensures hs[i].numStripes == hs[j].numStripes && hs[i].tag == hs[j].tag && hs[i].stripeIdx != hs[j].stripeIdx
    {
      var a, b := from[i].0, from[j].0;
      SessionIDs(os[a].random, os[b].random);
      assert a == b;
      assert from[i].1 != from[j].1;
    }
  }

  // 255 is the most the one-byte fields carry: the headers of a session agree with
  // each other exactly up to there.
  lemma WidestSession(o: Opening)
    ensures Router.Consistent(StripeHeaders(o)) <==> o.n <= 255
  {
    var hs := StripeHeaders(o);
    if o.n <= 255 {
      OpenedConsistent([o], hs, seq(o.n, i requires 0 <= i < o.n => (0, i)));
    } else {
      assert hs[0].stripeIdx == 0 && hs[0].numStripes == o.n % 0x100;
      if o.n > 256 {
        assert hs[256].stripeIdx == hs[0].stripeIdx && hs[256].sessionID == hs[0].sessionID;
      }
    }
  }
}
