// The rendezvous server's two maps, and the client's polling loops.
module Signaling {

  // An answer has the same fields as an offer.
  datatype Offer = Offer(ufrag: string, pwd: string, candidates: seq<string>, gen: string)

  datatype Tables = Tables(offers: map<string, Offer>, answers: map<string, Offer>)

  datatype Op =
    | PostOffer(sess: string, role: string, offer: Offer)
    | PostAnswer(sess: string, answer: Offer)
    | Clear(sess: string)
    | Restart

  datatype Reply = NoContent | BadRequest | NotFound | Found(offer: Offer)

  // Offers of all sessions share one map under the key sess|role.
  function Key(sess: string, role: string): string {
    sess + "|" + role
  }

  // strings.HasPrefix(k, sess+"|")
  predicate Under(k: string, sess: string) {
    sess + "|" <= k
  }

  const EMPTY := Tables(map[], map[])

  function Apply(t: Tables, op: Op): Tables {
    match op
    case PostOffer(sess, role, offer) =>
      if sess == "" || role == "" then t
      else Tables(t.offers[Key(sess, role) := offer], t.answers - {sess})
    case PostAnswer(sess, answer) =>
      if sess == "" then t else t.(answers := t.answers[sess := answer])
    case Clear(sess) =>
      Tables(map k | k in t.offers && !Under(k, sess) :: t.offers[k], t.answers - {sess})
    case Restart => EMPTY
  }

  // ---------- the code ----------

  class Server {
    var offers: map<string, Offer>
    var answers: map<string, Offer>

    constructor ()
      ensures State() == EMPTY
    {
      offers, answers := map[], map[];
    }

    function State(): Tables
      reads this
    {
      Tables(offers, answers)
    }

    method PostOfferRequest(sess: string, role: string, offer: Offer) returns (reply: Reply)
      modifies this
      ensures State() == Apply(old(State()), PostOffer(sess, role, offer))
      ensures reply == if sess == "" || role == "" then BadRequest else NoContent
    {
      if sess == "" || role == "" { return BadRequest; }
      offers := offers[sess + "|" + role := offer];
      answers := answers - {sess};
      return NoContent;
    }

    method GetOfferRequest(sess: string, role: string) returns (reply: Reply)
      ensures sess == "" || role == "" ==> reply == BadRequest
      ensures sess != "" && role != "" ==>
        reply == if Key(sess, role) in offers then Found(offers[Key(sess, role)]) else NotFound
    {
      if sess == "" || role == "" { return BadRequest; }
      if sess + "|" + role !in offers { return NotFound; }
      return Found(offers[sess + "|" + role]);
    }

    method PostAnswerRequest(sess: string, answer: Offer) returns (reply: Reply)
      modifies this
      ensures State() == Apply(old(State()), PostAnswer(sess, answer))
      ensures reply == if sess == "" then BadRequest else NoContent
    {
      if sess == "" { return BadRequest; }
      answers := answers[sess := answer];
      return NoContent;
    }

    method GetAnswerRequest(sess: string) returns (reply: Reply)
      ensures sess == "" ==> reply == BadRequest
      ensures sess != "" ==> reply == if sess in answers then Found(answers[sess]) else NotFound
    {
      if sess == "" { return BadRequest; }
      if sess !in answers { return NotFound; }
      return Found(answers[sess]);
    }

    // The loop deletes from the map it ranges over, in any order.
    method ClearSession(sess: string)
      modifies this
      ensures State() == Apply(old(State()), Clear(sess))
    {
      var keys := offers.Keys;
      while keys != {}
        invariant keys <= offers.Keys <= old(offers).Keys
        invariant forall k :: k in old(offers) && k !in keys ==> (k in offers <==> !Under(k, sess))
        invariant forall k :: k in offers ==> offers[k] == old(offers)[k]
        invariant answers == old(answers)
        decreases |keys|
      {
        var k :| k in keys;
        keys := keys - {k};
        if Under(k, sess) {
          offers := offers - {k};
        }
      }
      answers := answers - {sess};
    }
  }

  // ---------- answers: the latest operation decides ----------

  function After(ops: seq<Op>): Tables {
    if ops == [] then EMPTY else Apply(After(ops[..|ops| - 1]), ops[|ops| - 1])
  }

  predicate Concerns(op: Op, sess: string) {
    match op
    case PostOffer(s, role, _) => s == sess && role != "" && s != ""
    case PostAnswer(s, _) => s == sess && s != ""
    case Clear(s) => s == sess
    case Restart => true
  }

  // The last operation on the session, with the server starting empty.
  function Latest(ops: seq<Op>, sess: string): Op {
    if ops == [] then Restart
    else if Concerns(ops[|ops| - 1], sess) then ops[|ops| - 1]
    else Latest(ops[..|ops| - 1], sess)
  }

  // For every session id and every history: there is an answer just when the
  // latest operation on the session was the posting of that answer, so a new offer
  // always hides an old answer.
  lemma {:induction false} AnswerIsLatest(ops: seq<Op>, sess: string)
    ensures var latest := Latest(ops, sess);
      && (sess in After(ops).answers <==> latest.PostAnswer?)
      && (latest.PostAnswer? ==> After(ops).answers[sess] == latest.answer)
    decreases |ops|
  {
    if ops != [] { AnswerIsLatest(ops[..|ops| - 1], sess); }
  }

  // ---------- offers: the flat map stands for one map a session ----------

  predicate Plain(sess: string) {
    '|' !in sess
  }

  type Nested = map<string, map<string, Offer>>

  function RolesOf(n: Nested, sess: string): map<string, Offer> {
    if sess in n then n[sess] else map[]
  }

  // What the server would do with one map of roles to offers per session.
  function NestedApply(n: Nested, op: Op): Nested {
    match op
    case PostOffer(sess, role, offer) =>
      if sess == "" || role == "" then n else n[sess := RolesOf(n, sess)[role := offer]]
    case PostAnswer(_, _) => n
    case Clear(sess) => n - {sess}
    case Restart => map[]
  }

  // The session of a key: what comes before the first bar.
  function SessOf(k: string): string {
    if k == "" || k[0] == '|' then "" else [k[0]] + SessOf(k[1..])
  }

  function RoleOf(k: string): string {
    if k == "" then "" else if k[0] == '|' then k[1..] else RoleOf(k[1..])
  }

  ghost predicate Refines(offers: map<string, Offer>, n: Nested) {
    && (forall k :: k in offers ==> Stands(offers, n, k))
    && (forall s, r :: s in n && r in n[s] ==> Plain(s) && Key(s, r) in offers)
  }

  ghost predicate Stands(offers: map<string, Offer>, n: Nested, k: string)
    requires k in offers
  {
    var s, r := SessOf(k), RoleOf(k);
    Plain(s) && k == Key(s, r) && s in n && r in n[s] && n[s][r] == offers[k]
  }

  predicate PlainOp(op: Op) {
    op.Restart? || Plain(op.sess)
  }

  // The bar splits a key in only one way.
  lemma {:induction false} KeyParts(s: string, r: string)
    requires Plain(s)
    ensures SessOf(Key(s, r)) == s && RoleOf(Key(s, r)) == r
    decreases |s|
  {
    if s == "" {
      assert Key(s, r) == "|" + r;
    } else {
      assert Key(s, r)[1..] == Key(s[1..], r);
      KeyParts(s[1..], r);
    }
  }

  lemma PrefixOfKey(s: string, r: string, s': string)
    requires Plain(s) && Plain(s')
    ensures Under(Key(s, r), s') <==> s == s'
  {
    if Under(Key(s, r), s') {
      var rest := Key(s, r)[|s'| + 1..];
      assert Key(s', rest) == Key(s, r);
      KeyParts(s, r);
      KeyParts(s', rest);
    }
  }

  lemma PostRefines(offers: map<string, Offer>, n: Nested, s0: string, r0: string, o: Offer)
    requires Refines(offers, n) && Plain(s0)
    ensures Refines(offers[Key(s0, r0) := o], n[s0 := RolesOf(n, s0)[r0 := o]])
  {
    hide Key, Plain, SessOf, RoleOf;
    var offers', n' := offers[Key(s0, r0) := o], n[s0 := RolesOf(n, s0)[r0 := o]];
    forall k | k in offers'
      ensures Stands(offers', n', k)
    {
      PostStands(offers, n, s0, r0, o, k);
    }
    forall s, r | s in n' && r in n'[s]
      ensures Plain(s) && Key(s, r) in offers'
    {
      if s != s0 || r != r0 {
        assert s in n && r in n[s];
      }
    }
  }

  lemma PostStands(offers: map<string, Offer>, n: Nested, s0: string, r0: string, o: Offer, k: string)
    requires Plain(s0) && (k == Key(s0, r0) || (k in offers && Stands(offers, n, k)))
    ensures Stands(offers[Key(s0, r0) := o], n[s0 := RolesOf(n, s0)[r0 := o]], k)
  {
    hide Key, Plain, SessOf, RoleOf;
    KeyParts(s0, r0);
  }

  lemma ClearRefines(t: Tables, n: Nested, s0: string)
    requires Refines(t.offers, n) && Plain(s0)
    ensures Refines(Apply(t, Clear(s0)).offers, n - {s0})
  {
    hide Key, Plain, Under;
    var offers', n' := Apply(t, Clear(s0)).offers, n - {s0};
    forall k | k in offers'
      ensures Stands(offers', n', k)
    {
      assert Stands(t.offers, n, k);
      PrefixOfKey(SessOf(k), RoleOf(k), s0);
    }
    forall s, r | s in n' && r in n'[s]
      ensures Plain(s) && Key(s, r) in offers'
    {
      assert s in n && r in n[s];
      PrefixOfKey(s, r, s0);
    }
  }

  // With session ids free of '|', every operation on the flat map, the deletion by
  // prefix included, does what it would do on the nested one. Role names may be
  // anything.
  lemma StepRefines(t: Tables, n: Nested, op: Op)
    requires Refines(t.offers, n) && PlainOp(op)
    ensures Refines(Apply(t, op).offers, NestedApply(n, op))
  {
    match op
    case PostOffer(s, r, o) => if s != "" && r != "" { PostRefines(t.offers, n, s, r, o); }
    case PostAnswer(_, _) =>
    case Clear(s) => ClearRefines(t, n, s);
    case Restart =>
  }

  function NestedAfter(ops: seq<Op>): Nested {
    if ops == [] then map[] else NestedApply(NestedAfter(ops[..|ops| - 1]), ops[|ops| - 1])
  }

  lemma {:induction false} AfterRefines(ops: seq<Op>)
    requires forall t :: 0 <= t < |ops| ==> PlainOp(ops[t])
    ensures Refines(After(ops).offers, NestedAfter(ops))
    decreases |ops|
  {
    if ops != [] {
      AfterRefines(ops[..|ops| - 1]);
      StepRefines(After(ops[..|ops| - 1]), NestedAfter(ops[..|ops| - 1]), ops[|ops| - 1]);
    }
  }

  // What GetOffer finds is what the nested map holds.
  lemma OfferFound(ops: seq<Op>, sess: string, role: string)
    requires (forall t :: 0 <= t < |ops| ==> PlainOp(ops[t])) && Plain(sess)
    ensures Key(sess, role) in After(ops).offers <==> role in RolesOf(NestedAfter(ops), sess)
    ensures role in RolesOf(NestedAfter(ops), sess) ==>
      After(ops).offers[Key(sess, role)] == RolesOf(NestedAfter(ops), sess)[role]
  {
    AfterRefines(ops);
    var n := NestedAfter(ops);
    KeyParts(sess, role);
    if Key(sess, role) in After(ops).offers {
      assert Stands(After(ops).offers, n, Key(sess, role));
    }
  }

  // No operation on one session touches the offers or the answer of another.
  lemma Isolation(t: Tables, op: Op, sess: string, role: string)
    requires PlainOp(op) && Plain(sess) && !op.Restart? && op.sess != sess
    ensures var t' := Apply(t, op);
      && (Key(sess, role) in t'.offers <==> Key(sess, role) in t.offers)
      && (Key(sess, role) in t.offers ==> t'.offers[Key(sess, role)] == t.offers[Key(sess, role)])
      && (sess in t'.answers <==> sess in t.answers)
      && (sess in t.answers ==> t'.answers[sess] == t.answers[sess])
  {
    match op
    case PostOffer(s, r, _) =>
      KeyParts(s, r);
      KeyParts(sess, role);
    case PostAnswer(_, _) =>
    case Clear(s) => PrefixOfKey(sess, role, s);
  }

  // What lies beyond the first session id and its bar.
  ghost predicate Beyond(s: string, sess: string, p: string) {
    s == sess + "|" + p
  }

  // With '|' allowed, in ids or in roles, clearing one session reaches into another,
  // exactly when the other's id begins with the first and a bar, or the first goes on
  // after the other's id and a bar with what the role begins with.
  lemma ClearReaches(t: Tables, s: string, sess: string, role: string)
    requires s != sess && Key(sess, role) in t.offers
    ensures Key(sess, role) !in Apply(t, Clear(s)).offers
      <==> s + "|" <= sess || exists p :: Beyond(s, sess, p) && p + "|" <= role
  {
    if |s| > |sess| {
      LongerReaches(s, sess, role);
    } else {
      ShorterReaches(s, sess, role);
    }
  }

  lemma ShorterReaches(s: string, sess: string, role: string)
    requires s != sess && |s| <= |sess|
    ensures Under(Key(sess, role), s) <==> s + "|" <= sess
    ensures forall p :: !Beyond(s, sess, p)
  {
    var k := Key(sess, role);
    if |s| < |sess| {
      assert k[..|s| + 1] == sess[..|s| + 1];
    } else {
      assert k[..|s|] == sess;
      assert (s + "|")[..|s|] == s;
      assert k[..|s| + 1][..|s|] == sess;
    }
  }

  lemma LongerReaches(s: string, sess: string, role: string)
    requires |s| > |sess|
    ensures !(s + "|" <= sess)
    ensures Under(Key(sess, role), s) <==> exists p :: Beyond(s, sess, p) && p + "|" <= role
  {
    hide Beyond;
    if Under(Key(sess, role), s) {
      var p := Reached(s, sess, role);
    }
    if p :| Beyond(s, sess, p) && p + "|" <= role {
      Reaches(s, sess, role, p);
    }
  }

  lemma Reached(s: string, sess: string, role: string) returns (p: string)
    requires |s| > |sess| && Under(Key(sess, role), s)
    ensures Beyond(s, sess, p) && p + "|" <= role
  {
    var bar := sess + "|";
    var n, rest := |bar|, Key(sess, role)[|s| + 1..];
    p := s[n..];
    assert s + ("|" + rest) == s + "|" + rest == bar + role;
    Split(s, "|" + rest, bar, role);
    assert role == p + "|" + rest by { assert p + ("|" + rest) == p + "|" + rest; }
  }

  // Two ways to cut one string.
  lemma Split(a: string, b: string, c: string, d: string)
    requires a + b == c + d && |c| <= |a|
    ensures a == c + a[|c|..] && d == a[|c|..] + b
  {
    assert (a + b)[..|c|] == c;
    assert (a + b)[|c|..] == a[|c|..] + b;
  }

  lemma Reaches(s: string, sess: string, role: string, p: string)
    requires Beyond(s, sess, p) && p + "|" <= role
    ensures Under(Key(sess, role), s)
  {
    var rest := role[|p| + 1..];
    assert role == p + "|" + rest;
    assert Key(sess, role) == s + "|" + rest;
  }

  ghost predicate Meet(s: string, r: string, s': string, r': string) {
    exists p :: Beyond(s', s, p) && r == p + "|" + r'
  }

  // Two sessions meet under one key exactly when the longer id goes on after the
  // shorter and a bar with what the shorter's role begins with, up to a bar.
  lemma KeysMeet(s: string, r: string, s': string, r': string)
    requires |s| < |s'|
    ensures Key(s, r) == Key(s', r') <==> Meet(s, r, s', r')
  {
    var n := |s| + 1;
    if Key(s, r) == Key(s', r') {
      var p := s'[n..];
      assert s'[..n] == Key(s', r')[..n] == Key(s, r)[..n] == s + "|";
      assert Beyond(s', s, p);
      assert r == Key(s, r)[n..] == Key(s', r')[n..] == p + "|" + r';
    }
    if p :| Beyond(s', s, p) && r == p + "|" + r' {
      assert s + "|" + (p + "|" + r') == s + "|" + p + "|" + r';
    }
  }

  // So an offer posted for one session is found under another exactly then, either
  // way round; otherwise the other's offer stays as it is.
  lemma PostReaches(t: Tables, s: string, r: string, o: Offer, sess: string, role: string)
    requires s != "" && r != "" && s != sess
    ensures var t', k := Apply(t, PostOffer(s, r, o)), Key(sess, role);
      if Meet(s, r, sess, role) || Meet(sess, role, s, r)
      then k in t'.offers && t'.offers[k] == o
      else (k in t'.offers <==> k in t.offers) && (k in t.offers ==> t'.offers[k] == t.offers[k])
  {
    if |s| < |sess| {
      KeysMeet(s, r, sess, role);
    } else if |sess| < |s| {
      KeysMeet(sess, role, s, r);
    } else {
      assert Key(s, r)[..|s|] == s && Key(sess, role)[..|s|] == sess;
    }
  }

  // ---------- polling ----------

  datatype Outcome = Got(offer: Offer) | Failed | Cancelled

  // An answer that is not there yet, or of another attempt.
  predicate NotYet(r: Reply, wantGen: string) {
    r == NotFound || (r.Found? && wantGen != "" && r.offer.gen != wantGen)
  }

  // AwaitAnswerMatching over the replies its polls get until the context ends. The
  // first reply that is neither "not found" nor an answer of another attempt decides:
  // that answer is returned, or that error.
  method AwaitAnswerMatching(replies: seq<Reply>, wantGen: string) returns (r: Outcome)
    ensures r.Cancelled? ==> forall j :: 0 <= j < |replies| ==> NotYet(replies[j], wantGen)
    ensures r.Got? ==> wantGen == "" || r.offer.gen == wantGen
    ensures r.Got? ==> exists i :: FirstIs(replies, wantGen, i, Found(r.offer))
    ensures r.Failed? ==> exists i, e :: FirstIs(replies, wantGen, i, e) && (e == BadRequest || e == NoContent)
  {
    for i := 0 to |replies|
      invariant forall j :: 0 <= j < i ==> NotYet(replies[j], wantGen)
    {
      match replies[i]
      case Found(a) =>
        if wantGen == "" || a.gen == wantGen {
          assert FirstIs(replies, wantGen, i, Found(a));
          return Got(a);
        }
      case NotFound =>
      case _ =>
        assert FirstIs(replies, wantGen, i, replies[i]);
        return Failed;
    }
    return Cancelled;
  }

  // Reply i is e, and all before it leave the question open.
  ghost predicate FirstIs(replies: seq<Reply>, wantGen: string, i: int, e: Reply) {
    0 <= i < |replies| && replies[i] == e && forall j :: 0 <= j < i ==> NotYet(replies[j], wantGen)
  }

  // AwaitOffer: the first offer there is, or the first error.
  method AwaitOffer(replies: seq<Reply>) returns (r: Outcome)
    ensures r.Cancelled? ==> forall j :: 0 <= j < |replies| ==> replies[j] == NotFound
    ensures r.Got? ==> exists i :: FirstIs(replies, "", i, Found(r.offer))
    ensures r.Failed? ==> exists i, e :: FirstIs(replies, "", i, e) && (e == BadRequest || e == NoContent)
  {
    for i := 0 to |replies|
      invariant forall j :: 0 <= j < i ==> replies[j] == NotFound
    {
      match replies[i]
      case Found(o) =>
        assert FirstIs(replies, "", i, Found(o));
        return Got(o);
      case NotFound =>
      case _ =>
        assert FirstIs(replies, "", i, replies[i]);
        return Failed;
    }
    return Cancelled;
  }
}
