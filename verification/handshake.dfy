// The offer/answer handshake of one session through the rendezvous server: any
// number of attempts by either peer, requests delivered late or never, server
// restarts, and anything at all happening to other sessions.
module Handshake {
  import opened Bytes
  import opened Signaling

  const ROLE_A := "peer-a"

  // ---------- the nonce ----------

  function HexDigit(d: nat): (c: char)
    requires d < 16
    ensures if d < 10 then '0' <= c <= '9' && c - '0' == d as char else 'a' <= c <= 'f' && c - 'a' == (d - 10) as char
  {
    "0123456789abcdef"[d]
  }

  // hex.EncodeToString
  function Hex(b: seq<byte>): (s: string)
    ensures |s| == 2 * |b|
  {
    if b == [] then "" else [HexDigit(b[0] / 16), HexDigit(b[0] % 16)] + Hex(b[1..])
  }

  lemma DigitInjective(d: nat, e: nat)
    requires d < 16 && e < 16 && HexDigit(d) == HexDigit(e)
    ensures d == e
  {
  }

  // Different random bytes make different nonces.
  lemma {:induction false} HexInjective(a: seq<byte>, b: seq<byte>)
    requires Hex(a) == Hex(b)
    ensures a == b
    decreases |a|
  {
    hide HexDigit;
    if a != [] {
      var s, t := Hex(a), Hex(b);
      assert s[0] == HexDigit(a[0] / 16) && s[1] == HexDigit(a[0] % 16);
      assert t[0] == HexDigit(b[0] / 16) && t[1] == HexDigit(b[0] % 16);
      DigitInjective(a[0] / 16, b[0] / 16);
      DigitInjective(a[0] % 16, b[0] % 16);
      assert s[2..] == Hex(a[1..]) && t[2..] == Hex(b[1..]);
      HexInjective(a[1..], b[1..]);
      assert a == [a[0]] + a[1..] && b == [b[0]] + b[1..];
    }
  }

  // ---------- the two peers ----------

  // What an attempt gathers about itself, before the nonce is set.
  datatype Creds = Creds(ufrag: string, pwd: string, candidates: seq<string>)

  function WithGen(c: Creds, gen: string): Offer {
    Offer(c.ufrag, c.pwd, c.candidates, gen)
  }

  // One Connect of peer-a: its offer carries the nonce it minted. `posted`: the
  // server has handled the request, which may be long after the client gave up.
  datatype APc = Posting | Awaiting | Accepted(answer: Offer) | Ended
  datatype Attempt = Attempt(creds: Creds, nonce: seq<byte>, posted: bool, pc: APc)

  // One Connect of peer-b: it reads an offer, echoes its nonce and posts.
  datatype BPc = Reading | Answering(offer: Offer)
  datatype Response = Response(creds: Creds, posted: bool, pc: BPc)

  function OfferOf(a: Attempt): Offer {
    WithGen(a.creds, Hex(a.nonce))
  }

  function AnswerOf(b: Response): Offer
    requires b.pc.Answering?
  {
    WithGen(b.creds, b.pc.offer.gen)
  }

  // Peer-a waits for its own nonce, or with `matching` false for any answer, as
  // AwaitAnswer does.
  datatype Config = Config(sess: string, matching: bool)

  datatype State = State(tables: Tables, attempts: seq<Attempt>, responses: seq<Response>)

  const INIT := State(EMPTY, [], [])

  datatype Action =
    | StartA(creds: Creds, nonce: seq<byte>)
    | DeliverOffer(i: nat)        // the server handles the posting of attempt i's offer
    | OfferPosted(i: nat)         // attempt i gets the reply
    | PollAnswer(i: nat)          // attempt i polls and finds an answer it takes
    | GiveUp(i: nat)              // attempt i's context ends
    | StartB(creds: Creds)
    | ReadOffer(j: nat)           // response j polls and finds an offer
    | DeliverAnswer(j: nat)       // the server handles the posting of its answer
    | Elsewhere(op: Op)           // an operation on another session, or a server restart
    | ClearOwn                    // the session is cleared

  function Want(c: Config, a: Attempt): string {
    if c.matching then Hex(a.nonce) else ""
  }

  // The reply to a poll for the answer.
  function AnswerReply(c: Config, s: State): Reply {
    if c.sess in s.tables.answers then Found(s.tables.answers[c.sess]) else NotFound
  }

  predicate Enabled(c: Config, s: State, a: Action) {
    match a
    case StartA(_, nonce) => |nonce| == 8
    case DeliverOffer(i) => i < |s.attempts| && !s.attempts[i].posted
    case OfferPosted(i) => i < |s.attempts| && s.attempts[i].posted && s.attempts[i].pc.Posting?
    case PollAnswer(i) =>
      i < |s.attempts| && s.attempts[i].pc.Awaiting? && AnswerReply(c, s).Found?
      && !NotYet(AnswerReply(c, s), Want(c, s.attempts[i]))
    case GiveUp(i) => i < |s.attempts| && (s.attempts[i].pc.Posting? || s.attempts[i].pc.Awaiting?)
    case StartB(_) => true
    case ReadOffer(j) => j < |s.responses| && s.responses[j].pc.Reading? && Key(c.sess, ROLE_A) in s.tables.offers
    case DeliverAnswer(j) => j < |s.responses| && s.responses[j].pc.Answering? && !s.responses[j].posted
    case Elsewhere(op) => op.Restart? || (op.sess != c.sess && Plain(op.sess))
    case ClearOwn => true
  }

  function Step(c: Config, s: State, a: Action): State
    requires Enabled(c, s, a)
  {
    match a
    case StartA(creds, nonce) => s.(attempts := s.attempts + [Attempt(creds, nonce, false, Posting)])
    case DeliverOffer(i) =>
      var x := s.attempts[i];
      s.(tables := Apply(s.tables, PostOffer(c.sess, ROLE_A, OfferOf(x))),
         attempts := s.attempts[i := x.(posted := true)])
    case OfferPosted(i) => s.(attempts := s.attempts[i := s.attempts[i].(pc := Awaiting)])
    case PollAnswer(i) => s.(attempts := s.attempts[i := s.attempts[i].(pc := Accepted(s.tables.answers[c.sess]))])
    case GiveUp(i) => s.(attempts := s.attempts[i := s.attempts[i].(pc := Ended)])
    case StartB(creds) => s.(responses := s.responses + [Response(creds, false, Reading)])
    case ReadOffer(j) =>
      s.(responses := s.responses[j := s.responses[j].(pc := Answering(s.tables.offers[Key(c.sess, ROLE_A)]))])
    case DeliverAnswer(j) =>
      var y := s.responses[j];
      s.(tables := Apply(s.tables, PostAnswer(c.sess, AnswerOf(y))),
         responses := s.responses[j := y.(posted := true)])
    case Elsewhere(op) => s.(tables := Apply(s.tables, op))
    case ClearOwn => s.(tables := Apply(s.tables, Clear(c.sess)))
  }

  ghost predicate ValidConfig(c: Config) {
    c.sess != "" && Plain(c.sess)
  }

  ghost predicate IsRun(c: Config, ss: seq<State>, acts: seq<Action>) {
    && |ss| == |acts| + 1
    && ss[0] == INIT
    && forall t {:trigger acts[t]} :: 0 <= t < |acts| ==>
         Enabled(c, ss[t], acts[t]) && ss[t + 1] == Step(c, ss[t], acts[t])
  }

  // No two attempts drew the same random bytes.
  predicate Fresh(s: State) {
    forall i, j :: 0 <= i < j < |s.attempts| ==> s.attempts[i].nonce != s.attempts[j].nonce
  }

  // ---------- safety ----------

  // Some attempt made this offer.
  ghost predicate Offered(s: State, o: Offer) {
    exists i :: 0 <= i < |s.attempts| && OfferOf(s.attempts[i]) == o
  }

  // Some response to an offer made this answer.
  ghost predicate Answered(s: State, a: Offer) {
    exists j :: 0 <= j < |s.responses| && s.responses[j].pc.Answering? && AnswerOf(s.responses[j]) == a
  }

  ghost predicate Inv(c: Config, s: State) {
    && (forall i :: 0 <= i < |s.attempts| ==> |s.attempts[i].nonce| == 8)
    && (Key(c.sess, ROLE_A) in s.tables.offers ==> Offered(s, s.tables.offers[Key(c.sess, ROLE_A)]))
    && (c.sess in s.tables.answers ==> Answered(s, s.tables.answers[c.sess]))
    && (forall j :: 0 <= j < |s.responses| && s.responses[j].pc.Answering? ==> Offered(s, s.responses[j].pc.offer))
    && (forall i :: 0 <= i < |s.attempts| && s.attempts[i].pc.Accepted? ==>
          Answered(s, s.attempts[i].pc.answer)
          && (c.matching ==> s.attempts[i].pc.answer.gen == Hex(s.attempts[i].nonce)))
  }

  // Attempts keep their offers, responses their answers.
  ghost predicate Grows(s: State, s': State) {
    && |s.attempts| <= |s'.attempts| && |s.responses| <= |s'.responses|
    && (forall i :: 0 <= i < |s.attempts| ==> OfferOf(s'.attempts[i]) == OfferOf(s.attempts[i]))
    && (forall j :: 0 <= j < |s.responses| && s.responses[j].pc.Answering? ==>
          s'.responses[j].pc == s.responses[j].pc && s'.responses[j].creds == s.responses[j].creds)
  }

  lemma StepGrows(c: Config, s: State, a: Action)
    requires Enabled(c, s, a)
    ensures Grows(s, Step(c, s, a))
  {
  }

  lemma KeptOffered(s: State, s': State, o: Offer)
    requires Grows(s, s') && Offered(s, o)
    ensures Offered(s', o)
  {
    var i :| 0 <= i < |s.attempts| && OfferOf(s.attempts[i]) == o;
    assert OfferOf(s'.attempts[i]) == o;
  }

  lemma KeptAnswered(s: State, s': State, a: Offer)
    requires Grows(s, s') && Answered(s, a)
    ensures Answered(s', a)
  {
    var j :| 0 <= j < |s.responses| && s.responses[j].pc.Answering? && AnswerOf(s.responses[j]) == a;
    assert s'.responses[j].pc.Answering? && AnswerOf(s'.responses[j]) == a;
  }

  // What the server holds for the session after a step.
  lemma TablesInv(c: Config, s: State, a: Action)
    requires ValidConfig(c) && Inv(c, s) && Enabled(c, s, a)
    ensures var s' := Step(c, s, a);
      && (Key(c.sess, ROLE_A) in s'.tables.offers ==> Offered(s', s'.tables.offers[Key(c.sess, ROLE_A)]))
      && (c.sess in s'.tables.answers ==> Answered(s', s'.tables.answers[c.sess]))
  {
    hide Key, OfferOf, AnswerOf, Plain;
    var s', k := Step(c, s, a), Key(c.sess, ROLE_A);
    StepGrows(c, s, a);
    if k in s.tables.offers { KeptOffered(s, s', s.tables.offers[k]); }
    if c.sess in s.tables.answers { KeptAnswered(s, s', s.tables.answers[c.sess]); }
    match a
    case DeliverOffer(i) =>
      assert OfferOf(s'.attempts[i]) == OfferOf(s.attempts[i]);
    case DeliverAnswer(j) =>
      assert AnswerOf(s'.responses[j]) == AnswerOf(s.responses[j]) by { SameAnswer(s.responses[j], s'.responses[j]); }
    case Elsewhere(op) => if !op.Restart? { Isolation(s.tables, op, c.sess, ROLE_A); }
    case ClearOwn =>
    case StartA(_, _) =>
    case OfferPosted(_) =>
    case PollAnswer(_) =>
    case GiveUp(_) =>
    case StartB(_) =>
    case ReadOffer(_) =>
  }

  lemma SameAnswer(b: Response, b': Response)
    requires b.pc.Answering? && b'.pc == b.pc && b'.creds == b.creds
    ensures AnswerOf(b) == AnswerOf(b')
  {
  }

  // A response answers an offer some attempt made.
  lemma ResponsesInv(c: Config, s: State, a: Action, j: nat)
    requires Inv(c, s) && Enabled(c, s, a) && j < |Step(c, s, a).responses|
    ensures var s' := Step(c, s, a); s'.responses[j].pc.Answering? ==> Offered(s', s'.responses[j].pc.offer)
  {
    hide Key, Apply, Hex, Answered, Offered;
    var s' := Step(c, s, a);
    StepGrows(c, s, a);
    if s'.responses[j].pc.Answering? {
      KeptOffered(s, s', s'.responses[j].pc.offer);
    }
  }

  // What an attempt has accepted is an answer some response made, with its nonce.
  lemma AttemptsInv(c: Config, s: State, a: Action, i: nat)
    requires Inv(c, s) && Enabled(c, s, a) && i < |Step(c, s, a).attempts|
    requires Step(c, s, a).attempts[i].pc.Accepted?
    ensures var s' := Step(c, s, a);
      && Answered(s', s'.attempts[i].pc.answer)
      && (c.matching ==> s'.attempts[i].pc.answer.gen == Hex(s'.attempts[i].nonce))
  {
    hide Key, Apply, Hex, Answered, Offered;
    var s' := Step(c, s, a);
    StepGrows(c, s, a);
    if !(a.PollAnswer? && a.i == i) {
      assert s.attempts[i].pc == s'.attempts[i].pc && s.attempts[i].nonce == s'.attempts[i].nonce;
    }
    KeptAnswered(s, s', s'.attempts[i].pc.answer);
  }

  lemma StepInv(c: Config, s: State, a: Action)
    requires ValidConfig(c) && Inv(c, s) && Enabled(c, s, a)
    ensures Inv(c, Step(c, s, a))
  {
    TablesInv(c, s, a);
    NoncesInv(c, s, a);
    hide Step, Enabled, Answered, Offered, Key, Hex;
    var s' := Step(c, s, a);
    forall j | 0 <= j < |s'.responses| && s'.responses[j].pc.Answering?
      ensures Offered(s', s'.responses[j].pc.offer)
    {
      ResponsesInv(c, s, a, j);
    }
    forall i | 0 <= i < |s'.attempts| && s'.attempts[i].pc.Accepted?
      ensures Answered(s', s'.attempts[i].pc.answer)
        && (c.matching ==> s'.attempts[i].pc.answer.gen == Hex(s'.attempts[i].nonce))
    {
      AttemptsInv(c, s, a, i);
    }
  }

  lemma NoncesInv(c: Config, s: State, a: Action)
    requires Enabled(c, s, a) && forall i :: 0 <= i < |s.attempts| ==> |s.attempts[i].nonce| == 8
    ensures var s' := Step(c, s, a); forall i :: 0 <= i < |s'.attempts| ==> |s'.attempts[i].nonce| == 8
  {
    hide Key, Apply;
  }

  lemma {:induction false} RunInv(c: Config, ss: seq<State>, acts: seq<Action>, t: nat)
    requires ValidConfig(c) && IsRun(c, ss, acts) && t < |ss|
    ensures Inv(c, ss[t])
    decreases t
  {
    if t > 0 {
      RunInv(c, ss, acts, t - 1);
      assert Enabled(c, ss[t - 1], acts[t - 1]);
      StepInv(c, ss[t - 1], acts[t - 1]);
    }
  }

  // Response j answers attempt i: it read exactly i's offer, and i took exactly
  // its answer. So each holds the other's credentials.
  predicate Bound(s: State, i: nat, j: nat)
    requires i < |s.attempts| && j < |s.responses|
  {
    var x, y := s.attempts[i], s.responses[j];
    && y.pc.Answering? && y.pc.offer == Offer(x.creds.ufrag, x.creds.pwd, x.creds.candidates, Hex(x.nonce))
    && x.pc.Accepted? && x.pc.answer == Offer(y.creds.ufrag, y.creds.pwd, y.creds.candidates, Hex(x.nonce))
  }

  // In every reachable state, whatever was delayed, given up or restarted: an
  // answer peer-a has accepted was produced by a peer-b attempt that read exactly
  // that attempt's offer.
  lemma NonceSafety(c: Config, ss: seq<State>, acts: seq<Action>, t: nat, i: nat)
    requires ValidConfig(c) && IsRun(c, ss, acts) && t < |ss|
    requires c.matching && Fresh(ss[t])
    requires i < |ss[t].attempts| && ss[t].attempts[i].pc.Accepted?
    ensures exists j :: 0 <= j < |ss[t].responses| && Bound(ss[t], i, j)
  {
    RunInv(c, ss, acts, t);
    var s := ss[t];
    var a := s.attempts[i].pc.answer;
    var j :| 0 <= j < |s.responses| && s.responses[j].pc.Answering? && AnswerOf(s.responses[j]) == a;
    var k :| 0 <= k < |s.attempts| && OfferOf(s.attempts[k]) == s.responses[j].pc.offer;
    HexInjective(s.attempts[k].nonce, s.attempts[i].nonce);
    assert k == i;
    assert Bound(s, i, j);
  }

  // ---------- the server in a run ----------

  // The operations the server has handled in the first t steps.
  ghost function Ops(c: Config, ss: seq<State>, acts: seq<Action>, t: nat): seq<Op>
    requires t <= |acts| <= |ss|
  {
    if t == 0 then []
    else
      var before, s := Ops(c, ss, acts, t - 1), ss[t - 1];
      match acts[t - 1]
      case DeliverOffer(i) =>
        if i < |s.attempts| then
          var x := s.attempts[i];
          before + [PostOffer(c.sess, "peer-a", Offer(x.creds.ufrag, x.creds.pwd, x.creds.candidates, Hex(x.nonce)))]
        else before
      case DeliverAnswer(j) =>
        if j < |s.responses| && s.responses[j].pc.Answering? then
          var y := s.responses[j];
          before + [PostAnswer(c.sess, Offer(y.creds.ufrag, y.creds.pwd, y.creds.candidates, y.pc.offer.gen))]
        else before
      case Elsewhere(op) => before + [op]
      case ClearOwn => before + [Clear(c.sess)]
      case _ => before
  }

  lemma AfterMore(ops: seq<Op>, op: Op)
    ensures After(ops + [op]) == Apply(After(ops), op)
  {
    assert (ops + [op])[..|ops|] == ops;
  }

  lemma OtherKeepsTables(c: Config, s: State, a: Action)
    requires Enabled(c, s, a) && !a.DeliverOffer? && !a.DeliverAnswer? && !a.Elsewhere? && !a.ClearOwn?
    ensures Step(c, s, a).tables == s.tables
  {
    hide Apply;
  }

  // The server of a run is the server: its maps are what these operations make of the
  // empty ones. So peer-a polls the answer that the latest of them left.
  lemma {:induction false} ServerFollows(c: Config, ss: seq<State>, acts: seq<Action>, t: nat)
    requires IsRun(c, ss, acts) && t < |ss|
    ensures ss[t].tables == After(Ops(c, ss, acts, t))
    decreases t
  {
    hide Apply, After, Hex, Key;
    if t == 0 {
      assert After([]) == EMPTY by { NoOps(); }
    } else {
      var s, a, before := ss[t - 1], acts[t - 1], Ops(c, ss, acts, t - 1);
      ServerFollows(c, ss, acts, t - 1);
      assert Enabled(c, s, a);
      if a.DeliverOffer? || a.DeliverAnswer? || a.Elsewhere? || a.ClearOwn? {
        var ops := Ops(c, ss, acts, t);
        AfterMore(before, ops[|before|]);
        assert ops == before + [ops[|before|]];
      } else {
        OtherKeepsTables(c, s, a);
      }
    }
  }

  lemma NoOps()
    ensures After([]) == EMPTY
  {
  }

  // At any moment either peer may start an attempt, peer-a may give up one that is under
  // way, the session may be cleared, the server restarted or used by others; and a request
  // once sent may arrive, whatever has become of its sender.
  lemma AnythingMayHappen(c: Config, s: State, i: nat, j: nat, creds: Creds, m: seq<byte>, op: Op)
    requires |m| == 8
    ensures Enabled(c, s, StartA(creds, m)) && Enabled(c, s, StartB(creds)) && Enabled(c, s, ClearOwn)
    ensures Enabled(c, s, Elsewhere(Restart))
    ensures !op.Restart? && op.sess != c.sess && Plain(op.sess) ==> Enabled(c, s, Elsewhere(op))
    ensures i < |s.attempts| && !s.attempts[i].posted ==> Enabled(c, s, DeliverOffer(i))
    ensures i < |s.attempts| && (s.attempts[i].pc.Posting? || s.attempts[i].pc.Awaiting?) ==> Enabled(c, s, GiveUp(i))
    ensures j < |s.responses| && s.responses[j].pc.Answering? && !s.responses[j].posted ==>
      Enabled(c, s, DeliverAnswer(j))
  {
  }

  // Peer-b may take up whatever offer it finds, and peer-a whatever answer carries its
  // nonce.
  lemma PollsFind(c: Config, s: State, i: nat, j: nat)
    ensures j < |s.responses| && s.responses[j].pc.Reading? && Key(c.sess, "peer-a") in s.tables.offers ==>
      Enabled(c, s, ReadOffer(j))
    ensures i < |s.attempts| && s.attempts[i].pc.Posting? && s.attempts[i].posted ==> Enabled(c, s, OfferPosted(i))
    ensures i < |s.attempts| && s.attempts[i].pc.Awaiting? && c.sess in s.tables.answers && c.matching ==>
      (Enabled(c, s, PollAnswer(i))
       <==> Hex(s.attempts[i].nonce) == "" || s.tables.answers[c.sess].gen == Hex(s.attempts[i].nonce))
  {
  }

  // ---------- and it can succeed ----------

  // Peer-a offers, peer-b reads the offer and answers, peer-a polls.
  function GoodActions(x: Creds, m: seq<byte>, y: Creds): seq<Action> {
    [StartA(x, m), StartB(y), DeliverOffer(0), OfferPosted(0), ReadOffer(0), DeliverAnswer(0), PollAnswer(0)]
  }

  function GoodStates(c: Config, x: Creds, m: seq<byte>, y: Creds): seq<State> {
    var k := Key(c.sess, ROLE_A);
    var o, ans := WithGen(x, Hex(m)), WithGen(y, Hex(m));
    var t := Tables(map[k := o], map[]);
    var a, b := Attempt(x, m, false, Posting), Response(y, false, Reading);
    var a', b' := a.(posted := true, pc := Awaiting), b.(pc := Answering(o));
    [State(EMPTY, [], []),
     State(EMPTY, [a], []),
     State(EMPTY, [a], [b]),
     State(t, [a.(posted := true)], [b]),
     State(t, [a'], [b]),
     State(t, [a'], [b']),
     State(t.(answers := map[c.sess := ans]), [a'], [b'.(posted := true)]),
     State(t.(answers := map[c.sess := ans]), [a'.(pc := Accepted(ans))], [b'.(posted := true)])]
  }

  lemma GoodStep(c: Config, x: Creds, m: seq<byte>, y: Creds, t: nat)
    requires ValidConfig(c) && |m| == 8 && t < 7
    ensures var ss, acts := GoodStates(c, x, m, y), GoodActions(x, m, y);
      Enabled(c, ss[t], acts[t]) && ss[t + 1] == Step(c, ss[t], acts[t])
  {
    hide Key, Hex;
    var ss, acts := GoodStates(c, x, m, y), GoodActions(x, m, y);
    var s, s' := ss[t], Step(c, ss[t], acts[t]);
    assert s'.attempts == ss[t + 1].attempts && s'.responses == ss[t + 1].responses;
    assert s'.tables.offers == ss[t + 1].tables.offers && s'.tables.answers == ss[t + 1].tables.answers;
  }

  // Whatever the credentials and the nonce, matching or not, there is a run in which the
  // two peers come to hold each other's credentials.
  lemma HandshakeSucceeds(c: Config, x: Creds, m: seq<byte>, y: Creds)
    requires c.sess != "" && '|' !in c.sess && |m| == 8
    ensures var ss, acts := GoodStates(c, x, m, y), GoodActions(x, m, y);
      IsRun(c, ss, acts) && Bound(ss[7], 0, 0)
  {
    hide Key, Hex;
    var ss, acts := GoodStates(c, x, m, y), GoodActions(x, m, y);
    forall t | 0 <= t < 7
      ensures Enabled(c, ss[t], acts[t]) && ss[t + 1] == Step(c, ss[t], acts[t])
    {
      GoodStep(c, x, m, y, t);
    }
  }

  // ---------- both hypotheses are needed ----------

  // Peer-a offers, peer-b reads, peer-a restarts and offers again, and only then
  // is peer-b's answer posted; peer-a polls.
  function StaleActions(x: Creds, m: seq<byte>, x': Creds, m': seq<byte>, y: Creds): seq<Action> {
    [StartA(x, m), DeliverOffer(0), StartB(y), ReadOffer(0), GiveUp(0),
     StartA(x', m'), DeliverOffer(1), OfferPosted(1), DeliverAnswer(0), PollAnswer(1)]
  }

  function StaleStates(c: Config, x: Creds, m: seq<byte>, x': Creds, m': seq<byte>, y: Creds): seq<State> {
    var k := Key(c.sess, ROLE_A);
    var o, o' := WithGen(x, Hex(m)), WithGen(x', Hex(m'));
    var ans := WithGen(y, Hex(m));
    var t1, t2 := Tables(map[k := o], map[]), Tables(map[k := o'], map[]);
    var a, a' := Attempt(x, m, false, Posting), Attempt(x', m', false, Posting);
    var gone := Attempt(x, m, true, Ended);
    var b := Response(y, false, Answering(o));
    [State(EMPTY, [], []),
     State(EMPTY, [a], []),
     State(t1, [a.(posted := true)], []),
     State(t1, [a.(posted := true)], [Response(y, false, Reading)]),
     State(t1, [a.(posted := true)], [b]),
     State(t1, [gone], [b]),
     State(t1, [gone, a'], [b]),
     State(t2, [gone, a'.(posted := true)], [b]),
     State(t2, [gone, a'.(posted := true, pc := Awaiting)], [b]),
     State(t2.(answers := map[c.sess := ans]), [gone, a'.(posted := true, pc := Awaiting)], [b.(posted := true)]),
     State(t2.(answers := map[c.sess := ans]), [gone, a'.(posted := true, pc := Accepted(ans))], [b.(posted := true)])]
  }

  // If peer-a takes any answer, or two attempts draw the same nonce, this run of
  // ten steps ends with attempt 1 holding an answer to attempt 0's offer, and no
  // response bound to it.
  lemma StaleAnswerAccepted(c: Config, x: Creds, m: seq<byte>, x': Creds, m': seq<byte>, y: Creds)
    requires ValidConfig(c) && |m| == |m'| == 8 && x != x'
    requires !c.matching || m == m'
    ensures var ss, acts := StaleStates(c, x, m, x', m', y), StaleActions(x, m, x', m', y);
      && IsRun(c, ss, acts)
      && ss[10].attempts[1].pc.Accepted?
      && forall j :: 0 <= j < |ss[10].responses| ==> !Bound(ss[10], 1, j)
  {
    hide Key, Hex;
    var ss, acts := StaleStates(c, x, m, x', m', y), StaleActions(x, m, x', m', y);
    forall t | 0 <= t < 10
      ensures Enabled(c, ss[t], acts[t]) && ss[t + 1] == Step(c, ss[t], acts[t])
    {
      if t < 5 { StaleBefore(c, x, m, x', m', y, t); } else { StaleAfter(c, x, m, x', m', y, t); }
    }
  }

  // Up to the restart.
  lemma StaleBefore(c: Config, x: Creds, m: seq<byte>, x': Creds, m': seq<byte>, y: Creds, t: nat)
    requires ValidConfig(c) && |m| == |m'| == 8 && t < 5
    ensures var ss, acts := StaleStates(c, x, m, x', m', y), StaleActions(x, m, x', m', y);
      Enabled(c, ss[t], acts[t]) && ss[t + 1] == Step(c, ss[t], acts[t])
  {
    hide Key, Hex;
    var ss, acts := StaleStates(c, x, m, x', m', y), StaleActions(x, m, x', m', y);
    var s, s' := ss[t], Step(c, ss[t], acts[t]);
    assert s'.attempts == ss[t + 1].attempts && s'.responses == ss[t + 1].responses;
    assert s'.tables.offers == ss[t + 1].tables.offers && s'.tables.answers == ss[t + 1].tables.answers;
  }

  // From it on.
  lemma StaleAfter(c: Config, x: Creds, m: seq<byte>, x': Creds, m': seq<byte>, y: Creds, t: nat)
    requires ValidConfig(c) && |m| == |m'| == 8 && (!c.matching || m == m') && 5 <= t < 10
    ensures var ss, acts := StaleStates(c, x, m, x', m', y), StaleActions(x, m, x', m', y);
      Enabled(c, ss[t], acts[t]) && ss[t + 1] == Step(c, ss[t], acts[t])
  {
    hide Key, Hex;
    var ss, acts := StaleStates(c, x, m, x', m', y), StaleActions(x, m, x', m', y);
    var s, s' := ss[t], Step(c, ss[t], acts[t]);
    assert s'.attempts == ss[t + 1].attempts && s'.responses == ss[t + 1].responses;
    assert s'.tables.offers == ss[t + 1].tables.offers && s'.tables.answers == ss[t + 1].tables.answers;
  }
}
