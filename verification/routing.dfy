// From the shared configuration to the dialed port: the table a peer builds for its
// router, and what reaches it from the other peer's listeners.
module Routing {
  import opened Bytes
  import opened Codec
  import opened Configuration
  import Listener
  import Router

  ghost predicate Declares(dial: seq<DialSpec>, name: Tag) {
    exists i :: 0 <= i < |dial| && dial[i].name == name
  }

  ghost predicate Listens(listen: seq<ListenSpec>, name: Tag) {
    exists i :: 0 <= i < |listen| && listen[i].name == name
  }

  ghost predicate LastDial(dial: seq<DialSpec>, name: Tag, port: Port) {
    exists i :: 0 <= i < |dial| && dial[i] == DialSpec(port, name) && !Declares(dial[i + 1..], name)
  }

  ghost predicate FirstListen(listen: seq<ListenSpec>, name: Tag, port: Port) {
    exists i ::
      0 <= i < |listen| && listen[i].name == name && listen[i].remotePort == port && !Listens(listen[..i], name)
  }

  // The port for a name: one's own last Dial entry, or else the remote port of the
  // other's first Listen entry.
  ghost predicate Routes(dial: seq<DialSpec>, listen: seq<ListenSpec>, name: Tag, port: Port) {
    if Declares(dial, name) then LastDial(dial, name, port) else FirstListen(listen, name, port)
  }

  // The table holds these names and no others, each with its port.
  ghost predicate TableFor(dial: seq<DialSpec>, listen: seq<ListenSpec>, dials: map<Tag, Port>) {
    && (forall name :: name in dials <==> Declares(dial, name) || Listens(listen, name))
    && (forall name :: name in dials ==> Routes(dial, listen, name, dials[name]))
  }

  lemma NextDial(dial: seq<DialSpec>, k: nat, dials: map<Tag, Port>)
    requires k < |dial| && TableFor(dial[..k], [], dials)
    ensures TableFor(dial[..k + 1], [], dials[dial[k].name := dial[k].localPort])
  {
    var before, now, d := dial[..k], dial[..k + 1], dial[k];
    assert now == before + [d];
    forall name
      ensures Declares(now, name) <==> Declares(before, name) || name == d.name
      ensures name != d.name ==> forall port :: LastDial(before, name, port) ==> LastDial(now, name, port)
    {
      assert now[k] == d;
      if Declares(before, name) {
        var i :| 0 <= i < k && before[i].name == name;
        assert now[i].name == name;
      }
      if name != d.name {
        forall port | LastDial(before, name, port)
          ensures LastDial(now, name, port)
        {
          var i :| 0 <= i < k && before[i] == DialSpec(port, name) && !Declares(before[i + 1..], name);
          assert now[i] == before[i];
          StillLast(before, d, i, name);
        }
      }
    }
    assert LastDial(now, d.name, d.localPort) by {
      assert now[k] == DialSpec(d.localPort, d.name) && now[k + 1..] == [];
    }
  }

  lemma StillLast(before: seq<DialSpec>, d: DialSpec, i: nat, name: Tag)
    requires i < |before| && !Declares(before[i + 1..], name) && d.name != name
    ensures !Declares((before + [d])[i + 1..], name)
  {
    var rest, rest' := before[i + 1..], (before + [d])[i + 1..];
    assert rest' == rest + [d];
    forall j | 0 <= j < |rest'|
      ensures rest'[j].name != name
    {
      if j < |rest| { assert rest'[j] == rest[j]; }
    }
  }

  lemma NextListen(dial: seq<DialSpec>, listen: seq<ListenSpec>, k: nat, dials: map<Tag, Port>)
    requires k < |listen| && TableFor(dial, listen[..k], dials)
    ensures var l := listen[k];
      TableFor(dial, listen[..k + 1], if l.name in dials then dials else dials[l.name := l.remotePort])
  {
    hide LastDial;
    var before, now, l := listen[..k], listen[..k + 1], listen[k];
    assert now == before + [l];
    forall name
      ensures Listens(now, name) <==> Listens(before, name) || name == l.name
      ensures forall port :: FirstListen(before, name, port) ==> FirstListen(now, name, port)
    {
      assert now[k] == l;
      if Listens(before, name) {
        var i :| 0 <= i < k && before[i].name == name;
        assert now[i].name == name;
      }
      forall port | FirstListen(before, name, port)
        ensures FirstListen(now, name, port)
      {
        var i :| 0 <= i < k && before[i].name == name && before[i].remotePort == port && !Listens(before[..i], name);
        assert now[i] == before[i] && now[..i] == before[..i];
      }
    }
    if l.name !in dials {
      assert FirstListen(now, l.name, l.remotePort) by {
        assert now[k] == l && now[..k] == before;
      }
    }
  }

  // The dial table of runOnce.
  method BuildDials(me: Peer, other: Peer) returns (dials: map<Tag, Port>)
    ensures TableFor(me.dial, other.listen, dials)
  {
    hide TableFor;
    dials := map[];
    assert TableFor(me.dial[..0], [], dials) by { Nothing(me.dial[..0]); }
    for i := 0 to |me.dial|
      invariant TableFor(me.dial[..i], [], dials)
    {
      var d := me.dial[i];
      NextDial(me.dial, i, dials);
      dials := dials[d.name := d.localPort];
    }
    assert me.dial[..|me.dial|] == me.dial && other.listen[..0] == [];
    for i := 0 to |other.listen|
      invariant TableFor(me.dial, other.listen[..i], dials)
    {
      var l := other.listen[i];
      NextListen(me.dial, other.listen, i, dials);
      if l.name !in dials {
        dials := dials[l.name := l.remotePort];
      }
    }
    assert other.listen[..|other.listen|] == other.listen;
  }

  lemma Nothing(dial: seq<DialSpec>)
    requires dial == []
    ensures TableFor(dial, [], map[])
  {
  }

  // ---------- complete routing ----------

  // The same without any order: own entry if there is one, else the listener's.
  ghost predicate RoutesTo(dial: seq<DialSpec>, listen: seq<ListenSpec>, name: Tag, port: Port) {
    || DialSpec(port, name) in dial
    || ((forall d :: d in dial ==> d.name != name) && exists l :: l in listen && l.name == name && l.remotePort == port)
  }

  lemma ValidApart(p: Peer)
    requires GoodNames(Names(p))
    ensures forall i, j :: 0 <= i < j < |p.dial| ==> p.dial[i].name != p.dial[j].name
    ensures forall i, j :: 0 <= i < j < |p.listen| ==> p.listen[i].name != p.listen[j].name
    ensures forall i :: 0 <= i < |p.listen| ==> p.listen[i].name != []
  {
    var names := Names(p);
    forall i, j | 0 <= i < j < |p.dial|
      ensures p.dial[i].name != p.dial[j].name
    {
      assert names[|p.listen| + i] != names[|p.listen| + j];
    }
    forall i, j | 0 <= i < j < |p.listen|
      ensures p.listen[i].name != p.listen[j].name
    {
      assert names[i] != names[j];
    }
  }

  lemma BothPeers(cfg: Config, role: string)
    requires Valid(cfg) && IsRole(role)
    ensures role in cfg.peers && Other(role) in cfg.peers
    ensures GoodNames(Names(cfg.peers[role])) && GoodNames(Names(cfg.peers[Other(role)]))
  {
    hide GoodNames;
  }

  // With names used once, "last" and "first" do not matter.
  lemma RoutesExactly(me: Peer, other: Peer, name: Tag, port: Port)
    requires GoodNames(Names(me)) && GoodNames(Names(other))
    ensures Routes(me.dial, other.listen, name, port) <==> RoutesTo(me.dial, other.listen, name, port)
  {
    ValidApart(me);
    ValidApart(other);
    hide GoodNames;
    var dial, listen := me.dial, other.listen;
    if DialSpec(port, name) in dial {
      var i :| 0 <= i < |dial| && dial[i] == DialSpec(port, name);
      assert !Declares(dial[i + 1..], name);
    }
    if l :| l in listen && l.name == name && l.remotePort == port {
      var i :| 0 <= i < |listen| && listen[i] == l;
      assert !Listens(listen[..i], name);
    }
  }

  lemma OnePort(me: Peer, other: Peer, name: Tag, port: Port, port': Port)
    requires GoodNames(Names(me)) && GoodNames(Names(other))
    requires RoutesTo(me.dial, other.listen, name, port) && RoutesTo(me.dial, other.listen, name, port')
    ensures port == port'
  {
    ValidApart(me);
    ValidApart(other);
  }

  // What a valid configuration makes of the table: it holds exactly one's own Dial
  // names and the other's Listen names; a declared name goes to one's own port, any
  // other to the port the listener asked for; and each name has one port only.
  lemma CompleteRouting(cfg: Config, role: string, dials: map<Tag, Port>)
    requires Valid(cfg) && IsRole(role)
    requires TableFor(cfg.peers[role].dial, cfg.peers[Other(role)].listen, dials)
    ensures forall l :: l in cfg.peers[Other(role)].listen ==> l.name in dials
    ensures forall name :: name in dials ==>
      Declares(cfg.peers[role].dial, name) || Listens(cfg.peers[Other(role)].listen, name)
    ensures forall name, port :: name in dials ==>
      (dials[name] == port <==> RoutesTo(cfg.peers[role].dial, cfg.peers[Other(role)].listen, name, port))
  {
    BothPeers(cfg, role);
    var me, other := cfg.peers[role], cfg.peers[Other(role)];
    hide Valid, GoodNames, IsRole, Other, Routes, RoutesTo;
    forall name, port | name in dials
      ensures dials[name] == port <==> RoutesTo(me.dial, other.listen, name, port)
    {
      RoutesExactly(me, other, name, dials[name]);
      if RoutesTo(me.dial, other.listen, name, port) {
        OnePort(me, other, name, port, dials[name]);
      }
    }
  }

  // The table that runOnce builds, for each peer by name.
  method DialTable(cfg: Config, role: string) returns (dials: map<Tag, Port>)
    requires Valid(cfg) && IsRole(role)
    ensures TableFor(cfg.peers[role].dial, cfg.peers[Other(role)].listen, dials)
    ensures role == "peer-a" ==> RoutesFrom(cfg, "peer-a", "peer-b", dials)
    ensures role == "peer-b" ==> RoutesFrom(cfg, "peer-b", "peer-a", dials)
  {
    BothPeers(cfg, role);
    OtherPeer(role);
    hide Valid, GoodNames, TableFor, RoutesTo, Routes;
    dials := BuildDials(cfg.peers[role], cfg.peers[Other(role)]);
    FromOther(cfg, role, dials);
  }

  // Peer `role` reaches everything peer `other` listens on, at the configured port.
  ghost predicate RoutesFrom(cfg: Config, role: string, other: string, dials: map<Tag, Port>) {
    && role in cfg.peers && other in cfg.peers
    && (forall l :: l in cfg.peers[other].listen ==> l.name in dials)
    && (forall name :: name in dials ==>
          Declares(cfg.peers[role].dial, name) || Listens(cfg.peers[other].listen, name))
    && (forall name, port :: name in dials ==>
          (dials[name] == port <==> RoutesTo(cfg.peers[role].dial, cfg.peers[other].listen, name, port)))
  }

  lemma FromOther(cfg: Config, role: string, dials: map<Tag, Port>)
    requires Valid(cfg) && IsRole(role)
    requires TableFor(cfg.peers[role].dial, cfg.peers[Other(role)].listen, dials)
    ensures RoutesFrom(cfg, role, Other(role), dials)
  {
    BothPeers(cfg, role);
    hide Valid, GoodNames, IsRole, Other, TableFor;
    CompleteRouting(cfg, role, dials);
  }

  // So the order of the lists does not matter.
  lemma OrderIrrelevant(cfg: Config, cfg': Config, role: string, dials: map<Tag, Port>, dials': map<Tag, Port>)
    requires Valid(cfg) && Valid(cfg') && IsRole(role)
    requires multiset(cfg.peers[role].dial) == multiset(cfg'.peers[role].dial)
    requires multiset(cfg.peers[Other(role)].listen) == multiset(cfg'.peers[Other(role)].listen)
    requires TableFor(cfg.peers[role].dial, cfg.peers[Other(role)].listen, dials)
    requires TableFor(cfg'.peers[role].dial, cfg'.peers[Other(role)].listen, dials')
    ensures dials == dials'
  {
    BothPeers(cfg, role);
    BothPeers(cfg', role);
    SameElements(cfg.peers[role].dial, cfg'.peers[role].dial);
    SameElements(cfg.peers[Other(role)].listen, cfg'.peers[Other(role)].listen);
    hide Valid, GoodNames, IsRole, Other;
    SameTable(cfg.peers[role], cfg.peers[Other(role)], cfg'.peers[role], cfg'.peers[Other(role)], dials, dials');
  }

  lemma SameTable(me: Peer, other: Peer, me': Peer, other': Peer, dials: map<Tag, Port>, dials': map<Tag, Port>)
    requires GoodNames(Names(me)) && GoodNames(Names(other)) && GoodNames(Names(me')) && GoodNames(Names(other'))
    requires TableFor(me.dial, other.listen, dials) && TableFor(me'.dial, other'.listen, dials')
    requires forall d :: d in me.dial <==> d in me'.dial
    requires forall l :: l in other.listen <==> l in other'.listen
    ensures dials == dials'
  {
    hide GoodNames, Routes, RoutesTo, Declares, Listens;
    forall name
      ensures name in dials <==> name in dials'
    {
      SameNames(me.dial, me'.dial, other.listen, other'.listen, name);
    }
    forall name | name in dials
      ensures dials[name] == dials'[name]
    {
      RoutesExactly(me, other, name, dials[name]);
      RoutesExactly(me', other', name, dials'[name]);
      SamePort(me.dial, other.listen, me'.dial, other'.listen, name, dials[name]);
      OnePort(me', other', name, dials[name], dials'[name]);
    }
  }

  lemma SamePort(dial: seq<DialSpec>, listen: seq<ListenSpec>, dial': seq<DialSpec>, listen': seq<ListenSpec>,
                 name: Tag, port: Port)
    requires RoutesTo(dial, listen, name, port)
    requires forall d :: d in dial <==> d in dial'
    requires forall l :: l in listen <==> l in listen'
    ensures RoutesTo(dial', listen', name, port)
  {
  }

  lemma SameElements<T>(a: seq<T>, b: seq<T>)
    requires multiset(a) == multiset(b)
    ensures forall x :: x in a <==> x in b
  {
    assert forall x :: x in a <==> x in multiset(a);
    assert forall x :: x in b <==> x in multiset(b);
  }

  lemma SameNames(dial: seq<DialSpec>, dial': seq<DialSpec>, listen: seq<ListenSpec>,
                  listen': seq<ListenSpec>, name: Tag)
    requires forall d :: d in dial <==> d in dial'
    requires forall l :: l in listen <==> l in listen'
    ensures Declares(dial, name) <==> Declares(dial', name)
    ensures Listens(listen, name) <==> Listens(listen', name)
  {
    assert Declares(dial, name) <==> exists d :: d in dial && d.name == name;
    assert Declares(dial', name) <==> exists d :: d in dial' && d.name == name;
    assert Listens(listen, name) <==> exists l :: l in listen && l.name == name;
    assert Listens(listen', name) <==> exists l :: l in listen' && l.name == name;
  }

  // ---------- from a listener to the dialed port ----------

  lemma ListenedRouted(cfg: Config, role: string, dials: map<Tag, Port>, name: Tag)
    requires Valid(cfg) && IsRole(role)
    requires TableFor(cfg.peers[role].dial, cfg.peers[Other(role)].listen, dials)
    requires Listens(cfg.peers[Other(role)].listen, name)
    ensures name != [] && name in dials
    ensures RoutesTo(cfg.peers[role].dial, cfg.peers[Other(role)].listen, name, dials[name])
  {
    BothPeers(cfg, role);
    var me, other := cfg.peers[role], cfg.peers[Other(role)];
    hide Valid, IsRole, Other;
    ValidApart(other);
    assert name in dials;
    RoutesExactly(me, other, name, dials[name]);
  }

  // A header the other peer writes for one of its listeners is read back unchanged,
  // chunks untouched, and its tag is routed to the configured port. Nothing more is
  // asked than a name of at most 255 bytes, which the header cannot do without and
  // the configuration does not ask for.
  lemma ConfiguredHeader(cfg: Config, role: string, dials: map<Tag, Port>, o: Listener.Opening, i: nat, tail: seq<byte>)
    requires Valid(cfg) && IsRole(role)
    requires TableFor(cfg.peers[role].dial, cfg.peers[Other(role)].listen, dials)
    requires Listens(cfg.peers[Other(role)].listen, o.name) && i < o.n <= 255
    ensures WritableTag(o.name) <==> |o.name| <= 255
    ensures |o.name| <= 255 ==>
      DecodeHeader(EncodeHeader(Listener.StripeHeader(o, i)) + tail) == Accepted(Listener.StripeHeader(o, i), tail)
    ensures o.name in dials && RoutesTo(cfg.peers[role].dial, cfg.peers[Other(role)].listen, o.name, dials[o.name])
  {
    hide Valid, IsRole, Other, TableFor, RoutesTo, Listens, EncodeHeader, DecodeHeader;
    ListenedRouted(cfg, role, dials, o.name);
    if |o.name| <= 255 {
      HeaderRoundTrip(Listener.StripeHeader(o, i), tail);
    }
  }

  // A configuration is accepted with a listener whose connections never get out.
  lemma LongNameAccepted() returns (cfg: Config, l: ListenSpec)
    ensures Valid(cfg) && l in cfg.peers[PEER_A].listen && !WritableTag(l.name)
  {
    l := ListenSpec(8080, 8080, seq(256, _ => 0x61));
    var a, b := Peer([l], []), Peer([], []);
    cfg := Config("s", "u", map[PEER_A := a, PEER_B := b]);
    assert cfg.peers.Keys == {PEER_A, PEER_B};
    assert Names(a) == [l.name] && Names(b) == [];
    assert l.name[0] == 0x61;
  }

  // Over every run of the router fed by the other peer's listeners: no stream is
  // turned away, and whatever is dialed is the port configured for the name.
  lemma ConfiguredSessionsDial(cfg: Config, role: string, dials: map<Tag, Port>,
                               os: seq<Listener.Opening>, hs: seq<Header>, from: seq<(nat, nat)>,
                               ss: seq<Router.State>, acts: seq<Router.Action>, t: nat, i: nat)
    requires Valid(cfg) && IsRole(role)
    requires TableFor(cfg.peers[role].dial, cfg.peers[Other(role)].listen, dials)
    requires forall a :: 0 <= a < |os| ==> Listens(cfg.peers[Other(role)].listen, os[a].name) && os[a].n <= 255
    requires Listener.Drawn(os)
    requires Listener.SentBy(os, hs, from)
    requires Router.IsRun(dials, hs, ss, acts) && t < |ss| && i < |hs|
    ensures |ss[t].pcs| == |hs| && !ss[t].pcs[i].Dropped?
    ensures ss[t].pcs[i].Dialed? ==>
      RoutesTo(cfg.peers[role].dial, cfg.peers[Other(role)].listen, hs[i].tag, ss[t].pcs[i].port)
  {
    hide Valid, TableFor, RoutesTo, IsRole, Other, Router.IsRun;
    Listener.OpenedConsistent(os, hs, from);
    Router.OnlyUnrouted(dials, hs, ss, acts, t, i);
    assert hs[i].tag == os[from[i].0].name;
    hide Listener.SentBy;
    ListenedRouted(cfg, role, dials, hs[i].tag);
    if ss[t].pcs[i].Dialed? {
      DialedPort(dials, hs, ss, acts, t, i);
    }
  }

  lemma DialedPort(dials: map<Tag, Port>, hs: seq<Header>, ss: seq<Router.State>, acts: seq<Router.Action>,
                   t: nat, i: nat)
    requires Router.IsRun(dials, hs, ss, acts) && Router.Consistent(hs) && t < |ss|
    requires i < |hs| == |ss[t].pcs| && ss[t].pcs[i].Dialed?
    ensures hs[i].tag in dials && ss[t].pcs[i].port == dials[hs[i].tag]
  {
    hide Router.Holds, Router.Full, Router.IsRun;
    Router.RunInv(dials, hs, ss, acts, t);
  }
}
