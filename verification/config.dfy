// The shared configuration: what is accepted, and the roles.
module Configuration {
  import opened Bytes
  import opened Codec

  type Port = int

  datatype ListenSpec = ListenSpec(localPort: Port, remotePort: Port, name: Tag)
  datatype DialSpec = DialSpec(localPort: Port, name: Tag)
  datatype Peer = Peer(listen: seq<ListenSpec>, dial: seq<DialSpec>)
  datatype Config = Config(sessionID: string, url: string, peers: map<string, Peer>)

  const PEER_A := "peer-a"
  const PEER_B := "peer-b"

  predicate IsRole(role: string) {
    role == PEER_A || role == PEER_B
  }

  function Other(role: string): string {
    if role == PEER_A then PEER_B else PEER_A
  }

  // The two roles by name, and each is the other's other.
  lemma OtherPeer(role: string)
    ensures IsRole(role) <==> role == "peer-a" || role == "peer-b"
    ensures Other("peer-a") == "peer-b" && Other("peer-b") == "peer-a"
    ensures IsRole(role) ==> IsRole(Other(role)) && Other(role) != role && Other(Other(role)) == role
    ensures !IsRole(role) ==> Other(role) == "peer-a"
  {
    assert "peer-a"[5] != "peer-b"[5];
  }

  datatype Error =
    | SessionIDRequired
    | URLRequired
    | UnknownRole(role: string)
    | PeerMissing(role: string)
    | EmptyName(role: string)
    | DuplicateName(role: string, name: Tag)

  // The stream names of a peer, listen entries first: one namespace.
  function Names(p: Peer): (names: seq<Tag>)
    ensures |names| == |p.listen| + |p.dial|
    ensures forall i :: 0 <= i < |p.listen| ==> names[i] == p.listen[i].name
    ensures forall i :: 0 <= i < |p.dial| ==> names[|p.listen| + i] == p.dial[i].name
  {
    seq(|p.listen|, i requires 0 <= i < |p.listen| => p.listen[i].name) +
    seq(|p.dial|, i requires 0 <= i < |p.dial| => p.dial[i].name)
  }

  ghost predicate Distinct(names: seq<Tag>) {
    forall i, j :: 0 <= i < j < |names| ==> names[i] != names[j]
  }

  ghost predicate GoodNames(names: seq<Tag>) {
    Distinct(names) && [] !in names
  }

  ghost predicate Valid(cfg: Config) {
    && cfg.sessionID != "" && cfg.url != ""
    && cfg.peers.Keys == {PEER_A, PEER_B}
    && forall r :: r in cfg.peers ==> GoodNames(Names(cfg.peers[r]))
  }

  // The fault an error reports is there, and is one the checks before it would not
  // have found.
  ghost predicate Justified(cfg: Config, e: Error) {
    if e.SessionIDRequired? then cfg.sessionID == ""
    else if e.URLRequired? then cfg.sessionID != "" && cfg.url == ""
    else
      && cfg.sessionID != "" && cfg.url != ""
      && if e.UnknownRole? then e.role in cfg.peers && !IsRole(e.role)
         else if e.PeerMissing? then cfg.peers.Keys <= {PEER_A, PEER_B} && FirstMissing(cfg.peers.Keys, e.role)
         else cfg.peers.Keys == {PEER_A, PEER_B} && BadPeer(cfg.peers, e)
  }

  predicate FirstMissing(roles: set<string>, role: string) {
    role !in roles && (role == PEER_A || (role == PEER_B && PEER_A in roles))
  }

  ghost predicate BadPeer(peers: map<string, Peer>, e: Error) {
    && (e.EmptyName? || e.DuplicateName?)
    && e.role in peers
    && (if e.EmptyName? then FirstFault(Names(peers[e.role]), [])
        else e.name != [] && FirstFault(Names(peers[e.role]), e.name))
  }

  // The names are good up to number k, which is empty or a repeat.
  ghost predicate FaultAt(names: seq<Tag>, k: nat) {
    k < |names| && GoodNames(names[..k]) && !GoodNames(names[..k + 1])
  }

  ghost predicate FirstFault(names: seq<Tag>, name: Tag) {
    exists k :: 0 <= k < |names| && FaultAt(names, k) && names[k] == name
  }

  function NameSet(names: seq<Tag>): set<Tag> {
    set i | 0 <= i < |names| :: names[i]
  }

  // The body of both inner loops of validate: one more name.
  method CheckName(role: string, inUse: set<Tag>, name: Tag, ghost before: seq<Tag>)
    returns (err: Option<Error>, now: set<Tag>)
    requires GoodNames(before) && inUse == NameSet(before)
    ensures err.None? <==> GoodNames(before + [name])
    ensures err.None? ==> now == NameSet(before + [name])
    ensures err.Some? ==> err.value == if name == [] then EmptyName(role) else DuplicateName(role, name)
  {
    ghost var names := before + [name];
    if name == [] {
      assert names[|before|] == [];
      return Some(EmptyName(role)), inUse;
    }
    if name in inUse {
      ghost var i :| 0 <= i < |before| && before[i] == name;
      assert names[i] == names[|before|];
      return Some(DuplicateName(role, name)), inUse;
    }
    assert forall n :: n in NameSet(before) + {name} ==> n in NameSet(names) by {
      assert names[|before|] == name && forall i :: 0 <= i < |before| ==> names[i] == before[i];
    }
    err, now := None, inUse + {name};
  }

  method CheckPeer(role: string, p: Peer) returns (err: Option<Error>)
    ensures err.None? <==> GoodNames(Names(p))
    ensures err.Some? ==> err.value.EmptyName? || err.value.DuplicateName?
    ensures err.Some? ==> err.value.role == role
    ensures err.Some? && err.value.EmptyName? ==> FirstFault(Names(p), [])
    ensures err.Some? && err.value.DuplicateName? ==> err.value.name != [] && FirstFault(Names(p), err.value.name)
  {
    hide GoodNames, NameSet;
    ghost var names := Names(p);
    NothingYet(names);
    var inUse: set<Tag> := {};
    for i := 0 to |p.listen|
      invariant GoodNames(names[..i]) && inUse == NameSet(names[..i])
    {
      assert names[..i + 1] == names[..i] + [p.listen[i].name];
      err, inUse := CheckName(role, inUse, p.listen[i].name, names[..i]);
      if err.Some? {
        Faulty(names, i);
        return;
      }
    }
    for i := 0 to |p.dial|
      invariant GoodNames(names[..|p.listen| + i]) && inUse == NameSet(names[..|p.listen| + i])
    {
      ghost var k := |p.listen| + i;
      assert names[..k + 1] == names[..k] + [p.dial[i].name];
      err, inUse := CheckName(role, inUse, p.dial[i].name, names[..k]);
      if err.Some? {
        Faulty(names, k);
        return;
      }
    }
    assert names[..|names|] == names;
    err := None;
  }

  lemma NothingYet(names: seq<Tag>)
    ensures GoodNames(names[..0]) && NameSet(names[..0]) == {}
  {
  }

  lemma Faulty(names: seq<Tag>, k: nat)
    requires FaultAt(names, k)
    ensures !GoodNames(names)
  {
    var part := names[..k + 1];
    if !Distinct(part) {
      var i, j :| 0 <= i < j < |part| && part[i] == part[j];
      assert names[i] == names[j];
    }
  }

  // The keys of a Go map come in any order, and so do the choices of both loops.
  method CheckRoles(roles: set<string>) returns (err: Option<Error>)
    ensures err.None? <==> roles == {PEER_A, PEER_B}
    ensures err.Some? ==> err.value.UnknownRole? || err.value.PeerMissing?
    ensures err.Some? && err.value.UnknownRole? ==> err.value.role in roles && !IsRole(err.value.role)
    ensures err.Some? && err.value.PeerMissing? ==> roles <= {PEER_A, PEER_B} && FirstMissing(roles, err.value.role)
  {
    var left := roles;
    while left != {}
      invariant left <= roles && forall r :: r in roles ==> r in left || IsRole(r)
      decreases |left|
    {
      var role :| role in left;
      if !IsRole(role) {
        return Some(UnknownRole(role));
      }
      left := left - {role};
    }
    assert roles <= {PEER_A, PEER_B};
    if PEER_A !in roles {
      return Some(PeerMissing(PEER_A));
    }
    if PEER_B !in roles {
      return Some(PeerMissing(PEER_B));
    }
    err := None;
  }

  method CheckPeers(peers: map<string, Peer>) returns (err: Option<Error>)
    ensures err.None? <==> forall r :: r in peers ==> GoodNames(Names(peers[r]))
    ensures err.Some? ==> BadPeer(peers, err.value)
  {
    hide GoodNames, FirstFault;
    var left := peers.Keys;
    while left != {}
      invariant left <= peers.Keys && forall r :: r in peers ==> r in left || GoodNames(Names(peers[r]))
      decreases |left|
    {
      var role :| role in left;
      err := CheckPeer(role, peers[role]);
      if err.Some? {
        return;
      }
      left := left - {role};
    }
    err := None;
  }

  // A configuration is accepted exactly when it is valid, and a refusal names a
  // fault that is there and that no earlier check would have found.
  method Validate(cfg: Config) returns (err: Option<Error>)
    ensures err.None? <==> Valid(cfg)
    ensures err.Some? ==> Justified(cfg, err.value)
  {
    hide GoodNames, FirstFault, FirstMissing, IsRole;
    if cfg.sessionID == "" {
      return Some(SessionIDRequired);
    }
    if cfg.url == "" {
      return Some(URLRequired);
    }
    err := CheckRoles(cfg.peers.Keys);
    if err.None? {
      err := CheckPeers(cfg.peers);
    }
  }
}
