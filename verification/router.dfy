// The accepting side: inbound streams are grouped by session id until a session
// has all its stripes, and the handler that completes it dials.
module Router {
  import opened Bytes
  import opened Codec

  // A stream, by number; the slot of a stripe that has not come is nil.
  type Slots = seq<Option<nat>>

  // What the critical section of handle decides for the calling handler.
  datatype Verdict = OutOfRange | Wait | Complete

  predicate Full(slots: Slots) {
    forall k :: 0 <= k < |slots| ==> slots[k].Some?
  }

  // The critical section on the table of groups: the table left behind, the
  // group's slots, and the verdict.
  function SlotsFor(table: map<u64, Slots>, h: Header): Slots {
    if h.sessionID in table then table[h.sessionID] else seq(h.numStripes, _ => None)
  }

  function Register(table: map<u64, Slots>, h: Header, conn: nat): (map<u64, Slots>, Slots, Verdict) {
    var slots := SlotsFor(table, h);
    if h.stripeIdx >= |slots| then (table[h.sessionID := slots], slots, OutOfRange)
    else
      var slots' := slots[h.stripeIdx := Some(conn)];
      if Full(slots') then (table - {h.sessionID}, slots', Complete)
      else (table[h.sessionID := slots'], slots', Wait)
  }

  // The verdict, from the slots of the group found or created.
  lemma Decided(table: map<u64, Slots>, h: Header, conn: nat, slots: Slots)
    requires slots == SlotsFor(table, h)
    ensures h.stripeIdx >= |slots| ==> Register(table, h, conn) == (table[h.sessionID := slots], slots, OutOfRange)
    ensures h.stripeIdx < |slots| ==>
      var slots', sid := slots[h.stripeIdx := Some(conn)], h.sessionID;
      Register(table, h, conn) == if Full(slots')
        then (table[sid := slots][sid := slots'] - {sid}, slots', Complete)
        else (table[sid := slots][sid := slots'], slots', Wait)
  {
    var sid := h.sessionID;
    if h.stripeIdx < |slots| {
      var slots' := slots[h.stripeIdx := Some(conn)];
      assert table[sid := slots][sid := slots'] == table[sid := slots'];
      assert table[sid := slots'] - {sid} == table - {sid};
    }
  }

  // ---------- the code ----------

  class StripeGroup {
    const tag: Tag
    const numStripes: byte
    const streams: array<Option<nat>>

    constructor (tag: Tag, numStripes: byte)
      ensures this.tag == tag && this.numStripes == numStripes
      ensures fresh(streams) && streams[..] == seq(numStripes as int, _ => None)
    {
      this.tag, this.numStripes := tag, numStripes;
      streams := new Option<nat>[numStripes](_ => None);
    }
  }

  method AllReady(streams: array<Option<nat>>) returns (ready: bool)
    ensures ready == Full(streams[..])
  {
    for k := 0 to streams.Length
      invariant forall j :: 0 <= j < k ==> streams[j].Some?
    {
      if streams[k].None? {
        assert streams[..][k].None?;
        return false;
      }
    }
    return true;
  }

  class AcceptRouter {
    var groups: map<u64, StripeGroup>

    constructor ()
      ensures Valid() && Table() == map[]
    {
      groups := map[];
    }

    // No two sessions share a group or its slots.
    ghost predicate Valid()
      reads this
    {
      forall a, b :: a in groups && b in groups && a != b ==> groups[a].streams != groups[b].streams
    }

    ghost function Arrays(): set<object>
      reads this
    {
      set a | a in groups :: groups[a].streams
    }

    ghost function Table(): map<u64, Slots>
      reads this, Arrays()
    {
      map a | a in groups :: groups[a].streams[..]
    }

    // Find or create the group of a session.
    method Group(h: Header) returns (g: StripeGroup)
      requires Valid()
      modifies this
      ensures Valid() && h.sessionID in groups && groups[h.sessionID] == g
      ensures g.streams[..] == SlotsFor(old(Table()), h)
      ensures Table() == old(Table())[h.sessionID := g.streams[..]]
      ensures h.sessionID in old(groups) ==> groups == old(groups)
      ensures h.sessionID !in old(groups) ==>
        fresh(g.streams) && g.tag == h.tag && Arrays() == old(Arrays()) + {g.streams}
    {
      if h.sessionID in groups {
        return groups[h.sessionID];
      }
      g := new StripeGroup(h.tag, h.numStripes);
      groups := groups[h.sessionID := g];
      assert forall a :: a in old(groups) ==> groups[a].streams[..] == old(Table())[a];
    }

    // What handle does under groupsMu with a header and its stream.
    method Enter(h: Header, conn: nat) returns (g: StripeGroup, verdict: Verdict)
      requires Valid()
      modifies this, Arrays()
      ensures Valid()
      ensures Register(old(Table()), h, conn) == (Table(), g.streams[..], verdict)
      ensures h.sessionID in old(groups) ==> g == old(groups[h.sessionID])
      ensures h.sessionID !in old(groups) ==> fresh(g.streams) && g.tag == h.tag
    {
      hide Full, SlotsFor, Register, Valid, Table;
      ghost var table, sid := Table(), h.sessionID;
      g := Group(h);
      ghost var slots := g.streams[..];
      if h.stripeIdx >= g.streams.Length {
        Decided(table, h, conn, slots);
        return g, OutOfRange;
      }
      var complete := Place(h.sessionID, g, h.stripeIdx, conn);
      assert g.streams[..] == slots[h.stripeIdx := Some(conn)];
      Decided(table, h, conn, slots);
      verdict := Wait;
      ghost var slots' := slots[h.stripeIdx := Some(conn)];
      if complete {
        Delete(h.sessionID);
        verdict := Complete;
      }
      assert Register(table, h, conn).0 == Table();
      assert Register(table, h, conn).1 == slots';
    }

    // delete(a.groups, id)
    method Delete(sid: u64)
      requires Valid()
      modifies this
      ensures Valid() && Table() == old(Table()) - {sid} && groups.Keys == old(groups).Keys - {sid}
    {
      groups := groups - {sid};
    }

    // g.streams[idx] = s, and allReady
    method Place(sid: u64, g: StripeGroup, idx: nat, conn: nat) returns (complete: bool)
      requires Valid() && sid in groups && groups[sid] == g && idx < g.streams.Length
      modifies g.streams
      ensures Valid() && g.streams[..] == old(g.streams[..])[idx := Some(conn)]
      ensures Table() == old(Table())[sid := g.streams[..]] && complete == Full(g.streams[..])
    {
      g.streams[idx] := Some(conn);
      assert forall a :: a in groups && a != sid ==> groups[a].streams[..] == old(Table())[a];
      complete := AllReady(g.streams);
    }
  }

  // ---------- any number of handlers ----------

  // The life of one handler: before its critical section; turned away; blocked on
  // the ready channel of group `gid`; the one that completed it; the one that has
  // closed its ready channel; the one that has dialed; returned.
  datatype Pc = Arriving | Dropped | Waiting(gid: nat) | Owner(gid: nat, slots: Slots)
              | Announced(gid: nat, slots: Slots) | Dialed(gid: nat, slots: Slots, port: int) | Returned

  predicate Owns(pc: Pc) {
    pc.Owner? || pc.Announced? || pc.Dialed?
  }

  predicate HasAnnounced(pc: Pc) {
    pc.Announced? || pc.Dialed?
  }

  // Groups are identified by the order of their creation. `ready` holds those whose
  // ready channel is closed; closing one twice would panic.
  datatype State = State(table: map<u64, Slots>, gids: map<u64, nat>, next: nat, ready: set<nat>, panicked: bool,
                         pcs: seq<Pc>)

  // Handler i reads header hs[i] off stream i.
  function Init(hs: seq<Header>): State {
    State(map[], map[], 0, {}, false, seq(|hs|, _ => Arriving))
  }

  datatype Action = Enter(i: nat) | Close(i: nat) | Dial(i: nat) | Wake(i: nat)

  predicate Enabled(hs: seq<Header>, s: State, a: Action) {
    && a.i < |s.pcs| == |hs|
    && match a
       case Enter(i) => s.pcs[i].Arriving?
       case Close(i) => s.pcs[i].Owner?
       case Dial(i) => s.pcs[i].Announced?
       case Wake(i) => s.pcs[i].Waiting? && s.pcs[i].gid in s.ready
  }

  function Apply(dials: map<Tag, int>, hs: seq<Header>, s: State, a: Action): State
    requires Enabled(hs, s, a)
  {
    match a
    case Enter(i) =>
      var h := hs[i];
      if h.tag !in dials then s.(pcs := s.pcs[i := Dropped])
      else
        var (table, slots, verdict) := Register(s.table, h, i);
        var isNew := h.sessionID !in s.table || h.sessionID !in s.gids;
        var gid := if isNew then s.next else s.gids[h.sessionID];
        s.(table := table, gids := s.gids[h.sessionID := gid], next := if isNew then s.next + 1 else s.next,
           pcs := s.pcs[i := match verdict
                             case OutOfRange => Dropped
                             case Wait => Waiting(gid)
                             case Complete => Owner(gid, slots)])
    case Close(i) =>
      var pc := s.pcs[i];
      s.(ready := s.ready + {pc.gid}, panicked := s.panicked || pc.gid in s.ready,
         pcs := s.pcs[i := Announced(pc.gid, pc.slots)])
    case Dial(i) =>
      var pc := s.pcs[i];
      s.(pcs := s.pcs[i := Dialed(pc.gid, pc.slots, if hs[i].tag in dials then dials[hs[i].tag] else 0)])
    case Wake(i) => s.(pcs := s.pcs[i := Returned])
  }

  ghost predicate IsRun(dials: map<Tag, int>, hs: seq<Header>, ss: seq<State>, acts: seq<Action>) {
    && |ss| == |acts| + 1
    && ss[0] == Init(hs)
    && forall t {:trigger acts[t]} :: 0 <= t < |acts| ==>
         Enabled(hs, ss[t], acts[t]) && ss[t + 1] == Apply(dials, hs, ss[t], acts[t])
  }

  // What a sender produces: within a session the stripes agree on the tag and the
  // count and have different indices below the count. The header reader sees to it
  // that the count is not zero.
  ghost predicate Consistent(hs: seq<Header>) {
    && (forall i :: 0 <= i < |hs| ==> 0 <= hs[i].stripeIdx < hs[i].numStripes)
    && (forall i, j :: 0 <= i < j < |hs| && hs[i].sessionID == hs[j].sessionID ==>
          hs[i].numStripes == hs[j].numStripes && hs[i].tag == hs[j].tag && hs[i].stripeIdx != hs[j].stripeIdx)
  }

  predicate Entered(s: State, i: nat) {
    i < |s.pcs| && !s.pcs[i].Arriving? && !s.pcs[i].Dropped?
  }

  // The slots of a session hold exactly the streams of the handlers that entered,
  // each at the index its header named.
  ghost predicate Holds(hs: seq<Header>, s: State, sid: u64, slots: Slots)
    requires |s.pcs| == |hs|
  {
    && (forall k :: 0 <= k < |slots| && slots[k].Some? ==>
          var i := slots[k].value;
          i < |hs| && Entered(s, i) && hs[i].sessionID == sid && hs[i].stripeIdx == k)
    && (forall i :: 0 <= i < |hs| && Entered(s, i) && hs[i].sessionID == sid ==>
          hs[i].stripeIdx < |slots| == hs[i].numStripes && slots[hs[i].stripeIdx] == Some(i))
  }

  ghost predicate TableOk(hs: seq<Header>, s: State)
    requires |s.pcs| == |hs|
  {
    && s.table.Keys <= s.gids.Keys
    && (forall a :: a in s.table ==> !Full(s.table[a]) && Holds(hs, s, a, s.table[a]))
    && (forall a :: a in s.gids ==> exists i :: 0 <= i < |hs| && Entered(s, i) && hs[i].sessionID == a)
    && (forall i :: 0 <= i < |hs| && Entered(s, i) ==> hs[i].sessionID in s.gids)
    && (forall a :: a in s.gids ==> s.gids[a] < s.next)
    && (forall a, b :: a in s.gids && b in s.gids && a != b ==> s.gids[a] != s.gids[b])
  }

  ghost predicate OwnersOk(dials: map<Tag, int>, hs: seq<Header>, s: State)
    requires |s.pcs| == |hs|
  {
    && (forall i :: 0 <= i < |hs| && Owns(s.pcs[i]) ==>
          && hs[i].sessionID !in s.table && hs[i].sessionID in s.gids && s.pcs[i].gid == s.gids[hs[i].sessionID]
          && Full(s.pcs[i].slots) && Holds(hs, s, hs[i].sessionID, s.pcs[i].slots)
          && hs[i].tag in dials && (s.pcs[i].Dialed? ==> s.pcs[i].port == dials[hs[i].tag]))
    && (forall i, j :: 0 <= i < |hs| && 0 <= j < |hs| && i != j && Owns(s.pcs[i]) && Owns(s.pcs[j]) ==>
          hs[i].sessionID != hs[j].sessionID)
    && (forall i :: 0 <= i < |hs| && Entered(s, i) && hs[i].sessionID !in s.table ==>
          exists j :: 0 <= j < |hs| && Owns(s.pcs[j]) && hs[j].sessionID == hs[i].sessionID)
  }

  ghost predicate ReadyOk(hs: seq<Header>, s: State)
    requires |s.pcs| == |hs|
  {
    && !s.panicked
    && (forall i :: 0 <= i < |hs| && s.pcs[i].Waiting? ==>
          hs[i].sessionID in s.gids && s.pcs[i].gid == s.gids[hs[i].sessionID])
    && (forall i :: 0 <= i < |hs| && HasAnnounced(s.pcs[i]) ==> s.pcs[i].gid in s.ready)
    && (forall g :: g in s.ready ==> exists i :: 0 <= i < |hs| && HasAnnounced(s.pcs[i]) && s.pcs[i].gid == g)
  }

  ghost predicate Inv(dials: map<Tag, int>, hs: seq<Header>, s: State) {
    && |s.pcs| == |hs|
    && TableOk(hs, s)
    && OwnersOk(dials, hs, s)
    && ReadyOk(hs, s)
  }

  lemma InitInv(dials: map<Tag, int>, hs: seq<Header>)
    ensures Inv(dials, hs, Init(hs))
  {
  }

  // The slot a new handler's header names is there and empty.
  lemma FreshSlot(dials: map<Tag, int>, hs: seq<Header>, s: State, i: nat)
    requires Inv(dials, hs, s) && Consistent(hs) && i < |hs| && s.pcs[i].Arriving?
    ensures var slots := SlotsFor(s.table, hs[i]);
      |slots| == hs[i].numStripes && slots[hs[i].stripeIdx].None? && Holds(hs, s, hs[i].sessionID, slots)
    ensures hs[i].sessionID !in s.table ==> hs[i].sessionID !in s.gids
    ensures hs[i].sessionID !in s.table ==>
      forall j :: 0 <= j < |hs| && Entered(s, j) ==> hs[j].sessionID != hs[i].sessionID
  {
    hide ReadyOk, Full, Holds;
    if hs[i].sessionID in s.table {
      var slots := s.table[hs[i].sessionID];
      var j :| 0 <= j < |hs| && Entered(s, j) && hs[j].sessionID == hs[i].sessionID;
      FreeSlot(hs, s, i, slots, j);
    } else {
      forall j | 0 <= j < |hs| && Entered(s, j)
        ensures hs[j].sessionID != hs[i].sessionID
      {
        if hs[j].sessionID == hs[i].sessionID {
          var o :| 0 <= o < |hs| && Owns(s.pcs[o]) && hs[o].sessionID == hs[j].sessionID;
          FreeSlot(hs, s, i, s.pcs[o].slots, j);
        }
      }
      NoneHeld(hs, s, i);
    }
  }

  // The slot of a stripe that has not come is free in slots that hold what has.
  lemma FreeSlot(hs: seq<Header>, s: State, i: nat, slots: Slots, j: nat)
    requires Consistent(hs) && |s.pcs| == |hs| && i < |hs| && s.pcs[i].Arriving?
    requires j < |hs| && Entered(s, j) && hs[j].sessionID == hs[i].sessionID && Holds(hs, s, hs[i].sessionID, slots)
    ensures |slots| == hs[i].numStripes && slots[hs[i].stripeIdx].None? && !Full(slots)
  {
    Distinct(hs, i, j);
    if slots[hs[i].stripeIdx].Some? {
      Distinct(hs, i, slots[hs[i].stripeIdx].value);
    }
  }

  lemma NoneHeld(hs: seq<Header>, s: State, i: nat)
    requires Consistent(hs) && |s.pcs| == |hs| && i < |hs|
    ensures (forall j :: 0 <= j < |hs| && Entered(s, j) ==> hs[j].sessionID != hs[i].sessionID) ==>
      Holds(hs, s, hs[i].sessionID, seq(hs[i].numStripes, _ => None))
  {
  }

  lemma Distinct(hs: seq<Header>, i: nat, j: nat)
    requires Consistent(hs) && i < |hs| && j < |hs| && i != j && hs[i].sessionID == hs[j].sessionID
    ensures hs[i].numStripes == hs[j].numStripes && hs[i].tag == hs[j].tag && hs[i].stripeIdx != hs[j].stripeIdx
  {
    if j < i { assert hs[j].sessionID == hs[i].sessionID; }
  }

  // A handler of one session changes nothing for another.
  lemma HoldsOther(hs: seq<Header>, s: State, s': State, i: nat, sid: u64, slots: Slots)
    requires |s.pcs| == |s'.pcs| == |hs| && i < |hs| && s'.pcs == s.pcs[i := s'.pcs[i]]
    requires Holds(hs, s, sid, slots) && (hs[i].sessionID != sid || Entered(s, i) == Entered(s', i))
    ensures Holds(hs, s', sid, slots)
  {
  }

  // A step that changes only handler i, among those that entered or not.
  lemma SameEntered(dials: map<Tag, int>, hs: seq<Header>, s: State, s': State, i: nat)
    requires Inv(dials, hs, s) && i < |hs| == |s'.pcs| && s'.pcs == s.pcs[i := s'.pcs[i]]
    requires s'.table == s.table && s'.gids == s.gids && s'.next == s.next
    requires Entered(s, i) == Entered(s', i) && Owns(s.pcs[i]) == Owns(s'.pcs[i])
    requires Owns(s.pcs[i]) ==> s.pcs[i].gid == s'.pcs[i].gid && s.pcs[i].slots == s'.pcs[i].slots
    requires s'.pcs[i].Dialed? ==> hs[i].tag in dials && s'.pcs[i].port == dials[hs[i].tag]
    ensures TableOk(hs, s') && OwnersOk(dials, hs, s')
  {
    hide Full, Holds;
    assert forall j :: 0 <= j < |hs| ==> Entered(s, j) == Entered(s', j);
    assert TableOk(hs, s') by {
      forall a | a in s.table
        ensures Holds(hs, s', a, s.table[a])
      {
        HoldsOther(hs, s, s', i, a, s.table[a]);
      }
      forall a | a in s.gids
        ensures exists j :: 0 <= j < |hs| && Entered(s', j) && hs[j].sessionID == a
      {
        var j :| 0 <= j < |hs| && Entered(s, j) && hs[j].sessionID == a;
      }
    }
    SameOwners(dials, hs, s, s', i);
  }

  lemma SameOwners(dials: map<Tag, int>, hs: seq<Header>, s: State, s': State, i: nat)
    requires Inv(dials, hs, s) && i < |hs| == |s'.pcs| && s'.pcs == s.pcs[i := s'.pcs[i]]
    requires s'.table == s.table && s'.gids == s.gids
    requires Entered(s, i) == Entered(s', i) && Owns(s.pcs[i]) == Owns(s'.pcs[i])
    requires Owns(s.pcs[i]) ==> s.pcs[i].gid == s'.pcs[i].gid && s.pcs[i].slots == s'.pcs[i].slots
    requires s'.pcs[i].Dialed? ==> hs[i].tag in dials && s'.pcs[i].port == dials[hs[i].tag]
    ensures OwnersOk(dials, hs, s')
  {
    hide Full, Holds, TableOk, ReadyOk;
    forall j | 0 <= j < |hs| && Owns(s'.pcs[j])
      ensures Owns(s.pcs[j]) && s.pcs[j].gid == s'.pcs[j].gid && s.pcs[j].slots == s'.pcs[j].slots
      ensures Holds(hs, s', hs[j].sessionID, s'.pcs[j].slots)
    {
      HoldsOther(hs, s, s', i, hs[j].sessionID, s.pcs[j].slots);
    }
    forall j | 0 <= j < |hs| && Entered(s', j) && hs[j].sessionID !in s'.table
      ensures exists k :: 0 <= k < |hs| && Owns(s'.pcs[k]) && hs[k].sessionID == hs[j].sessionID
    {
      assert Entered(s, j);
      var k :| 0 <= k < |hs| && Owns(s.pcs[k]) && hs[k].sessionID == hs[j].sessionID;
      assert Owns(s'.pcs[k]);
    }
  }

  // The owner of a group is the only one, so it closes a channel nobody has closed.
  lemma NotReady(dials: map<Tag, int>, hs: seq<Header>, s: State, i: nat)
    requires Inv(dials, hs, s) && i < |hs| && s.pcs[i].Owner?
    ensures s.pcs[i].gid !in s.ready
  {
    hide Holds, Full;
    forall j | 0 <= j < |hs| && HasAnnounced(s.pcs[j])
      ensures s.pcs[j].gid != s.pcs[i].gid
    {
      assert Owns(s.pcs[j]) && Owns(s.pcs[i]);
      assert hs[j].sessionID != hs[i].sessionID;
    }
  }

  lemma LaterReady(dials: map<Tag, int>, hs: seq<Header>, s: State, a: Action)
    requires Inv(dials, hs, s) && Enabled(hs, s, a) && !a.Enter?
    ensures ReadyOk(hs, Apply(dials, hs, s, a))
  {
    hide Holds, Full, TableOk;
    var s', i := Apply(dials, hs, s, a), a.i;
    if a.Close? { NotReady(dials, hs, s, i); }
    forall g | g in s'.ready
      ensures exists j :: 0 <= j < |hs| && HasAnnounced(s'.pcs[j]) && s'.pcs[j].gid == g
    {
      if g in s.ready {
        var j :| 0 <= j < |hs| && HasAnnounced(s.pcs[j]) && s.pcs[j].gid == g;
        assert HasAnnounced(s'.pcs[j]);
      } else {
        assert HasAnnounced(s'.pcs[i]);
      }
    }
  }

  lemma LaterInv(dials: map<Tag, int>, hs: seq<Header>, s: State, a: Action)
    requires Inv(dials, hs, s) && Enabled(hs, s, a) && !a.Enter?
    ensures Inv(dials, hs, Apply(dials, hs, s, a))
  {
    hide Holds, Full, TableOk;
    LaterReady(dials, hs, s, a);
    SameEntered(dials, hs, s, Apply(dials, hs, s, a), a.i);
  }

  // ---------- the critical section ----------

  lemma DroppedInv(dials: map<Tag, int>, hs: seq<Header>, s: State, i: nat)
    requires Inv(dials, hs, s) && Enabled(hs, s, Enter(i)) && hs[i].tag !in dials
    ensures Inv(dials, hs, Apply(dials, hs, s, Enter(i)))
  {
    hide Holds, Full, TableOk;
    var s' := Apply(dials, hs, s, Enter(i));
    SameEntered(dials, hs, s, s', i);
    forall g | g in s'.ready
      ensures exists j :: 0 <= j < |hs| && HasAnnounced(s'.pcs[j]) && s'.pcs[j].gid == g
    {
      var j :| 0 <= j < |hs| && HasAnnounced(s.pcs[j]) && s.pcs[j].gid == g;
      assert HasAnnounced(s'.pcs[j]);
    }
  }

  // What a routed handler's critical section leaves behind.
  ghost predicate After(s: State, s': State, hs: seq<Header>, i: nat, slots: Slots, gid: nat)
    requires i < |hs| == |s.pcs|
  {
    var sid := hs[i].sessionID;
    && s'.pcs == s.pcs[i := if Full(slots) then Owner(gid, slots) else Waiting(gid)]
    && s'.table == (if Full(slots) then s.table - {sid} else s.table[sid := slots])
    && s'.gids == s.gids[sid := gid]
    && s'.ready == s.ready && s'.panicked == s.panicked
    && s'.next >= s.next && gid < s'.next
    && (if sid in s.table then sid in s.gids && gid == s.gids[sid] else sid !in s.gids && gid >= s.next)
  }

  lemma Entering(dials: map<Tag, int>, hs: seq<Header>, s: State, i: nat) returns (slots: Slots, gid: nat)
    requires Inv(dials, hs, s) && Consistent(hs) && Enabled(hs, s, Enter(i)) && hs[i].tag in dials
    ensures After(s, Apply(dials, hs, s, Enter(i)), hs, i, slots, gid)
    ensures Holds(hs, Apply(dials, hs, s, Enter(i)), hs[i].sessionID, slots)
    ensures hs[i].sessionID !in s.table ==>
      forall j :: 0 <= j < |hs| && Entered(s, j) ==> hs[j].sessionID != hs[i].sessionID
  {
    hide Full, Holds, Inv, OwnersOk, ReadyOk;
    FreshSlot(dials, hs, s, i);
    var before := SlotsFor(s.table, hs[i]);
    slots := before[hs[i].stripeIdx := Some(i)];
    gid := if hs[i].sessionID in s.table && hs[i].sessionID in s.gids then s.gids[hs[i].sessionID] else s.next;
    assert TableOk(hs, s) by { assert Inv(dials, hs, s); InvTable(dials, hs, s); }
    HoldsNew(hs, s, Apply(dials, hs, s, Enter(i)), i, before);
  }

  lemma InvTable(dials: map<Tag, int>, hs: seq<Header>, s: State)
    requires Inv(dials, hs, s)
    ensures TableOk(hs, s)
  {
  }

  lemma HoldsNew(hs: seq<Header>, s: State, s': State, i: nat, before: Slots)
    requires |s.pcs| == |s'.pcs| == |hs| && i < |hs| && s'.pcs == s.pcs[i := s'.pcs[i]]
    requires Consistent(hs) && s.pcs[i].Arriving? && Entered(s', i)
    requires Holds(hs, s, hs[i].sessionID, before)
    requires |before| == hs[i].numStripes && before[hs[i].stripeIdx].None?
    ensures Holds(hs, s', hs[i].sessionID, before[hs[i].stripeIdx := Some(i)])
  {
    assert forall j :: 0 <= j < |hs| && j != i ==> Entered(s, j) == Entered(s', j);
  }

  lemma EnterTable(dials: map<Tag, int>, hs: seq<Header>, s: State, s': State, i: nat, slots: Slots, gid: nat)
    requires Inv(dials, hs, s) && i < |hs| && s.pcs[i].Arriving? && After(s, s', hs, i, slots, gid)
    requires Holds(hs, s', hs[i].sessionID, slots)
    ensures TableOk(hs, s')
  {
    hide Full, Holds, OwnersOk, ReadyOk;
    var sid := hs[i].sessionID;
    assert forall j :: 0 <= j < |hs| && j != i ==> Entered(s, j) == Entered(s', j);
    assert Entered(s', i);
    forall a | a in s'.table
      ensures !Full(s'.table[a]) && Holds(hs, s', a, s'.table[a])
    {
      if a != sid { HoldsOther(hs, s, s', i, a, s.table[a]); }
    }
    forall a | a in s'.gids
      ensures exists j :: 0 <= j < |hs| && Entered(s', j) && hs[j].sessionID == a
    {
      if a != sid {
        var j :| 0 <= j < |hs| && Entered(s, j) && hs[j].sessionID == a;
        assert Entered(s', j);
      }
    }
  }

  lemma EnterOwners(dials: map<Tag, int>, hs: seq<Header>, s: State, s': State, i: nat, slots: Slots, gid: nat)
    requires Inv(dials, hs, s) && i < |hs| && s.pcs[i].Arriving? && After(s, s', hs, i, slots, gid)
    requires hs[i].tag in dials
    requires Holds(hs, s', hs[i].sessionID, slots)
    requires hs[i].sessionID !in s.table ==>
      forall j :: 0 <= j < |hs| && Entered(s, j) ==> hs[j].sessionID != hs[i].sessionID
    ensures OwnersOk(dials, hs, s')
  {
    hide Full, Holds, ReadyOk, TableOk;
    var sid := hs[i].sessionID;
    assert forall j :: 0 <= j < |hs| && j != i ==> s'.pcs[j] == s.pcs[j] && Entered(s, j) == Entered(s', j);
    forall j | 0 <= j < |hs| && j != i && Owns(s.pcs[j])
      ensures hs[j].sessionID != sid && Holds(hs, s', hs[j].sessionID, s.pcs[j].slots)
    {
      assert Entered(s, j);
      HoldsOther(hs, s, s', i, hs[j].sessionID, s.pcs[j].slots);
    }
    EnterOwned(dials, hs, s, s', i, slots, gid);
    assert Owns(s'.pcs[i]) ==> Full(slots) && sid !in s'.table && s'.pcs[i].gid == s'.gids[sid];
  }

  lemma EnterOwned(dials: map<Tag, int>, hs: seq<Header>, s: State, s': State, i: nat, slots: Slots, gid: nat)
    requires Inv(dials, hs, s) && i < |hs| && s.pcs[i].Arriving? && After(s, s', hs, i, slots, gid)
    ensures forall j :: 0 <= j < |hs| && Entered(s', j) && hs[j].sessionID !in s'.table ==>
      exists k :: 0 <= k < |hs| && Owns(s'.pcs[k]) && hs[k].sessionID == hs[j].sessionID
  {
    hide Full, Holds, ReadyOk, TableOk;
    forall j | 0 <= j < |hs| && Entered(s', j) && hs[j].sessionID !in s'.table
      ensures exists k :: 0 <= k < |hs| && Owns(s'.pcs[k]) && hs[k].sessionID == hs[j].sessionID
    {
      if hs[j].sessionID == hs[i].sessionID {
        assert Owns(s'.pcs[i]);
      } else {
        assert Entered(s, j);
        var k :| 0 <= k < |hs| && Owns(s.pcs[k]) && hs[k].sessionID == hs[j].sessionID;
        assert Owns(s'.pcs[k]);
      }
    }
  }

  lemma EnterReady(dials: map<Tag, int>, hs: seq<Header>, s: State, s': State, i: nat, slots: Slots, gid: nat)
    requires Inv(dials, hs, s) && i < |hs| && s.pcs[i].Arriving? && After(s, s', hs, i, slots, gid)
    ensures ReadyOk(hs, s')
  {
    hide Full, Holds, OwnersOk;
    forall j | 0 <= j < |hs| && s'.pcs[j].Waiting?
      ensures hs[j].sessionID in s'.gids && s'.pcs[j].gid == s'.gids[hs[j].sessionID]
    {
      if j != i { assert s.pcs[j].Waiting? && Entered(s, j); }
    }
    forall g | g in s'.ready
      ensures exists j :: 0 <= j < |hs| && HasAnnounced(s'.pcs[j]) && s'.pcs[j].gid == g
    {
      var j :| 0 <= j < |hs| && HasAnnounced(s.pcs[j]) && s.pcs[j].gid == g;
      assert HasAnnounced(s'.pcs[j]);
    }
  }

  lemma StepInv(dials: map<Tag, int>, hs: seq<Header>, s: State, a: Action)
    requires Inv(dials, hs, s) && Consistent(hs) && Enabled(hs, s, a)
    ensures Inv(dials, hs, Apply(dials, hs, s, a))
  {
    hide Holds, Full, TableOk, OwnersOk, ReadyOk, Register;
    if !a.Enter? {
      LaterInv(dials, hs, s, a);
    } else if hs[a.i].tag !in dials {
      DroppedInv(dials, hs, s, a.i);
    } else {
      var slots, gid := Entering(dials, hs, s, a.i);
      var s' := Apply(dials, hs, s, a);
      EnterTable(dials, hs, s, s', a.i, slots, gid);
      EnterOwners(dials, hs, s, s', a.i, slots, gid);
      EnterReady(dials, hs, s, s', a.i, slots, gid);
    }
  }

  lemma {:induction false} RunInv(dials: map<Tag, int>, hs: seq<Header>, ss: seq<State>, acts: seq<Action>, t: nat)
    requires IsRun(dials, hs, ss, acts) && Consistent(hs) && t < |ss|
    ensures Inv(dials, hs, ss[t])
    decreases t
  {
    hide Inv, Apply;
    if t == 0 {
      InitInv(dials, hs);
    } else {
      RunInv(dials, hs, ss, acts, t - 1);
      assert Enabled(hs, ss[t - 1], acts[t - 1]);
      StepInv(dials, hs, ss[t - 1], acts[t - 1]);
    }
  }

  // ---------- what it is for ----------

  // Stripe k of the session has been through the critical section.
  ghost predicate Arrived(hs: seq<Header>, s: State, sid: u64, k: nat) {
    exists i :: 0 <= i < |hs| && Entered(s, i) && hs[i].sessionID == sid && hs[i].stripeIdx == k
  }

  // Whatever the interleaving: a session has an owner exactly when all its stripes
  // have arrived; the owner is the only one; it holds in slot k the stream whose
  // header said k; it has the port its tag is routed to; and the handlers still
  // blocked are blocked on the channel it closes, which is closed only once.
  lemma FiresOnce(dials: map<Tag, int>, hs: seq<Header>, ss: seq<State>, acts: seq<Action>, t: nat, o: nat, n: nat)
    requires IsRun(dials, hs, ss, acts) && Consistent(hs) && t < |ss|
    requires o < |hs| && n == hs[o].numStripes && Entered(ss[t], o)
    ensures |ss[t].pcs| == |hs| && !ss[t].panicked
    ensures var s, sid := ss[t], hs[o].sessionID;
      (forall k :: 0 <= k < n ==> Arrived(hs, s, sid, k))
      <==> (exists j :: 0 <= j < |hs| && Owns(s.pcs[j]) && hs[j].sessionID == sid)
    ensures var s, sid := ss[t], hs[o].sessionID;
      forall j :: 0 <= j < |hs| && Owns(s.pcs[j]) && hs[j].sessionID == sid ==>
        && sid !in s.table
        && |s.pcs[j].slots| == n
        && (forall i :: 0 <= i < |hs| && Entered(s, i) && hs[i].sessionID == sid ==>
              s.pcs[j].slots[hs[i].stripeIdx] == Some(i))
        && (forall i :: 0 <= i < |hs| && i != j && hs[i].sessionID == sid ==> !Owns(s.pcs[i]))
        && (forall i :: 0 <= i < |hs| && s.pcs[i].Waiting? && hs[i].sessionID == sid ==> s.pcs[i].gid == s.pcs[j].gid)
        && (s.pcs[j].Dialed? ==> hs[j].tag in dials && s.pcs[j].port == dials[hs[j].tag])
  {
    RunInv(dials, hs, ss, acts, t);
    var s, sid := ss[t], hs[o].sessionID;
    if sid in s.table {
      StillOpen(dials, hs, s, sid, o);
    } else {
      var j :| 0 <= j < |hs| && Owns(s.pcs[j]) && hs[j].sessionID == sid;
      OwnerComplete(dials, hs, s, sid, o, j);
    }
  }

  // A group in the table lacks a stripe.
  lemma StillOpen(dials: map<Tag, int>, hs: seq<Header>, s: State, sid: u64, o: nat)
    requires Inv(dials, hs, s) && Consistent(hs) && sid in s.table
    requires o < |hs| && Entered(s, o) && hs[o].sessionID == sid
    ensures exists k :: 0 <= k < hs[o].numStripes && !Arrived(hs, s, sid, k)
    ensures forall j :: 0 <= j < |hs| && Owns(s.pcs[j]) ==> hs[j].sessionID != sid
  {
    var slots := s.table[sid];
    var k :| 0 <= k < |slots| && slots[k].None?;
    forall i | 0 <= i < |hs| && Entered(s, i) && hs[i].sessionID == sid
      ensures hs[i].stripeIdx != k
    {
      assert Holds(hs, s, sid, slots);
    }
    assert !Arrived(hs, s, sid, k);
  }

  lemma OwnerComplete(dials: map<Tag, int>, hs: seq<Header>, s: State, sid: u64, o: nat, j: nat)
    requires Inv(dials, hs, s) && Consistent(hs) && o < |hs| && Entered(s, o) && hs[o].sessionID == sid
    requires j < |hs| && Owns(s.pcs[j]) && hs[j].sessionID == sid
    ensures |s.pcs[j].slots| == hs[o].numStripes && forall k :: 0 <= k < hs[o].numStripes ==> Arrived(hs, s, sid, k)
  {
    var slots := s.pcs[j].slots;
    assert Holds(hs, s, sid, slots);
    forall k | 0 <= k < |slots|
      ensures Arrived(hs, s, sid, k)
    {
      assert slots[k].Some?;
    }
  }

  // A blocked handler can go on exactly when the owner of its session has closed
  // the ready channel: it is never woken by another session, nor before the group
  // is complete.
  lemma WakesExactly(dials: map<Tag, int>, hs: seq<Header>, ss: seq<State>, acts: seq<Action>, t: nat, i: nat)
    requires IsRun(dials, hs, ss, acts) && Consistent(hs) && t < |ss|
    requires i < |hs| == |ss[t].pcs| && ss[t].pcs[i].Waiting?
    ensures Enabled(hs, ss[t], Wake(i))
      <==> exists j :: 0 <= j < |hs| && HasAnnounced(ss[t].pcs[j]) && hs[j].sessionID == hs[i].sessionID
  {
    hide Holds, Full;
    RunInv(dials, hs, ss, acts, t);
    var s := ss[t];
    forall j | 0 <= j < |hs| && HasAnnounced(s.pcs[j])
      ensures s.pcs[j].gid in s.ready && (s.pcs[j].gid == s.pcs[i].gid <==> hs[j].sessionID == hs[i].sessionID)
    {
      assert Owns(s.pcs[j]);
    }
  }

  // With nothing left to do, every handler of a session whose stripes have all
  // arrived has returned, but the owner, which has dialed.
  lemma NobodyLeftWaiting(dials: map<Tag, int>, hs: seq<Header>, ss: seq<State>, acts: seq<Action>, t: nat, i: nat)
    requires IsRun(dials, hs, ss, acts) && Consistent(hs) && t < |ss|
    requires i < |hs| && Entered(ss[t], i) && forall a :: !Enabled(hs, ss[t], a)
    requires forall k :: 0 <= k < hs[i].numStripes ==> Arrived(hs, ss[t], hs[i].sessionID, k)
    ensures forall j :: 0 <= j < |hs| ==> j < |ss[t].pcs| && !ss[t].pcs[j].Arriving?
    ensures ss[t].pcs[i].Returned? || ss[t].pcs[i].Dialed?
  {
    hide IsRun, Consistent, Arrived;
    var s := ss[t];
    FiresOnce(dials, hs, ss, acts, t, i, hs[i].numStripes);
    var j :| 0 <= j < |hs| && Owns(s.pcs[j]) && hs[j].sessionID == hs[i].sessionID;
    assert !Enabled(hs, s, Close(j)) && !Enabled(hs, s, Dial(j));
    assert !Enabled(hs, s, Close(i)) && !Enabled(hs, s, Dial(i)) && !Enabled(hs, s, Wake(i));
    if s.pcs[i].Waiting? {
      assert HasAnnounced(s.pcs[j]);
      WakesExactly(dials, hs, ss, acts, t, i);
    }
    forall m | 0 <= m < |hs|
      ensures !s.pcs[m].Arriving?
    {
      assert !Enabled(hs, s, Enter(m));
    }
  }

  // Past its critical section a stream has been turned away if and only if its tag is
  // not routed.
  lemma {:induction false} OnlyUnrouted(dials: map<Tag, int>, hs: seq<Header>, ss: seq<State>, acts: seq<Action>,
                                        t: nat, i: nat)
    requires IsRun(dials, hs, ss, acts) && Consistent(hs) && t < |ss| && i < |hs|
    ensures |ss[t].pcs| == |hs| && (!ss[t].pcs[i].Arriving? ==> (ss[t].pcs[i].Dropped? <==> hs[i].tag !in dials))
    ensures ss[t].pcs[i].Dropped? ==> hs[i].tag !in dials
    decreases t
  {
    hide Inv, Holds, Full, Register;
    if t > 0 {
      OnlyUnrouted(dials, hs, ss, acts, t - 1, i);
      RunInv(dials, hs, ss, acts, t - 1);
      assert Enabled(hs, ss[t - 1], acts[t - 1]);
      if acts[t - 1] == Enter(i) && hs[i].tag in dials {
        var slots, gid := Entering(dials, hs, ss[t - 1], i);
      }
    }
  }

  // A new session's stripe whose index is out of range leaves a group with every slot
  // empty, and until a stripe of that session comes whose index is in range, every
  // critical section leaves that group as it is.
  lemma EmptyGroupStays(table: map<u64, Slots>, h: Header, conn: nat, h': Header, conn': nat)
    requires h.sessionID !in table && h.stripeIdx >= h.numStripes
    ensures var empty: Slots, table' := seq(h.numStripes, _ => None), Register(table, h, conn).0;
      && table' == table[h.sessionID := empty]
      && (h'.sessionID != h.sessionID || h'.stripeIdx >= h.numStripes ==>
           h.sessionID in Register(table', h', conn').0 && Register(table', h', conn').0[h.sessionID] == empty)
  {
    hide Full;
  }

  // Whatever the headers, consistent or not: a critical section leaves no complete
  // group in the table, but for one made for a stripe count of zero, which is
  // complete from the start and which nothing will ever remove or dial.
  lemma NoCompleteGroupLeft(table: map<u64, Slots>, h: Header, conn: nat)
    requires forall a :: a in table ==> !Full(table[a])
    ensures var (table', slots, verdict) := Register(table, h, conn);
      (forall a :: a in table' ==> !Full(table'[a])) <==> (h.sessionID in table || h.numStripes != 0)
  {
    var (table', slots, verdict) := Register(table, h, conn);
    if h.sessionID !in table && h.numStripes != 0 {
      assert SlotsFor(table, h)[0].None?;
    }
    if h.sessionID !in table && h.numStripes == 0 {
      assert h.sessionID in table' && Full(table'[h.sessionID]);
    }
  }
}
