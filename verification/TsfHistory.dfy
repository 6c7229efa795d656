// What each slot of a device's table remembers of its run: the last packet pooled from its address
// since the last reset, and the server the device named in the call that pooled it.
module TsfHistory {
  import opened Numeric
  import opened PeerTable
  import opened PeerRoster
  import opened TsfDevice
  import Consensus
  import PublishedLine

  // A pooled packet, the local time of the call and the server the call named.
  datatype Source = Source(pkt: Packet, at: int, named: int)

  function LastPooled(q: Option<Source>, rx: Receiver, arrivals: seq<Arrival>, mac: int): Option<Source> {
    if arrivals == [] then q
    else if Pooled(rx, arrivals[|arrivals| - 1], mac) then
      Some(Source(arrivals[|arrivals| - 1].pkt, rx.now, rx.server))
    else LastPooled(q, rx, arrivals[..|arrivals| - 1], mac)
  }

  // The call gets as far as the association checks, and finds it changed.
  predicate Dissociates(d: Device, t: Tick) {
    Due(d, t) && Identify(d, t).mac.Some? && d.bssid.Some? && d.bssid != t.ap
  }

  predicate Listens(d: Device, t: Tick) {
    Runs(d, t) && Attend(d, t).mac.Some? && Attend(d, t).bssid.Some?
  }

  function Retained(q: Option<Source>, d: Device, t: Tick): Option<Source> {
    if Dissociates(d, t) then None else q
  }

  function AfterCall(q: Option<Source>, d: Device, t: Tick, arrivals: seq<Arrival>, plausibility: int, mac: int):
    Option<Source>
  {
    if Listens(d, t) then LastPooled(Retained(q, d, t), ReceiverOf(Attend(d, t), t, plausibility), arrivals, mac)
    else Retained(q, d, t)
  }

  // Over a whole run from power-on.
  function SourceOf(calls: seq<Call>, plausibility: int, mac: int): Option<Source> {
    if calls == [] then None
    else
      var init, c := calls[..|calls| - 1], calls[|calls| - 1];
      AfterCall(SourceOf(init, plausibility, mac), Run(INITIAL, init, plausibility), c.tick, c.arrivals, plausibility, mac)
  }

  // ----- the table against its history

  // A slot of this address holds a line only as its source left it.
  ghost predicate Matches(p: Peer, mac: int, q: Option<Source>) {
    p.used && p.mac == mac && p.mapValid ==>
      q.Some? && p.line == q.value.pkt.line && p.mapSeen == q.value.at && q.value.pkt.sender == mac
  }

  ghost predicate AllMatch(peers: seq<Peer>, mac: int, q: Option<Source>) {
    forall i :: 0 <= i < |peers| ==> Matches(peers[i], mac, q)
  }

  lemma OneMatches(peers: seq<Peer>, rx: Receiver, a: Arrival, mac: int, q: Option<Source>)
    requires WellFormed(peers) && AllMatch(peers, mac, q)
    ensures WellFormed(Receive(peers, rx, a))
    ensures AllMatch(Receive(peers, rx, a), mac, if Pooled(rx, a, mac) then Some(Source(a.pkt, rx.now, rx.server)) else q)
  {
    ReceiveChangesOneSlot(peers, rx, a);
    if Admits(rx, a.pkt) {
      hide Receive, Pools, Scan, Slot;
      var r, i := Receive(peers, rx, a), Slot(peers, a.pkt.sender);
      SlotFinds(peers, a.pkt.sender);
      SlotFinds(r, a.pkt.sender);
      SenderSlot(peers, rx, a, i);
    }
  }

  // The sender's slot after a packet, and that it alone is the sender's.
  lemma SenderSlot(peers: seq<Peer>, rx: Receiver, a: Arrival, i: nat)
    requires WellFormed(peers) && Admits(rx, a.pkt) && i == Slot(peers, a.pkt.sender)
    ensures var r := Receive(peers, rx, a);
      && Holds(r[i], a.pkt.sender)
      && (forall j :: 0 <= j < |peers| && j != i ==> r[j] == peers[j] && !Holds(r[j], a.pkt.sender))
      && r[i] == Heard(if Holds(peers[i], a.pkt.sender) then peers[i] else Fresh(a.pkt.sender, rx.now), rx, a)
  {
    FindPeerKeeps(peers, a.pkt.sender, rx.now);
    hide Scan, Slot, Pools;
  }

  lemma {:induction false} ArrivalsMatch(peers: seq<Peer>, rx: Receiver, arrivals: seq<Arrival>, mac: int, q: Option<Source>)
    requires WellFormed(peers) && AllMatch(peers, mac, q)
    ensures WellFormed(ReceiveAll(peers, rx, arrivals))
    ensures AllMatch(ReceiveAll(peers, rx, arrivals), mac, LastPooled(q, rx, arrivals, mac))
  {
    if arrivals != [] {
      var init := arrivals[..|arrivals| - 1];
      ArrivalsMatch(peers, rx, init, mac, q);
      hide Receive, WellFormed, AllMatch, Pooled;
      OneMatches(ReceiveAll(peers, rx, init), rx, arrivals[|arrivals| - 1], mac, LastPooled(q, rx, init, mac));
    }
  }

  // The stages of a call that touch the table.
  lemma CallTable(d: Device, t: Tick, arrivals: seq<Arrival>, plausibility: int)
    requires d.peers != []
    ensures var e := Service(d, t, arrivals, plausibility);
      && (Listens(d, t) ==>
            && Attend(d, t).peers != []
            && e.peers == ReceiveAll(Attend(d, t).peers, ReceiverOf(Attend(d, t), t, plausibility), arrivals)
            && e.bssid == Attend(d, t).bssid == t.ap)
      && (!Listens(d, t) ==> e.peers == if Dissociates(d, t) then Invalidate(d.peers) else d.peers)
      && (Listens(d, t) ==> Attend(d, t).peers == if Dissociates(d, t) then Invalidate(d.peers) else d.peers)
  {
    hide ReceiveAll, PublishedLine.Broadcast, Consensus.Agreed, Consensus.Contributors;
  }

  lemma InvalidMatches(peers: seq<Peer>, mac: int)
    requires WellFormed(peers)
    ensures WellFormed(Invalidate(peers)) && AllMatch(Invalidate(peers), mac, None)
  {
  }

  lemma CallMatches(d: Device, t: Tick, arrivals: seq<Arrival>, plausibility: int, mac: int, q: Option<Source>)
    requires Sound(d) && AllMatch(d.peers, mac, q)
    ensures AllMatch(Service(d, t, arrivals, plausibility).peers, mac, AfterCall(q, d, t, arrivals, plausibility, mac))
  {
    CallTable(d, t, arrivals, plausibility);
    InvalidMatches(d.peers, mac);
    hide Service, Attend, ReceiveAll, LastPooled, Dissociates, WellFormed, AllMatch;
    if Listens(d, t) {
      ArrivalsMatch(Attend(d, t).peers, ReceiverOf(Attend(d, t), t, plausibility), arrivals, mac, Retained(q, d, t));
    }
  }

  // Main result: over every run, with whatever evictions, a slot that holds a valid line holds the
  // line of the last packet pooled from its address since the last reset, as of that call.
  lemma {:induction false} SlotsHoldTheirSource(calls: seq<Call>, plausibility: int, mac: int)
    ensures Sound(Run(INITIAL, calls, plausibility))
    ensures AllMatch(Run(INITIAL, calls, plausibility).peers, mac, SourceOf(calls, plausibility, mac))
  {
    InitialIsSound();
    RunIsSound(INITIAL, calls, plausibility);
    if calls != [] {
      var init, c := calls[..|calls| - 1], calls[|calls| - 1];
      SlotsHoldTheirSource(init, plausibility, mac);
      hide Service, Sound, AllMatch, AfterCall;
      CallMatches(Run(INITIAL, init, plausibility), c.tick, c.arrivals, plausibility, mac, SourceOf(init, plausibility, mac));
    }
  }

  // ----- where a source was pooled

  // Call k handed the device the packet, at that time and under that server, and it was acceptable
  // there.
  ghost predicate PooledIn(calls: seq<Call>, plausibility: int, k: nat, s: Source) {
    && k < |calls| && calls[k].tick.now == s.at && calls[k].tick.server == s.named
    && exists j :: 0 <= j < |calls[k].arrivals| && calls[k].arrivals[j].pkt == s.pkt
         && exists rx: Receiver :: RxOf(calls[k].tick, plausibility, rx) && Acceptable(rx, calls[k].arrivals[j], s.pkt.sender, 2.0)
  }

  // The receiver of a call: its association and address aside, what the call says.
  predicate RxOf(t: Tick, plausibility: int, rx: Receiver) {
    && rx.server == t.server && rx.stream == t.stream && rx.now == t.now && rx.est == t.est
    && rx.plausibility == plausibility && t.ap == Some(rx.bssid)
  }

  // What the gates say of a pooled packet.
  ghost predicate Proper(s: Source, mac: int, bssid: Option<int>) {
    s.pkt.sender == mac && !s.pkt.noMapping && s.pkt.server == s.named && bssid == Some(s.pkt.bssid)
  }

  lemma {:induction false} LastPooledIs(q: Option<Source>, rx: Receiver, arrivals: seq<Arrival>, mac: int)
    ensures var r := LastPooled(q, rx, arrivals, mac);
      r == q || (r.Some? && Proper(r.value, mac, Some(rx.bssid)) && r.value.at == rx.now && r.value.named == rx.server
                 && exists j :: 0 <= j < |arrivals| && arrivals[j].pkt == r.value.pkt && Acceptable(rx, arrivals[j], mac, 2.0))
  {
    if arrivals != [] {
      var init, l := arrivals[..|arrivals| - 1], |arrivals| - 1;
      PooledExactly(rx, arrivals[l], mac);
      hide Acceptable;
      if Pooled(rx, arrivals[l], mac) {
        assert arrivals[l].pkt == LastPooled(q, rx, arrivals, mac).value.pkt;
      } else {
        LastPooledIs(q, rx, init, mac);
        hide Pooled, Proper;
        assert forall j :: 0 <= j < l ==> init[j] == arrivals[j];
      }
    }
  }

  lemma {:induction false} SourcesWerePooled(calls: seq<Call>, plausibility: int, mac: int)
    ensures var q := SourceOf(calls, plausibility, mac);
      q.Some? ==> Proper(q.value, mac, Run(INITIAL, calls, plausibility).bssid)
                  && exists k: nat :: PooledIn(calls, plausibility, k, q.value)
  {
    if calls != [] {
      var n := |calls| - 1;
      var init, c := calls[..n], calls[n];
      var d, q0, q := Run(INITIAL, init, plausibility), SourceOf(init, plausibility, mac), SourceOf(calls, plausibility, mac);
      SourcesWerePooled(init, plausibility, mac);
      CallTable(d, c.tick, c.arrivals, plausibility);
      CallAssociation(d, c.tick, c.arrivals, plausibility);
      if Listens(d, c.tick) {
        LastPooledIs(Retained(q0, d, c.tick), ReceiverOf(Attend(d, c.tick), c.tick, plausibility), c.arrivals, mac);
      }
      hide Service, Attend, LastPooled, Dissociates, Listens, Acceptable, RxOf;
      if q.Some? {
        if q == q0 {
          var k: nat :| PooledIn(init, plausibility, k, q.value);
          assert PooledIn(calls, plausibility, k, q.value);
        } else {
          assert PooledIn(calls, plausibility, n, q.value);
        }
      }
    }
  }

  lemma CallAssociation(d: Device, t: Tick, arrivals: seq<Arrival>, plausibility: int)
    requires d.peers != []
    ensures !Dissociates(d, t) && d.bssid.Some? ==> Service(d, t, arrivals, plausibility).bssid == d.bssid
    ensures Listens(d, t) ==>
      var rx := ReceiverOf(Attend(d, t), t, plausibility);
      rx.server == t.server && rx.now == t.now && Some(rx.bssid) == t.ap && RxOf(t, plausibility, rx)
  {
    hide ReceiveAll, PublishedLine.Broadcast, Consensus.Agreed, Consensus.Contributors;
  }

  // ----- lines of a server since left

  // Main result: a valid line is foreign to a server exactly when the device named another one in the
  // call that last pooled the slot's address.
  lemma ForeignExactly(calls: seq<Call>, plausibility: int, i: nat, server: int)
    requires var peers := Run(INITIAL, calls, plausibility).peers;
      i < |peers| && peers[i].used && peers[i].mapValid
    ensures var d := Run(INITIAL, calls, plausibility);
      var (p, q) := (d.peers[i], SourceOf(calls, plausibility, d.peers[i].mac));
      && q.Some? && p.line == q.value.pkt.line && p.mapSeen == q.value.at && Proper(q.value, p.mac, d.bssid)
      && (q.value.pkt.server != server <==> q.value.named != server)
      && exists k: nat :: PooledIn(calls, plausibility, k, q.value)
  {
    var peers := Run(INITIAL, calls, plausibility).peers;
    SlotsHoldTheirSource(calls, plausibility, peers[i].mac);
    assert Matches(peers[i], peers[i].mac, SourceOf(calls, plausibility, peers[i].mac));
    SourcesWerePooled(calls, plausibility, peers[i].mac);
  }

  // So five seconds after its last call under another server, a device counts none of that server's
  // lines.
  lemma ForeignLinesAgeOut(calls: seq<Call>, plausibility: int, i: nat, now: int, server: int)
    requires i < |Run(INITIAL, calls, plausibility).peers|
    requires Consensus.Contributes(Run(INITIAL, calls, plausibility).peers[i], now)
    requires forall k :: 0 <= k < |calls| && now - calls[k].tick.now <= Consensus.PEER_MAP_STALE_US ==>
      calls[k].tick.server == server
    ensures var p := Run(INITIAL, calls, plausibility).peers[i];
      var q := SourceOf(calls, plausibility, p.mac);
      q.Some? && p.line == q.value.pkt.line && q.value.pkt.server == server
  {
    ForeignExactly(calls, plausibility, i, server);
    hide Run, SourceOf;
    var q := SourceOf(calls, plausibility, Run(INITIAL, calls, plausibility).peers[i].mac).value;
    var k: nat :| PooledIn(calls, plausibility, k, q);
  }

  predicate PoolsFrom(d: Device, t: Tick, arrivals: seq<Arrival>, plausibility: int, mac: int) {
    Listens(d, t) && exists k :: 0 <= k < |arrivals| && Pooled(ReceiverOf(Attend(d, t), t, plausibility), arrivals[k], mac)
  }

  lemma {:induction false} NothingPooled(q: Option<Source>, rx: Receiver, arrivals: seq<Arrival>, mac: int)
    ensures (exists k :: 0 <= k < |arrivals| && Pooled(rx, arrivals[k], mac)) ==>
      LastPooled(q, rx, arrivals, mac).Some? && LastPooled(q, rx, arrivals, mac).value.named == rx.server
    ensures !(exists k :: 0 <= k < |arrivals| && Pooled(rx, arrivals[k], mac)) ==> LastPooled(q, rx, arrivals, mac) == q
  {
    hide Pooled;
    if arrivals != [] && !Pooled(rx, arrivals[|arrivals| - 1], mac) {
      NothingPooled(q, rx, arrivals[..|arrivals| - 1], mac);
    }
  }

  ghost predicate Foreign(q: Option<Source>, server: int) {
    q.Some? && q.value.named != server
  }

  // Through one call a foreign source survives exactly when the association does and nothing from its
  // address is pooled.
  lemma ForeignSurvives(q: Option<Source>, d: Device, t: Tick, arrivals: seq<Arrival>, plausibility: int, mac: int)
    requires d.peers != []
    ensures Foreign(AfterCall(q, d, t, arrivals, plausibility, mac), t.server) <==>
      Foreign(q, t.server) && !Dissociates(d, t) && !PoolsFrom(d, t, arrivals, plausibility, mac)
  {
    if Listens(d, t) {
      CallAssociation(d, t, arrivals, plausibility);
      NothingPooled(Retained(q, d, t), ReceiverOf(Attend(d, t), t, plausibility), arrivals, mac);
    }
    hide Attend, Pooled, LastPooled, Dissociates, Runs;
  }

  // ----- the table as a map over whole runs

  // What the table says of an address is what its source says.
  ghost predicate HeldIs(p: Option<Peer>, q: Option<Source>) {
    && (p.Some? && p.value.mapValid <==> q.Some?)
    && (q.Some? ==> p.value.line == q.value.pkt.line && p.value.mapSeen == q.value.at)
  }

  lemma {:induction false} HeardIsHeld(p: Option<Peer>, q: Option<Source>, rx: Receiver, arrivals: seq<Arrival>, mac: int)
    requires HeldIs(p, q)
    ensures HeldIs(HeardAll(p, rx, arrivals, mac), LastPooled(q, rx, arrivals, mac))
  {
    if arrivals != [] {
      hide Admits, Pools;
      HeardIsHeld(p, q, rx, arrivals[..|arrivals| - 1], mac);
    }
  }

  // In every call, only the roster's packets pass the header gates.
  ghost predicate Hears(calls: seq<Call>, plausibility: int, roster: set<int>) {
    calls != [] ==>
      var (init, c) := (calls[..|calls| - 1], calls[|calls| - 1]);
      var d := Run(INITIAL, init, plausibility);
      && Hears(init, plausibility, roster)
      && (Listens(d, c.tick) ==> From(ReceiverOf(Attend(d, c.tick), c.tick, plausibility), c.arrivals, roster))
  }

  ghost predicate TableIs(peers: seq<Peer>, roster: set<int>, mac: int, q: Option<Source>) {
    WellFormed(peers) && Within(peers, roster) && HeldIs(Lookup(peers, mac), q)
  }

  lemma InvalidTable(peers: seq<Peer>, roster: set<int>, mac: int, q: Option<Source>)
    requires TableIs(peers, roster, mac, q)
    ensures TableIs(Invalidate(peers), roster, mac, None)
  {
    var r := Invalidate(peers);
    SlotFinds(r, mac);
    hide Scan, Slot;
  }

  lemma CallIsMap(d: Device, t: Tick, arrivals: seq<Arrival>, plausibility: int, roster: set<int>, mac: int,
      q: Option<Source>)
    requires TableIs(d.peers, roster, mac, q) && |roster| <= MAX_PEERS
    requires Listens(d, t) ==> From(ReceiverOf(Attend(d, t), t, plausibility), arrivals, roster)
    ensures TableIs(Service(d, t, arrivals, plausibility).peers, roster, mac,
      AfterCall(q, d, t, arrivals, plausibility, mac))
  {
    CallTable(d, t, arrivals, plausibility);
    InvalidTable(d.peers, roster, mac, q);
    hide Service, Attend, ReceiveAll, LastPooled, Dissociates, WellFormed, Within, From, Lookup;
    if Listens(d, t) {
      var rx, peers := ReceiverOf(Attend(d, t), t, plausibility), Attend(d, t).peers;
      TableIsMap(peers, rx, arrivals, roster, mac);
      HeardIsHeld(Lookup(peers, mac), Retained(q, d, t), rx, arrivals, mac);
    }
  }

  lemma EmptyTable(roster: set<int>, mac: int)
    ensures TableIs(EMPTY_TABLE, roster, mac, None)
  {
  }

  // Main result: while a device hears at most eight other addresses, its table is the map of their
  // sources over the whole run: a line is held exactly when one has been pooled since the last reset.
  lemma {:induction false} RunTableIsMap(calls: seq<Call>, plausibility: int, roster: set<int>, mac: int)
    requires |roster| <= MAX_PEERS && Hears(calls, plausibility, roster)
    ensures TableIs(Run(INITIAL, calls, plausibility).peers, roster, mac, SourceOf(calls, plausibility, mac))
  {
    if calls == [] {
      EmptyTable(roster, mac);
    } else {
      var init, c := calls[..|calls| - 1], calls[|calls| - 1];
      RunTableIsMap(init, plausibility, roster, mac);
      hide Service, TableIs, AfterCall, From, Listens;
      CallIsMap(Run(INITIAL, init, plausibility), c.tick, c.arrivals, plausibility, roster, mac,
        SourceOf(init, plausibility, mac));
    }
  }

  // Main result for a change of server: after a further call a device still holds a line of a server
  // other than the one the call names exactly when it held one of that address before, its
  // association is the same, and nothing from the address was pooled.
  lemma ForeignLineSurvives(calls: seq<Call>, c: Call, plausibility: int, roster: set<int>, mac: int)
    requires |roster| <= MAX_PEERS && Hears(calls + [c], plausibility, roster)
    ensures var (d, e) := (Run(INITIAL, calls, plausibility), Run(INITIAL, calls + [c], plausibility));
      var (q, q') := (SourceOf(calls, plausibility, mac), SourceOf(calls + [c], plausibility, mac));
      && d.peers != [] && e.peers != [] && HeldIs(Lookup(d.peers, mac), q) && HeldIs(Lookup(e.peers, mac), q')
      && (Foreign(q', c.tick.server) <==>
            Foreign(q, c.tick.server) && !Dissociates(d, c.tick) && !PoolsFrom(d, c.tick, c.arrivals, plausibility, mac))
  {
    assert (calls + [c])[..|calls|] == calls;
    RunTableIsMap(calls, plausibility, roster, mac);
    RunTableIsMap(calls + [c], plausibility, roster, mac);
    var d := Run(INITIAL, calls, plausibility);
    hide Hears, Run, HeldIs, Foreign, Dissociates, PoolsFrom, AfterCall, Lookup;
    ForeignSurvives(SourceOf(calls, plausibility, mac), d, c.tick, c.arrivals, plausibility, mac);
  }
}
