// The fixed table of peers as a map: while no more than MAX_PEERS addresses are heard, each address
// has exactly what its own packets left it, whatever the others sent and in whatever order.
module PeerRoster {
  import opened Numeric
  import opened TsfLine
  import opened PeerTable

  ghost predicate Within(peers: seq<Peer>, roster: set<int>) {
    forall i :: 0 <= i < |peers| && peers[i].used ==> peers[i].mac in roster
  }

  // n slots with different addresses from the roster, none of them mac, leave room for mac.
  lemma {:induction false} Pigeonhole(peers: seq<Peer>, n: nat, roster: set<int>, mac: int)
    requires n <= |peers| && mac in roster
    requires forall i :: 0 <= i < n ==> peers[i].mac in roster && peers[i].mac != mac
    requires forall i, j :: 0 <= i < j < n ==> peers[i].mac != peers[j].mac
    ensures n < |roster|
  {
    if n > 0 {
      Pigeonhole(peers, n - 1, roster - {peers[n - 1].mac}, mac);
    }
  }

  // A full table over a roster of at most MAX_PEERS addresses knows every one of them.
  lemma RosterFits(peers: seq<Peer>, roster: set<int>, mac: int)
    requires WellFormed(peers) && Within(peers, roster) && |roster| <= MAX_PEERS && mac in roster
    ensures Lookup(peers, mac).Some? || !peers[MAX_PEERS - 1].used
  {
    if peers[MAX_PEERS - 1].used {
      SlotFinds(peers, mac);
      if Lookup(peers, mac).None? {
        Pigeonhole(peers, MAX_PEERS, roster, mac);
      }
    }
  }

  // The same packets, for one address, with no table.
  function HeardAll(p: Option<Peer>, rx: Receiver, arrivals: seq<Arrival>, mac: int): Option<Peer> {
    if arrivals == [] then p
    else
      var (before, a) := (HeardAll(p, rx, arrivals[..|arrivals| - 1], mac), arrivals[|arrivals| - 1]);
      if a.pkt.sender == mac && Admits(rx, a.pkt) then
        Some(Heard(if before.Some? then before.value else Fresh(mac, rx.now), rx, a))
      else before
  }

  // Every packet that passes the header gates is from the roster.
  ghost predicate From(rx: Receiver, arrivals: seq<Arrival>, roster: set<int>) {
    forall i :: 0 <= i < |arrivals| && Admits(rx, arrivals[i].pkt) ==> arrivals[i].pkt.sender in roster
  }

  lemma ReceiveStaysWithin(peers: seq<Peer>, rx: Receiver, a: Arrival, roster: set<int>)
    requires WellFormed(peers) && Within(peers, roster) && (Admits(rx, a.pkt) ==> a.pkt.sender in roster)
    ensures WellFormed(Receive(peers, rx, a)) && Within(Receive(peers, rx, a), roster)
  {
    ReceiveChangesOneSlot(peers, rx, a);
    hide Receive, Admits, Heard;
    var r, i := Receive(peers, rx, a), Slot(peers, a.pkt.sender);
    if Admits(rx, a.pkt) {
      SlotFinds(r, a.pkt.sender);
      HeardKeepsMac(if Lookup(peers, a.pkt.sender).Some? then Lookup(peers, a.pkt.sender).value
        else Fresh(a.pkt.sender, rx.now), rx, a);
      hide *;
      WithinAfter(peers, r, i, a.pkt.sender, roster, rx, a);
    }
  }

  lemma HeardKeepsMac(p: Peer, rx: Receiver, a: Arrival)
    ensures Heard(p, rx, a).mac == p.mac && Heard(p, rx, a).used == p.used
  {
  }

  lemma WithinAfter(peers: seq<Peer>, r: seq<Peer>, i: nat, mac: int, roster: set<int>, rx: Receiver, a: Arrival)
    requires WellFormed(r) && Within(peers, roster) && mac in roster && mac == a.pkt.sender
    requires peers != [] && i == Slot(peers, mac) && r == Receive(peers, rx, a) && Admits(rx, a.pkt)
    ensures Within(r, roster)
  {
    hide Pools, Scan;
    var t := FindPeer(peers, mac, rx.now);
    assert t[i].mac == mac;
    assert r[i].mac == mac;
    assert forall j :: 0 <= j < |peers| && j != i ==> r[j] == peers[j];
  }

  // Main result: the table is that map.
  lemma {:induction false} TableIsMap(peers: seq<Peer>, rx: Receiver, arrivals: seq<Arrival>, roster: set<int>, mac: int)
    requires WellFormed(peers) && Within(peers, roster) && |roster| <= MAX_PEERS && From(rx, arrivals, roster)
    ensures WellFormed(ReceiveAll(peers, rx, arrivals)) && Within(ReceiveAll(peers, rx, arrivals), roster)
    ensures Lookup(ReceiveAll(peers, rx, arrivals), mac) == HeardAll(Lookup(peers, mac), rx, arrivals, mac)
  {
    if arrivals != [] {
      var init, a := arrivals[..|arrivals| - 1], arrivals[|arrivals| - 1];
      TableIsMap(peers, rx, init, roster, mac);
      var t := ReceiveAll(peers, rx, init);
      hide Receive, Admits, Heard, Lookup;
      ReceiveStaysWithin(t, rx, a, roster);
      ReceiveChangesOneSlot(t, rx, a);
      if a.pkt.sender != mac && Admits(rx, a.pkt) {
        RosterFits(t, roster, a.pkt.sender);
        OthersKeepTheirSlot(t, rx, a, mac);
      }
    }
  }

  // A packet that puts its line into its sender's slot.
  predicate Pooled(rx: Receiver, a: Arrival, mac: int) {
    a.pkt.sender == mac && Admits(rx, a.pkt) && Pools(rx, a)
  }

  // The gates by what they are for: the sender is this address, another device on this access point,
  // server and stream, where both streams are known; the line can be evaluated at the sample; and for a
  // mature receiver what it implies is as near the own estimate as the bound allows, within a margin.
  ghost predicate Acceptable(rx: Receiver, a: Arrival, mac: int, margin: real) {
    && a.pkt.sender == mac != rx.mac && a.pkt.magic == TSF_MAGIC && a.pkt.version == TSF_VERSION
    && a.pkt.bssid == rx.bssid && a.pkt.server == rx.server
    && (a.pkt.stream == rx.stream || a.pkt.stream == 0 || rx.stream == 0)
    && !a.pkt.noMapping && a.sample.Tsf?
    && -1000 <= a.sample.tsf - a.pkt.line.base <= 10_000_000
    && (rx.est.valid && rx.est.mature ==>
          Abs(Implied(a.pkt.line, a.sample.tsf, a.sample.local) - 1000.0 * rx.est.offsetMs)
            <= rx.plausibility as real + margin)
  }

  // A packet puts its line into the table exactly when it is acceptable, but for two microseconds of
  // plausibility that the roundings take.
  lemma PooledExactly(rx: Receiver, a: Arrival, mac: int)
    ensures Pooled(rx, a, mac) ==> Acceptable(rx, a, mac, 2.0)
    ensures Acceptable(rx, a, mac, -2.0) ==> Pooled(rx, a, mac)
  {
    TruncIsNear(rx.est.offsetMs * 1000.0);
    if a.sample.Tsf? {
      EvaluateIsImplied(a.pkt.line, a.sample.tsf, a.sample.local, a.sample.width);
    }
    hide Evaluate, Implied, Trunc;
  }

  // An address is marked as heard now by every packet of its that passes the header gates, with a line
  // or without, and by no other.
  lemma {:induction false} SeenWhenHeard(p: Option<Peer>, rx: Receiver, arrivals: seq<Arrival>, mac: int)
    ensures var q := HeardAll(p, rx, arrivals, mac);
      if exists i :: 0 <= i < |arrivals| && arrivals[i].pkt.sender == mac && Admits(rx, arrivals[i].pkt)
      then q.Some? && q.value.seen == rx.now && q.value.mac == (if p.Some? then p.value.mac else mac)
      else q == p
  {
    if arrivals != [] {
      var n := |arrivals| - 1;
      SeenWhenHeard(p, rx, arrivals[..n], mac);
      hide Admits, Pools;
      assert forall i :: 0 <= i < n ==> arrivals[..n][i] == arrivals[i];
    }
  }

  // The arrival at k is the address's last to be pooled; packets without a line, or refused by a
  // later gate, may follow it.
  ghost predicate IsLast(rx: Receiver, arrivals: seq<Arrival>, mac: int, k: nat)
    requires k < |arrivals|
  {
    Pooled(rx, arrivals[k], mac) && forall j :: k < j < |arrivals| ==> !Pooled(rx, arrivals[j], mac)
  }

  lemma {:induction false} LastIsHeard(p: Option<Peer>, rx: Receiver, arrivals: seq<Arrival>, mac: int, k: nat)
    requires k < |arrivals| && IsLast(rx, arrivals, mac, k)
    ensures var q := HeardAll(p, rx, arrivals, mac);
      q.Some? && q.value.mapValid && q.value.mapSeen == rx.now && q.value.line == arrivals[k].pkt.line
    decreases |arrivals|
  {
    hide Admits, Pools;
    if k < |arrivals| - 1 {
      LastIsHeard(p, rx, arrivals[..|arrivals| - 1], mac, k);
    }
  }

  // So whatever else was received, the newest line of an address that passes the gates is in the
  // table, as of now.
  lemma NewestLineIsHeld(peers: seq<Peer>, rx: Receiver, arrivals: seq<Arrival>, roster: set<int>, mac: int, k: nat)
    requires WellFormed(peers) && Within(peers, roster) && |roster| <= MAX_PEERS && From(rx, arrivals, roster)
    requires k < |arrivals| && IsLast(rx, arrivals, mac, k)
    ensures var q := Lookup(ReceiveAll(peers, rx, arrivals), mac);
      q.Some? && q.value.mapValid && q.value.mapSeen == rx.now && q.value.line == arrivals[k].pkt.line
  {
    TableIsMap(peers, rx, arrivals, roster, mac);
    hide IsLast, Lookup;
    LastIsHeard(Lookup(peers, mac), rx, arrivals, mac, k);
  }
}
