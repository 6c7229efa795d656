// components/clock_sync/tsf_sync.cpp, reset_ and service: one device, one service call at a time.
module TsfDevice {
  import opened Numeric
  import opened TsfLine
  import opened PeerTable
  import PublishedLine
  import Consensus

  const SERVICE_MIN_INTERVAL_US: int := 200_000
  const BEACON_INTERVAL_US: int := 1_000_000
  const CONSENSUS_INTERVAL_US: int := 500_000

  // The adopted mapping and the local time it was adopted.
  datatype Mapping = Mapping(line: Line, updated: int)

  datatype Device = Device(lastService: int, mac: Option<int>, bssid: Option<int>, own: PublishedLine.Own,
    peers: seq<Peer>, lastTx: int, lastPhaseTx: int, lastConsensus: int, mapping: Option<Mapping>, contributors: nat)

  // The device's own inputs to one call: what the caller, the radio and the TSF counter say, and
  // whether there is a render phase to report.
  datatype Tick = Tick(now: int, est: Estimate, server: int, stream: int, mac: Option<int>, ap: Option<int>,
    socket: bool, sample: Sample, phase: bool)

  const EMPTY_TABLE: seq<Peer> :=
    [EMPTY_PEER, EMPTY_PEER, EMPTY_PEER, EMPTY_PEER, EMPTY_PEER, EMPTY_PEER, EMPTY_PEER, EMPTY_PEER]

  const INITIAL: Device := Device(0, None, None, PublishedLine.INITIAL_OWN, EMPTY_TABLE, 0, 0, 0, None, 0)

  // ----- reset_

  function Invalidate(peers: seq<Peer>): (r: seq<Peer>)
    ensures |r| == |peers|
    ensures forall i :: 0 <= i < |peers| ==> r[i] == peers[i].(mapValid := false)
  {
    seq(|peers|, i requires 0 <= i < |peers| => peers[i].(mapValid := false))
  }

  function Reset(d: Device): Device {
    d.(own := PublishedLine.Reset(d.own), peers := Invalidate(d.peers), mapping := None, contributors := 0)
  }

  // ----- the stages of service

  predicate Due(d: Device, t: Tick) {
    t.now - d.lastService >= SERVICE_MIN_INTERVAL_US
  }

  function Identify(d: Device, t: Tick): Device {
    d.(lastService := t.now, mac := if d.mac.Some? then d.mac else t.mac)
  }

  // A disassociation or a new BSSID drops everything expressed in the old TSF.
  function Associate(d: Device, ap: Option<int>): Device {
    if d.bssid == ap then d
    else if d.bssid.Some? then Reset(d).(bssid := ap)
    else d.(bssid := ap)
  }

  predicate Connected(d: Device, t: Tick) {
    d.mac.Some? && t.ap.Some? && t.socket
  }

  function ReceiverOf(d: Device, t: Tick, plausibility: int): Receiver
    requires d.mac.Some? && d.bssid.Some?
  {
    Receiver(d.mac.value, d.bssid.value, t.server, t.stream, t.now, t.est, plausibility)
  }

  function Listen(d: Device, t: Tick, arrivals: seq<Arrival>, plausibility: int): Device
    requires d.mac.Some? && d.bssid.Some? && d.peers != []
  {
    d.(peers := ReceiveAll(d.peers, ReceiverOf(d, t, plausibility), arrivals))
  }

  predicate Publishes(d: Device, t: Tick) {
    t.est.valid && t.est.mature && t.now - d.lastTx >= BEACON_INTERVAL_US && t.sample.Tsf?
  }

  // With nothing to pool yet, a phase worth publishing goes out at a quarter of the rate.
  predicate ReportsPhase(d: Device, t: Tick) {
    !(t.est.valid && t.est.mature) && t.phase && t.now - d.lastPhaseTx >= 4 * BEACON_INTERVAL_US
  }

  function Speak(d: Device, t: Tick): Device {
    if Publishes(d, t) then d.(own := PublishedLine.Broadcast(d.own, t.now, t.est, t.sample), lastTx := t.now)
    else if ReportsPhase(d, t) then d.(lastPhaseTx := t.now)
    else d
  }

  function Decide(d: Device, now: int): Device {
    if now - d.lastConsensus < CONSENSUS_INTERVAL_US then d
    else
      var lines := Consensus.Contributors(d.own.pub, d.peers, now);
      if lines == [] then d.(lastConsensus := now, contributors := 0)
      else d.(lastConsensus := now, contributors := |lines|, mapping := Some(Mapping(Consensus.Agreed(lines), now)))
  }

  function Attend(d: Device, t: Tick): Device {
    Associate(Identify(d, t), t.ap)
  }

  predicate Runs(d: Device, t: Tick) {
    Due(d, t) && Connected(Identify(d, t), t)
  }

  function Service(d: Device, t: Tick, arrivals: seq<Arrival>, plausibility: int): Device
    requires d.peers != []
  {
    if !Due(d, t) then d
    else if Identify(d, t).mac.None? then Identify(d, t)
    else if !Runs(d, t) then Attend(d, t)
    else Decide(Speak(Listen(Attend(d, t), t, arrivals, plausibility), t), t.now)
  }

  // The adopted mapping carried to the instant a line is published for.
  function AdoptedAt(mapping: Option<Mapping>, tsf: int): Option<int> {
    match mapping case None => None case Some(m) => Some(At(m.line, tsf))
  }

  function MappingPacket(d: Device, t: Tick): Packet
    requires d.mac.Some? && d.bssid.Some? && t.sample.Tsf?
  {
    Packet(TSF_MAGIC, TSF_VERSION, d.mac.value, d.bssid.value, t.server, t.stream, false,
      PublishedLine.NextLine(d.own, t.now, t.est, t.sample.tsf, t.sample.local), AdoptedAt(d.mapping, t.sample.tsf))
  }

  function PhasePacket(d: Device, t: Tick): Packet
    requires d.mac.Some? && d.bssid.Some?
  {
    Packet(TSF_MAGIC, TSF_VERSION, d.mac.value, d.bssid.value, t.server, t.stream, true, EMPTY_PEER.line, None)
  }

  // What the call puts on the wire.
  function Beacon(d: Device, t: Tick): Option<Packet> {
    var d1 := Attend(d, t);
    if !Runs(d, t) || d1.bssid.None? then None
    else if Publishes(d1, t) then Some(MappingPacket(d1, t))
    else if ReportsPhase(d1, t) then Some(PhasePacket(d1, t))
    else None
  }

  // ----- what the published line depends on

  // The part of the state behind the published line.
  datatype OwnSide = OwnSide(lastService: int, mac: Option<int>, bssid: Option<int>, own: PublishedLine.Own, lastTx: int,
    lastPhaseTx: int)

  function OwnSideOf(d: Device): OwnSide {
    OwnSide(d.lastService, d.mac, d.bssid, d.own, d.lastTx, d.lastPhaseTx)
  }

  // A beacon without the value the sender has adopted.
  function Raw(b: Option<Packet>): Option<Packet> {
    match b case None => None case Some(p) => Some(p.(adopted := None))
  }

  lemma AttendKeepsOwnSide(d1: Device, d2: Device, t: Tick)
    requires OwnSideOf(d1) == OwnSideOf(d2)
    ensures OwnSideOf(Attend(d1, t)) == OwnSideOf(Attend(d2, t))
    ensures OwnSideOf(Identify(d1, t)) == OwnSideOf(Identify(d2, t))
    ensures Runs(d1, t) == Runs(d2, t) && Due(d1, t) == Due(d2, t)
  {
  }

  lemma SpeakKeepsOwnSide(d1: Device, d2: Device, t: Tick)
    requires OwnSideOf(d1) == OwnSideOf(d2)
    ensures OwnSideOf(Speak(d1, t)) == OwnSideOf(Speak(d2, t))
    ensures Publishes(d1, t) == Publishes(d2, t) && ReportsPhase(d1, t) == ReportsPhase(d2, t)
  {
    hide PublishedLine.Broadcast;
  }

  lemma ListenKeepsOwnSide(d: Device, t: Tick, arrivals: seq<Arrival>, plausibility: int)
    requires d.mac.Some? && d.bssid.Some? && d.peers != []
    ensures OwnSideOf(Listen(d, t, arrivals, plausibility)) == OwnSideOf(d)
  {
    hide ReceiveAll;
  }

  lemma DecideKeepsOwnSide(d: Device, now: int)
    ensures OwnSideOf(Decide(d, now)) == OwnSideOf(d)
  {
    hide Consensus.Agreed, Consensus.Contributors;
  }

  // A call leaves two devices with equal own sides with equal own sides, whatever the packets and
  // the rest of their state.
  lemma ServiceKeepsOwnSide(d1: Device, d2: Device, t: Tick, a1: seq<Arrival>, a2: seq<Arrival>, p1: int, p2: int)
    requires d1.peers != [] && d2.peers != [] && OwnSideOf(d1) == OwnSideOf(d2)
    ensures OwnSideOf(Service(d1, t, a1, p1)) == OwnSideOf(Service(d2, t, a2, p2))
    ensures Raw(Beacon(d1, t)) == Raw(Beacon(d2, t))
  {
    AttendKeepsOwnSide(d1, d2, t);
    SpeakKeepsOwnSide(Attend(d1, t), Attend(d2, t), t);
    if Runs(d1, t) {
      var e1, e2 := Listen(Attend(d1, t), t, a1, p1), Listen(Attend(d2, t), t, a2, p2);
      hide Attend, Identify, Listen, Speak, Decide, PublishedLine.NextLine, Publishes, ReportsPhase, AdoptedAt;
      ListenKeepsOwnSide(Attend(d1, t), t, a1, p1);
      ListenKeepsOwnSide(Attend(d2, t), t, a2, p2);
      SpeakKeepsOwnSide(e1, e2, t);
      DecideKeepsOwnSide(Speak(e1, t), t.now);
      DecideKeepsOwnSide(Speak(e2, t), t.now);
    }
  }

  lemma ServiceKeepsTable(d: Device, t: Tick, arrivals: seq<Arrival>, plausibility: int)
    requires d.peers != []
    ensures Service(d, t, arrivals, plausibility).peers != []
    ensures |Service(d, t, arrivals, plausibility).peers| == |d.peers|
  {
    hide PublishedLine.Broadcast, Consensus.Agreed, Consensus.Contributors, ReceiveAll;
  }

  // One call of a run.
  datatype Call = Call(tick: Tick, arrivals: seq<Arrival>)

  // A whole run, and the beacons it sends.
  function Run(d: Device, calls: seq<Call>, plausibility: int): (r: Device)
    requires d.peers != []
    ensures r.peers != []
  {
    if calls == [] then d
    else
      var before, c := Run(d, calls[..|calls| - 1], plausibility), calls[|calls| - 1];
      ServiceKeepsTable(before, c.tick, c.arrivals, plausibility);
      Service(before, c.tick, c.arrivals, plausibility)
  }

  function Beacons(d: Device, calls: seq<Call>, plausibility: int): seq<Option<Packet>>
    requires d.peers != []
  {
    if calls == [] then []
    else
      var init := calls[..|calls| - 1];
      Beacons(d, init, plausibility) + [Raw(Beacon(Run(d, init, plausibility), calls[|calls| - 1].tick))]
  }

  // Main result: two runs with the same own inputs send the same lines in the same beacons, whatever
  // packets either receives: a published line owes nothing to any peer, so nothing to what the group
  // has agreed on. Only the comparison value beside it does.
  lemma {:induction false} PeersNeverReachTheLine(d1: Device, d2: Device, c1: seq<Call>, c2: seq<Call>, p1: int, p2: int)
    requires d1.peers != [] && d2.peers != [] && OwnSideOf(d1) == OwnSideOf(d2)
    requires |c1| == |c2| && forall i :: 0 <= i < |c1| ==> c1[i].tick == c2[i].tick
    ensures Beacons(d1, c1, p1) == Beacons(d2, c2, p2)
    ensures OwnSideOf(Run(d1, c1, p1)) == OwnSideOf(Run(d2, c2, p2))
  {
    if c1 != [] {
      var n := |c1| - 1;
      hide OwnSideOf, Service, Beacon, Raw;
      PeersNeverReachTheLine(d1, d2, c1[..n], c2[..n], p1, p2);
      ServiceKeepsOwnSide(Run(d1, c1[..n], p1), Run(d2, c2[..n], p2), c1[n].tick, c1[n].arrivals, c2[n].arrivals, p1, p2);
    }
  }

  // ----- the comparison value is read by nobody

  ghost predicate SameButAdopted(a1: seq<Arrival>, a2: seq<Arrival>) {
    |a1| == |a2| && forall i :: 0 <= i < |a1| ==>
      a1[i].sample == a2[i].sample && a1[i].pkt.(adopted := None) == a2[i].pkt.(adopted := None)
  }

  lemma {:induction false} TableIgnoresAdopted(peers: seq<Peer>, rx: Receiver, a1: seq<Arrival>, a2: seq<Arrival>)
    requires peers != [] && SameButAdopted(a1, a2)
    ensures ReceiveAll(peers, rx, a1) == ReceiveAll(peers, rx, a2)
  {
    if a1 != [] {
      var n := |a1| - 1;
      TableIgnoresAdopted(peers, rx, a1[..n], a2[..n]);
      OneIgnoresAdopted(ReceiveAll(peers, rx, a1[..n]), rx, a1[n], a2[n]);
    }
  }

  lemma OneIgnoresAdopted(peers: seq<Peer>, rx: Receiver, a1: Arrival, a2: Arrival)
    requires peers != [] && a1.sample == a2.sample && a1.pkt.(adopted := None) == a2.pkt.(adopted := None)
    ensures Receive(peers, rx, a1) == Receive(peers, rx, a2)
  {
    hide FindPeer, Slot, Evaluate, Plausible;
    var p1, p2 := a1.pkt, a2.pkt;
    assert p1.sender == p2.sender && p1.line == p2.line && p1.noMapping == p2.noMapping;
    assert Admits(rx, p1) == Admits(rx, p2) && Pools(rx, a1) == Pools(rx, a2);
  }

  // Main result, the other half: runs whose packets differ in the adopted values alone end in one
  // state, mapping included. What beacons say of the group's agreement is never fed back into it.
  lemma {:induction false} AdoptedIsNeverFedBack(d: Device, c1: seq<Call>, c2: seq<Call>, plausibility: int)
    requires d.peers != [] && |c1| == |c2|
    requires forall i :: 0 <= i < |c1| ==> c1[i].tick == c2[i].tick && SameButAdopted(c1[i].arrivals, c2[i].arrivals)
    ensures Run(d, c1, plausibility) == Run(d, c2, plausibility)
  {
    if c1 != [] {
      var n := |c1| - 1;
      AdoptedIsNeverFedBack(d, c1[..n], c2[..n], plausibility);
      var e, t := Run(d, c1[..n], plausibility), c1[n].tick;
      if Runs(e, t) && Attend(e, t).mac.Some? && Attend(e, t).bssid.Some? {
        TableIgnoresAdopted(Attend(e, t).peers, ReceiverOf(Attend(e, t), t, plausibility), c1[n].arrivals, c2[n].arrivals);
      }
      hide SameButAdopted, ReceiveAll, Attend, Speak, Decide;
    }
  }

  // ----- what every call keeps

  // The table is well formed, no line outlives the association it was heard under, and the
  // published drift is within 300 ppm.
  ghost predicate Sound(d: Device) {
    && WellFormed(d.peers)
    && (d.bssid.None? ==> forall i :: 0 <= i < |d.peers| ==> !d.peers[i].mapValid)
    && (d.bssid.None? ==> d.own.pub.None? && d.mapping.None?)
    && PublishedLine.RateBounded(d.own)
  }

  lemma InitialIsSound()
    ensures Sound(INITIAL)
  {
  }

  lemma {:induction false} ReceiveAllKeepsWellFormed(peers: seq<Peer>, rx: Receiver, arrivals: seq<Arrival>)
    requires WellFormed(peers)
    ensures WellFormed(ReceiveAll(peers, rx, arrivals))
  {
    if arrivals != [] {
      var init := arrivals[..|arrivals| - 1];
      ReceiveAllKeepsWellFormed(peers, rx, init);
      hide WellFormed, Receive;
      ReceiveChangesOneSlot(ReceiveAll(peers, rx, init), rx, arrivals[|arrivals| - 1]);
    }
  }

  lemma AttendIsSound(d: Device, t: Tick)
    requires Sound(d)
    ensures Sound(Attend(d, t)) && Sound(Identify(d, t)) && Attend(d, t).bssid == t.ap
    ensures Attend(d, t).mac == Identify(d, t).mac
  {
  }

  lemma ServiceIsSound(d: Device, t: Tick, arrivals: seq<Arrival>, plausibility: int)
    requires Sound(d)
    ensures Sound(Service(d, t, arrivals, plausibility))
  {
    AttendIsSound(d, t);
    if Runs(d, t) {
      var d1 := Attend(d, t);
      hide Receive, ReceiveAll, PublishedLine.RateBounded, PublishedLine.Broadcast, WellFormed, Attend, Consensus.Agreed,
        Consensus.Contributors;
      ReceiveAllKeepsWellFormed(d1.peers, ReceiverOf(d1, t, plausibility), arrivals);
      PublishedLine.BroadcastKeepsRateBounded(d1.own, t.now, t.est, t.sample);
    }
  }

  lemma {:induction false} RunIsSound(d: Device, calls: seq<Call>, plausibility: int)
    requires Sound(d)
    ensures Sound(Run(d, calls, plausibility))
  {
    if calls != [] {
      var init, c := calls[..|calls| - 1], calls[|calls| - 1];
      RunIsSound(d, init, plausibility);
      hide Service, Sound;
      ServiceIsSound(Run(d, init, plausibility), c.tick, c.arrivals, plausibility);
    }
  }
}
