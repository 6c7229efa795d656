// components/clock_sync/tsf_sync.h and tsf_sync.cpp: the TsfSync object, its methods and loops,
// against the step functions of TsfDevice and the modules it is made of.
module TsfSync {
  import opened Numeric
  import opened TsfLine
  import opened PeerTable
  import opened TsfDevice
  import PublishedLine
  import Consensus

  class TsfSync {
    const plausibility: int
    const peers: array<Peer>
    var lastService: int
    var mac: Option<int>
    var bssid: Option<int>
    var rateRefTsf: int
    var rateRefLocal: int
    var rate: Option<real>
    var pub: Option<Line>
    var lastTx: int
    var lastPhaseTx: int
    var lastConsensus: int
    var mapping: Option<Mapping>
    var contributors: nat

    ghost function Own(): PublishedLine.Own
      reads this
    {
      PublishedLine.Own(rateRefTsf, rateRefLocal, rate, pub)
    }

    ghost function State(): Device
      reads this, peers
    {
      Device(lastService, mac, bssid, Own(), peers[..], lastTx, lastPhaseTx, lastConsensus, mapping, contributors)
    }

    ghost predicate Valid()
      reads this
    {
      peers.Length == MAX_PEERS
    }

    constructor (plausibility: int)
      ensures Valid() && fresh(peers) && this.plausibility == plausibility && State() == INITIAL
    {
      this.plausibility := plausibility;
      peers := new Peer[MAX_PEERS](i => EMPTY_PEER);
      lastService, mac, bssid, lastTx, lastPhaseTx, lastConsensus := 0, None, None, 0, 0, 0;
      rateRefTsf, rateRefLocal, rate, pub := 0, 0, None, None;
      mapping, contributors := None, 0;
    }

    // reset_
    method Reset()
      requires Valid()
      modifies this`rateRefLocal, this`rate, this`pub, this`mapping, this`contributors, peers
      ensures State() == TsfDevice.Reset(old(State()))
    {
      rate, rateRefLocal, pub := None, 0, None;
      for i := 0 to peers.Length
        modifies peers
        invariant forall j :: 0 <= j < i ==> peers[j] == old(peers[j]).(mapValid := false)
        invariant forall j :: i <= j < peers.Length ==> peers[j] == old(peers[j])
      {
        peers[i] := peers[i].(mapValid := false);
      }
      contributors, mapping := 0, None;
      assert peers[..] == Invalidate(old(peers[..]));
    }

    // find_peer_
    method FindPeer(sender: int, now: int) returns (slot: nat)
      requires Valid()
      modifies peers
      ensures slot == Slot(old(peers[..]), sender) < peers.Length
      ensures peers[..] == PeerTable.FindPeer(old(peers[..]), sender, now)
    {
      ghost var table := peers[..];
      var oldest := 0;
      for i := 0 to peers.Length
        invariant peers[..] == table && oldest < peers.Length
        invariant Scan(table, sender, 0, 0) == Scan(table, sender, i, oldest)
        invariant forall j :: 0 <= j < i ==> !Holds(table[j], sender)
      {
        if peers[i].used && peers[i].mac == sender {
          return i;
        }
        if !peers[i].used {
          peers[i] := Fresh(sender, now);
          return i;
        }
        if peers[i].seen < peers[oldest].seen {
          oldest := i;
        }
      }
      slot := oldest;
      peers[oldest] := Fresh(sender, now);
    }

    // One packet of receive_
    method Hear(rx: Receiver, a: Arrival)
      requires Valid()
      modifies peers
      ensures peers[..] == Receive(old(peers[..]), rx, a)
    {
      hide Slot, PeerTable.FindPeer, Pools, Heard;
      if Admits(rx, a.pkt) {
        var i := FindPeer(a.pkt.sender, rx.now);
        peers[i] := Heard(peers[i], rx, a);
      }
    }

    // receive_
    method ReceivePackets(rx: Receiver, arrivals: seq<Arrival>)
      requires Valid()
      modifies peers
      ensures peers[..] == ReceiveAll(old(peers[..]), rx, arrivals)
    {
      hide Receive;
      for i := 0 to |arrivals|
        invariant peers[..] == ReceiveAll(old(peers[..]), rx, arrivals[..i])
      {
        assert arrivals[..i + 1][..i] == arrivals[..i];
        Hear(rx, arrivals[i]);
      }
      assert arrivals[..|arrivals|] == arrivals;
    }

    // The rate tracking at the top of broadcast_
    method TrackRate(tsf: int, local: int)
      modifies this`rateRefTsf, this`rateRefLocal, this`rate
      ensures Own() == PublishedLine.TrackRate(old(Own()), tsf, local)
    {
      if rateRefLocal == 0 {
        rateRefTsf, rateRefLocal := tsf, local;
      } else if local - rateRefLocal >= PublishedLine.RATE_WINDOW_US {
        var measured := MeasuredPpm(local - rateRefLocal, tsf - rateRefTsf);
        if Abs(measured) < PublishedLine.RATE_MAX_PPM {
          rate := Some(if rate.Some? then 0.5 * rate.value + 0.5 * measured else measured);
        }
        rateRefTsf, rateRefLocal := tsf, local;
      }
    }

    // broadcast_
    method Broadcast(t: Tick) returns (beacon: Option<Packet>)
      requires mac.Some? && bssid.Some?
      modifies this`rateRefTsf, this`rateRefLocal, this`rate, this`pub, this`lastTx
      ensures Own() == PublishedLine.Broadcast(old(Own()), t.now, t.est, t.sample)
      ensures lastTx == if t.sample.Tsf? then t.now else old(lastTx)
      ensures beacon == if t.sample.Tsf? then Some(MappingPacket(old(State()), t)) else None
    {
      if t.sample.NoTsf? {
        return None;
      }
      var tsf, local := t.sample.tsf, t.sample.local;
      TrackRate(tsf, local);
      hide PublishedLine.TrackRate, PublishedLine.SlewMove, PublishedLine.SlewLimit, PublishedLine.ServerNow;
      var drift := PublishedLine.PublishedDrift(rate, t.est);
      var target := tsf - PublishedLine.ServerNow(t.est, t.now, local);
      var tms := target;
      if pub.Some? {
        var expected := At(pub.value, tsf);
        tms := expected + PublishedLine.SlewMove(target - expected, tsf - pub.value.base);
      }
      var line := Line(tsf, tms, drift);
      pub, lastTx := Some(line), t.now;
      beacon := Some(Packet(TSF_MAGIC, TSF_VERSION, mac.value, bssid.value, t.server, t.stream, false, line,
        if mapping.Some? then Some(At(mapping.value.line, tsf)) else None));
    }

    // The publishing branches of service
    method Speak(t: Tick) returns (beacon: Option<Packet>)
      requires mac.Some? && bssid.Some?
      modifies this`rateRefTsf, this`rateRefLocal, this`rate, this`pub, this`lastTx, this`lastPhaseTx
      ensures State() == TsfDevice.Speak(old(State()), t)
      ensures beacon == if Publishes(old(State()), t) then Some(MappingPacket(old(State()), t))
        else if ReportsPhase(old(State()), t) then Some(PhasePacket(old(State()), t))
        else None
    {
      hide PublishedLine.Broadcast, MappingPacket;
      beacon := None;
      if t.est.valid && t.est.mature {
        if t.now - lastTx >= BEACON_INTERVAL_US {
          beacon := Broadcast(t);
          assert PublishedLine.Broadcast(old(Own()), t.now, t.est, NoTsf) == old(Own()) by {
            NothingWithoutTsf(old(Own()), t);
          }
        }
      } else if t.phase && t.now - lastPhaseTx >= 4 * BEACON_INTERVAL_US {
        lastPhaseTx := t.now;
        beacon := Some(Packet(TSF_MAGIC, TSF_VERSION, mac.value, bssid.value, t.server, t.stream, true, EMPTY_PEER.line, None));
      }
    }

    // update_consensus_ with adopt_, on its own cadence
    method UpdateConsensus(now: int)
      requires Valid()
      modifies this`lastConsensus, this`mapping, this`contributors
      ensures State() == Decide(old(State()), now)
    {
      if now - lastConsensus >= CONSENSUS_INTERVAL_US {
        hide Consensus.Agreed, Consensus.Contributors;
        lastConsensus := now;
        var line;
        contributors, line := Consensus.ComputeConsensus(pub, peers, now);
        if contributors > 0 {
          mapping := Some(Mapping(line, now));
        }
      }
    }

    // The identity and association checks at the top of service
    method AttendTo(t: Tick)
      requires Valid()
      modifies this, peers
      ensures State() == if Identify(old(State()), t).mac.None? then Identify(old(State()), t) else Attend(old(State()), t)
    {
      hide TsfDevice.Reset;
      lastService := t.now;
      if mac.None? {
        mac := t.mac;
        if mac.None? {
          return;
        }
      }
      if bssid != t.ap {
        if bssid.Some? {
          Reset();
        }
        bssid := t.ap;
      }
    }

    // service
    method Service(t: Tick, arrivals: seq<Arrival>) returns (beacon: Option<Packet>)
      requires Valid()
      modifies this, peers
      ensures State() == TsfDevice.Service(old(State()), t, arrivals, plausibility)
      ensures beacon == Beacon(old(State()), t)
    {
      beacon := None;
      if t.now - lastService < SERVICE_MIN_INTERVAL_US {
        return;
      }
      AttendTo(t);
      ghost var d1 := State();
      if mac.None? || t.ap.None? || !t.socket {
        return;
      }
      hide Attend, ReceiveAll, MappingPacket, PhasePacket, TsfDevice.Speak, Decide;
      ReceivePackets(Receiver(mac.value, bssid.value, t.server, t.stream, t.now, t.est, plausibility), arrivals);
      BeaconIgnoresTable(d1, State(), t);
      beacon := Speak(t);
      UpdateConsensus(t.now);
    }
  }

  lemma NothingWithoutTsf(o: PublishedLine.Own, t: Tick)
    ensures PublishedLine.Broadcast(o, t.now, t.est, NoTsf) == o
  {
  }

  lemma BeaconIgnoresTable(d: Device, e: Device, t: Tick)
    requires d.mac.Some? && d.bssid.Some? && e == d.(peers := e.peers)
    ensures Publishes(d, t) == Publishes(e, t) && ReportsPhase(d, t) == ReportsPhase(e, t)
    ensures t.sample.Tsf? ==> MappingPacket(d, t) == MappingPacket(e, t)
    ensures PhasePacket(d, t) == PhasePacket(e, t)
  {
  }
}
