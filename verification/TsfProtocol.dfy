// Any number of TsfSync devices on an unreliable network. A service call may be handed any packets
// sent so far, in any order and any number of times: what is never handed over is lost. Packets
// without a line, which the player task sends on its own, may arrive at any time and from anyone.
module TsfProtocol {
  import opened Numeric
  import opened TsfLine
  import opened PeerTable
  import opened TsfDevice
  import opened TsfHistory
  import Consensus
  import ConsensusAgreement
  import PublishedLine

  datatype System = System(devices: seq<Device>, sent: set<Packet>)

  // Device `who` makes one service call.
  datatype Step = Step(who: nat, tick: Tick, arrivals: seq<Arrival>)

  // The addresses of the devices and the plausibility bound they were built with.
  datatype Network = Network(macs: seq<int>, plausibility: int)

  function Start(net: Network): System {
    System(seq(|net.macs|, i => INITIAL), {})
  }

  ghost predicate Allowed(net: Network, c: System, s: Step) {
    && s.who < |c.devices| == |net.macs|
    && (s.tick.mac.Some? ==> s.tick.mac.value == net.macs[s.who])
    && forall i :: 0 <= i < |s.arrivals| ==> s.arrivals[i].pkt in c.sent || s.arrivals[i].pkt.noMapping
  }

  function Emitted(b: Option<Packet>): set<Packet> {
    match b case None => {} case Some(p) => {p}
  }

  function Next(net: Network, c: System, s: Step): System {
    if s.who < |c.devices| && c.devices[s.who].peers != [] then
      var d := c.devices[s.who];
      System(c.devices[s.who := Service(d, s.tick, s.arrivals, net.plausibility)],
        c.sent + Emitted(Beacon(d, s.tick)))
    else c
  }

  function After(net: Network, run: seq<Step>): System
    decreases |run|
  {
    if run == [] then Start(net) else Next(net, After(net, run[..|run| - 1]), run[|run| - 1])
  }

  // A run of the network: only packets already sent arrive, and each device has its own address.
  ghost predicate Permitted(net: Network, run: seq<Step>)
    decreases |run|
  {
    run != [] ==>
      Permitted(net, run[..|run| - 1]) && Allowed(net, After(net, run[..|run| - 1]), run[|run| - 1])
  }

  ghost predicate AllSound(net: Network, c: System) {
    && |c.devices| == |net.macs|
    && forall i :: 0 <= i < |c.devices| ==>
         Sound(c.devices[i]) && (c.devices[i].mac.Some? ==> c.devices[i].mac.value == net.macs[i])
  }

  lemma StartIsSound(net: Network)
    ensures AllSound(net, Start(net))
  {
    InitialIsSound();
    hide Sound;
  }

  lemma NextIsSound(net: Network, c: System, s: Step)
    requires AllSound(net, c) && Allowed(net, c, s)
    ensures AllSound(net, Next(net, c, s))
  {
    var d := c.devices[s.who];
    ServiceIsSound(d, s.tick, s.arrivals, net.plausibility);
    ServiceKeepsMac(d, s.tick, s.arrivals, net.plausibility);
    hide Sound, Service, Beacon;
  }

  // Every reachable state is sound.
  lemma {:induction false} AfterIsSound(net: Network, run: seq<Step>)
    requires Permitted(net, run)
    ensures AllSound(net, After(net, run))
    decreases |run|
  {
    hide AllSound, Allowed, Next, Start;
    if run == [] {
      StartIsSound(net);
    } else {
      AfterIsSound(net, run[..|run| - 1]);
      NextIsSound(net, After(net, run[..|run| - 1]), run[|run| - 1]);
    }
  }

  lemma ServiceKeepsMac(d: Device, t: Tick, arrivals: seq<Arrival>, plausibility: int)
    requires d.peers != []
    ensures var m := Service(d, t, arrivals, plausibility).mac; m == d.mac || m == t.mac
  {
    hide ReceiveAll, PublishedLine.Broadcast, Consensus.Agreed, Consensus.Contributors;
  }

  // ----- one device's part of a run

  function CallsOf(run: seq<Step>, i: nat): seq<Call> {
    if run == [] then []
    else
      var (before, s) := (CallsOf(run[..|run| - 1], i), run[|run| - 1]);
      if s.who == i then before + [Call(s.tick, s.arrivals)] else before
  }

  // What a device is depends on its own calls alone.
  lemma {:induction false} DeviceRuns(net: Network, run: seq<Step>, i: nat)
    requires Permitted(net, run) && i < |net.macs|
    ensures |After(net, run).devices| == |net.macs|
    ensures After(net, run).devices[i] == Run(INITIAL, CallsOf(run, i), net.plausibility)
    decreases |run|
  {
    if run != [] {
      var init, s := run[..|run| - 1], run[|run| - 1];
      DeviceRuns(net, init, i);
      AfterIsSound(net, init);
      hide Service, Beacon, Sound;
      if s.who == i {
        assert CallsOf(run, i)[..|CallsOf(init, i)|] == CallsOf(init, i);
      }
    }
  }

  // ----- provenance over whole runs

  // Call k of the run put the packet on the wire: it is the caller's own published line.
  ghost predicate Published(net: Network, run: seq<Step>, k: nat, pkt: Packet) {
    && k < |run| && run[k].who < |After(net, run[..k]).devices|
    && Beacon(After(net, run[..k]).devices[run[k].who], run[k].tick) == Some(pkt)
  }

  ghost predicate WasPublished(net: Network, run: seq<Step>, pkt: Packet) {
    exists k: nat :: Published(net, run, k, pkt)
  }

  lemma PublishedEarlier(net: Network, run: seq<Step>, n: nat, pkt: Packet)
    requires n <= |run| && WasPublished(net, run[..n], pkt)
    ensures WasPublished(net, run, pkt)
  {
    hide Beacon, After;
    var k: nat :| Published(net, run[..n], k, pkt);
    assert run[..n][..k] == run[..k];
    assert Published(net, run, k, pkt);
  }

  lemma {:induction false} SentWasPublished(net: Network, run: seq<Step>, pkt: Packet)
    requires pkt in After(net, run).sent
    ensures WasPublished(net, run, pkt)
    decreases |run|
  {
    if run != [] {
      var n := |run| - 1;
      hide Service, Beacon;
      if pkt in After(net, run[..n]).sent {
        SentWasPublished(net, run[..n], pkt);
        PublishedEarlier(net, run, n, pkt);
      } else {
        assert Published(net, run, n, pkt);
      }
    }
  }

  // What a beacon with a line says of its sender.
  lemma BeaconIsOwnLine(d: Device, t: Tick, arrivals: seq<Arrival>, plausibility: int)
    requires d.peers != [] && Beacon(d, t).Some? && !Beacon(d, t).value.noMapping
    ensures var (p, e) := (Beacon(d, t).value, Service(d, t, arrivals, plausibility));
      && e.mac == Some(p.sender) && e.bssid == Some(p.bssid) && p.server == t.server && p.stream == t.stream
      && p.magic == TSF_MAGIC && p.version == TSF_VERSION && e.own.pub == Some(p.line)
      && (p.adopted.Some? ==>
            Attend(d, t).mapping.Some?
            && Abs(p.adopted.value as real - Exact(Attend(d, t).mapping.value.line, p.line.base)) < 1.0)
      && (p.adopted.None? ==> Attend(d, t).mapping.None?)
  {
    if Attend(d, t).mapping.Some? && t.sample.Tsf? {
      AtIsExact(Attend(d, t).mapping.value.line, t.sample.tsf);
    }
    hide At, Exact, ReceiveAll, PublishedLine.NextLine, PublishedLine.TrackRate, Consensus.Agreed, Consensus.Contributors;
  }

  lemma {:induction false} ArrivalsWereSent(net: Network, run: seq<Step>, i: nat, k: nat, j: nat)
    requires Permitted(net, run) && k < |CallsOf(run, i)| && j < |CallsOf(run, i)[k].arrivals|
    ensures var p := CallsOf(run, i)[k].arrivals[j].pkt; p in After(net, run).sent || p.noMapping
    decreases |run|
  {
    var init := run[..|run| - 1];
    hide Service, Beacon;
    if k < |CallsOf(init, i)| {
      ArrivalsWereSent(net, init, i, k, j);
    }
  }

  // Main result: in every reachable state, each valid line of each table is the last one pooled from
  // the peer whose slot it is in, and that peer published it, under the receiver's present BSSID and
  // the server the receiver named in the call that heard it.
  lemma LinesHaveSources(net: Network, run: seq<Step>, i: nat, j: nat)
    requires Permitted(net, run) && i < |net.macs|
    requires |After(net, run).devices| == |net.macs| && j < |After(net, run).devices[i].peers|
    requires var p := After(net, run).devices[i].peers[j]; p.used && p.mapValid
    ensures var d := After(net, run).devices[i];
      var (p, q) := (d.peers[j], SourceOf(CallsOf(run, i), net.plausibility, d.peers[j].mac));
      && q.Some? && p.line == q.value.pkt.line && p.mapSeen == q.value.at && Proper(q.value, p.mac, d.bssid)
      && WasPublished(net, run, q.value.pkt)
  {
    DeviceRuns(net, run, i);
    var calls := CallsOf(run, i);
    hide After, Permitted, Run, SourceOf, CallsOf, WasPublished;
    ForeignExactly(calls, net.plausibility, j, 0);
    var q := SourceOf(calls, net.plausibility, After(net, run).devices[i].peers[j].mac).value;
    var k: nat :| PooledIn(calls, net.plausibility, k, q);
    var l :| 0 <= l < |calls[k].arrivals| && calls[k].arrivals[l].pkt == q.pkt;
    ArrivalsWereSent(net, run, i, k, l);
    SentWasPublished(net, run, q.pkt);
  }

  // ----- a change of server

  lemma {:induction false} CallsAreSteps(run: seq<Step>, i: nat, k: nat)
    requires k < |CallsOf(run, i)|
    ensures exists l: nat :: l < |run| && run[l].who == i && CallsOf(run, i)[k] == Call(run[l].tick, run[l].arrivals)
    decreases |run|
  {
    var init, n := run[..|run| - 1], |run| - 1;
    if k < |CallsOf(init, i)| {
      CallsAreSteps(init, i, k);
      var l: nat :| l < |init| && init[l].who == i && CallsOf(init, i)[k] == Call(init[l].tick, init[l].arrivals);
      assert run[l] == init[l];
    } else {
      assert run[n].who == i;
    }
  }

  // A receiver that has named one server for the last five seconds counts only lines their peers
  // published under it, whatever it named before.
  lemma RecentServerDecides(net: Network, run: seq<Step>, i: nat, j: nat, now: int, server: int)
    requires Permitted(net, run) && i < |net.macs|
    requires |After(net, run).devices| == |net.macs| && j < |After(net, run).devices[i].peers|
    requires Consensus.Contributes(After(net, run).devices[i].peers[j], now)
    requires forall k :: 0 <= k < |run| && run[k].who == i && now - run[k].tick.now <= Consensus.PEER_MAP_STALE_US ==>
      run[k].tick.server == server
    ensures var p := After(net, run).devices[i].peers[j];
      exists pkt: Packet :: pkt.sender == p.mac && pkt.line == p.line && pkt.server == server && WasPublished(net, run, pkt)
  {
    DeviceRuns(net, run, i);
    var calls := CallsOf(run, i);
    LinesHaveSources(net, run, i, j);
    hide After, Permitted, Run, SourceOf, CallsOf, WasPublished;
    forall k | 0 <= k < |calls| && now - calls[k].tick.now <= Consensus.PEER_MAP_STALE_US
      ensures calls[k].tick.server == server
    {
      CallsAreSteps(run, i, k);
    }
    ForeignLinesAgeOut(calls, net.plausibility, j, now, server);
  }

  const QUIET: Estimate := Estimate(false, false, 0.0, 0.0)
  const SETTLED: Estimate := Estimate(true, true, 0.0, 0.0)
  const TWINS: Network := Network([1, 2], 1000)
  const LINE: Line := Line(5000, -1_995_000, 0.0)
  const LINE_PACKET: Packet := Packet(TSF_MAGIC, TSF_VERSION, 1, 9, 7, 0, false, LINE, None)
  const AT_TWO: Sample := Tsf(5000, 2_000_000, 40)

  // The first device as it publishes, the second as it hears.
  const SPEAKING: Tick := Tick(2_000_000, SETTLED, 7, 0, Some(1), Some(9), true, AT_TWO, false)
  const HEARING: Tick := Tick(2_000_000, QUIET, 7, 0, Some(2), Some(9), true, NoTsf, false)
  const HEARD: seq<Arrival> := [Arrival(LINE_PACKET, AT_TWO)]
  const OPENING: seq<Step> := [Step(0, SPEAKING, []), Step(1, HEARING, HEARD)]

  const SPEAKER: Device := Device(2_000_000, Some(1), Some(9), PublishedLine.Own(5000, 2_000_000, None, Some(LINE)),
    EMPTY_TABLE, 2_000_000, 0, 2_000_000, Some(Mapping(LINE, 2_000_000)), 1)
  const SLOT: Peer := Peer(1, true, 2_000_000, true, 2_000_000, LINE)
  const HEARER: Device := Device(2_000_000, Some(2), Some(9), PublishedLine.INITIAL_OWN,
    [SLOT, EMPTY_PEER, EMPTY_PEER, EMPTY_PEER, EMPTY_PEER, EMPTY_PEER, EMPTY_PEER, EMPTY_PEER],
    0, 0, 2_000_000, Some(Mapping(LINE, 2_000_000)), 1)

  lemma {:induction false} OnlyFirst(peers: seq<Peer>, now: int)
    requires peers != [] && forall i :: 1 <= i < |peers| ==> !peers[i].used
    ensures Consensus.PeerLines(peers, now) == if Consensus.Contributes(peers[0], now) then [peers[0].line] else []
  {
    if |peers| > 1 {
      OnlyFirst(peers[..|peers| - 1], now);
    } else {
      assert Consensus.PeerLines(peers[..0], now) == [];
    }
  }

  lemma SpeakerCounts(now: int)
    ensures Consensus.Contributors(Some(LINE), EMPTY_TABLE, now) == [LINE]
    ensures Consensus.Agreed([LINE]) == LINE
  {
    OnlyFirst(EMPTY_TABLE, now);
    ConsensusAgreement.AloneAdoptsItself(LINE);
  }

  lemma HearerCounts(now: int)
    ensures Consensus.Contributors(None, HEARER.peers, now) == if now <= 7_000_000 then [LINE] else []
    ensures Consensus.Agreed([LINE]) == LINE
  {
    OnlyFirst(HEARER.peers, now);
    ConsensusAgreement.AloneAdoptsItself(LINE);
  }

  lemma FirstSpeaks()
    ensures Service(INITIAL, SPEAKING, [], TWINS.plausibility) == SPEAKER
    ensures Beacon(INITIAL, SPEAKING) == Some(LINE_PACKET)
  {
    hide Consensus.Contributors, Consensus.Agreed;
    var d := Attend(INITIAL, SPEAKING);
    assert PublishedLine.NextLine(d.own, 2_000_000, SETTLED, 5000, 2_000_000) == LINE;
    assert Listen(d, SPEAKING, [], TWINS.plausibility) == d;
    SpeakerCounts(2_000_000);
  }

  lemma SecondHears()
    ensures Service(INITIAL, HEARING, HEARD, TWINS.plausibility) == HEARER
  {
    hide Consensus.Contributors, Consensus.Agreed;
    var d := Attend(INITIAL, HEARING);
    var rx := ReceiverOf(d, HEARING, TWINS.plausibility);
    OneArrival(rx);
    assert Listen(d, HEARING, HEARD, TWINS.plausibility) == d.(peers := HEARER.peers);
    HearerCounts(2_000_000);
    hide Receive, ReceiveAll;
  }

  lemma OneArrival(rx: Receiver)
    requires rx == Receiver(2, 9, 7, 0, 2_000_000, QUIET, TWINS.plausibility)
    ensures ReceiveAll(EMPTY_TABLE, rx, HEARD) == HEARER.peers
  {
    assert HEARD[..0] == [];
    assert ReceiveAll(EMPTY_TABLE, rx, HEARD) == Receive(EMPTY_TABLE, rx, HEARD[0]);
    assert Pools(rx, HEARD[0]) && Admits(rx, LINE_PACKET);
    assert Slot(EMPTY_TABLE, 1) == 0;
    hide Pools, Admits, Slot, Scan;
  }

  lemma OneMoreStep(net: Network, run: seq<Step>, s: Step)
    requires Permitted(net, run) && Allowed(net, After(net, run), s)
    ensures Permitted(net, run + [s]) && After(net, run + [s]) == Next(net, After(net, run), s)
  {
    hide Allowed, Next;
    assert (run + [s])[..|run|] == run;
  }

  lemma Opens()
    ensures Permitted(TWINS, OPENING) && After(TWINS, OPENING) == System([SPEAKER, HEARER], {LINE_PACKET})
  {
    FirstSpeaks();
    SecondHears();
    hide Service, Beacon;
    OneMoreStep(TWINS, [], OPENING[0]);
    assert Next(TWINS, Start(TWINS), OPENING[0]) == System([SPEAKER, INITIAL], {LINE_PACKET});
    hide After, Permitted;
    OneMoreStep(TWINS, [OPENING[0]], OPENING[1]);
    SecondIsSilent();
    assert [] + [OPENING[0]] == [OPENING[0]] && [OPENING[0]] + [OPENING[1]] == OPENING;
  }

  lemma SecondIsSilent()
    ensures Beacon(INITIAL, HEARING) == None
  {
  }

  // So a device can adopt the timebase of a server it has left: here the second device hears the
  // first under server 7, moves to server 8, and a second later adopts the first one's line there.
  const MOVED: Tick := Tick(3_000_000, QUIET, 8, 0, Some(2), Some(9), true, NoTsf, false)

  lemma AdoptsAServerItLeft()
    ensures var run := OPENING + [Step(1, MOVED, [])];
      && Permitted(TWINS, run) && |After(TWINS, run).devices| == 2
      && After(TWINS, run).devices[1].mapping == Some(Mapping(LINE, 3_000_000))
      && MOVED.server == 8 && LINE_PACKET.server == 7 && LINE_PACKET.line == LINE
  {
    Opens();
    Adopts();
    hide Service, Beacon, After, Permitted;
    OneMoreStep(TWINS, OPENING, Step(1, MOVED, []));
  }

  lemma Adopts()
    ensures Service(HEARER, MOVED, [], TWINS.plausibility).mapping == Some(Mapping(LINE, 3_000_000))
  {
    HearerCounts(3_000_000);
    assert Attend(HEARER, MOVED) == HEARER.(lastService := 3_000_000);
    hide Consensus.Contributors, Consensus.Agreed;
  }

  // And a device counts its own line for good: six seconds after the first one's estimate has gone
  // bad, it still adopts the line it last published, which the other has dropped.
  const SPOILT: Tick := Tick(8_000_000, QUIET, 7, 0, Some(1), Some(9), true, NoTsf, false)
  const WAITING: Tick := Tick(8_000_000, QUIET, 7, 0, Some(2), Some(9), true, NoTsf, false)

  lemma OwnLineOutlivesItself()
    ensures var run := OPENING + [Step(0, SPOILT, [])] + [Step(1, WAITING, [])];
      && Permitted(TWINS, run) && |After(TWINS, run).devices| == 2
      && var (d1, d2) := (After(TWINS, run).devices[0], After(TWINS, run).devices[1]);
      && d1.mapping == Some(Mapping(LINE, 8_000_000)) && d1.contributors == 1
      && Consensus.Votable(LINE.drift) && d2.contributors == 0
  {
    Opens();
    KeepsItself();
    Forgets();
    hide Service, Beacon, After, Permitted;
    var r1 := OPENING + [Step(0, SPOILT, [])];
    OneMoreStep(TWINS, OPENING, Step(0, SPOILT, []));
    assert After(TWINS, r1).devices[1] == HEARER;
    OneMoreStep(TWINS, r1, Step(1, WAITING, []));
  }

  lemma KeepsItself()
    ensures var e := Service(SPEAKER, SPOILT, [], TWINS.plausibility);
      e.mapping == Some(Mapping(LINE, 8_000_000)) && e.contributors == 1
  {
    SpeakerCounts(8_000_000);
    assert Attend(SPEAKER, SPOILT) == SPEAKER.(lastService := 8_000_000);
    hide Consensus.Contributors, Consensus.Agreed;
  }

  lemma Forgets()
    ensures Service(HEARER, WAITING, [], TWINS.plausibility).contributors == 0
  {
    HearerCounts(8_000_000);
    assert Attend(HEARER, WAITING) == HEARER.(lastService := 8_000_000);
    hide Consensus.Contributors, Consensus.Agreed;
  }
}
