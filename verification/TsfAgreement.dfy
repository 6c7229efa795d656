// When the devices of a group hold each other's latest lines, and what they then adopt.
module TsfAgreement {
  import opened Numeric
  import opened Permutation
  import opened TsfLine
  import opened PeerTable
  import opened PeerRoster
  import opened Consensus
  import opened ConsensusAgreement
  import opened TsfDevice
  import opened TsfHistory
  import PublishedLine
  import TsfProtocol

  predicate Live(p: Peer, now: int) {
    p.used && p.mapValid && now - p.mapSeen <= PEER_MAP_STALE_US
  }

  // The device with this address publishes its latest line, if it has one, and holds exactly the
  // latest lines of the rest of the group, those of the addresses heard lately live.
  ghost predicate InSync(d: Device, mac: int, now: int, group: set<int>, heard: set<int>, latest: int -> Line) {
    && WellFormed(d.peers) && heard <= group
    && d.own.pub == (if mac in group then Some(latest(mac)) else None)
    && (forall m :: m in heard && m != mac ==> exists j :: 0 <= j < |d.peers| && Live(d.peers[j], now) && d.peers[j].mac == m)
    && (forall j :: 0 <= j < |d.peers| && Live(d.peers[j], now) ==>
          d.peers[j].mac in heard && d.peers[j].mac != mac && d.peers[j].line == latest(d.peers[j].mac))
  }

  // An address whose line the others count: heard lately, and within 200 ppm.
  predicate Counted(m: int, heard: set<int>, latest: int -> Line) {
    m in heard && -200.0 <= latest(m).drift <= 200.0
  }

  // A device whose own line it alone counts.
  predicate Alone(m: int, group: set<int>, heard: set<int>, latest: int -> Line) {
    m in group && !Counted(m, heard, latest)
  }

  // ----- the contributors by address

  function PeerMacs(peers: seq<Peer>, now: int): seq<int> {
    if peers == [] then []
    else
      var p := peers[|peers| - 1];
      PeerMacs(peers[..|peers| - 1], now) + if Contributes(p, now) then [p.mac] else []
  }

  lemma {:induction false} PeerLinesByAddress(peers: seq<Peer>, now: int, latest: int -> Line)
    requires forall j :: 0 <= j < |peers| && Contributes(peers[j], now) ==> peers[j].line == latest(peers[j].mac)
    ensures PeerLines(peers, now) == Map(latest, PeerMacs(peers, now))
  {
    if peers != [] {
      hide Contributes;
      var init, p := peers[..|peers| - 1], peers[|peers| - 1];
      PeerLinesByAddress(init, now, latest);
      MapStep(latest, PeerMacs(init, now), p.mac);
    }
  }

  predicate CountsFrom(peers: seq<Peer>, now: int, m: int) {
    exists j :: 0 <= j < |peers| && Contributes(peers[j], now) && peers[j].mac == m
  }

  lemma CountsFromOneMore(peers: seq<Peer>, p: Peer, now: int, m: int)
    ensures CountsFrom(peers + [p], now, m) <==> CountsFrom(peers, now, m) || (Contributes(p, now) && p.mac == m)
  {
    hide Contributes;
    var all := peers + [p];
    assert all[|peers|] == p;
    if CountsFrom(peers, now, m) {
      var j :| 0 <= j < |peers| && Contributes(peers[j], now) && peers[j].mac == m;
      assert all[j] == peers[j];
    }
  }

  lemma {:induction false} PeerMacsAre(peers: seq<Peer>, now: int, m: int)
    ensures m in PeerMacs(peers, now) <==> CountsFrom(peers, now, m)
  {
    if peers != [] {
      var init, p := peers[..|peers| - 1], peers[|peers| - 1];
      PeerMacsAre(init, now, m);
      PeerMacsStep(peers, now);
      CountsFromOneMore(init, p, now, m);
      hide Contributes, CountsFrom, PeerMacs;
      assert init + [p] == peers;
    }
  }

  lemma {:induction false} PeerMacsDistinct(peers: seq<Peer>, now: int)
    requires forall i, j :: 0 <= i < j < |peers| && peers[i].used && peers[j].used ==> peers[i].mac != peers[j].mac
    ensures Distinct(PeerMacs(peers, now))
  {
    if peers != [] {
      var init, p := peers[..|peers| - 1], peers[|peers| - 1];
      PeerMacsDistinct(init, now);
      PeerMacsAre(init, now, p.mac);
      hide PeerMacs;
      PeerMacsStep(peers, now);
    }
  }

  lemma PeerMacsStep(peers: seq<Peer>, now: int)
    requires peers != []
    ensures PeerMacs(peers, now) == var p := peers[|peers| - 1];
      if Contributes(p, now) then PeerMacs(peers[..|peers| - 1], now) + [p.mac] else PeerMacs(peers[..|peers| - 1], now)
  {
  }

  // The addresses whose lines every device counts, as one device lists them.
  function Voters(d: Device, mac: int, now: int, heard: set<int>, latest: int -> Line): seq<int> {
    (if Counted(mac, heard, latest) then [mac] else []) + PeerMacs(d.peers, now)
  }

  lemma VotersAre(d: Device, mac: int, now: int, group: set<int>, heard: set<int>, latest: int -> Line)
    requires InSync(d, mac, now, group, heard, latest)
    ensures Distinct(Voters(d, mac, now, heard, latest))
    ensures forall m :: m in Voters(d, mac, now, heard, latest) <==> Counted(m, heard, latest)
  {
    PeerMacsDistinct(d.peers, now);
    PeerMacsAre(d.peers, now, mac);
    forall m: int
      ensures m in Voters(d, mac, now, heard, latest) <==> Counted(m, heard, latest)
    {
      PeerMacsAre(d.peers, now, m);
    }
  }

  lemma ContributorsByAddress(d: Device, mac: int, now: int, group: set<int>, heard: set<int>, latest: int -> Line)
    requires InSync(d, mac, now, group, heard, latest)
    ensures Contributors(d.own.pub, d.peers, now)
      == (if mac in group then [latest(mac)] else []) + Map(latest, PeerMacs(d.peers, now))
  {
    PeerLinesByAddress(d.peers, now, latest);
    hide PeerMacs, PeerLines, WellFormed, Map;
  }

  // A device counts the lines that the group counts, and its own even when the group does not.
  lemma ContributorsAre(d: Device, mac: int, now: int, group: set<int>, heard: set<int>, latest: int -> Line)
    requires InSync(d, mac, now, group, heard, latest)
    ensures multiset(Contributors(d.own.pub, d.peers, now))
      == multiset(Map(latest, Voters(d, mac, now, heard, latest)))
         + if Alone(mac, group, heard, latest) then multiset{latest(mac)} else multiset{}
  {
    assert heard <= group;
    hide InSync, PeerMacs, Contributors, Votable, Map;
    ContributorsByAddress(d, mac, now, group, heard, latest);
    OwnFirst(latest, mac, PeerMacs(d.peers, now));
    AddOwn(latest(mac), Map(latest, PeerMacs(d.peers, now)));
  }

  lemma AddOwn(l: Line, s: seq<Line>)
    ensures multiset([l] + s) == multiset(s) + multiset{l}
    ensures multiset([l] + s) == multiset([l] + s) + multiset{}
    ensures multiset([] + s) == multiset(s) + multiset{}
  {
    assert [] + s == s;
  }

  lemma OwnFirst(latest: int -> Line, mac: int, macs: seq<int>)
    ensures Map(latest, [mac] + macs) == [latest(mac)] + Map(latest, macs)
    ensures Map(latest, [] + macs) == Map(latest, macs)
  {
    assert [] + macs == macs;
  }

  // Exactly when two devices of a group in sync count the same lines: when the others count the own
  // lines of both, or of neither and their lines are the same. A line the others do not count is one
  // past 200 ppm, or one that has grown stale; its own device counts it all the same.
  lemma SameContributors(d1: Device, d2: Device, m1: int, m2: int, now1: int, now2: int, group: set<int>,
      heard: set<int>, latest: int -> Line)
    requires InSync(d1, m1, now1, group, heard, latest) && InSync(d2, m2, now2, group, heard, latest)
    ensures (multiset(Contributors(d1.own.pub, d1.peers, now1)) == multiset(Contributors(d2.own.pub, d2.peers, now2))) <==>
      if Alone(m1, group, heard, latest) then Alone(m2, group, heard, latest) && latest(m1) == latest(m2)
      else !Alone(m2, group, heard, latest)
  {
    VotersAre(d1, m1, now1, group, heard, latest);
    VotersAre(d2, m2, now2, group, heard, latest);
    ContributorsAre(d1, m1, now1, group, heard, latest);
    ContributorsAre(d2, m2, now2, group, heard, latest);
    hide InSync, Voters, Contributors, Alone, Counted;
    var v1, v2 := Voters(d1, m1, now1, heard, latest), Voters(d2, m2, now2, heard, latest);
    forall m: int
      ensures m in v1 <==> m in v2
    {
      assert m in v1 <==> Counted(m, heard, latest);
      assert m in v2 <==> Counted(m, heard, latest);
    }
    DistinctPermutes(v1, v2);
    MapPermutes(latest, v1, v2);
    SameRest(multiset(Map(latest, v1)), latest(m1), latest(m2));
  }

  lemma SameRest(v: multiset<Line>, a: Line, b: Line)
    ensures v + multiset{a} == v + multiset{b} <==> a == b
    ensures v + multiset{a} != v + multiset{} && v + multiset{b} != v + multiset{}
  {
    assert (v + multiset{a})[a] == v[a] + 1;
    assert (v + multiset{b})[a] == v[a] + if a == b then 1 else 0;
    assert (v + multiset{b})[b] == v[b] + 1;
    assert (v + multiset{})[a] == v[a];
    assert (v + multiset{})[b] == v[b];
  }

  ghost predicate SomeoneCounts(heard: set<int>, latest: int -> Line) {
    exists m :: Counted(m, heard, latest)
  }

  lemma SomethingToAgreeOn(d: Device, mac: int, now: int, group: set<int>, heard: set<int>, latest: int -> Line)
    requires InSync(d, mac, now, group, heard, latest) && SomeoneCounts(heard, latest)
    ensures Contributors(d.own.pub, d.peers, now) != []
  {
    VotersAre(d, mac, now, group, heard, latest);
    ContributorsAre(d, mac, now, group, heard, latest);
    hide InSync, Voters, Contributors, Counted, Alone;
    var m :| Counted(m, heard, latest);
    var v := Voters(d, mac, now, heard, latest);
    assert m in v;
    assert |multiset(Map(latest, v))| == |v|;
  }

  // Main result: in a group that is in sync, devices with no line counted by themselves alone adopt
  // one anchor and one drift, and values that differ by at most a microsecond.
  lemma GroupAgrees(d1: Device, d2: Device, m1: int, m2: int, now1: int, now2: int, group: set<int>, heard: set<int>,
      latest: int -> Line)
    requires InSync(d1, m1, now1, group, heard, latest) && InSync(d2, m2, now2, group, heard, latest)
    requires !Alone(m1, group, heard, latest) && !Alone(m2, group, heard, latest) && SomeoneCounts(heard, latest)
    ensures var (s, t) := (Contributors(d1.own.pub, d1.peers, now1), Contributors(d2.own.pub, d2.peers, now2));
      && s != [] && t != []
      && Agreed(s).base == Agreed(t).base && Agreed(s).drift == Agreed(t).drift
      && AbsInt(Agreed(s).tms - Agreed(t).tms) <= 1
  {
    hide *;
    SomethingToAgreeOn(d1, m1, now1, group, heard, latest);
    SameContributors(d1, d2, m1, m2, now1, now2, group, heard, latest);
    OrderMovesAtMostOne(Contributors(d1.own.pub, d1.peers, now1), Contributors(d2.own.pub, d2.peers, now2));
  }

  // ----- getting in sync, over a run

  // A run of one device that heard nobody but at most eight others, its roster, and after which its own
  // line, and the last line pooled from each address heard lately, are the latest. Heard lately means
  // pooled in the last five seconds; from the rest of the roster no line was, as from a device that
  // has none yet and reports its phase alone.
  ghost predicate CaughtUp(calls: seq<Call>, plausibility: int, mac: int, now: int, roster: set<int>, group: set<int>,
      heard: set<int>, latest: int -> Line)
  {
    && mac !in roster && |roster| <= MAX_PEERS && Hears(calls, plausibility, roster)
    && heard <= group && heard - {mac} <= roster
    && Run(INITIAL, calls, plausibility).own.pub == (if mac in group then Some(latest(mac)) else None)
    && forall m :: m in roster ==> PooledLately(SourceOf(calls, plausibility, m), now, m in heard, latest(m))
  }

  ghost predicate PooledLately(q: Option<Source>, now: int, heard: bool, line: Line) {
    && (heard <==> q.Some? && now - q.value.at <= PEER_MAP_STALE_US)
    && (heard ==> q.value.pkt.line == line)
  }

  lemma FreshIsLive(calls: seq<Call>, plausibility: int, mac: int, now: int, roster: set<int>, group: set<int>,
      heard: set<int>, latest: int -> Line, m: int)
    requires CaughtUp(calls, plausibility, mac, now, roster, group, heard, latest) && m in heard && m != mac
    ensures var peers := Run(INITIAL, calls, plausibility).peers;
      exists j :: 0 <= j < |peers| && Live(peers[j], now) && peers[j].mac == m
  {
    RunTableIsMap(calls, plausibility, roster, m);
    assert m in roster;
    hide Run, Hears, SourceOf, Within, WellFormed;
    var peers := Run(INITIAL, calls, plausibility).peers;
    assert PooledLately(SourceOf(calls, plausibility, m), now, m in heard, latest(m));
    assert Live(peers[Slot(peers, m)], now);
  }

  lemma LiveIsFresh(calls: seq<Call>, plausibility: int, mac: int, now: int, roster: set<int>, group: set<int>,
      heard: set<int>, latest: int -> Line, j: nat)
    requires CaughtUp(calls, plausibility, mac, now, roster, group, heard, latest)
    requires var peers := Run(INITIAL, calls, plausibility).peers; j < |peers| && Live(peers[j], now)
    ensures var p := Run(INITIAL, calls, plausibility).peers[j];
      p.mac in heard && p.mac != mac && p.line == latest(p.mac)
  {
    var peers := Run(INITIAL, calls, plausibility).peers;
    var m := peers[j].mac;
    RunTableIsMap(calls, plausibility, roster, m);
    LookupIs(peers, j);
    assert m in roster;
    hide Run, Hears, SourceOf, Within, WellFormed, Lookup;
    assert PooledLately(SourceOf(calls, plausibility, m), now, m in heard, latest(m));
  }

  lemma CaughtUpIsInSync(calls: seq<Call>, plausibility: int, mac: int, now: int, roster: set<int>, group: set<int>,
      heard: set<int>, latest: int -> Line)
    requires CaughtUp(calls, plausibility, mac, now, roster, group, heard, latest)
    ensures InSync(Run(INITIAL, calls, plausibility), mac, now, group, heard, latest)
  {
    var d := Run(INITIAL, calls, plausibility);
    RunTableIsMap(calls, plausibility, roster, 0);
    assert WellFormed(d.peers) && heard <= group;
    forall m | m in heard && m != mac
      ensures exists j :: 0 <= j < |d.peers| && Live(d.peers[j], now) && d.peers[j].mac == m
    {
      FreshIsLive(calls, plausibility, mac, now, roster, group, heard, latest, m);
    }
    forall j | 0 <= j < |d.peers| && Live(d.peers[j], now)
      ensures d.peers[j].mac in heard && d.peers[j].mac != mac && d.peers[j].line == latest(d.peers[j].mac)
    {
      LiveIsFresh(calls, plausibility, mac, now, roster, group, heard, latest, j);
    }
    hide Run, Hears, SourceOf, TableIs, WellFormed, Live;
  }

  // The last call of the run recomputes the consensus.
  ghost predicate Decides(calls: seq<Call>, plausibility: int) {
    calls != [] &&
    var (init, t) := (calls[..|calls| - 1], calls[|calls| - 1].tick);
    var d := Run(INITIAL, init, plausibility);
    Listens(d, t) && t.now - Attend(d, t).lastConsensus >= CONSENSUS_INTERVAL_US
  }

  lemma DecisionIs(d: Device, t: Tick, arrivals: seq<Arrival>, plausibility: int)
    requires d.peers != [] && Listens(d, t) && t.now - Attend(d, t).lastConsensus >= CONSENSUS_INTERVAL_US
    ensures var e := Service(d, t, arrivals, plausibility);
      var lines := Contributors(e.own.pub, e.peers, t.now);
      lines != [] ==> e.mapping == Some(Mapping(Agreed(lines), t.now))
  {
    hide ReceiveAll, PublishedLine.Broadcast, Agreed, Contributors;
  }

  lemma RunDecides(calls: seq<Call>, plausibility: int)
    requires Decides(calls, plausibility)
    ensures var (d, now) := (Run(INITIAL, calls, plausibility), calls[|calls| - 1].tick.now);
      var lines := Contributors(d.own.pub, d.peers, now);
      lines != [] ==> d.mapping == Some(Mapping(Agreed(lines), now))
  {
    var init, c := calls[..|calls| - 1], calls[|calls| - 1];
    hide Service, Attend, Listens, Agreed, Contributors;
    DecisionIs(Run(INITIAL, init, plausibility), c.tick, c.arrivals, plausibility);
  }

  // A device that has caught up is in sync, and adopts what the contributing lines agree on.
  ghost predicate Settled(d: Device, mac: int, now: int, group: set<int>, heard: set<int>, latest: int -> Line) {
    && InSync(d, mac, now, group, heard, latest)
    && var lines := Contributors(d.own.pub, d.peers, now);
      (lines != [] ==> d.mapping == Some(Mapping(Agreed(lines), now)))
  }

  lemma CaughtUpSettles(calls: seq<Call>, plausibility: int, mac: int, roster: set<int>, group: set<int>,
      heard: set<int>, latest: int -> Line)
    requires Decides(calls, plausibility)
    requires CaughtUp(calls, plausibility, mac, calls[|calls| - 1].tick.now, roster, group, heard, latest)
    ensures Settled(Run(INITIAL, calls, plausibility), mac, calls[|calls| - 1].tick.now, group, heard, latest)
  {
    CaughtUpIsInSync(calls, plausibility, mac, calls[|calls| - 1].tick.now, roster, group, heard, latest);
    RunDecides(calls, plausibility);
    hide CaughtUp, Decides, InSync, Run, Contributors, Agreed;
  }

  lemma SettledAgree(d1: Device, d2: Device, m1: int, m2: int, now1: int, now2: int, group: set<int>, heard: set<int>,
      latest: int -> Line)
    requires Settled(d1, m1, now1, group, heard, latest) && Settled(d2, m2, now2, group, heard, latest)
    requires !Alone(m1, group, heard, latest) && !Alone(m2, group, heard, latest) && SomeoneCounts(heard, latest)
    ensures OneMapping(d1.mapping, d2.mapping)
  {
    GroupAgrees(d1, d2, m1, m2, now1, now2, group, heard, latest);
    hide InSync, Contributors, Agreed, Alone, SomeoneCounts;
  }

  // One anchor, one drift, and values within 1 us.
  ghost predicate OneMapping(a: Option<Mapping>, b: Option<Mapping>) {
    && a.Some? && b.Some?
    && a.value.line.base == b.value.line.base && a.value.line.drift == b.value.line.drift
    && AbsInt(a.value.line.tms - b.value.line.tms) <= 1
  }

  // Main result, end to end: two devices that have caught up with one group over any runs of calls,
  // whatever was lost, repeated or sent beside the lines, and recompute their consensus, adopt
  // mappings with one anchor, one drift and values within 1 us. A device without a line of its own is
  // one of them: it is how it gets a timebase at all.
  lemma RoundAgrees(c1: seq<Call>, c2: seq<Call>, m1: int, m2: int, p1: int, p2: int, r1: set<int>, r2: set<int>,
      group: set<int>, heard: set<int>, latest: int -> Line)
    requires Decides(c1, p1) && CaughtUp(c1, p1, m1, c1[|c1| - 1].tick.now, r1, group, heard, latest)
    requires Decides(c2, p2) && CaughtUp(c2, p2, m2, c2[|c2| - 1].tick.now, r2, group, heard, latest)
    requires !Alone(m1, group, heard, latest) && !Alone(m2, group, heard, latest) && SomeoneCounts(heard, latest)
    ensures OneMapping(Run(INITIAL, c1, p1).mapping, Run(INITIAL, c2, p2).mapping)
  {
    CaughtUpSettles(c1, p1, m1, r1, group, heard, latest);
    CaughtUpSettles(c2, p2, m2, r2, group, heard, latest);
    hide CaughtUp, Decides, Settled, Run, OneMapping;
    SettledAgree(Run(INITIAL, c1, p1), Run(INITIAL, c2, p2), m1, m2,
      c1[|c1| - 1].tick.now, c2[|c2| - 1].tick.now, group, heard, latest);
  }

  // ----- a round with a device that has no line yet

  // The first device publishes and has heard the second one's phase; the second has heard its line.
  const REPORT: Arrival := Arrival(Packet(TSF_MAGIC, TSF_VERSION, 2, 9, 7, 0, true, EMPTY_PEER.line, None), NoTsf)
  const PUBLISHING: seq<Call> := [Call(TsfProtocol.SPEAKING, [REPORT])]
  const BOOTING: seq<Call> := [Call(TsfProtocol.HEARING, TsfProtocol.HEARD)]

  function TheLine(): int -> Line {
    (m: int) => TsfProtocol.LINE
  }

  lemma FirstCall(c: Call, plausibility: int)
    ensures Run(INITIAL, [c], plausibility) == Service(INITIAL, c.tick, c.arrivals, plausibility)
    ensures forall mac :: SourceOf([c], plausibility, mac) == AfterCall(None, INITIAL, c.tick, c.arrivals, plausibility, mac)
    ensures forall roster :: Hears([c], plausibility, roster) <==>
      (Listens(INITIAL, c.tick) ==>
         From(ReceiverOf(Attend(INITIAL, c.tick), c.tick, plausibility), c.arrivals, roster))
    ensures Decides([c], plausibility) <==>
      Listens(INITIAL, c.tick) && c.tick.now - Attend(INITIAL, c.tick).lastConsensus >= CONSENSUS_INTERVAL_US
  {
    hide Service, Listens, Attend, AfterCall, From;
    assert [c][..0] == [];
    assert Run(INITIAL, [], plausibility) == INITIAL;
  }

  lemma PublisherCatchesUp()
    ensures Decides(PUBLISHING, 1000) && CaughtUp(PUBLISHING, 1000, 1, 2_000_000, {2}, {1}, {1}, TheLine())
  {
    var c := PUBLISHING[0];
    FirstCall(c, 1000);
    PublisherListens(c);
    hide Service, From, Attend, AfterCall, Hears, Decides, SourceOf, Run, Listens;
    TsfProtocol.FirstSpeaks();
    ServiceKeepsOwnSide(INITIAL, INITIAL, c.tick, [REPORT], [], 1000, 1000);
  }

  lemma PublisherListens(c: Call)
    requires c == PUBLISHING[0]
    ensures Listens(INITIAL, c.tick) && Attend(INITIAL, c.tick).lastConsensus == 0
    ensures From(ReceiverOf(Attend(INITIAL, c.tick), c.tick, 1000), c.arrivals, {2})
    ensures AfterCall(None, INITIAL, c.tick, c.arrivals, 1000, 2) == None
  {
    var rx := ReceiverOf(Attend(INITIAL, c.tick), c.tick, 1000);
    assert !Pooled(rx, REPORT, 2) && [REPORT][..0] == [];
    assert LastPooled(None, rx, [], 2) == None;
    hide Pooled, Admits;
    assert LastPooled(None, rx, [REPORT], 2) == None;
  }

  lemma BooterCatchesUp()
    ensures Decides(BOOTING, 1000) && CaughtUp(BOOTING, 1000, 2, 2_000_000, {1}, {1}, {1}, TheLine())
  {
    var c := BOOTING[0];
    FirstCall(c, 1000);
    TsfProtocol.SecondHears();
    hide Service;
    var rx := ReceiverOf(Attend(INITIAL, c.tick), c.tick, 1000);
    assert Pooled(rx, TsfProtocol.HEARD[0], 1);
    assert LastPooled(None, rx, TsfProtocol.HEARD, 1) == Some(Source(TsfProtocol.LINE_PACKET, 2_000_000, 7));
  }

  // The hypotheses of RoundAgrees can all hold, for a device that has just booted and a mature one that
  // has heard it: both adopt the mature one's line.
  lemma BootingDeviceAgrees()
    ensures Decides(PUBLISHING, 1000) && CaughtUp(PUBLISHING, 1000, 1, 2_000_000, {2}, {1}, {1}, TheLine())
    ensures Decides(BOOTING, 1000) && CaughtUp(BOOTING, 1000, 2, 2_000_000, {1}, {1}, {1}, TheLine())
    ensures !Alone(1, {1}, {1}, TheLine()) && !Alone(2, {1}, {1}, TheLine()) && SomeoneCounts({1}, TheLine())
    ensures OneMapping(Run(INITIAL, PUBLISHING, 1000).mapping, Run(INITIAL, BOOTING, 1000).mapping)
  {
    PublisherCatchesUp();
    BooterCatchesUp();
    assert Counted(1, {1}, TheLine());
    hide Decides, CaughtUp, OneMapping, Run;
    RoundAgrees(PUBLISHING, BOOTING, 1, 2, 1000, 1000, {2}, {1}, {1}, {1}, TheLine());
  }
}
