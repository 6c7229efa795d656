// When a device serves, speaks and decides over a run of calls, from the calls alone, and whose rate it
// publishes.
module TsfCadence {
  import opened Numeric
  import opened TsfLine
  import opened PeerTable
  import opened TsfDevice
  import opened TsfHistory
  import Consensus
  import PublishedLine

  // ----- the times, from the ticks of a run

  // Of the last call served: calls less than 200 ms after that are not. Zero before the first.
  function Served(calls: seq<Call>): int {
    if calls == [] then 0
    else
      var before, now := Served(calls[..|calls| - 1]), calls[|calls| - 1].tick.now;
      if now - before >= 200_000 then now else before
  }

  predicate ServedNow(calls: seq<Call>) {
    calls != [] && calls[|calls| - 1].tick.now - Served(calls[..|calls| - 1]) >= 200_000
  }

  // The first address the radio gave to a call served.
  function Address(calls: seq<Call>): Option<int> {
    if calls == [] then None
    else
      var before := Address(calls[..|calls| - 1]);
      if before.None? && ServedNow(calls) then calls[|calls| - 1].tick.mac else before
  }

  // The last call is served with everything that talking takes.
  predicate Online(calls: seq<Call>) {
    ServedNow(calls) && Address(calls).Some? && calls[|calls| - 1].tick.ap.Some? && calls[|calls| - 1].tick.socket
  }

  predicate Settled(t: Tick) {
    t.est.valid && t.est.mature
  }

  // The last call of the run sends a line: at least a second after the last one, if the estimate has
  // settled and the TSF could be read.
  predicate SendsLine(calls: seq<Call>)
    decreases |calls|, 0
  {
    Online(calls) &&
    var (init, t) := (calls[..|calls| - 1], calls[|calls| - 1].tick);
    Settled(t) && t.sample.Tsf? && t.now - LastLine(init) >= 1_000_000
  }

  function LastLine(calls: seq<Call>): int
    decreases |calls|, 1
  {
    if calls == [] then 0
    else if SendsLine(calls) then calls[|calls| - 1].tick.now
    else LastLine(calls[..|calls| - 1])
  }

  // Or a phase alone: every four seconds, while the estimate has not settled.
  predicate SendsPhase(calls: seq<Call>)
    decreases |calls|, 0
  {
    Online(calls) &&
    var (init, t) := (calls[..|calls| - 1], calls[|calls| - 1].tick);
    !Settled(t) && t.phase && t.now - LastPhase(init) >= 4_000_000
  }

  function LastPhase(calls: seq<Call>): int
    decreases |calls|, 1
  {
    if calls == [] then 0
    else if SendsPhase(calls) then calls[|calls| - 1].tick.now
    else LastPhase(calls[..|calls| - 1])
  }

  // The last call of the run recomputes the consensus: every half a second.
  predicate DecidesNow(calls: seq<Call>)
    decreases |calls|, 0
  {
    Online(calls) && calls[|calls| - 1].tick.now - LastDecision(calls[..|calls| - 1]) >= 500_000
  }

  function LastDecision(calls: seq<Call>): int
    decreases |calls|, 1
  {
    if calls == [] then 0
    else if DecidesNow(calls) then calls[|calls| - 1].tick.now
    else LastDecision(calls[..|calls| - 1])
  }

  // ----- the device keeps them

  ghost predicate Keeps(d: Device, calls: seq<Call>) {
    && d.lastService == Served(calls) && d.mac == Address(calls) && d.lastTx == LastLine(calls)
    && d.lastPhaseTx == LastPhase(calls) && d.lastConsensus == LastDecision(calls)
  }

  // What a call does to the times.
  lemma CallServes(d: Device, t: Tick, arrivals: seq<Arrival>, plausibility: int)
    requires d.peers != []
    ensures var (e, due) := (Service(d, t, arrivals, plausibility), t.now - d.lastService >= 200_000);
      && e.lastService == (if due then t.now else d.lastService)
      && e.mac == (if due && d.mac.None? then t.mac else d.mac)
  {
    hide ReceiveAll, PublishedLine.Broadcast, Consensus.Agreed, Consensus.Contributors;
  }

  predicate Talks(d: Device, t: Tick) {
    t.now - d.lastService >= 200_000 && (if d.mac.None? then t.mac else d.mac).Some? && t.ap.Some? && t.socket
  }

  lemma CallSpeaks(d: Device, t: Tick, arrivals: seq<Arrival>, plausibility: int)
    requires d.peers != []
    ensures var e := Service(d, t, arrivals, plausibility);
      && e.lastTx
           == (if Talks(d, t) && Settled(t) && t.sample.Tsf? && t.now - d.lastTx >= 1_000_000 then t.now else d.lastTx)
      && e.lastPhaseTx
           == (if Talks(d, t) && !Settled(t) && t.phase && t.now - d.lastPhaseTx >= 4_000_000 then t.now
               else d.lastPhaseTx)
  {
    hide ReceiveAll, PublishedLine.Broadcast, Consensus.Agreed, Consensus.Contributors;
  }

  lemma CallDecides(d: Device, t: Tick, arrivals: seq<Arrival>, plausibility: int)
    requires d.peers != []
    ensures Service(d, t, arrivals, plausibility).lastConsensus
      == if Talks(d, t) && t.now - d.lastConsensus >= 500_000 then t.now else d.lastConsensus
  {
    hide ReceiveAll, PublishedLine.Broadcast, Consensus.Agreed, Consensus.Contributors;
  }

  lemma {:induction false} RunKeepsTimes(calls: seq<Call>, plausibility: int)
    ensures Keeps(Run(INITIAL, calls, plausibility), calls)
  {
    if calls != [] {
      var init, c := calls[..|calls| - 1], calls[|calls| - 1];
      RunKeepsTimes(init, plausibility);
      CallServes(Run(INITIAL, init, plausibility), c.tick, c.arrivals, plausibility);
      CallSpeaks(Run(INITIAL, init, plausibility), c.tick, c.arrivals, plausibility);
      CallDecides(Run(INITIAL, init, plausibility), c.tick, c.arrivals, plausibility);
      TimesStep(calls);
      hide Service, Served, Address, LastLine, LastPhase, LastDecision, Online, Settled;
    }
  }

  lemma TimesStep(calls: seq<Call>)
    requires calls != []
    ensures var (init, t) := (calls[..|calls| - 1], calls[|calls| - 1].tick);
      var due := t.now - Served(init) >= 200_000;
      && Served(calls) == (if due then t.now else Served(init))
      && Address(calls) == (if due && Address(init).None? then t.mac else Address(init))
      && (Online(calls) <==> due && Address(calls).Some? && t.ap.Some? && t.socket)
      && LastLine(calls)
           == (if Online(calls) && Settled(t) && t.sample.Tsf? && t.now - LastLine(init) >= 1_000_000 then t.now
               else LastLine(init))
      && LastPhase(calls)
           == (if Online(calls) && !Settled(t) && t.phase && t.now - LastPhase(init) >= 4_000_000 then t.now
               else LastPhase(init))
      && LastDecision(calls)
           == (if Online(calls) && t.now - LastDecision(init) >= 500_000 then t.now else LastDecision(init))
  {
  }

  lemma BeaconOfCall(d: Device, t: Tick)
    ensures var (b, due) := (Beacon(d, t), t.now - d.lastService >= 200_000);
      var online := due && (if d.mac.None? then t.mac else d.mac).Some? && t.ap.Some? && t.socket;
      && (b.Some? && !b.value.noMapping <==> online && Settled(t) && t.sample.Tsf? && t.now - d.lastTx >= 1_000_000)
      && (b.Some? && b.value.noMapping <==> online && !Settled(t) && t.phase && t.now - d.lastPhaseTx >= 4_000_000)
  {
    hide PublishedLine.NextLine, At;
  }

  // Main result: what a call sends is decided by the ticks of the run alone: a line at most every second
  // and only from a settled estimate, otherwise a phase at most every four, and nothing offline.
  lemma BeaconsAreTimed(calls: seq<Call>, plausibility: int)
    requires calls != []
    ensures var b := Beacon(Run(INITIAL, calls[..|calls| - 1], plausibility), calls[|calls| - 1].tick);
      && (b.Some? && !b.value.noMapping <==> SendsLine(calls))
      && (b.Some? && b.value.noMapping <==> SendsPhase(calls))
  {
    RunKeepsTimes(calls[..|calls| - 1], plausibility);
    BeaconOfCall(Run(INITIAL, calls[..|calls| - 1], plausibility), calls[|calls| - 1].tick);
    hide Beacon, Run;
  }

  lemma {:induction false} LastLineGrows(calls: seq<Call>, i: nat)
    requires i <= |calls| && SendsLine(calls[..i])
    ensures LastLine(calls) >= calls[i - 1].tick.now
  {
    if i == |calls| {
      assert calls[..i] == calls;
    } else {
      assert calls[..|calls| - 1][..i] == calls[..i];
      LastLineGrows(calls[..|calls| - 1], i);
      hide Online, Settled;
    }
  }

  // Any two lines of a run are a second apart, whatever comes between.
  lemma LinesAreSpaced(calls: seq<Call>, i: nat)
    requires i < |calls| && SendsLine(calls[..i]) && SendsLine(calls)
    ensures calls[|calls| - 1].tick.now - calls[i - 1].tick.now >= 1_000_000
  {
    assert calls[..|calls| - 1][..i] == calls[..i];
    LastLineGrows(calls[..|calls| - 1], i);
  }

  // ----- the mapping

  lemma CallMapping(d: Device, t: Tick, arrivals: seq<Arrival>, plausibility: int)
    requires d.peers != []
    ensures var (e, due) := (Service(d, t, arrivals, plausibility), t.now - d.lastService >= 200_000);
      var online := due && (if d.mac.None? then t.mac else d.mac).Some? && t.ap.Some? && t.socket;
      var lines := Consensus.Contributors(e.own.pub, e.peers, t.now);
      e.mapping ==
        if online && t.now - d.lastConsensus >= 500_000 && lines != [] then
          Some(Mapping(Consensus.Agreed(lines), t.now))
        else if Dissociates(d, t) then None
        else d.mapping
  {
    hide ReceiveAll, PublishedLine.Broadcast, Consensus.Agreed, Consensus.Contributors;
  }

  // Main result: the mapping is what the contributing lines agreed on when last asked; a call with none,
  // or before its time, leaves it alone, and a change of association drops it.
  lemma MappingIsLastAgreed(calls: seq<Call>, plausibility: int)
    requires calls != []
    ensures var (d, e) := (Run(INITIAL, calls[..|calls| - 1], plausibility), Run(INITIAL, calls, plausibility));
      var t := calls[|calls| - 1].tick;
      var lines := Consensus.Contributors(e.own.pub, e.peers, t.now);
      e.mapping ==
        if DecidesNow(calls) && lines != [] then Some(Mapping(Consensus.Agreed(lines), t.now))
        else if Dissociates(d, t) then None
        else d.mapping
  {
    var init, c := calls[..|calls| - 1], calls[|calls| - 1];
    RunKeepsTimes(init, plausibility);
    CallMapping(Run(INITIAL, init, plausibility), c.tick, c.arrivals, plausibility);
    hide Service, Dissociates, Consensus.Agreed, Consensus.Contributors;
  }

  // ----- the rate

  // Every sample reads the counter of the access point it was taken under.
  ghost predicate ReadsItsAp(calls: seq<Call>, counters: int -> Counter, err: real) {
    forall i :: 0 <= i < |calls| && calls[i].tick.sample.Tsf? && calls[i].tick.ap.Some? ==>
      counters(calls[i].tick.ap.value).Reads(calls[i].tick.sample.tsf, calls[i].tick.sample.local, err)
  }

  ghost predicate KnowsItsAp(d: Device, counters: int -> Counter, err: real) {
    match d.bssid
    case None => d.own.rateRefLocal == 0 && d.own.rate.None?
    case Some(b) => PublishedLine.KnowsRate(d.own, counters(b), err)
  }

  lemma AttendKnowsItsAp(d: Device, t: Tick, counters: int -> Counter, err: real)
    requires KnowsItsAp(d, counters, err)
    ensures KnowsItsAp(Attend(d, t), counters, err) && Attend(d, t).bssid == t.ap
  {
  }

  lemma SpeakKnowsItsAp(d: Device, t: Tick, counters: int -> Counter, err: real)
    requires KnowsItsAp(d, counters, err) && err >= 0.0 && d.bssid == t.ap && t.ap.Some?
    requires t.sample.Tsf? ==> counters(t.ap.value).Reads(t.sample.tsf, t.sample.local, err)
    ensures KnowsItsAp(Speak(d, t), counters, err)
  {
    if t.sample.Tsf? {
      PublishedLine.BroadcastKnowsRate(d.own, counters(t.ap.value), err, t.sample.tsf, t.sample.local);
    }
    hide PublishedLine.TrackRate, PublishedLine.NextLine;
  }

  // Hearing and deciding leave the own side alone.
  lemma OwnAfterCall(d: Device, t: Tick, arrivals: seq<Arrival>, plausibility: int)
    requires d.peers != []
    ensures var e := Service(d, t, arrivals, plausibility);
      if Runs(d, t) then e.own == Speak(Attend(d, t), t).own && e.bssid == Speak(Attend(d, t), t).bssid
      else (e.own == d.own && e.bssid == d.bssid) || (e.own == Attend(d, t).own && e.bssid == Attend(d, t).bssid)
  {
    hide ReceiveAll, PublishedLine.Broadcast, Consensus.Agreed, Consensus.Contributors;
  }

  lemma CallKnowsItsAp(d: Device, t: Tick, arrivals: seq<Arrival>, plausibility: int, counters: int -> Counter, err: real)
    requires d.peers != [] && KnowsItsAp(d, counters, err) && err >= 0.0
    requires t.sample.Tsf? && t.ap.Some? ==> counters(t.ap.value).Reads(t.sample.tsf, t.sample.local, err)
    ensures KnowsItsAp(Service(d, t, arrivals, plausibility), counters, err)
  {
    OwnAfterCall(d, t, arrivals, plausibility);
    AttendKnowsItsAp(d, t, counters, err);
    if Runs(d, t) {
      SpeakKnowsItsAp(Attend(d, t), t, counters, err);
    }
    hide Service, Speak, Attend, PublishedLine.KnowsRate;
  }

  // Main result: the rate a device publishes is that of the access point it is on, to within err / 2
  // ppm: nothing measured on another one outlives the change.
  lemma {:induction false} RateIsTheAps(calls: seq<Call>, plausibility: int, counters: int -> Counter, err: real)
    requires ReadsItsAp(calls, counters, err) && err >= 0.0
    ensures KnowsItsAp(Run(INITIAL, calls, plausibility), counters, err)
  {
    if calls != [] {
      var init, c := calls[..|calls| - 1], calls[|calls| - 1];
      RateIsTheAps(init, plausibility, counters, err);
      hide Service, KnowsItsAp;
      CallKnowsItsAp(Run(INITIAL, init, plausibility), c.tick, c.arrivals, plausibility, counters, err);
    }
  }
}
