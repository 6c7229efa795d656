// components/clock_sync/tsf_sync.cpp, update_consensus_: the line every device adopts, computed
// from its own published line and the live lines of its table.
module Consensus {
  import opened Numeric
  import opened Permutation
  import opened TsfLine
  import opened PeerTable
  import opened ConsensusMath
  import PublishedLine

  const PEER_MAP_STALE_US: int := 5_000_000
  const DRIFT_SCALE_FLOOR_PPM: real := 1.0

  // ----- who contributes

  predicate Votable(drift: real) {
    Abs(drift) <= PublishedLine.MAX_PLAUSIBLE_DRIFT_PPM
  }

  predicate Contributes(p: Peer, now: int) {
    p.used && p.mapValid && now - p.mapSeen <= PEER_MAP_STALE_US && Votable(p.line.drift)
  }

  function PeerLines(peers: seq<Peer>, now: int): seq<Line> {
    if peers == [] then []
    else
      var p := peers[|peers| - 1];
      PeerLines(peers[..|peers| - 1], now) + if Contributes(p, now) then [p.line] else []
  }

  function OwnLine(own: Option<Line>): seq<Line> {
    match own case None => [] case Some(l) => [l]
  }

  // The device's own line first, and whatever its drift.
  function Contributors(own: Option<Line>, peers: seq<Peer>, now: int): seq<Line> {
    OwnLine(own) + PeerLines(peers, now)
  }

  // ----- the adopted line

  // The newest base in the list.
  function Newest(lines: seq<Line>): int
    requires lines != []
  {
    var last := lines[|lines| - 1].base;
    if |lines| == 1 then last
    else if last > Newest(lines[..|lines| - 1]) then last
    else Newest(lines[..|lines| - 1])
  }

  function OffsetAt(ref: int, zero: int): Line -> real {
    l => (At(l, ref) - zero) as real
  }

  // Every line's value at ref, differenced against zero.
  function Spread(lines: seq<Line>, ref: int, zero: int): (s: seq<real>)
    ensures |s| == |lines|
  {
    Map(OffsetAt(ref, zero), lines)
  }

  function DriftOf(): Line -> real {
    (l: Line) => l.drift
  }

  function Drifts(lines: seq<Line>): (s: seq<real>)
    ensures |s| == |lines|
  {
    Map(DriftOf(), lines)
  }

  // The values are differenced against the first contributor's before they are averaged.
  function Agreed(lines: seq<Line>): Line
    requires lines != []
  {
    var ref := Newest(lines);
    var zero := At(lines[0], ref);
    Line(ref, zero + LlRound(RobustMean(Spread(lines, ref, zero), CONSENSUS_SCALE_FLOOR_US)),
      RobustMean(Drifts(lines), DRIFT_SCALE_FLOOR_PPM))
  }

  // ----- the loops

  lemma PeerLinesStep(peers: seq<Peer>, i: nat, now: int)
    requires i < |peers|
    ensures PeerLines(peers[..i + 1], now)
      == if Contributes(peers[i], now) then PeerLines(peers[..i], now) + [peers[i].line] else PeerLines(peers[..i], now)
  {
    assert peers[..i + 1][..i] == peers[..i];
  }

  lemma ContributorsStep(own: Option<Line>, peers: seq<Peer>, i: nat, now: int)
    requires i < |peers|
    ensures Contributors(own, peers[..i + 1], now)
      == if Contributes(peers[i], now) then Contributors(own, peers[..i], now) + [peers[i].line]
         else Contributors(own, peers[..i], now)
  {
    hide Contributes;
    PeerLinesStep(peers, i, now);
  }

  function NewestOf(lines: seq<Line>): Option<int> {
    if lines == [] then None else Some(Newest(lines))
  }

  // What one more line does to the reference.
  function Advance(ref: Option<int>, base: int): Option<int> {
    if ref.None? || base > ref.value then Some(base) else ref
  }

  lemma NewestStep(lines: seq<Line>, l: Line)
    ensures NewestOf(lines + [l]) == Advance(NewestOf(lines), l.base)
  {
    assert (lines + [l])[..|lines|] == lines;
  }

  method Reference(own: Option<Line>, peers: array<Peer>, now: int) returns (ref: Option<int>)
    ensures ref == NewestOf(Contributors(own, peers[..], now))
  {
    ghost var table := peers[..];
    ref := if own.Some? then Some(own.value.base) else None;
    assert table[..0] == [];
    ContributorsNone(own, now);
    hide *;
    for i := 0 to peers.Length
      invariant ref == NewestOf(Contributors(own, table[..i], now))
    {
      ContributorsStep(own, table, i, now);
      if Contributes(peers[i], now) {
        NewestStep(Contributors(own, table[..i], now), peers[i].line);
        ref := Advance(ref, peers[i].line.base);
      }
    }
    assert table[..peers.Length] == table;
  }

  lemma MapStep<T, U>(f: T -> U, s: seq<T>, x: T)
    ensures Map(f, s + [x]) == Map(f, s) + [f(x)]
  {
    assert (s + [x])[..|s|] == s;
  }

  // Values and drifts gathered so far, in a prefix of two arrays.
  ghost predicate Gathered(lines: seq<Line>, ref: int, zero: int, dv: seq<real>, dr: seq<real>) {
    && (lines != [] ==> zero == At(lines[0], ref))
    && dv == Spread(lines, ref, zero) && dr == Drifts(lines)
  }

  lemma GatheredStep(lines: seq<Line>, ref: int, zero: int, dv: seq<real>, dr: seq<real>, l: Line)
    requires Gathered(lines, ref, zero, dv, dr)
    ensures var z := if lines == [] then At(l, ref) else zero;
      Gathered(lines + [l], ref, z, dv + [(At(l, ref) - z) as real], dr + [l.drift])
  {
    var z := if lines == [] then At(l, ref) else zero;
    MapStep(OffsetAt(ref, z), lines, l);
    MapStep(DriftOf(), lines, l);
  }

  // The lambda `add`: one more contributor, into two buffers that hold n of them.
  method Add(l: Line, ref: int, zero: int, n: nat, dv: array<real>, dr: array<real>, ghost lines: seq<Line>)
    returns (zero': int)
    requires dv != dr && n < dv.Length && n < dr.Length && n == |lines|
    requires Gathered(lines, ref, zero, dv[..n], dr[..n])
    modifies dv, dr
    ensures Gathered(lines + [l], ref, zero', dv[..n + 1], dr[..n + 1])
  {
    GatheredStep(lines, ref, zero, dv[..n], dr[..n], l);
    hide *;
    zero' := if n == 0 then At(l, ref) else zero;
    ghost var dv0, dr0 := dv[..n], dr[..n];
    dv[n], dr[n] := (At(l, ref) - zero') as real, l.drift;
    assert dv[..n + 1] == dv0 + [dv[n]];
    assert dr[..n + 1] == dr0 + [dr[n]];
  }

  // The second pass: each contributor's value at ref and its drift.
  method Gather(own: Option<Line>, peers: array<Peer>, now: int, ref: int, dv: array<real>, dr: array<real>)
    returns (n: nat, zero: int)
    requires dv != dr && dv.Length > peers.Length && dr.Length > peers.Length
    modifies dv, dr
    ensures n <= dv.Length && n <= dr.Length && n == |Contributors(own, peers[..], now)|
    ensures Gathered(Contributors(own, peers[..], now), ref, zero, dv[..n], dr[..n])
  {
    hide *;
    ghost var table, lines: seq<Line> := peers[..], [];
    n, zero := 0, 0;
    assert dv[..0] == [] && dr[..0] == [] && table[..0] == [];
    GatheredEmpty(ref, zero);
    ContributorsNone(own, now);
    if own.Some? {
      zero := Add(own.value, ref, zero, n, dv, dr, lines);
      n, lines := 1, lines + [own.value];
    }
    for i := 0 to peers.Length
      invariant n <= i + 1 && n == |lines| && lines == Contributors(own, table[..i], now)
      invariant peers[..] == table
      invariant Gathered(lines, ref, zero, dv[..n], dr[..n])
    {
      ContributorsStep(own, table, i, now);
      if Contributes(peers[i], now) {
        zero := Add(peers[i].line, ref, zero, n, dv, dr, lines);
        n := n + 1;
        lines := lines + [peers[i].line];
      }
    }
    assert table[..peers.Length] == table;
  }

  // ----- what the lines decide

  ghost predicate IsNewest(lines: seq<Line>, ref: int) {
    && (exists i :: 0 <= i < |lines| && lines[i].base == ref)
    && (forall i :: 0 <= i < |lines| ==> lines[i].base <= ref)
  }

  lemma {:induction false} NewestIs(lines: seq<Line>)
    requires lines != []
    ensures IsNewest(lines, Newest(lines))
  {
    if |lines| > 1 {
      NewestIs(lines[..|lines| - 1]);
    }
  }

  // The adopted value never leaves the range of the contributors' values, nor the drift that of
  // their drifts.
  lemma AgreedIsBetween(lines: seq<Line>, lo: int, hi: int)
    requires lines != []
    requires forall i :: 0 <= i < |lines| ==> lo <= At(lines[i], Newest(lines)) <= hi
    ensures lo <= Agreed(lines).tms <= hi
  {
    var ref := Newest(lines);
    var zero := At(lines[0], ref);
    var s := Spread(lines, ref, zero);
    forall i | 0 <= i < |s|
      ensures (lo - zero) as real <= s[i] <= (hi - zero) as real
    {
      assert s[i] == OffsetAt(ref, zero)(lines[i]);
    }
    hide RobustMean, Spread, At, Newest;
    RobustMeanIsBetween(s, CONSENSUS_SCALE_FLOOR_US, (lo - zero) as real, (hi - zero) as real);
  }

  lemma DriftIsBetween(lines: seq<Line>, lo: real, hi: real)
    requires lines != []
    requires forall i :: 0 <= i < |lines| ==> lo <= lines[i].drift <= hi
    ensures lo <= Agreed(lines).drift <= hi
  {
    var s := Drifts(lines);
    assert forall i :: 0 <= i < |s| ==> s[i] == lines[i].drift;
    hide RobustMean, Spread, At, Newest, Drifts;
    RobustMeanIsBetween(s, DRIFT_SCALE_FLOOR_PPM, lo, hi);
  }

  // Every line, as it is before truncation, is within e of y at this instant.
  ghost predicate Near(lines: seq<Line>, t: int, y: real, e: real) {
    forall i :: 0 <= i < |lines| ==> Abs(Exact(lines[i], t) - y) <= e
  }

  // So is the adopted line but for less than a microsecond.
  lemma AgreedIsNear(lines: seq<Line>, y: real, e: real)
    requires lines != [] && Near(lines, Newest(lines), y, e)
    ensures Abs(Agreed(lines).tms as real - y) < e + 1.0
  {
    var ref := Newest(lines);
    var lo, hi := (y - e - 1.0).Floor + 1, -(-y - e - 1.0).Floor - 1;
    hide Agreed, Newest;
    forall i | 0 <= i < |lines|
      ensures lo <= At(lines[i], ref) <= hi
    {
      AtIsExact(lines[i], ref);
      hide At, Exact;
    }
    AgreedIsBetween(lines, lo, hi);
  }

  ghost predicate DriftsWithin(lines: seq<Line>, lo: real, hi: real) {
    forall i :: 0 <= i < |lines| ==> lo <= lines[i].drift <= hi
  }

  ghost predicate FollowsValue(lines: seq<Line>, line: Line, y: real, e: real) {
    Near(lines, line.base, y, e) ==> Abs(line.tms as real - y) < e + 1.0
  }

  ghost predicate FollowsDrift(lines: seq<Line>, line: Line, lo: real, hi: real) {
    DriftsWithin(lines, lo, hi) ==> lo <= line.drift <= hi
  }

  // What adopting a line says of the lines it was made of, in no terms of the computation: it is at
  // the newest base, and within a microsecond of whatever value, and between whatever drifts, they are.
  ghost predicate Decided(lines: seq<Line>, line: Line) {
    && IsNewest(lines, line.base)
    && (forall y, e :: FollowsValue(lines, line, y, e))
    && (forall lo, hi :: FollowsDrift(lines, line, lo, hi))
  }

  lemma AgreedFollowsOne(lines: seq<Line>, y: real, e: real)
    requires lines != []
    ensures Agreed(lines).base == Newest(lines)
    ensures FollowsValue(lines, Agreed(lines), y, e) && FollowsDrift(lines, Agreed(lines), y, e)
  {
    assert Agreed(lines).base == Newest(lines);
    hide Agreed, Newest, Near;
    if Near(lines, Newest(lines), y, e) {
      AgreedIsNear(lines, y, e);
    }
    if DriftsWithin(lines, y, e) {
      DriftIsBetween(lines, y, e);
    }
  }

  lemma AgreedIsDecided(lines: seq<Line>)
    requires lines != []
    ensures Decided(lines, Agreed(lines))
  {
    NewestIs(lines);
    AgreedFollowsOne(lines, 0.0, 0.0);
    hide Agreed, Newest, FollowsValue, FollowsDrift, IsNewest;
    forall y, e
      ensures FollowsValue(lines, Agreed(lines), y, e) && FollowsDrift(lines, Agreed(lines), y, e)
    {
      AgreedFollowsOne(lines, y, e);
    }
  }

  // Main result: where every contributor's line is within e of one line at the reference, and its
  // drift within off ppm of that line's, the adopted line is within e + 1 us of it there, and moves
  // from it by no more than off ppm.
  lemma AgreedFollows(lines: seq<Line>, z: real, drift: real, e: real, off: real, t: int)
    requires lines != [] && Near(lines, Newest(lines), z, e) && off >= 0.0
    requires DriftsWithin(lines, drift - off, drift + off)
    ensures var (l, dt) := (Agreed(lines), t - Newest(lines));
      Abs(Exact(l, t) - (z + Carried(drift, dt))) < e + 1.0 + Carried(off, AbsInt(dt))
  {
    AgreedIsNear(lines, z, e);
    DriftIsBetween(lines, drift - off, drift + off);
    assert Agreed(lines).base == Newest(lines);
    CarriedNear(Agreed(lines).drift, drift, off, t - Newest(lines));
    hide Agreed, Newest, Near, Carried;
  }

  lemma CarriedNear(d: real, drift: real, off: real, dt: int)
    requires drift - off <= d <= drift + off && off >= 0.0
    ensures Abs(Carried(d, dt) - Carried(drift, dt)) <= Carried(off, AbsInt(dt))
  {
    var k, r := d - drift, AbsInt(dt) as real;
    var x := k * PPM * dt as real;
    assert d * PPM * dt as real - drift * PPM * dt as real == x;
    MulAbs(k * PPM, off * PPM, r, k * PPM * r, off * PPM * r);
  }

  // update_consensus_ up to the adoption: how many lines contribute, and what they agree on.
  method ComputeConsensus(own: Option<Line>, peers: array<Peer>, now: int) returns (n: nat, line: Line)
    ensures n == |Contributors(own, peers[..], now)|
    ensures n > 0 ==>
      line == Agreed(Contributors(own, peers[..], now)) && Decided(Contributors(own, peers[..], now), line)
  {
    hide Contributors, Gathered, Agreed, Decided;
    var ref := Reference(own, peers, now);
    n, line := 0, EMPTY_PEER.line;
    if ref.None? {
      return;
    }
    ghost var lines := Contributors(own, peers[..], now);
    var dv, dr := new real[peers.Length + 1], new real[peers.Length + 1];
    var zero;
    n, zero := Gather(own, peers, now, ref.value, dv, dr);
    AgreedIs(lines, ref.value, zero, dv[..n], dr[..n]);
    AgreedIsDecided(lines);
    var mean := ComputeRobustMean(dv, n, CONSENSUS_SCALE_FLOOR_US);
    var drift := ComputeRobustMean(dr, n, DRIFT_SCALE_FLOOR_PPM);
    line := Line(ref.value, zero + LlRound(mean), drift);
  }

  lemma ContributorsNone(own: Option<Line>, now: int)
    ensures Contributors(own, [], now) == if own.Some? then [own.value] else []
    ensures NewestOf(Contributors(own, [], now)) == if own.Some? then Some(own.value.base) else None
  {
  }

  lemma GatheredEmpty(ref: int, zero: int)
    ensures Gathered([], ref, zero, [], [])
  {
  }

  lemma AgreedIs(lines: seq<Line>, ref: int, zero: int, dv: seq<real>, dr: seq<real>)
    requires lines != [] && ref == Newest(lines) && Gathered(lines, ref, zero, dv, dr)
    ensures dv != [] && dr != []
    ensures Agreed(lines) == Line(ref, zero + LlRound(RobustMean(dv, CONSENSUS_SCALE_FLOOR_US)),
      RobustMean(dr, DRIFT_SCALE_FLOOR_PPM))
  {
    hide RobustMean, LlRound;
  }
}
