// What the offset filter promises over runs: it cannot be starved of trusted samples, and on a
// steady ramp it converges.
module OffsetRuns {
  import opened Numeric
  import opened OffsetFilter
  import opened TsfLine

  // ----- starvation

  function FloorAfter(fl: Floor, widths: seq<int>): Floor
    decreases |widths|
  {
    if widths == [] then fl else FloorAfter(TrackFloor(fl, widths[0]), widths[1..])
  }

  function TrustCount(fl: Floor, widths: seq<int>): (n: nat)
    ensures n <= |widths|
    decreases |widths|
  {
    if widths == [] then 0
    else (if Trusts(fl, widths[0]) then 1 else 0) + TrustCount(TrackFloor(fl, widths[0]), widths[1..])
  }

  // What every sample keeps of the floor's state; a block under way that counts nothing has seen
  // only zero widths.
  ghost predicate Counted(fl: Floor) {
    && 0 <= fl.n < SANDWICH_FLOOR_BLOCK && fl.floor >= 0 && fl.blockMin >= 0
    && (fl.floor == 0 || fl.n == 0 ==> fl.n == 0 && fl.blockMin == 0)
  }

  // What a successful TSF read can report.
  ghost predicate Readable(widths: seq<int>) {
    forall i :: 0 <= i < |widths| ==> 0 <= widths[i] <= SANDWICH_LOOSE_MAX_US
  }

  lemma {:induction false} SplitRun(fl: Floor, widths: seq<int>, k: nat)
    requires k <= |widths|
    ensures FloorAfter(fl, widths) == FloorAfter(FloorAfter(fl, widths[..k]), widths[k..])
    ensures TrustCount(fl, widths) == TrustCount(fl, widths[..k]) + TrustCount(FloorAfter(fl, widths[..k]), widths[k..])
    decreases k
  {
    hide TrackFloor, Trusts;
    if k == 0 {
      assert widths[k..] == widths;
    } else {
      SplitRun(TrackFloor(fl, widths[0]), widths[1..], k - 1);
      assert widths[1..][..k - 1] == widths[..k][1..] && widths[1..][k - 1..] == widths[k..];
    }
  }

  lemma {:induction false} CountedStays(fl: Floor, widths: seq<int>)
    requires Counted(fl) && Readable(widths)
    ensures Counted(FloorAfter(fl, widths))
    decreases |widths|
  {
    if widths != [] {
      CountedStays(TrackFloor(fl, widths[0]), widths[1..]);
    }
  }

  // Rejected samples short of the end of the block leave the floor alone and raise what the block
  // has seen.
  lemma {:induction false} RejectedWithinBlock(fl: Floor, widths: seq<int>, low: int)
    requires Counted(fl) && Readable(widths) && TrustCount(fl, widths) == 0
    requires fl.n + |widths| < SANDWICH_FLOOR_BLOCK && fl.floor > 0
    requires low <= 2 * fl.floor + 1 && (fl.blockMin == 0 || fl.blockMin >= low)
    ensures var r := FloorAfter(fl, widths);
      r.floor == fl.floor && r.n == fl.n + |widths| && (r.blockMin == 0 || r.blockMin >= low)
    decreases |widths|
  {
    if widths != [] {
      RejectedWithinBlock(TrackFloor(fl, widths[0]), widths[1..], low);
    }
  }

  // A block that ends on a rejected sample takes a floor its last sample is more than twice of, so
  // another sample's: at least twice the old floor if the whole block was rejected.
  lemma RejectedBlock(fl: Floor, widths: seq<int>)
    requires Counted(fl) && Readable(widths) && TrustCount(fl, widths) == 0 && |widths| == SANDWICH_FLOOR_BLOCK - fl.n
    ensures var r := FloorAfter(fl, widths);
      && r.n == 0 && r.blockMin == 0 && 1 <= r.floor <= 199
      && (fl.n == 0 ==> r.floor >= 2 * fl.floor + 1)
  {
    var k := |widths| - 1;
    var low := if fl.n == 0 then 2 * fl.floor + 1 else 1;
    SplitRun(fl, widths, k);
    FirstIsTrusted(fl, widths);
    RejectedWithinBlock(fl, widths[..k], low);
    var r := FloorAfter(fl, widths[..k]);
    assert widths[k..] == [widths[k]];
    assert TrustCount(r, [widths[k]]) == if Trusts(r, widths[k]) then 1 else 0;
    assert FloorAfter(r, [widths[k]]) == TrackFloor(r, widths[k]);
  }

  // With no floor yet, a sample becomes the floor and is trusted.
  lemma FirstIsTrusted(fl: Floor, widths: seq<int>)
    requires Counted(fl) && Readable(widths) && widths != [] && TrustCount(fl, widths) == 0
    ensures fl.floor > 0
  {
  }

  // How many whole blocks can be rejected from a floor of this size, plus one.
  function Blocks(floor: int): (n: nat)
    requires floor >= 1
    ensures n >= 1
    decreases 200 - floor
  {
    if floor >= 100 then 1 else 1 + Blocks(2 * floor + 1)
  }

  lemma {:induction false} BlocksFall(floor: int, floor': int)
    requires 1 <= floor <= floor'
    ensures Blocks(floor') <= Blocks(floor)
    decreases 200 - floor
  {
    if floor < 100 && floor' < 100 {
      BlocksFall(2 * floor + 1, 2 * floor' + 1);
    }
  }

  lemma SevenBlocks()
    ensures Blocks(1) == 7
  {
    assert Blocks(127) == 1;
    assert Blocks(31) == 3;
    assert Blocks(7) == 5;
  }

  lemma {:induction false} RejectedFromBlockStart(fl: Floor, widths: seq<int>)
    requires Counted(fl) && Readable(widths) && TrustCount(fl, widths) == 0 && fl.n == 0 && fl.floor >= 1
    ensures |widths| < SANDWICH_FLOOR_BLOCK * Blocks(fl.floor)
    decreases |widths|
  {
    var k := SANDWICH_FLOOR_BLOCK;
    if |widths| >= k {
      SplitRun(fl, widths, k);
      RejectedBlock(fl, widths[..k]);
      var r := FloorAfter(fl, widths[..k]);
      RejectedFromBlockStart(r, widths[k..]);
      BlocksFall(2 * fl.floor + 1, r.floor);
    }
  }

  // Main result: 2048 successful samples in a row are never all untrusted, whatever their widths and
  // wherever in a block they begin.
  lemma NeverStarved(fl: Floor, widths: seq<int>)
    requires Counted(fl) && Readable(widths) && |widths| >= 2048
    ensures TrustCount(fl, widths) > 0
  {
    if TrustCount(fl, widths) == 0 {
      var k := SANDWICH_FLOOR_BLOCK - fl.n;
      SplitRun(fl, widths, k);
      RejectedBlock(fl, widths[..k]);
      var r := FloorAfter(fl, widths[..k]);
      RejectedFromBlockStart(r, widths[k..]);
      BlocksFall(1, r.floor);
      SevenBlocks();
    }
  }

  // So at least one sample in every 2048 moves the filter.
  lemma {:induction false} TrustedShare(fl: Floor, widths: seq<int>)
    requires Counted(fl) && Readable(widths)
    ensures TrustCount(fl, widths) >= |widths| / 2048
    decreases |widths|
  {
    if |widths| >= 2048 {
      SplitRun(fl, widths, 2048);
      NeverStarved(fl, widths[..2048]);
      CountedStays(fl, widths[..2048]);
      TrustedShare(FloorAfter(fl, widths[..2048]), widths[2048..]);
    }
  }

  // ----- convergence

  // One successful evaluation under a mapping of a fixed drift.
  datatype Reading = Reading(raw: int, tsf: int, local: int, width: int)

  function Take(f: Filter, drift: real, x: Reading): Filter {
    Absorb(f, drift, x.raw, x.tsf, x.local, x.width)
  }

  function TakeAll(f: Filter, drift: real, xs: seq<Reading>): Filter
    decreases |xs|
  {
    if xs == [] then f else TakeAll(Take(f, drift, xs[0]), drift, xs[1..])
  }

  function WidthsOf(xs: seq<Reading>): (ws: seq<int>)
    ensures |ws| == |xs|
    decreases |xs|
  {
    if xs == [] then [] else [xs[0].width] + WidthsOf(xs[1..])
  }

  // The offset that grows by slope us per local us, and the filter's distance from it.
  function Truth(zero: real, slope: real, local: int): real {
    zero + slope * local as real
  }

  function Error(f: Filter, zero: real, slope: real): real {
    f.value - Truth(zero, slope, f.at)
  }

  // The rate in use when the reading is taken.
  function RateInUse(f: Filter, x: Reading): Option<real> {
    (if Trusts(f.floor, x.width) then TrackRate(f.rate, x.tsf, x.local) else f.rate).ppm
  }

  // The mapping's drift, the ramp the offset is on, the most a reading is off it, and the most the
  // feed-forward misses of it from one reading to the next.
  datatype Course = Course(drift: real, zero: real, slope: real, noise: real, slip: real)

  // What the feed-forward gains on the ramp up to a reading.
  function Missed(f: Filter, c: Course, x: Reading): real {
    Ramp(RateInUse(f, x), c.drift, x.local - f.at) - c.slope * (x.local - f.at) as real
  }

  ghost predicate OnCourse(f: Filter, c: Course, x: Reading) {
    && 0 <= x.local - f.at <= OFFSET_FF_MAX_GAP_US && x.local != 0
    && Abs(Missed(f, c, x)) <= c.slip
    && Abs(x.raw as real - Truth(c.zero, c.slope, x.local)) <= c.noise
  }

  ghost predicate Steady(f: Filter, c: Course, xs: seq<Reading>)
    decreases |xs|
  {
    xs != [] ==> OnCourse(f, c, xs[0]) && Steady(Take(f, c.drift, xs[0]), c, xs[1..])
  }

  lemma TruthMoves(zero: real, slope: real, from: int, to: int)
    ensures Truth(zero, slope, to) == Truth(zero, slope, from) + slope * (to - from) as real
  {
    var a, b := from as real, to as real;
    assert slope * b == slope * a + slope * (b - a);
  }

  // Fed forward, the filter keeps its distance from the truth but for what the feed-forward misses.
  lemma PredictionKeepsError(f: Filter, c: Course, x: Reading)
    requires OnCourse(f, c, x) && f.seeded && f.at != 0
    ensures Predicted(f, RateInUse(f, x), c.drift, x.local) - Truth(c.zero, c.slope, x.local)
      == Error(f, c.zero, c.slope) + Missed(f, c, x)
  {
    hide Trusts, TrackRate, Abs, Ramp;
    TruthMoves(c.zero, c.slope, f.at, x.local);
  }

  // The feed-forward carries the value no further than two seconds, and never back.
  lemma PredictionIsCapped(f: Filter, ppm: Option<real>, drift: real, local: int)
    ensures local <= f.at ==> Predicted(f, ppm, drift, local) == f.value
    ensures local >= f.at + 2_000_000 ==> Predicted(f, ppm, drift, local) == Predicted(f, ppm, drift, f.at + 2_000_000)
  {
  }

  // The reading's disagreement with the prediction is taken for a genuine step.
  predicate Snaps(f: Filter, drift: real, x: Reading) {
    !f.seeded || Abs(x.raw as real - Predicted(f, RateInUse(f, x), drift, x.local)) > OFFSET_SNAP_US
  }

  predicate NeverSnaps(f: Filter, drift: real, xs: seq<Reading>)
    decreases |xs|
  {
    xs != [] ==> !Snaps(f, drift, xs[0]) && NeverSnaps(Take(f, drift, xs[0]), drift, xs[1..])
  }

  // A trusted sample closes 1/256 of the distance to what it reads; an untrusted one nothing.
  lemma OneReading(f: Filter, c: Course, x: Reading)
    requires OnCourse(f, c, x) && f.seeded && f.at != 0
    requires Abs(Error(f, c.zero, c.slope)) + c.slip + c.noise <= OFFSET_SNAP_US
    ensures var (g, e) := (Take(f, c.drift, x), Error(f, c.zero, c.slope) + Missed(f, c, x));
      && g.seeded && g.at == x.local && g.at != 0 && g.floor == TrackFloor(f.floor, x.width)
      && !Snaps(f, c.drift, x)
      && Error(g, c.zero, c.slope) == if Trusts(f.floor, x.width)
           then 255.0 / 256.0 * e + (x.raw as real - Truth(c.zero, c.slope, x.local)) / 256.0
           else e
  {
    PredictionKeepsError(f, c, x);
    hide Trusts, TrackRate, TrackFloor, Predicted, Truth, Missed;
  }

  function Decay(n: nat): (r: real)
    ensures 0.0 < r <= 1.0
  {
    if n == 0 then 1.0 else 255.0 / 256.0 * Decay(n - 1)
  }

  lemma {:induction false} DecayFalls(m: nat, n: nat)
    requires m <= n
    ensures Decay(n) <= Decay(m)
  {
    if m < n {
      DecayFalls(m, n - 1);
    }
  }

  // Untrusted samples never reach `span` in a row; `since` have gone by already.
  ghost predicate Spaced(fl: Floor, widths: seq<int>, span: nat, since: nat)
    decreases |widths|
  {
    widths != [] ==>
      if Trusts(fl, widths[0]) then Spaced(TrackFloor(fl, widths[0]), widths[1..], span, 0)
      else since + 1 < span && Spaced(TrackFloor(fl, widths[0]), widths[1..], span, since + 1)
  }

  lemma SnocRun(fl: Floor, widths: seq<int>, w: int)
    ensures FloorAfter(fl, widths + [w]) == TrackFloor(FloorAfter(fl, widths), w)
    ensures TrustCount(fl, widths + [w]) == TrustCount(fl, widths) + if Trusts(FloorAfter(fl, widths), w) then 1 else 0
  {
    var all, r := widths + [w], FloorAfter(fl, widths);
    SplitRun(fl, all, |widths|);
    assert all[..|widths|] == widths && all[|widths|..] == [w];
    assert TrustCount(r, [w]) == if Trusts(r, w) then 1 else 0;
    assert FloorAfter(r, [w]) == TrackFloor(r, w);
  }

  // 2048 is always enough.
  lemma {:induction false} AlwaysSpaced(fl: Floor, gone: seq<int>, widths: seq<int>)
    requires Counted(fl) && Readable(gone) && Readable(widths) && TrustCount(fl, gone) == 0 && |gone| < 2048
    ensures Spaced(FloorAfter(fl, gone), widths, 2048, |gone|)
    decreases |widths|
  {
    if widths != [] {
      var r, w, more := FloorAfter(fl, gone), widths[0], gone + [widths[0]];
      SnocRun(fl, gone, w);
      CountedStays(fl, more);
      hide Trusts, TrackFloor, Counted;
      if Trusts(r, w) {
        assert FloorAfter(TrackFloor(r, w), []) == TrackFloor(r, w);
        AlwaysSpaced(TrackFloor(r, w), [], widths[1..]);
      } else {
        if |more| == 2048 {
          NeverStarved(fl, more);
        }
        AlwaysSpaced(fl, more, widths[1..]);
      }
    }
  }

  // What the feed-forward can have added to the error, `since` samples after a trusted one.
  function Slack(c: Course, span: nat, since: nat): real {
    256.0 * (span as real * c.slip) + since as real * c.slip
  }

  // Within noise and slack of the truth but for an excess, and out of reach of a snap.
  ghost predicate Close(f: Filter, c: Course, span: nat, since: nat, excess: real) {
    && f.seeded && f.at != 0 && since < span
    && 0.0 <= c.noise && 0.0 <= c.slip && 0.0 <= excess
    && Abs(Error(f, c.zero, c.slope)) <= c.noise + Slack(c, span, since) + excess
    && 2.0 * c.noise + Slack(c, span, span) + excess <= OFFSET_SNAP_US
  }

  lemma SlackStep(c: Course, span: nat, since: nat)
    requires since < span && c.slip >= 0.0
    ensures Slack(c, span, since + 1) == Slack(c, span, since) + c.slip
    ensures Slack(c, span, 0) <= Slack(c, span, since + 1) <= Slack(c, span, span)
    ensures 255.0 / 256.0 * Slack(c, span, since + 1) <= Slack(c, span, 0)
  {
    var k, n := (since + 1) as real, span as real;
    var x, y := k * c.slip, n * c.slip;
    assert since as real * c.slip == x - c.slip;
    MulLe(k, n, c.slip, x, y);
    MulLe(0.0, k, c.slip, 0.0, x);
  }

  lemma ExcessShrinks(e: real, m: real, d: real, noise: real, slip: real, slack: real, next: real, low: real, excess: real)
    requires Abs(m) <= slip && Abs(d) <= noise && Abs(e) <= noise + slack + excess
    requires next == slack + slip && 255.0 / 256.0 * next <= low && excess >= 0.0
    ensures Abs(e + m) <= noise + next + excess
    ensures Abs(255.0 / 256.0 * (e + m) + d / 256.0) <= noise + low + 255.0 / 256.0 * excess
  {
  }

  function Shrunk(excess: real, trusted: bool): real {
    if trusted then 255.0 / 256.0 * excess else excess
  }

  lemma ReadingShrinks(f: Filter, c: Course, span: nat, since: nat, excess: real, x: Reading)
    requires Close(f, c, span, since, excess) && OnCourse(f, c, x)
    requires Trusts(f.floor, x.width) || since + 1 < span
    ensures var (g, trusted) := (Take(f, c.drift, x), Trusts(f.floor, x.width));
      && !Snaps(f, c.drift, x) && g.floor == TrackFloor(f.floor, x.width)
      && Close(g, c, span, if trusted then 0 else since + 1, Shrunk(excess, trusted))
  {
    SlackStep(c, span, since);
    hide Take, Error, Trusts, TrackFloor, Truth, RateInUse, Missed, Slack, Snaps;
    OneReading(f, c, x);
    ExcessShrinks(Error(f, c.zero, c.slope), Missed(f, c, x), x.raw as real - Truth(c.zero, c.slope, x.local),
      c.noise, c.slip, Slack(c, span, since), Slack(c, span, since + 1), Slack(c, span, 0), excess);
  }

  lemma TrustCountStep(fl: Floor, xs: seq<Reading>)
    requires xs != []
    ensures TrustCount(fl, WidthsOf(xs)) == (if Trusts(fl, xs[0].width) then 1 else 0)
      + TrustCount(TrackFloor(fl, xs[0].width), WidthsOf(xs[1..]))
    ensures WidthsOf(xs)[0] == xs[0].width && WidthsOf(xs)[1..] == WidthsOf(xs[1..])
  {
  }

  function Damped(n: nat, x: real): real {
    x * Decay(n)
  }

  lemma DampedStep(rest: nat, excess: real, trusted: bool)
    ensures Damped(rest, Shrunk(excess, trusted)) == Damped((if trusted then 1 else 0) + rest, excess)
  {
    if trusted {
      var k := Decay(rest);
      assert Decay(1 + rest) == 255.0 / 256.0 * k;
      assert (255.0 / 256.0 * excess) * k == excess * (255.0 / 256.0 * k);
    }
  }

  // Each trusted sample takes 1/256 off the excess.
  lemma {:induction false} ErrorDecays(f: Filter, c: Course, span: nat, since: nat, excess: real, xs: seq<Reading>)
    requires Close(f, c, span, since, excess) && Steady(f, c, xs) && Spaced(f.floor, WidthsOf(xs), span, since)
    ensures NeverSnaps(f, c.drift, xs)
    ensures Abs(Error(TakeAll(f, c.drift, xs), c.zero, c.slope))
      <= c.noise + Slack(c, span, span) + Damped(TrustCount(f.floor, WidthsOf(xs)), excess)
    decreases |xs|
  {
    if xs == [] {
      assert Decay(0) == 1.0;
      SlackStep(c, span, since);
    } else {
      var g, trusted := Take(f, c.drift, xs[0]), Trusts(f.floor, xs[0].width);
      TrustCountStep(f.floor, xs);
      hide Close, Take, Trusts, TrackFloor, TrustCount, WidthsOf, OnCourse, Damped, Snaps, Error, Slack, Shrunk;
      ReadingShrinks(f, c, span, since, excess, xs[0]);
      DampedStep(TrustCount(g.floor, WidthsOf(xs[1..])), excess, trusted);
      ErrorDecays(g, c, span, if trusted then 0 else since + 1, Shrunk(excess, trusted), xs[1..]);
    }
  }

  lemma DampedFalls(m: nat, n: nat, x: real, y: real)
    requires m <= n && 0.0 <= x <= y
    ensures Damped(n, x) <= Damped(m, y)
  {
    DecayFalls(m, n);
    var z := Damped(m, x);
    MulLe(Decay(n), Decay(m), x, Damped(n, x), z);
    MulLe(x, y, Decay(m), z, Damped(m, y));
  }

  // A filter that readings on this course cannot make snap.
  ghost predicate InReach(f: Filter, c: Course, span: nat) {
    && f.seeded && f.at != 0 && span > 0 && 0.0 <= c.noise && 0.0 <= c.slip
    && Abs(Error(f, c.zero, c.slope)) + c.noise + span as real * c.slip <= OFFSET_SNAP_US
    && 2.0 * c.noise + Slack(c, span, span) <= OFFSET_SNAP_US
  }

  // What the error exceeds noise and slack by.
  function ExcessOf(f: Filter, c: Course, span: nat): real {
    Max(0.0, Abs(Error(f, c.zero, c.slope)) - c.noise - Slack(c, span, 0))
  }

  lemma InReachIsClose(f: Filter, c: Course, span: nat)
    requires InReach(f, c, span)
    ensures Close(f, c, span, 0, ExcessOf(f, c, span))
    ensures 0.0 <= ExcessOf(f, c, span) <= Abs(Error(f, c.zero, c.slope))
  {
    SlackStep(c, span, 0);
    hide Error;
    assert Slack(c, span, span) == Slack(c, span, 0) + span as real * c.slip;
    assert Slack(c, span, 0) >= 0.0;
  }

  // Main result: with the rate in use off by no more than `slip` from one reading to the next, the
  // error falls, from any that does not snap, below the noise plus 257 * span times that slip, span
  // being the samples among which one is always trusted, plus a part of itself that loses 1/256 with
  // every trusted sample.
  lemma ErrorIsBounded(f: Filter, c: Course, span: nat, xs: seq<Reading>)
    requires InReach(f, c, span) && Steady(f, c, xs) && Spaced(f.floor, WidthsOf(xs), span, 0)
    ensures Abs(Error(TakeAll(f, c.drift, xs), c.zero, c.slope))
      <= c.noise + Slack(c, span, span) + Damped(TrustCount(f.floor, WidthsOf(xs)), Abs(Error(f, c.zero, c.slope)))
    ensures NeverSnaps(f, c.drift, xs)
  {
    InReachIsClose(f, c, span);
    var n, x := TrustCount(f.floor, WidthsOf(xs)), ExcessOf(f, c, span);
    hide Close, InReach, Steady, Spaced, TakeAll, NeverSnaps, TrustCount, WidthsOf, Damped, Error, Slack, ExcessOf;
    ErrorDecays(f, c, span, 0, x, xs);
    DampedFalls(n, n, x, Abs(Error(f, c.zero, c.slope)));
  }

  // Whatever the sandwiches' widths, one sample in 2048 is trusted. So on a ramp the rate in use
  // follows exactly, the error falls to the noise.
  lemma FilterConverges(f: Filter, c: Course, xs: seq<Reading>)
    requires InReach(f, c, 2048) && Counted(f.floor) && Readable(WidthsOf(xs)) && Steady(f, c, xs)
    ensures Abs(Error(TakeAll(f, c.drift, xs), c.zero, c.slope))
      <= c.noise + Slack(c, 2048, 2048) + Damped(|xs| / 2048, Abs(Error(f, c.zero, c.slope)))
    ensures c.slip == 0.0 ==> Slack(c, 2048, 2048) == 0.0
    ensures NeverSnaps(f, c.drift, xs)
  {
    assert FloorAfter(f.floor, []) == f.floor;
    AlwaysSpaced(f.floor, [], WidthsOf(xs));
    TrustedShare(f.floor, WidthsOf(xs));
    hide InReach, Steady, Spaced, TakeAll, NeverSnaps, TrustCount, WidthsOf, Damped, Error, Counted, Readable;
    ErrorIsBounded(f, c, 2048, xs);
    var e := Abs(Error(f, c.zero, c.slope));
    DampedFalls(|xs| / 2048, TrustCount(f.floor, WidthsOf(xs)), e, e);
  }

  // ----- the residual is the rate error times tau

  // Readings no further apart than `gap` us, at rates within `off` ppm of the true one.
  ghost predicate NearRate(f: Filter, c: Course, rate: real, off: real, gap: int, xs: seq<Reading>)
    decreases |xs|
  {
    xs != [] ==>
      var x := xs[0];
      && 0 <= x.local - f.at <= gap && x.local != 0
      && RateInUse(f, x).Some? && Abs(RateInUse(f, x).value - rate) <= off
      && Abs(x.raw as real - Truth(c.zero, c.slope, x.local)) <= c.noise
      && NearRate(Take(f, c.drift, x), c, rate, off, gap, xs[1..])
  }

  lemma SlipOf(r: real, rate: real, drift: real, off: real, gap: int, dt: int, missed: real)
    requires Abs(r - rate) <= off && 0 <= dt <= gap
    requires missed == (r - drift) * PPM * dt as real - (rate - drift) * PPM * dt as real
    ensures Abs(missed) <= off * PPM * gap as real
  {
    var k, t := (r - rate) * PPM, dt as real;
    var bound := off * PPM;
    assert missed == k * t;
    MulAbs(k, bound, t, k * t, bound * t);
    MulLe(t, gap as real, bound, bound * t, bound * gap as real);
  }

  lemma {:induction false} NearRateIsSteady(f: Filter, c: Course, rate: real, off: real, gap: int, xs: seq<Reading>)
    requires NearRate(f, c, rate, off, gap, xs) && gap <= OFFSET_FF_MAX_GAP_US
    requires c.slope == (rate - c.drift) * PPM && c.slip == off * PPM * gap as real
    ensures Steady(f, c, xs)
    decreases |xs|
  {
    if xs != [] {
      var x := xs[0];
      hide Take, RateInUse, Truth;
      SlipOf(RateInUse(f, x).value, rate, c.drift, off, gap, x.local - f.at, Missed(f, c, x));
      NearRateIsSteady(Take(f, c.drift, x), c, rate, off, gap, xs[1..]);
    }
  }

  // Main result: the residual is the rate's error times tau. At rates within `off` ppm of the true one,
  // what is left of the error is the noise and `off` ppm of tau, the time of 257 * span readings.
  lemma ResidualIsRateErrorTimesTau(f: Filter, c: Course, rate: real, off: real, gap: int, span: nat, xs: seq<Reading>)
    requires InReach(f, c, span) && Spaced(f.floor, WidthsOf(xs), span, 0)
    requires NearRate(f, c, rate, off, gap, xs) && gap <= OFFSET_FF_MAX_GAP_US
    requires c.slope == (rate - c.drift) * PPM && c.slip == off * PPM * gap as real
    ensures var tau := (257 * span * gap) as real;
      Abs(Error(TakeAll(f, c.drift, xs), c.zero, c.slope))
        <= c.noise + off * PPM * tau + Damped(TrustCount(f.floor, WidthsOf(xs)), Abs(Error(f, c.zero, c.slope)))
    ensures NeverSnaps(f, c.drift, xs)
  {
    NearRateIsSteady(f, c, rate, off, gap, xs);
    ErrorIsBounded(f, c, span, xs);
    hide *;
    SlackIsTau(c, off, gap, span);
  }

  lemma SlackIsTau(c: Course, off: real, gap: int, span: nat)
    requires c.slip == off * PPM * gap as real
    ensures Slack(c, span, span) == off * PPM * (257 * span * gap) as real
  {
    var k, n, g := off * PPM, span as real, gap as real;
    assert (257 * span * gap) as real == 257.0 * (n * g) by {
      RealProduct(span, gap);
      assert 257 * span * gap == 257 * (span * gap);
    }
    assert n * (k * g) == k * (n * g);
    assert k * (257.0 * (n * g)) == 257.0 * (k * (n * g));
  }

  // ----- the rate in use

  // A rate of the counter to within a quarter ppm for each microsecond its readings are off.
  ghost predicate KnowsRate(r: Rate, k: Counter, err: real) {
    && (r.refLocal != 0 ==> k.Reads(r.refTsf, r.refLocal, err))
    && (r.ppm.Some? ==> Abs(r.ppm.value - k.rate) <= 0.25 * err)
  }

  lemma TrackKnowsRate(r: Rate, k: Counter, err: real, tsf: int, local: int)
    requires KnowsRate(r, k, err) && k.Reads(tsf, local, err) && err >= 0.0
    ensures var p := TrackRate(r, tsf, local);
      && KnowsRate(p, k, err) && (r.ppm.Some? ==> p.ppm.Some?)
      && (r.refLocal != 0 && local - r.refLocal >= 8_000_000 && Abs(k.rate) + 0.25 * err < 100.0 ==> p.ppm.Some?)
  {
    if r.refLocal != 0 && local - r.refLocal >= OFFSET_RATE_WINDOW_US {
      MeasuredWithin(k, r.refTsf, r.refLocal, tsf, local, err, OFFSET_RATE_WINDOW_US, 0.25 * err);
      hide MeasuredPpm;
    }
  }

  // A rate that is off loses a quarter of its error with each window measured exactly.
  lemma RateErrorShrinks(r: Rate, k: Counter, tsf: int, local: int)
    requires r.ppm.Some? && r.refLocal != 0 && local - r.refLocal >= 8_000_000 && Abs(k.rate) < 100.0
    requires k.Reads(r.refTsf, r.refLocal, 0.0) && k.Reads(tsf, local, 0.0)
    ensures var p := TrackRate(r, tsf, local); p.ppm.Some? && p.ppm.value - k.rate == 0.75 * (r.ppm.value - k.rate)
  {
    MeasuredWithin(k, r.refTsf, r.refLocal, tsf, local, 0.0, OFFSET_RATE_WINDOW_US, 0.0);
    hide MeasuredPpm;
  }

  // Readings of the counter to within err us, no further apart than gap, each within noise of the ramp.
  ghost predicate OnCounter(f: Filter, c: Course, k: Counter, err: real, gap: int, xs: seq<Reading>)
    decreases |xs|
  {
    xs != [] ==>
      var x := xs[0];
      && 0 <= x.local - f.at <= gap && x.local != 0 && k.Reads(x.tsf, x.local, err)
      && Abs(x.raw as real - Truth(c.zero, c.slope, x.local)) <= c.noise
      && OnCounter(Take(f, c.drift, x), c, k, err, gap, xs[1..])
  }

  lemma TakeKnowsRate(f: Filter, drift: real, k: Counter, err: real, x: Reading)
    requires KnowsRate(f.rate, k, err) && f.rate.ppm.Some? && k.Reads(x.tsf, x.local, err) && err >= 0.0
    ensures RateInUse(f, x).Some? && Abs(RateInUse(f, x).value - k.rate) <= 0.25 * err
    ensures KnowsRate(Take(f, drift, x).rate, k, err) && Take(f, drift, x).rate.ppm.Some?
  {
    TrackKnowsRate(f.rate, k, err, x.tsf, x.local);
    hide TrackRate, Trusts, Predicted;
  }

  lemma {:induction false} CounterIsNearRate(f: Filter, c: Course, k: Counter, err: real, gap: int, xs: seq<Reading>)
    requires KnowsRate(f.rate, k, err) && f.rate.ppm.Some? && OnCounter(f, c, k, err, gap, xs) && err >= 0.0
    ensures NearRate(f, c, k.rate, 0.25 * err, gap, xs)
    decreases |xs|
  {
    if xs != [] {
      TakeKnowsRate(f, c.drift, k, err, xs[0]);
      hide Take, KnowsRate, RateInUse, Truth;
      CounterIsNearRate(Take(f, c.drift, xs[0]), c, k, err, gap, xs[1..]);
    }
  }

  // Main result, with nothing assumed of the rate the filter uses: once it has measured one, samples
  // that read a counter of constant rate to within err us leave of the error the noise and err / 4 ppm
  // of tau.
  lemma ResidualOnACounter(f: Filter, c: Course, k: Counter, err: real, off: real, gap: int, span: nat, xs: seq<Reading>)
    requires off == 0.25 * err && InReach(f, c, span) && Spaced(f.floor, WidthsOf(xs), span, 0)
    requires KnowsRate(f.rate, k, err) && f.rate.ppm.Some? && OnCounter(f, c, k, err, gap, xs) && err >= 0.0
    requires gap <= OFFSET_FF_MAX_GAP_US
    requires c.slope == (k.rate - c.drift) * PPM && c.slip == off * PPM * gap as real
    ensures var tau := (257 * span * gap) as real;
      Abs(Error(TakeAll(f, c.drift, xs), c.zero, c.slope))
        <= c.noise + off * PPM * tau + Damped(TrustCount(f.floor, WidthsOf(xs)), Abs(Error(f, c.zero, c.slope)))
    ensures NeverSnaps(f, c.drift, xs)
  {
    CounterIsNearRate(f, c, k, err, gap, xs);
    assert NearRate(f, c, k.rate, off, gap, xs);
    hide *;
    ResidualIsRateErrorTimesTau(f, c, k.rate, off, gap, span, xs);
  }

  // ----- queries that fail

  // While the mapping lives and the TSF is unreadable, there is an answer for three seconds after the
  // last sample, and it is the truth of that instant to within the error the filter had and one
  // microsecond of truncation.
  lemma BridgedAnswerIsTrue(f: Filter, q: Query, zero: real, slope: real)
    requires !Expired(q.mapping, q.now) && q.sample.NoTsf? && f.seeded && f.at != 0
    requires f.rate.ppm.Some? && slope == (f.rate.ppm.value - q.mapping.value.line.drift) * PPM
    ensures Answer(f, q).Some? <==> q.now - f.at <= SHARED_HOLD_GRACE_US
    ensures Answer(f, q).Some? ==>
      Abs(Answer(f, q).value as real - Truth(zero, slope, q.now)) < Abs(Error(f, zero, slope)) + 1.0
  {
    TruthMoves(zero, slope, f.at, q.now);
    assert Held(f, q.mapping.value.line.drift, q.now) == Truth(zero, slope, q.now) + Error(f, zero, slope);
    hide Truth, Held, Error;
  }

  function AfterAll(f: Filter, qs: seq<Query>): Filter {
    if qs == [] then f else After(AfterAll(f, qs[..|qs| - 1]), qs[|qs| - 1])
  }

  function Successes(qs: seq<Query>): seq<Query> {
    if qs == [] then []
    else
      var init, q := Successes(qs[..|qs| - 1]), qs[|qs| - 1];
      if Succeeds(q) then init + [q] else init
  }

  lemma AfterSame(f: Filter, g: Filter, q: Query)
    requires f.(valid := true) == g.(valid := true)
    ensures After(f, q).(valid := true) == if Succeeds(q) then After(g, q).(valid := true) else f.(valid := true)
  {
    hide Trusts, TrackRate, TrackFloor, Blend, Ramp, Evaluate;
  }

  // Main result for runs with failures: expired mappings, age clamps and unreadable samples, wherever
  // they fall in a run of queries, leave the filter where the successful queries alone would. So the
  // results above about runs of samples hold with failures between them.
  lemma {:induction false} OnlySuccessesCount(f: Filter, qs: seq<Query>)
    ensures AfterAll(f, qs).(valid := true) == AfterAll(f, Successes(qs)).(valid := true)
  {
    if qs != [] {
      var init, q := qs[..|qs| - 1], qs[|qs| - 1];
      OnlySuccessesCount(f, init);
      hide After, Succeeds;
      AfterSame(AfterAll(f, init), AfterAll(f, Successes(init)), q);
      assert (Successes(init) + [q])[..|Successes(init)|] == Successes(init);
    }
  }

  // ----- what is answered

  // A query succeeds on a mapping no more than five seconds old and a sample from a millisecond before
  // its base to ten seconds after it.
  lemma SucceedsExactly(q: Query)
    ensures Succeeds(q) <==>
      && q.mapping.Some? && q.now - q.mapping.value.updated <= 5_000_000
      && q.sample.Tsf? && -1000 <= q.sample.tsf - q.mapping.value.line.base <= 10_000_000
  {
    if q.mapping.Some? && q.sample.Tsf? {
      EvaluateIsImplied(q.mapping.value.line, q.sample.tsf, q.sample.local, q.sample.width);
      hide Evaluate, Implied;
    }
  }

  // The offset the mapping implies at the query's sample.
  function ImpliedBy(q: Query): real
    requires Succeeds(q)
  {
    Implied(q.mapping.value.line, q.sample.tsf, q.sample.local)
  }

  function ReadingOf(q: Query): Reading
    requires Succeeds(q)
  {
    Reading(Evaluate(q.mapping.value.line, q.sample).us, q.sample.tsf, q.sample.local, q.sample.width)
  }

  lemma ReadingIsImplied(q: Query)
    requires Succeeds(q)
    ensures Abs(ReadingOf(q).raw as real - ImpliedBy(q)) < 1.0
  {
    EvaluateIsImplied(q.mapping.value.line, q.sample.tsf, q.sample.local, q.sample.width);
    hide Evaluate, Implied;
  }

  // A filter with no value yet, or one more than 2 ms from the reading, answers the implied offset.
  lemma FirstAnswerIsImplied(f: Filter, q: Query)
    requires Succeeds(q)
    requires !f.seeded || Snaps(f, q.mapping.value.line.drift, ReadingOf(q))
    ensures Answer(f, q).Some? && Abs(Answer(f, q).value as real - ImpliedBy(q)) < 1.0
    ensures After(f, q).seeded && After(f, q).valid && After(f, q).at == q.sample.local
  {
    ReadingIsImplied(q);
    hide Evaluate, ImpliedBy, TrackRate, TrackFloor, Predicted;
    var raw := ReadingOf(q).raw;
    assert After(f, q).value == raw as real;
    assert Trunc(raw as real) == raw;
  }

  // Which it does when the two are more than 2001 us apart.
  lemma FarIsSnap(f: Filter, q: Query)
    requires Succeeds(q) && f.seeded
    requires Abs(ImpliedBy(q) - Predicted(f, RateInUse(f, ReadingOf(q)), q.mapping.value.line.drift, q.sample.local)) >= 2001.0
    ensures Snaps(f, q.mapping.value.line.drift, ReadingOf(q))
  {
    ReadingIsImplied(q);
    hide Evaluate, ImpliedBy, RateInUse, Predicted;
  }

  // The readings of a run of queries.
  function ReadingsOf(qs: seq<Query>): seq<Reading>
    decreases |qs|
  {
    if qs == [] then []
    else if Succeeds(qs[0]) then [ReadingOf(qs[0])] + ReadingsOf(qs[1..])
    else ReadingsOf(qs[1..])
  }

  // Every successful query is under a mapping of the course's drift, and the offset implied is within
  // the course's noise of the ramp, but for the microsecond it may lose.
  ghost predicate QueriesOnCourse(f: Filter, c: Course, qs: seq<Query>)
    decreases |qs|
  {
    qs != [] ==>
      && (Succeeds(qs[0]) ==>
            && qs[0].mapping.value.line.drift == c.drift
            && 0 <= qs[0].sample.local - f.at <= OFFSET_FF_MAX_GAP_US && qs[0].sample.local != 0
            && Abs(Missed(f, c, ReadingOf(qs[0]))) <= c.slip
            && Abs(ImpliedBy(qs[0]) - Truth(c.zero, c.slope, qs[0].sample.local)) <= c.noise - 1.0)
      && QueriesOnCourse(After(f, qs[0]), c, qs[1..])
  }

  // But for the valid flag.
  function Bare(f: Filter): Filter {
    f.(valid := true)
  }

  lemma TakeBare(f: Filter, g: Filter, drift: real, x: Reading)
    requires Bare(f) == Bare(g)
    ensures Bare(Take(f, drift, x)) == Bare(Take(g, drift, x)) && RateInUse(f, x) == RateInUse(g, x)
  {
    hide Trusts, TrackRate, TrackFloor, Blend, Ramp;
  }

  lemma AfterIsTake(f: Filter, q: Query)
    ensures Succeeds(q) ==> After(f, q) == Take(f, q.mapping.value.line.drift, ReadingOf(q))
    ensures !Succeeds(q) ==> Bare(After(f, q)) == Bare(f)
  {
    hide Evaluate, Absorb;
  }

  lemma {:induction false} QueriesAreSteady(f: Filter, g: Filter, c: Course, qs: seq<Query>)
    requires Bare(f) == Bare(g) && QueriesOnCourse(g, c, qs)
    ensures Steady(f, c, ReadingsOf(qs))
    decreases |qs|
  {
    if qs != [] {
      var q := qs[0];
      AfterIsTake(g, q);
      if Succeeds(q) {
        ReadingIsImplied(q);
        TakeBare(f, g, c.drift, ReadingOf(q));
        hide Take, RateInUse, Truth, After, Ramp, Succeeds, Evaluate, ImpliedBy;
        QueriesAreSteady(Take(f, c.drift, ReadingOf(q)), After(g, q), c, qs[1..]);
      } else {
        QueriesAreSteady(f, After(g, q), c, qs[1..]);
      }
    }
  }

  lemma {:induction false} AfterAllFirst(f: Filter, qs: seq<Query>)
    requires qs != []
    ensures AfterAll(f, qs) == AfterAll(After(f, qs[0]), qs[1..])
  {
    if |qs| > 1 {
      AfterAllFirst(f, qs[..|qs| - 1]);
      assert qs[..|qs| - 1][1..] == qs[1..][..|qs| - 2];
    } else {
      assert AfterAll(f, qs[..0]) == f;
    }
  }

  lemma {:induction false} QueriesAreReadings(f: Filter, g: Filter, c: Course, qs: seq<Query>)
    requires Bare(f) == Bare(g) && QueriesOnCourse(g, c, qs)
    ensures Bare(AfterAll(g, qs)) == Bare(TakeAll(f, c.drift, ReadingsOf(qs)))
    decreases |qs|
  {
    if qs != [] {
      var q := qs[0];
      AfterAllFirst(g, qs);
      AfterIsTake(g, q);
      hide Take, After, AfterAll, Evaluate;
      if Succeeds(q) {
        TakeBare(f, g, c.drift, ReadingOf(q));
        QueriesAreReadings(Take(f, c.drift, ReadingOf(q)), After(g, q), c, qs[1..]);
      } else {
        QueriesAreReadings(f, After(g, q), c, qs[1..]);
      }
    }
  }

  // Main result: over a run of queries on a course, failed ones among them, the answer to a successful
  // one is the truth of its sample to within the bound on the error and a microsecond.
  lemma AnswersFollowTheTruth(f: Filter, c: Course, span: nat, qs: seq<Query>)
    requires qs != [] && Succeeds(qs[|qs| - 1]) && InReach(f, c, span) && QueriesOnCourse(f, c, qs)
    requires Spaced(f.floor, WidthsOf(ReadingsOf(qs)), span, 0)
    ensures var (g, q, xs) := (AfterAll(f, qs[..|qs| - 1]), qs[|qs| - 1], ReadingsOf(qs));
      && Answer(g, q).Some?
      && Abs(Answer(g, q).value as real - Truth(c.zero, c.slope, q.sample.local))
           < c.noise + Slack(c, span, span)
             + Damped(TrustCount(f.floor, WidthsOf(xs)), Abs(Error(f, c.zero, c.slope))) + 1.0
  {
    var g, q := AfterAll(f, qs[..|qs| - 1]), qs[|qs| - 1];
    assert AfterAll(f, qs) == After(g, q);
    hide *;
    ErrorOfQueries(f, c, span, qs);
    AnswerIsHeld(g, q, c.zero, c.slope);
  }

  lemma ErrorOfQueries(f: Filter, c: Course, span: nat, qs: seq<Query>)
    requires InReach(f, c, span) && QueriesOnCourse(f, c, qs) && Spaced(f.floor, WidthsOf(ReadingsOf(qs)), span, 0)
    ensures Abs(Error(AfterAll(f, qs), c.zero, c.slope))
      <= c.noise + Slack(c, span, span)
         + Damped(TrustCount(f.floor, WidthsOf(ReadingsOf(qs))), Abs(Error(f, c.zero, c.slope)))
  {
    hide *;
    QueriesAreSteady(f, f, c, qs);
    QueriesAreReadings(f, f, c, qs);
    ErrorIsBounded(f, c, span, ReadingsOf(qs));
    BareError(AfterAll(f, qs), TakeAll(f, c.drift, ReadingsOf(qs)), c.zero, c.slope);
  }

  lemma BareError(f: Filter, g: Filter, zero: real, slope: real)
    ensures Bare(f) == Bare(g) ==> Error(f, zero, slope) == Error(g, zero, slope)
  {
  }

  // The answer to a successful query is what the filter holds after it.
  lemma AnswerIsHeld(f: Filter, q: Query, zero: real, slope: real)
    requires Succeeds(q)
    ensures Answer(f, q).Some?
    ensures Abs(Answer(f, q).value as real - Truth(zero, slope, q.sample.local)) < Abs(Error(After(f, q), zero, slope)) + 1.0
  {
    assert After(f, q).at == q.sample.local;
    assert Answer(f, q) == Some(Trunc(After(f, q).value));
    hide After, Answer, Trunc, Truth, Succeeds;
    TruncIsNear(After(f, q).value);
  }

  // ----- the valid flag

  // The last thing to tell: a value taken in since the last failure that was not bridged.
  function ToldSince(f: Filter, qs: seq<Query>): bool {
    qs != [] &&
    var (before, q) := (AfterAll(f, qs[..|qs| - 1]), qs[|qs| - 1]);
    if Succeeds(q) then
      ToldSince(f, qs[..|qs| - 1]) || Trusts(before.floor, q.sample.width)
        || Snaps(before, q.mapping.value.line.drift, ReadingOf(q))
    else ToldSince(f, qs[..|qs| - 1]) && Answer(before, q).Some?
  }

  // The filter calls itself valid exactly while it has taken in a reading since it last had no answer.
  lemma {:induction false} ValidIsToldSince(f: Filter, qs: seq<Query>)
    requires !f.valid
    ensures AfterAll(f, qs).valid == ToldSince(f, qs)
  {
    if qs != [] {
      ValidIsToldSince(f, qs[..|qs| - 1]);
      hide Evaluate, TrackRate, TrackFloor, Predicted, Blend, Trunc, Trusts, Held;
    }
  }
}
