// components/clock_sync/tsf_sync.cpp, shared_server_offset_us: the player's low-passed server - local
// offset, with a trust threshold derived from the sandwich widths actually seen.
module OffsetFilter {
  import opened Numeric
  import opened TsfLine
  import TsfDevice

  const MAPPING_EXPIRY_US: int := 5_000_000
  const SHARED_HOLD_GRACE_US: int := 3_000_000
  const SANDWICH_LOOSE_MAX_US: int := 400
  const SANDWICH_TRUST_FACTOR: int := 2
  const SANDWICH_FLOOR_BLOCK: int := 256
  const OFFSET_RATE_WINDOW_US: int := 8_000_000
  const OFFSET_RATE_ALPHA: real := 0.25
  const OFFSET_RATE_MAX_PPM: real := 100.0
  const OFFSET_FF_MAX_GAP_US: int := 2_000_000
  const OFFSET_EWMA_ALPHA: real := 1.0 / 256.0
  const OFFSET_SNAP_US: real := 2000.0

  // The narrowest sandwich of the last whole block, and of the block under way; 0 is none yet.
  datatype Floor = Floor(floor: int, blockMin: int, n: int)

  // The rate reference and the measured TSF-against-local rate.
  datatype Rate = Rate(refTsf: int, refLocal: int, ppm: Option<real>)

  // at is the local instant of the last sample, 0 before the first.
  datatype Filter = Filter(value: real, valid: bool, seeded: bool, at: int, rate: Rate, floor: Floor)

  const INITIAL: Filter := Filter(0.0, false, false, 0, Rate(0, 0, None), Floor(0, 0, 0))

  // ----- the trust threshold

  function TrackFloor(fl: Floor, width: int): Floor {
    var low := if fl.blockMin == 0 || width < fl.blockMin then width else fl.blockMin;
    if fl.n + 1 >= SANDWICH_FLOOR_BLOCK || fl.floor == 0 then Floor(low, 0, 0)
    else Floor(fl.floor, low, fl.n + 1)
  }

  // A sample is judged against the floor it has just been counted in.
  predicate Trusts(fl: Floor, width: int) {
    width <= TrackFloor(fl, width).floor * SANDWICH_TRUST_FACTOR
  }

  // ----- the rate

  function MixRate(ppm: Option<real>, measured: real): Option<real> {
    if Abs(measured) >= OFFSET_RATE_MAX_PPM then ppm
    else match ppm
      case None => Some(measured)
      case Some(r) => Some(r + OFFSET_RATE_ALPHA * (measured - r))
  }

  function TrackRate(r: Rate, tsf: int, local: int): Rate {
    if r.refLocal == 0 then Rate(tsf, local, r.ppm)
    else if local - r.refLocal >= OFFSET_RATE_WINDOW_US then
      Rate(tsf, local, MixRate(r.ppm, MeasuredPpm(local - r.refLocal, tsf - r.refTsf)))
    else r
  }

  // ----- the filter

  // What the filter's value gains over an interval.
  function Ramp(ppm: Option<real>, drift: real, gap: int): real {
    match ppm
    case None => 0.0
    case Some(r) => (r - drift) * PPM * gap as real
  }

  function Predicted(f: Filter, ppm: Option<real>, drift: real, local: int): real {
    if f.seeded && f.at != 0 then f.value + Ramp(ppm, drift, ClampInt(local - f.at, 0, OFFSET_FF_MAX_GAP_US)) else f.value
  }

  function Blend(value: real, raw: int): real {
    value + OFFSET_EWMA_ALPHA * (raw as real - value)
  }

  // A successful evaluation.
  function Absorb(f: Filter, drift: real, raw: int, tsf: int, local: int, width: int): Filter {
    var trusted := Trusts(f.floor, width);
    var rate := if trusted then TrackRate(f.rate, tsf, local) else f.rate;
    var value := Predicted(f, rate.ppm, drift, local);
    var g := f.(rate := rate, floor := TrackFloor(f.floor, width), at := local, value := value);
    if !f.seeded || Abs(raw as real - value) > OFFSET_SNAP_US then g.(value := raw as real, valid := true, seeded := true)
    else if trusted then g.(value := Blend(value, raw), valid := true)
    else g
  }

  predicate Expired(mapping: Option<TsfDevice.Mapping>, now: int) {
    mapping.None? || now - mapping.value.updated > MAPPING_EXPIRY_US
  }

  // An unreadable TSF is bridged by the value held, for a while.
  predicate Bridges(f: Filter, now: int) {
    f.seeded && f.at != 0 && now - f.at <= SHARED_HOLD_GRACE_US
  }

  function Held(f: Filter, drift: real, now: int): real {
    f.value + Ramp(f.rate.ppm, drift, now - f.at)
  }

  datatype Query = Query(mapping: Option<TsfDevice.Mapping>, now: int, sample: Sample)

  predicate Succeeds(q: Query) {
    !Expired(q.mapping, q.now) && Evaluate(q.mapping.value.line, q.sample).Offset?
  }

  function After(f: Filter, q: Query): Filter {
    if Succeeds(q) then
      Absorb(f, q.mapping.value.line.drift, Evaluate(q.mapping.value.line, q.sample).us, q.sample.tsf, q.sample.local,
        q.sample.width)
    else if !Expired(q.mapping, q.now) && q.sample.NoTsf? && Bridges(f, q.now) then f
    else f.(valid := false)
  }

  // The answer, or none: the caller then uses its own Kalman offset.
  function Answer(f: Filter, q: Query): Option<int> {
    if Succeeds(q) then Some(Trunc(After(f, q).value))
    else if !Expired(q.mapping, q.now) && q.sample.NoTsf? && Bridges(f, q.now) then
      Some(Trunc(Held(f, q.mapping.value.line.drift, q.now)))
    else None
  }

  class SharedOffset {
    var value: real
    var valid: bool
    var seeded: bool
    var at: int
    var refTsf: int
    var refLocal: int
    var ppm: Option<real>
    var floor: int
    var blockMin: int
    var blockN: int

    ghost function State(): Filter
      reads this
    {
      Filter(value, valid, seeded, at, Rate(refTsf, refLocal, ppm), Floor(floor, blockMin, blockN))
    }

    constructor ()
      ensures State() == INITIAL
    {
      value, valid, seeded, at := 0.0, false, false, 0;
      refTsf, refLocal, ppm := 0, 0, None;
      floor, blockMin, blockN := 0, 0, 0;
    }

    method CountWidth(width: int)
      modifies this`floor, this`blockMin, this`blockN
      ensures Floor(floor, blockMin, blockN) == TrackFloor(old(Floor(floor, blockMin, blockN)), width)
    {
      blockMin := if blockMin == 0 || width < blockMin then width else blockMin;
      blockN := blockN + 1;
      if blockN >= SANDWICH_FLOOR_BLOCK || floor == 0 {
        floor, blockMin, blockN := blockMin, 0, 0;
      }
    }

    method MeasureRate(tsf: int, local: int)
      modifies this`refTsf, this`refLocal, this`ppm
      ensures Rate(refTsf, refLocal, ppm) == TrackRate(old(Rate(refTsf, refLocal, ppm)), tsf, local)
    {
      if refLocal == 0 {
        refTsf, refLocal := tsf, local;
      } else if local - refLocal >= OFFSET_RATE_WINDOW_US {
        var measured := MeasuredPpm(local - refLocal, tsf - refTsf);
        if Abs(measured) < OFFSET_RATE_MAX_PPM {
          ppm := Some(if ppm.Some? then ppm.value + OFFSET_RATE_ALPHA * (measured - ppm.value) else measured);
        }
        refTsf, refLocal := tsf, local;
      }
    }

    method Take(drift: real, raw: int, tsf: int, local: int, width: int)
      modifies this
      ensures State() == Absorb(old(State()), drift, raw, tsf, local, width)
    {
      hide TrackRate, Ramp, Blend, Abs;
      CountWidth(width);
      var trusted := width <= floor * SANDWICH_TRUST_FACTOR;
      hide TrackFloor;
      if trusted {
        MeasureRate(tsf, local);
      }
      if seeded && at != 0 {
        value := value + Ramp(ppm, drift, ClampInt(local - at, 0, OFFSET_FF_MAX_GAP_US));
      }
      at := local;
      if !seeded || Abs(raw as real - value) > OFFSET_SNAP_US {
        value, valid, seeded := raw as real, true, true;
      } else if trusted {
        valid := true;
        value := Blend(value, raw);
      }
    }

    // shared_server_offset_us
    method Ask(q: Query) returns (offset: Option<int>)
      modifies this
      ensures State() == After(old(State()), q) && offset == Answer(old(State()), q)
    {
      hide Absorb, Trunc, Ramp;
      if Expired(q.mapping, q.now) {
        valid := false;
        return None;
      }
      var line := q.mapping.value.line;
      match Evaluate(line, q.sample)
      case Offset(raw) =>
        Take(line.drift, raw, q.sample.tsf, q.sample.local, q.sample.width);
        return Some(Trunc(value));
      case Unreadable =>
        if seeded && at != 0 && q.now - at <= SHARED_HOLD_GRACE_US {
          return Some(Trunc(value + Ramp(ppm, line.drift, q.now - at)));
        }
        valid := false;
        return None;
      case AgeClamp(_) =>
        valid := false;
        return None;
    }
  }
}
