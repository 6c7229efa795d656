# A verified model of the snapclient timing core

This project models, in Dafny, the parts of the ESPHome snapclient components that decide *when* audio plays, and two of the analyser algorithms used to measure the result. Exact reals stand for `double` and `float`, unbounded integers for microseconds and register fields; `Trunc` is the source's `static_cast<int64_t>` and `LlRound` its `llround`.

| module | what it models |
|---|---|
| `Numeric`, `Permutation` | the numeric conversions, and reordered sequences |
| `TsfLine`, `PublishedLine`, `PeerTable`, `Consensus`, `ConsensusMath` | one device of the leaderless TSF consensus: lines and their evaluation, the slew-limited line it publishes, the table of peers and the gates into it, the reweighted mean |
| `TsfDevice`, `TsfSync` | a device as a state and one step per `service` call; the `TsfSync` object with its array of peers, proved against those steps |
| `PeerRoster`, `TsfHistory`, `TsfCadence`, `ConsensusAgreement`, `TsfAgreement`, `TsfProtocol` | what the group keeps over runs: the table as a map, what each slot remembers of its run, when a device serves, speaks and decides, order independence, agreement, provenance on a network that loses, duplicates and reorders packets |
| `OffsetFilter`, `OffsetRuns` | the player's low-passed offset with its derived trust threshold, and its runs |
| `TimeFilter` | the two-state Kalman filter |
| `FracSelect`, `RateLock`, `RateLockRuns`, `RateLockTasks` | the fractional divider: register codec, bracket search, sigma-delta, the lock as an object, its runs, and its two tasks one load or store at a time |
| `Framing`, `ControlSession`, `ControlRuns` | the newline framing of the control connection, the session around it, and its runs |
| `BitPhase`, `I2sSkew`, `LeastSquares` | unwrapping a folded phase, and the sliding-window slope |

Where the source updates state in place the model is a class (`TsfSync`, `SharedOffset`, `KalmanTimeFilter`, `RateLock`, `Session`) or a method with loops over arrays; each method's contract equates the new state with a step function of the old one, and the results over runs are lemmas about those functions.

## What the proofs found

Points where the code and its own comments or checks part, each with a lemma:

- **A trim close below the next integer divides by zero.** `rate_lock.cpp` admits every fraction below one, but above 510/511 the upper end of the bracket is 1/1, which `encode_frac` cannot encode (`z` is 0 and `a / z` follows). `RateLockRuns.ApplyOutcome` gives the three outcomes exactly; `FracSelect.UpperEndEncodable` the boundary, and `RateLockRuns.FirstTrimCanTrap` a first trim from power-on that reaches it.
- **The test against the two dither values never decides anything.** A baseline is only read with dithering off (`RateLockRuns.RecognitionIsByLastValue`). A driver that reprograms only the integer divider is therefore taken for no change at all (`RateLockRuns.DriverReprograms`), and the trim then misses its target (`RateLockRuns.IntegerChangeIsMissed`).
- **The register and `last_frac_val_` can part, and the lock can then take its own trim for the driver's.** `set_trim_ppm` and `tick` both store the register and then the record of it. Whenever neither is between the two, they agree if one task did the last of both, and if the two have never overlapped (`RateLockTasks.RecordFollowsRegister`); an overlap can end either way (`RateLockTasks.OverlapOutcome`, `RateLockTasks.OverlapEndsEitherWay`). Between its two stores a single tick is enough to part them (`RateLockTasks.OneTickPartsThem`), and a baseline read that falls there makes the lock's own value the baseline (`RateLockTasks.OwnValueBecomesBaseline`); `RateLockTasks.ReadRecognises` says exactly when a read recognises it.
- **An outlier does not "contribute almost nothing".** With n contributors it keeps a weight of at least 16 / (16 + n²), whatever its size (`ConsensusMath.WeightAtLeast`): at n = 3 that is 0.64.
- **The same set of lines can give values 1 us apart.** Every device subtracts its own line's value first, and rounding halves away from zero sees on which side of the mean it lies. Anchor and drift are always the same; the value is the same unless the reweighted mean is exactly half way between two integers and the two devices' own values lie on opposite sides of it (`ConsensusAgreement.OrderMovesAtMostOne`, an if and only if; `ConsensusAgreement.OneApartAreAdoptedApart` shows that any two lines 1 us apart do it).
- **"ref_X cancels" holds for equal drifts, two lines and sets that mirror themselves, not in general.** There the adopted line is the same whatever instant the lines are compared at (`ConsensusAgreement.EqualDriftsFixTheLine`, `TwoFixTheLine`, `MirroredFixTheLine`). From three lines on it can depend on it: two equal lines and a third of any other drift, up to a million ppm away, never fix one (`ConsensusAgreement.TripleMoves`). The code does not rely on it: it takes the newest base of the set.
- **A device's own line is neither held to the 200 ppm its peers' are nor aged out.** A published drift can reach 299 ppm (`PublishedLine.PublishedDriftPassesTheGate`), and a device whose estimate went bad more than five seconds ago still counts the line it last published, which everyone else has dropped (`TsfProtocol.OwnLineOutlivesItself`). Two devices of a group in sync count the same lines exactly when the others count the own lines of both, or of neither and these are equal (`TsfAgreement.SameContributors`).
- **A change of server does not reset the table.** A device can adopt the timebase of a server it has left (`TsfProtocol.AdoptsAServerItLeft`). A valid line is foreign exactly when the device named another server in the call that last pooled its address (`TsfHistory.ForeignExactly`); through a call such a line survives exactly when the association does and nothing from its address is pooled (`TsfHistory.ForeignLineSurvives`); and five seconds after the last call under another server none is counted (`TsfHistory.ForeignLinesAgeOut`, `TsfProtocol.RecentServerDecides`).
- **A control line between 32769 and 33279 bytes is handed over or dropped depending on how it was split into chunks**, and no other line is: the chunks matter for a stream exactly when it holds such a line (`Framing.ChunksMatterExactly`).
- **A step of exactly half a bit period unwraps correctly from one side of the fold only** (`BitPhase.StepIsReadable`, `BitPhase.RecoveredExactly`).

## Model

| member | source | states |
|---|---|---|
| `TsfLine.AtIsExact` | components/clock_sync/tsf_sync.cpp:1009-1011 | a line's value at any instant is its affine one, drift in ppm from its base, to within a microsecond |
| `TsfLine.EvaluateIsImplied` | components/clock_sync/tsf_sync.cpp:494-519 | a line is evaluated from 1 ms before its base to 10 s after it, and gives the server - local offset it implies there to within a microsecond |
| `TsfLine.MeasuredIsNear` | components/clock_sync/tsf_sync.cpp:1526-1530 | two readings of a counter of constant rate measure that rate to within twice their error over the interval |
| `ConsensusMath.ComputeRobustMean` | components/clock_sync/consensus_math.h:28-50 | the three loops compute the reweighted mean of the first n values, the plain mean below three |
| `ConsensusMath.RobustMeanPermutes` | components/clock_sync/consensus_math.h:28-50 | the estimate is a function of the multiset of values: order never matters |
| `ConsensusMath.RobustMeanIsBetween` | components/clock_sync/consensus_math.h:28-50 | it never leaves the range of its inputs |
| `ConsensusMath.RobustMeanImage` | components/clock_sync/consensus_math.h:28-50 | translating or reflecting every value translates or reflects the estimate |
| `ConsensusMath.HalfOfTotal` | components/clock_sync/consensus_math.h:37-42 | no deviation from the mean exceeds half of their total |
| `ConsensusMath.WeightAtLeast` | components/clock_sync/consensus_math.h:42-48 | every value keeps a weight of at least 16 / (16 + n^2) |
| `ConsensusMath.HalfWeight` | components/clock_sync/consensus_math.h:37-45 | a value keeps half its weight or more if and only if it is within twice the mean deviation, or twice the floor |
| `Consensus.Reference` | components/clock_sync/tsf_sync.cpp:959-976 | the first loop finds the newest base among own line and live, votable peer lines, none if there are none |
| `Consensus.Add` | components/clock_sync/tsf_sync.cpp:1007-1026 | one contributor's value at the reference, relative to the first one's, and its drift join the buffers |
| `Consensus.Gather` | components/clock_sync/tsf_sync.cpp:985-1047 | the second loop gathers exactly the contributors, own line first and ungated |
| `Consensus.ComputeConsensus` | components/clock_sync/tsf_sync.cpp:928-1056 | the line found is at the newest base, within a microsecond of whatever value the contributors' exact lines are near there, and between their drifts; it is the agreed line of the contributing list |
| `Consensus.AgreedIsDecided` | components/clock_sync/tsf_sync.cpp:959-1056 | the agreed line has just those properties, for every list |
| `Consensus.AgreedFollows` | components/clock_sync/tsf_sync.cpp:959-1056 | contributors within e us and some ppm of one line give an adopted line within e + 1 us of it at the reference, moving from it by no more than those ppm |
| `Consensus.AgreedIsBetween` | components/clock_sync/tsf_sync.cpp:1053 | the adopted value lies within the contributors' values at the reference |
| `Consensus.DriftIsBetween` | components/clock_sync/tsf_sync.cpp:1056 | the adopted drift lies within the contributors' drifts |
| `ConsensusAgreement.NewestPermutes` | components/clock_sync/tsf_sync.cpp:959-976 | the reference instant depends on the set of lines only |
| `ConsensusAgreement.RoundFromAny` | components/clock_sync/tsf_sync.cpp:1053 | rounding a mean relative to two integers differs by at most 1, and by 0 exactly unless the mean is a half-integer between them |
| `ConsensusAgreement.OrderMovesAtMostOne` | components/clock_sync/tsf_sync.cpp:959-1056 | two orders of the same lines give one anchor and one drift and values within 1 us; equal values exactly under the stated condition |
| `ConsensusAgreement.OneApartAreAdoptedApart` | components/clock_sync/tsf_sync.cpp:1015-1053 | whatever a line, with the line 1 us above it the two orders give values 1 us apart |
| `ConsensusAgreement.AloneAdoptsItself` | components/clock_sync/tsf_sync.h:65-66 | a lone device adopts exactly its own published line |
| `ConsensusAgreement.EqualDriftsFixTheLine` | components/clock_sync/tsf_sync.cpp:1083-1089 | with equal drifts the adopted line, before truncation and rounding, is the same for every reference instant |
| `ConsensusAgreement.MirroredFixTheLine` | components/clock_sync/tsf_sync.cpp:1083-1089 | so it is for any set of lines that is its own mirror image, which adopts the line it is mirrored in |
| `ConsensusAgreement.TwoFixTheLine` | components/clock_sync/tsf_sync.cpp:1083-1089 | so it is for any two lines |
| `ConsensusAgreement.TripleMoves` | components/clock_sync/tsf_sync.cpp:1083-1089 | two equal lines and a third of any other drift, up to a million ppm away, have two reference instants whose adopted lines never meet |
| `PublishedLine.PublishedIsTruth` | components/clock_sync/tsf_sync.cpp:1540-1583 | a first line is the TSF less the server's time at its base to within 1 us, as is one more than 20 ms away; any other lies between the old line carried forward and that truth to 1 us |
| `PublishedLine.RateIsTheCounters` | components/clock_sync/tsf_sync.cpp:1523-1537 | over any run of broadcasts reading a counter of constant rate to within err us, the measured rate is that rate to within err / 2 ppm |
| `PublishedLine.BroadcastKnowsRate` | components/clock_sync/tsf_sync.cpp:1523-1537 | it is measured with the first window of four seconds |
| `PublishedLine.RateHalves` | components/clock_sync/tsf_sync.cpp:1532 | a wrong rate loses half its error with each window |
| `PublishedLine.JumpKeepsRate` | components/clock_sync/tsf_sync.cpp:1530-1536 | a jump of the counter past 100 ppm restarts the window and leaves the rate |
| `PublishedLine.TruthMoves` | components/clock_sync/tsf_sync.cpp:1542 | the truth moves at the counter's rate less the estimate's drift |
| `PublishedLine.PublishedDriftIsSlope` | components/clock_sync/tsf_sync.cpp:1542-1561 | the drift published is that slope to within the rate's error, an estimate's drift past 200 ppm counting for nothing |
| `PublishedLine.SlewMove` | components/clock_sync/tsf_sync.cpp:1571-1579 | the move toward the target never overshoots or reverses, is the whole gap beyond 20 ms, and otherwise the smaller of gap and allowance |
| `PublishedLine.SlewedTms` | components/clock_sync/tsf_sync.cpp:1563-1580 | the published value lies between the old line carried forward and the target |
| `PublishedLine.SlewLimitIsRate` | components/clock_sync/tsf_sync.cpp:1573-1576 | the allowance is 50 or 300 us per second of the measured interval, never below 1 us |
| `PublishedLine.SlewConverges` | components/clock_sync/tsf_sync.cpp:1563-1583 | a gap of at most 20 ms to a target on the published slope is exactly 0 after `Patience(gap)` broadcasts a second or more apart, and stays 0 |
| `PublishedLine.PatienceBound` | components/clock_sync/tsf_sync.cpp:231-234 | that is at most 83 broadcasts |
| `PublishedLine.PatienceIsTight` | components/clock_sync/tsf_sync.cpp:231-234 | and 82 are not enough: from 19.9 ms they leave 50 us |
| `PublishedLine.BroadcastKeepsRateBounded` | components/clock_sync/tsf_sync.cpp:1520-1561 | every broadcast keeps the measured rate below 100 ppm and the published drift below 300 |
| `PublishedLine.PublishedDriftPassesTheGate` | components/clock_sync/tsf_sync.cpp:1552-1561 | two broadcasts from power-on that publish 299 ppm |
| `PeerTable.SlotFinds` | components/clock_sync/tsf_sync.cpp:874-906 | the scan finds an address wherever it is, otherwise the first unused slot, otherwise the earliest of those heard longest ago |
| `PeerTable.FindPeerKeeps` | components/clock_sync/tsf_sync.cpp:874-906 | finding an address keeps slots packed and addresses distinct, and changes no other slot |
| `PeerTable.ReceiveChangesOneSlot` | components/clock_sync/tsf_sync.cpp:643-868 | a packet changes its sender's slot only, and gives it a line exactly when every gate passes |
| `PeerTable.OthersKeepTheirSlot` | components/clock_sync/tsf_sync.cpp:874-906 | with the sender known or room left, no other address loses its slot |
| `PeerRoster.RosterFits` | components/clock_sync/tsf_sync.cpp:871-906 | a full table over at most eight addresses knows them all |
| `PeerRoster.TableIsMap` | components/clock_sync/tsf_sync.cpp:594-906 | for at most eight addresses the table refines a map: each address has what its own packets left it, whatever the others sent |
| `PeerRoster.NewestLineIsHeld` | components/clock_sync/tsf_sync.cpp:594-868 | the last line of an address that passes every gate is in the table, as of now, whatever packets without a line, or refused, follow it |
| `PeerRoster.PooledExactly` | components/clock_sync/tsf_sync.cpp:643-868 | a packet's line is taken if and only if sender, access point, server, stream, age and plausibility are acceptable, to within two microseconds of plausibility |
| `PeerRoster.SeenWhenHeard` | components/clock_sync/tsf_sync.cpp:643-700 | an address is heard by each of its packets that passes the header gates and by no other |
| `TsfHistory.SlotsHoldTheirSource` | components/clock_sync/tsf_sync.cpp:566-906 | over every run, with any evictions, a valid slot holds the line of the last packet pooled from its address since the last reset, as of that call |
| `TsfHistory.SourcesWerePooled` | components/clock_sync/tsf_sync.cpp:643-868 | that packet arrived in a call of the run, of that time and server, from that address and with the receiver's present BSSID, and was acceptable there |
| `TsfHistory.ForeignExactly` | components/clock_sync/tsf_sync.cpp:664-671 | a valid line is of a server other than a given one exactly when the device named another one in the call that last pooled the address |
| `TsfHistory.ForeignLinesAgeOut` | components/clock_sync/tsf_sync.cpp:1027-1047 | a device that has named one server for the last five seconds counts lines of that server only |
| `TsfHistory.ForeignSurvives` | components/clock_sync/tsf_sync.cpp:1724-1796 | a call leaves a foreign source exactly when the association is unchanged and nothing from its address is pooled |
| `TsfHistory.RunTableIsMap` | components/clock_sync/tsf_sync.cpp:566-906 | while at most eight other addresses are heard, the table after any run is the map of their sources |
| `TsfHistory.ForeignLineSurvives` | components/clock_sync/tsf_sync.cpp:1724-1796 | so a foreign line is still held after a call exactly under that condition |
| `TsfCadence.RunKeepsTimes` | components/clock_sync/tsf_sync.cpp:1724-1796 | over every run the times of service, line, phase and decision, and the address, are those the ticks alone give |
| `TsfCadence.BeaconsAreTimed` | components/clock_sync/tsf_sync.cpp:1766-1788 | what a call sends is decided by the ticks of the run: a line at most each second and only when settled, otherwise a phase at most every four, nothing offline |
| `TsfCadence.LinesAreSpaced` | components/clock_sync/tsf_sync.cpp:1774-1778 | any two lines of a run are a second apart |
| `TsfCadence.MappingIsLastAgreed` | components/clock_sync/tsf_sync.cpp:1790-1796 | the mapping is what the lines last agreed on; only a decision with contributors or a change of association alters it |
| `TsfCadence.RateIsTheAps` | components/clock_sync/tsf_sync.cpp:566-582 | the rate a device publishes is that of the counter of the access point it is on: nothing measured on another outlives the change |
| `TsfDevice.PeersNeverReachTheLine` | components/clock_sync/tsf_sync.h:52-55 | two runs with the same own inputs and any peer packets send the same lines in the same beacons, which differ in the adopted value alone: the consensus never reaches a published line |
| `TsfDevice.AdoptedIsNeverFedBack` | components/clock_sync/tsf_sync.cpp:829-868 | two runs whose packets differ in the adopted values alone end in one state: what beacons say of the consensus is never fed back |
| `TsfDevice.ServiceIsSound` | components/clock_sync/tsf_sync.cpp:1724-1796 | a service call keeps the table well formed, no line beyond its association, and the drift bound |
| `TsfDevice.RunIsSound` | components/clock_sync/tsf_sync.cpp:1724-1796 | so does every run |
| `TsfSync.TsfSync.constructor` | components/clock_sync/tsf_sync.h:82-84 | a new object is in the initial state |
| `TsfSync.TsfSync.Reset` | components/clock_sync/tsf_sync.cpp:566-582 | every peer line, the published line, the rate and the mapping are dropped, nothing else |
| `TsfSync.TsfSync.FindPeer` | components/clock_sync/tsf_sync.cpp:874-906 | the in-place loop updates the array as `PeerTable.FindPeer` does and returns that slot |
| `TsfSync.TsfSync.ReceivePackets` | components/clock_sync/tsf_sync.cpp:594-868 | the receive loop updates the array as `PeerTable.ReceiveAll` does |
| `TsfSync.TsfSync.Broadcast` | components/clock_sync/tsf_sync.cpp:1513-1661 | rate, published line and transmit time after a broadcast, and the beacon sent: own line, and the adopted mapping at the line's base |
| `TsfSync.TsfSync.Speak` | components/clock_sync/tsf_sync.cpp:1766-1788 | a mature device beacons its line each second, any other a report without a line every four, and which state that leaves |
| `TsfSync.TsfSync.UpdateConsensus` | components/clock_sync/tsf_sync.cpp:928-1156 | the mapping is the agreed line of the contributors, on its own cadence; with none it is left to expire |
| `TsfSync.TsfSync.Service` | components/clock_sync/tsf_sync.cpp:1724-1796 | one call takes the object from one state of `TsfDevice.Service` to the next and sends its beacon, with a line or without |
| `TsfProtocol.AfterIsSound` | components/clock_sync/tsf_sync.cpp:1724-1796 | every state the network can reach is sound at every device |
| `TsfProtocol.SentWasPublished` | components/clock_sync/tsf_sync.cpp:1585-1656 | every packet on the network was some device's beacon in some earlier call |
| `TsfProtocol.BeaconIsOwnLine` | components/clock_sync/tsf_sync.cpp:1585-1617 | a beacon with a line carries its sender's own published line, address, BSSID, server and stream, and the adopted mapping at the line's base to within 1 us |
| `TsfProtocol.DeviceRuns` | components/clock_sync/tsf_sync.cpp:1724-1796 | on the network each device is as its own calls alone leave it |
| `TsfProtocol.LinesHaveSources` | components/clock_sync/tsf_sync.cpp:566-868 | in every reachable state each valid line is the last pooled from its peer, which published it, under the receiver's BSSID and the server the receiver named in that call |
| `TsfProtocol.RecentServerDecides` | components/clock_sync/tsf_sync.cpp:664-671 | a receiver that has named one server for the last five seconds counts only lines that their peers published under it |
| `TsfProtocol.AdoptsAServerItLeft` | components/clock_sync/tsf_sync.cpp:1724-1796 | a permitted run after which a device uses the line of a server it has left |
| `TsfProtocol.OwnLineOutlivesItself` | components/clock_sync/tsf_sync.cpp:1027-1047 | a permitted run after which a device counts its own line and its peer has dropped it, within 200 ppm |
| `TsfAgreement.ContributorsAre` | components/clock_sync/tsf_sync.cpp:1027-1047 | a device in sync counts the group's lines that are fresh and votable, and its own regardless |
| `TsfAgreement.SameContributors` | components/clock_sync/tsf_sync.cpp:1027-1047 | two devices in sync count the same lines if and only if the others count both own lines, or neither and the two are equal; a line counts if fresh and within 200 ppm |
| `TsfAgreement.GroupAgrees` | components/clock_sync/tsf_sync.h:56-63 | devices in sync whose own lines count, with some line counting, adopt one anchor, one drift and values within 1 us |
| `TsfAgreement.CaughtUpIsInSync` | components/clock_sync/tsf_sync.cpp:594-868 | a run that heard at most eight others, and whose last line pooled from each is that address's latest, in whatever calls and beside whatever else, leaves the device in sync |
| `TsfAgreement.RoundAgrees` | components/clock_sync/tsf_sync.cpp:1724-1796 | end to end: over any two runs that catch up with one group and end in a consensus, each with its own roster and plausibility bound, the two devices adopt mappings that agree to 1 us |
| `TsfAgreement.BootingDeviceAgrees` | components/clock_sync/tsf_sync.cpp:808-818 | two runs that do: a mature device that has heard a booting one's phase, and the booting one, which adopts its line |
| `OffsetFilter.SharedOffset.Take` | components/clock_sync/tsf_sync.cpp:1889-2030 | one successful sample updates floor, rate, feed-forward and value as `Absorb` does |
| `OffsetFilter.SharedOffset.Ask` | components/clock_sync/tsf_sync.cpp:1827-2052 | a query's new state and answer, with expiry, age clamp and the bridged TSF failure; `OffsetRuns` says what the answers mean |
| `OffsetRuns.NeverStarved` | components/clock_sync/tsf_sync.cpp:1885-1896 | among 2048 successful samples in a row at least one is trusted, wherever in a block they begin |
| `OffsetRuns.TrustedShare` | components/clock_sync/tsf_sync.cpp:1885-1896 | so at least one in every 2048 is |
| `OffsetRuns.OneReading` | components/clock_sync/tsf_sync.cpp:1956-2030 | a trusted sample leaves 255/256 of the error and of what the feed-forward missed, plus 1/256 of its noise; an untrusted one leaves both; neither snaps |
| `OffsetRuns.ErrorIsBounded` | components/clock_sync/tsf_sync.cpp:1956-2030 | with a trusted sample in every span of them, the error falls to the noise plus 257 spans of what the feed-forward misses per sample, its excess losing 1/256 with each trusted one, and no sample snaps |
| `OffsetRuns.FilterConverges` | components/clock_sync/tsf_sync.cpp:1885-2030 | whatever the widths that holds for a span of 2048 and a loss every 2048 samples; with the rate exact, the error falls to the noise |
| `OffsetRuns.ResidualIsRateErrorTimesTau` | components/clock_sync/tsf_sync.cpp:1905-1912 | at rates within some ppm of the true one the residual is at most the noise and that many ppm of tau, 257 spans of samples |
| `OffsetRuns.TrackKnowsRate` | components/clock_sync/tsf_sync.cpp:1915-1940 | samples of a counter of constant rate read to within err us keep the rate in use within err / 4 ppm of it, from the first window of eight seconds on |
| `OffsetRuns.RateErrorShrinks` | components/clock_sync/tsf_sync.cpp:1915-1940 | a wrong rate loses a quarter of its error with each window |
| `OffsetRuns.ResidualOnACounter` | components/clock_sync/tsf_sync.cpp:1898-2030 | so on such a counter the residual is the noise and err / 4 ppm of tau, with nothing assumed of the rate in use |
| `OffsetRuns.PredictionIsCapped` | components/clock_sync/tsf_sync.cpp:1956-1965 | the feed-forward reaches no further than two seconds and never back |
| `OffsetRuns.BridgedAnswerIsTrue` | components/clock_sync/tsf_sync.cpp:1854-1870 | a query whose sample fails is answered exactly within the grace after the last one, with the truth of that instant to within the error held and 1 us |
| `OffsetRuns.OnlySuccessesCount` | components/clock_sync/tsf_sync.cpp:1827-1896 | over any run of queries, expiries, clamps and failed samples leave the filter where the successful queries alone would, but for the valid flag |
| `OffsetRuns.SucceedsExactly` | components/clock_sync/tsf_sync.cpp:1827-1875 | a query succeeds if and only if the mapping is at most 5 s old and the sample from 1 ms before its base to 10 s after it |
| `OffsetRuns.FirstAnswerIsImplied` | components/clock_sync/tsf_sync.cpp:1980-2050 | a filter with no value yet, or one that snaps, answers the offset the mapping implies at the sample to within 1 us |
| `OffsetRuns.FarIsSnap` | components/clock_sync/tsf_sync.cpp:1980-2025 | it snaps where the implied offset is 2001 us or more from the prediction |
| `OffsetRuns.AnswersFollowTheTruth` | components/clock_sync/tsf_sync.cpp:1827-2052 | over a run of queries on a course, failures among them, each answer to a successful one is the truth of its sample to within the bound on the error and 1 us |
| `OffsetRuns.ValidIsToldSince` | components/clock_sync/tsf_sync.cpp:1834-2050 | the valid flag says that a reading has been taken in since a query last had no answer |
| `TimeFilter.InsertKeepsValid` | components/clock_sync/time_filter.h:44-112 | one sample, or a reset, keeps the covariance positive definite from the second sample on and the noise above its floor |
| `TimeFilter.UpdateInterpolates` | components/clock_sync/time_filter.h:70-97 | the new offset lies strictly between prediction and measurement, its variance below the predicted one and the effective noise |
| `TimeFilter.StateIsLeastMisfit` | components/clock_sync/time_filter.h:70-97 | of all offsets and drifts the state after a sample misfits prediction, by its covariance, and measurement, by its noise, the least |
| `TimeFilter.UpdateAddsInformation` | components/clock_sync/time_filter.h:87-97 | the covariance after a sample is the one whose distances are the old one's with the measurement's added |
| `TimeFilter.PredictionCarriesSpread` | components/clock_sync/time_filter.h:71-75 | prediction carries the variance of every combination of offset and drift along the motion and adds the process noise of the time passed |
| `TimeFilter.StallIsCapped` | components/clock_sync/time_filter.h:49-50 | after a stall the prediction is that of five seconds |
| `TimeFilter.SecondIsThroughBoth` | components/clock_sync/time_filter.h:61-68 | two samples give the line through both and its variance |
| `TimeFilter.DriftIsUsedWhenSignificant` | components/clock_sync/time_filter.h:110-111 | from the third sample on the drift is used if and only if it exceeds two of its standard deviations |
| `TimeFilter.NoiseFollowsInnovation` | components/clock_sync/time_filter.h:99-108 | from the sixth sample on the noise estimate moves by 3% of the surprise, down to its floor, and before that not at all |
| `TimeFilter.NoiseOutlivesResets` | components/clock_sync/time_filter.h:30-108 | any run in which no sample is the sixth or later since a reset leaves the noise estimate as it was, through all its resets |
| `TimeFilter.InfluenceIsBounded` | components/clock_sync/time_filter.h:77-97 | one measurement of any size moves offset and drift by at most their gain times HUBER_C * sigma / R |
| `TimeFilter.NoiseGrowthIsBounded` | components/clock_sync/time_filter.h:99-105 | one measurement of any size raises the noise estimate by at most 3% of (HUBER_C^2 - 1)(P + R) |
| `TimeFilter.RunKeepsValid` | components/clock_sync/time_filter.h:30-112 | both hold over every run of samples and resets, given only that each sample's sigma is the root of its innovation variance; the next such variance is positive |
| `TimeFilter.RunShifts` | components/clock_sync/time_filter.h:30-112 | a constant added to every measurement of a run moves the offset by it and nothing else |
| `TimeFilter.RunTilts` | components/clock_sync/time_filter.h:30-112 | a line c + s * time added to the measurements of a run is added to the offset, s to the drift from the second sample on, and covariance and noise do not see it |
| `TimeFilter.LineIsFound` | components/clock_sync/time_filter.h:30-112 | measurements on a line, however timed and reset, leave the offset at the last one and from the second on the drift at the slope |
| `TimeFilter.AnswersOnTheLine` | components/clock_sync/time_filter.h:114-120 | the filter then answers the line itself, at the time asked for once its drift is significant |
| `TimeFilter.KalmanTimeFilter.ResetState` | components/clock_sync/time_filter.h:30-40 | everything is reset but the learned noise |
| `TimeFilter.KalmanTimeFilter.InsertSample` | components/clock_sync/time_filter.h:44-112 | the fields after a sample, through all four branches |
| `TimeFilter.KalmanTimeFilter.UpdateState` | components/clock_sync/time_filter.h:70-111 | the fields after a predict and update step |
| `FracSelect.CodecRoundTrip` | components/i2s_rate_lock/frac_select.h:22-49 | every field of a legal fraction fits nine bits and decoding returns the pair itself |
| `FracSelect.EncodeInjective` | components/i2s_rate_lock/frac_select.h:22-31 | two fractions never share a register value |
| `FracSelect.AcceptedValues` | components/i2s_rate_lock/rate_lock.cpp:121-127 | the sanity check accepts exactly zero and the encodings, each of one fraction |
| `FracSelect.PickFrac` | components/i2s_rate_lock/frac_select.h:64-88 | the search loop computes `Pick` |
| `FracSelect.PickIsBest` | components/i2s_rate_lock/frac_select.h:66-82 | the ends are the greatest ratio at most the target and the least at least it |
| `FracSelect.PickIsFarey` | components/i2s_rate_lock/frac_select.h:64-88 | for a target that is no such ratio the ends are reduced Farey neighbours at most 1/511 apart; the gap is below 1e-9 exactly when it is one |
| `FracSelect.PickMeetsTarget` | components/i2s_rate_lock/frac_select.h:83-87 | exact means some ratio is within 1e-9 and the chosen end is; otherwise the duty makes the mean the target |
| `FracSelect.PickUsesNearer` | components/i2s_rate_lock/frac_select.h:83-88 | the end used is the nearer to the target, the lower on a tie |
| `FracSelect.UpperEndEncodable` | components/i2s_rate_lock/rate_lock.cpp:192-207 | the upper end has an encoding exactly up to 510/511 |
| `FracSelect.SigmaDeltaStep` | components/i2s_rate_lock/frac_select.h:93-100 | one step conserves accumulator plus delivered share and stays in range |
| `FracSelect.SdConserves` | components/i2s_rate_lock/frac_select.h:90-100 | over any run of duties 65536 times the hits plus the accumulator is what went in |
| `FracSelect.SdWindow` | components/i2s_rate_lock/frac_select.h:90-92 | every window of a run is within one tick of its ideal share |
| `FracSelect.DitheredMean` | components/i2s_rate_lock/rate_lock.cpp:225-237 | n dithered ticks miss n times the target by less than the gap times 1 + n/131072 |
| `RateLock.RateLock.ReadBaselineRegisters` | components/i2s_rate_lock/rate_lock.cpp:84-170 | the baseline fields after a reading, and when it is refused |
| `RateLock.RateLock.CorrectToIdeal` | components/i2s_rate_lock/rate_lock.cpp:133-169 | the loop over the multiples finds the reference that `RateLockRuns.BaselineIs` characterises |
| `RateLock.RateLock.SetTrimPpm` | components/i2s_rate_lock/rate_lock.cpp:172-243 | the whole state after a trim, and whether it steered, refused or trapped |
| `RateLock.RateLock.TickOnce` | components/i2s_rate_lock/rate_lock.cpp:245-260 | the register, its record and the accumulator after a tick |
| `RateLock.RateLock.InvalidateBaseline` | components/i2s_rate_lock/rate_lock.h:56 | only the request flag changes |
| `RateLock.RateLock.SetOutputRate` | components/i2s_rate_lock/rate_lock.h:77 | only the rate changes, for the next baseline read |
| `RateLockRuns.OwnTrimIsNeverABaseline` | components/i2s_rate_lock/rate_lock.cpp:102-119 | over every run of undivided operations without driver reprogramming the register is the lock's own last value once a baseline is read, and the baseline never moves again |
| `RateLockRuns.RecognitionIsByLastValue` | components/i2s_rate_lock/rate_lock.cpp:112-116 | in every such state a baseline is read with dithering off |
| `RateLockRuns.DriverReprograms` | components/i2s_rate_lock/rate_lock.cpp:112-131 | a reprogrammed divider, integer ones included, becomes the baseline exactly when its fraction differs from the last value written |
| `RateLockRuns.IntegerChangeIsMissed` | components/i2s_rate_lock/rate_lock.cpp:112-119 | after a change of the integer alone a trim delivers its target if and only if the integer is still the old one |
| `RateLockRuns.ApplyOutcome` | components/i2s_rate_lock/rate_lock.cpp:185-207 | refused outside [0, 1), trapped above 510/511, steered in between |
| `RateLockRuns.FirstTrimCanTrap` | components/i2s_rate_lock/rate_lock.cpp:172-207 | from power-on with the driver at 14 + 510/511, a first trim of -10 ppm traps |
| `RateLockRuns.TrimIsDelivered` | components/i2s_rate_lock/rate_lock.cpp:172-260 | after a successful trim, the first after a reprogrammed fraction included, the register is within 1e-9 of the target, or the ratios it takes over n ticks track it |
| `RateLockRuns.BaselineIs` | components/i2s_rate_lock/rate_lock.cpp:133-169 | the reference is within 1% of what was programmed: the exact ratio of the first multiple within 1% if that has the programmed integer part, otherwise the programmed ratio |
| `RateLockRuns.ExactClockIsDelivered` | components/i2s_rate_lock/rate_lock.cpp:133-260 | where a multiple of the known rate explains the driver's divider, a trim read afresh delivers the exact clock of that rate, faster by ppm |
| `RateLockRuns.UnreadableIsRefused` | components/i2s_rate_lock/rate_lock.cpp:84-127 | after an invalidation, registers without a clock or a fraction refuse the trim, with nothing steered or reported and the register as it was |
| `RateLockRuns.ReadableIsTried` | components/i2s_rate_lock/rate_lock.cpp:84-127 | with both a trim is refused only for a target out of reach |
| `RateLockRuns.AppliedIsRequested` | components/i2s_rate_lock/rate_lock.cpp:236-237 | while dithering the reported trim is the clamped request itself |
| `RateLockRuns.AppliedIsNear` | components/i2s_rate_lock/rate_lock.cpp:225-237 | with a single value the reported trim is within 0.001 ppm of the clamped request |
| `RateLockTasks.NewDutyNeverMeetsOldBracket` | components/i2s_rate_lock/rate_lock.cpp:225-254 | in every interleaving a tick with the duty of one publication uses a bracket end of that or a later one |
| `RateLockTasks.OldDutyCanMeetNewBracket` | components/i2s_rate_lock/rate_lock.cpp:225-254 | the converse pairing happens |
| `RateLockTasks.RecordFollowsRegister` | components/i2s_rate_lock/rate_lock.cpp:102-258 | with no task between store and record, the record names the register's value if one task did the last of both, and if the tasks never overlapped |
| `RateLockTasks.OverlapOutcome` | components/i2s_rate_lock/rate_lock.cpp:216-258 | with both tasks between the two, they agree in the end if and only if the register's value is the one recorded last |
| `RateLockTasks.OverlapEndsEitherWay` | components/i2s_rate_lock/rate_lock.cpp:216-258 | an interleaving that leaves them different with both tasks idle, and one that leaves them equal |
| `RateLockTasks.OneTickPartsThem` | components/i2s_rate_lock/rate_lock.cpp:245-260 | a tick alone has them apart between its two stores |
| `RateLockTasks.ReadRecognises` | components/i2s_rate_lock/rate_lock.cpp:102-119 | a baseline read that finds them agreeing or a tick between its stores recognises the value it loaded if and only if that tick's value, when new, is recorded between its two loads and no other is |
| `RateLockTasks.ReadRecognisesExactly` | components/i2s_rate_lock/rate_lock.cpp:102-119 | from any state a read recognises its value if and only if it was on record and stays so, or the tick under way puts it there |
| `RateLockTasks.PartedIsNotRecognised` | components/i2s_rate_lock/rate_lock.cpp:102-119 | a register and record left apart are never recognised |
| `RateLockTasks.UnrecognisedBecomesBaseline` | components/i2s_rate_lock/rate_lock.cpp:112-131 | a value not recognised becomes both the baseline and the record, whatever a tick does meanwhile |
| `RateLockTasks.OwnValueBecomesBaseline` | components/i2s_rate_lock/rate_lock.cpp:102-131 | an interleaving in which the lock takes its own value for the driver's |
| `Framing.DrainIsBytes` | components/snapclient/control_session.cpp:175-184 | searching and erasing is the same as reading byte by byte |
| `Framing.HandedLines` | components/snapclient/control_session.cpp:159-191 | what is handed over is exactly the stream's complete lines in order, without those a chunk end falls into past the cap |
| `Framing.LinesWithinTheCap` | components/snapclient/control_session.cpp:185-189 | every line of at most 32768 bytes is handed over, and only whole lines below 33280 |
| `Framing.ChunksDoNotMatter` | components/snapclient/control_session.cpp:159-191 | two splits of a stream hand over the same lines unless one is between 32769 and 33279 bytes |
| `Framing.ChunksMatterNearTheCap` | components/snapclient/control_session.cpp:185-189 | for any stream with a line of 32769 to 33279 bytes, two splits of which one hands over more lines |
| `Framing.ChunksMatterExactly` | components/snapclient/control_session.cpp:159-191 | so the chunks matter for a stream if and only if it has such a line |
| `ControlSession.Session.CloseSession` | components/snapclient/control_session.cpp:26-42 | closing leaves an idle session with a fresh framer and no host |
| `ControlSession.Session.FailSession` | components/snapclient/control_session.cpp:44-58 | so does failing, with a backoff |
| `ControlSession.Session.TakeLines` | components/snapclient/control_session.cpp:175-184 | the inner loop hands over what `Drain` takes out |
| `ControlSession.Session.Receive` | components/snapclient/control_session.cpp:159-191 | the outer loop reads until drained or lost, as `Read` does |
| `ControlSession.Session.ServiceOnce` | components/snapclient/control_session.cpp:125-157 | one service call, through all phases, as `Service` does |
| `ControlRuns.ReadFeeds` | components/snapclient/control_session.cpp:159-191 | a reading hands over what the framer makes of the chunks it gets to, and drops the rest of a lost session |
| `ControlRuns.SessionsHandOver` | components/snapclient/control_session.cpp:26-191 | over every run of calls the lines handed over are, session by session, those of the bytes the session was given, cut only past the cap; nothing is carried over |
| `ControlRuns.ConnectsInTime` | components/snapclient/control_session.cpp:60-157 | over a run at one host an idle session waits for its time, tries, and is ready with the call that finds the connection up; refused, or not up after 5 s, it waits 5 s |
| `ControlRuns.TriesInTurn` | components/snapclient/control_session.cpp:26-157 | a new host is tried at once, the old one when its time has come |
| `ControlRuns.StaysReady` | components/snapclient/control_session.cpp:125-191 | a ready session stays so if and only if its socket reports no loss and a due status request is sent; requests are 2 s apart |
| `BitPhase.Fold` | scripts/din-skew.py:461-462 | the fold lies in [-T/2, T/2) and differs from its argument by whole periods |
| `BitPhase.WrapOffset` | scripts/din-skew.py:637-640 | both inner loops end, with the step brought within half a period |
| `BitPhase.UnwrapBitphase` | scripts/din-skew.py:629-643 | the loop computes `Unwrap` |
| `BitPhase.UnwrapIsCongruent` | scripts/din-skew.py:629-643 | each finite output is its input plus whole periods, within half a period of the one before |
| `BitPhase.NoPeriodNoChange` | scripts/din-skew.py:636 | without a usable period the series passes through |
| `BitPhase.StepIsReadable` | scripts/din-skew.py:637-640 | the step read off two folds is the true one exactly when below half a period, or half a period from the right side |
| `BitPhase.RecoveredExactly` | scripts/din-skew.py:629-643 | unwrapping the folds of a series returns it up to a constant if and only if every step is readable |
| `I2sSkew.WindowIs` | scripts/i2s-skew.py:2984-2985 | the two searches delimit exactly the points within half a window |
| `I2sSkew.FastSumsAreDirect` | scripts/i2s-skew.py:2986-2991 | differences of prefix sums are the window's own sums |
| `LeastSquares.DenominatorSign` | scripts/i2s-skew.py:2992-2993 | the denominator is never negative, and positive exactly when the window holds two distinct times |
| `LeastSquares.SlopeIsLeastSquares` | scripts/i2s-skew.py:2984-2994 | a point gets a slope exactly when its window holds three points and two times, and it is the unique least-squares slope |
| `LeastSquares.RateDerivativeIs` | scripts/i2s-skew.py:2958-2995 | the output is exactly those points with those slopes, in order and each once, for a window at least the one asked for; with fewer than three finite points it is empty |
| `LeastSquares.FiniteIs` | scripts/i2s-skew.py:2972 | the points are the finite readings, each once and in order |
| `LeastSquares.MedianIs` | scripts/i2s-skew.py:2979 | the median is midway between the two middle values of any sorting |
| `LeastSquares.WindowIsWidened` | scripts/i2s-skew.py:2979-2980 | the window used is the one asked for, or five times the median spacing where that is more |

## Left out

- IEEE-754 rounding, `float` narrowing and integer overflow: reals and unbounded integers throughout.
- The square root in the Kalman filter is an argument with a given square, not computed.
- Sockets, multicast and unicast sends, the roster of addresses, wifi and AP queries, timers and raw register access are inputs; the five-attempt TSF sandwich is one sample with a width.
- The packet's byte layout, runt packets and the defaults for short ones; a missing stream hash is 0.
- Render phases, pipeline depth, crystal rate, render bias and common error exchanged in the same packets: they never reach a mapping. A packet that carries nothing else is modelled as one without a line; on the network it may arrive from anyone at any time.
- Logging, divergence alarms and the comparison of adopted values behind one of them, the timebase epoch, and the rate lock's reported gap, baseline numerator, denominator and correction.
- The state of `TsfSync` is two objects here, `TsfSync.TsfSync` for the network task and `OffsetFilter.SharedOffset` for the player task; the mutex-guarded hand-over of the mapping between them is an argument of the query.
- The mapping's expiry is part of `OffsetFilter`; no theorem combines it with the protocol's runs.
- `TsfAgreement.RoundAgrees` takes as its hypothesis that each device has pooled the group's latest lines: nothing is promised about when an unreliable network brings them.
- `RateLockRuns.OwnTrimIsNeverABaseline`: takes trims and ticks as undivided steps, because between single loads and stores it is false: `RateLockTasks` has the exact conditions there.
- `RateLockTasks` interleaves neither a lock that has never written, nor a driver that reprograms, nor a reading that the sanity check refuses.
- The two rate-lock tasks are interleaved sequentially consistently; reorderings of relaxed atomics are not modelled.
- Stopping the processor is the outcome `Trapped` of a trim with the state unchanged; what a division by zero does on the chip is not modelled.
- The control session's JSON handling, metadata, latency calls and hand-overs: which lines ask for a status is an input of each call, and within one call a function of the line alone, although a line may change the stream that later ones are judged by.
- FFT correlation, capture, plotting and the remaining analysis scripts, `snapcast_proto.*`, `chunk_deadline.h` and the configuration schemas.
