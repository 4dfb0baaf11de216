# Verified model of the satellite and multicast simulator's algorithms

The simulator routes packets over a point-to-point topology, multicasts over shortest-path
trees, drives laser and ground-satellite links, and places satellites with SGP4. This project
models the parts that compute something non-trivial and proves what they compute.

Code that changes things in place is modelled as methods and classes over arrays and fields; each
is proved to match a specification, and the lemmas beside it say what the specification means.
`dafny verify dfyconfig.toml` checks everything.

- **Routing** (`Topology`, `Ecmp`). The in-place Floyd-Warshall on a flat `int32` array ends with
  the minimum hop counts, with no `int32` overflow; entries of row and column k that have already
  been lowered when they are read do no harm. The next-hop lists hold exactly the neighbours on
  shortest paths, and any walk along them arrives in the minimum number of hops.
- **Multicast** (`Walks`, `Multicast`, `MulticastRoutes`, `MulticastDelivery`). The map of incoming
  interfaces is overwritten on every walk. It is right because two first-candidate walks from one
  source that meet have come the same way: both first hops serve both destinations, and both
  candidate lists are filled in edge order. So the recorded links form a tree. A packet copied
  along the installed routes reaches every member over a shortest path, visits no node twice,
  arrives on the installed interface and stops only at members.
- **Propagation** (`Integrator`, `IntegratorLaws`, `Sgp4`, `OrbitLaws`, `StateLaws`, `Position`,
  `FrameLaws`). The deep-space integrator resumes from the state of the previous query; every answer
  is nevertheless that of an integration from epoch, so the `const` position queries do not depend on
  earlier ones. The stages obey the laws they stand for: exact expansions, Kepler's equation and laws,
  an orbital plane, a frame turning with the Earth. Positions are zero (error) or at least one Earth
  radius from the centre.
- **Links** (`Utilization`, `LaserDevice`, `UtilizationCsv`, `GslDevice`). Utilization entries are
  the exact busy share of each interval, measured nanosecond by nanosecond; the compaction to rows
  loses nothing; the two parallel queues of the ground-satellite device act as one line of pairs.
- **Dates** (`JulianDates`, `Gregorian`, `LeapSeconds`, `TimeScales`, `EpochCalendar`). Addition with
  `uint32_t` wrap-around, the calendar round trip, leap seconds against the table they stand for, the
  round trip through UTC in every time scale, and the two Julian date formulas.
- **Forwarding state** (`Forwarding`). The tables after any sequence of loads.

`Options` and `Integers` hold the option type and a few facts on multiples and remainders.

## What the code does not meet

Each point has a lemma with the exact condition and one with an input that fails.

- Dates of 1992 do not survive `SetDate` followed by `GregorianDate`, although `julian-date.h`
  (lines 67-69) promises support from 1 January 1992: line 425 divides a wrapped difference, and the
  month loop ends without a month (`Gregorian.DateRoundTripIff`, `Gregorian.FirstDayFails`).
- `TaiMinusUtc` is one second short on every day of the leap table. The generator of the table
  (`data/constants-gen.cc`, lines 205-229) enters the day on which the new difference comes into
  force, and `std::lower_bound` counts only the entries before the day asked for
  (`LeapSeconds.TaiMinusUtcTrueIff`, `LeapSeconds.July1992Fails`). So TAI, TT and GPS dates of those
  days, and a few seconds after them, are stored one second after their true UTC
  (`TimeScales.StoredTrueIff`, `TimeScales.StoredLate`, `TimeScales.NoonStoredLate`).
- TAI and TT dates in the one second that begins at the UTC midnight after a day of the leap table,
  and GPS dates in a window of 20 s there, are printed one second late
  (`TimeScales.ScaleRoundTripIff`, `TimeScales.WindowFails`). UT1 dates come back changed where the
  correction of the UTC day differs (`TimeScales.Ut1RoundTripIff`, `TimeScales.Ut1Fails`).
- The difference of two dates more than 9223372036854 ms (292 years) apart does not fit the
  `int64_t` nanoseconds of a time span (`JulianDates.DifferenceAddsIff`, `JulianDates.FarDifference`).
- A laser channel from a node to itself, which a topology file may contain, lets a forwarding line
  pass whose own and next interface are the same (`Forwarding.HopUsesItsChannelIff`,
  `Forwarding.SelfChannelHop`).
- A second utilization report later than the first, with no change of the link between, accounts
  for the time between them with the wrong state (`Utilization.SecondReportExactIff`,
  `Utilization.LateSecondReport`).

## Model

| member | source | states |
|---|---|---|
| Topology.DistBound | simulator/contrib/basic-sim/helper/core/arbiter-ecmp-helper.cc:36-49 | a reachable node is fewer than n hops away, so no real distance collides with the value 100000000 |
| Topology.UnreachableIff | simulator/contrib/basic-sim/helper/core/arbiter-ecmp-helper.cc:36-49 | with at most 40000 nodes the value 100000000 means unreachable and nothing else |
| Ecmp.InitialDistances | simulator/contrib/basic-sim/helper/core/arbiter-ecmp-helper.cc:41-58 | the matrix holds 0 on the diagonal, 1 for linked pairs and 100000000 elsewhere |
| Ecmp.Relax | simulator/contrib/basic-sim/helper/core/arbiter-ecmp-helper.cc:64-66 | one entry becomes the smaller of itself and the sum through k, in int32 range, nothing else changes |
| Ecmp.RelaxKeepsSound | simulator/contrib/basic-sim/helper/core/arbiter-ecmp-helper.cc:64-66 | an entry below 100000000 is always the hop count of some walk |
| Ecmp.PhaseExtendsCover | simulator/contrib/basic-sim/helper/core/arbiter-ecmp-helper.cc:61-69 | after phase k no entry exceeds the length of any walk whose inner nodes are at most k, though the phase reads entries it has changed |
| Ecmp.ShortestPaths | simulator/contrib/basic-sim/helper/core/arbiter-ecmp-helper.cc:41-69 | in place, for every topology of at most 40000 nodes, each entry ends as the minimum hop count, or 100000000 when unreachable |
| Ecmp.OfferEdge | simulator/contrib/basic-sim/helper/core/arbiter-ecmp-helper.cc:92-97 | for one destination an edge appends its far end at each end from which it leads one hop closer, and changes no other list |
| Ecmp.CalculateGlobalState | simulator/contrib/basic-sim/helper/core/arbiter-ecmp-helper.cc:26-107 | rejects more than 40000 nodes; otherwise every list holds the edges' offers in edge order |
| Ecmp.CandidateIff | simulator/contrib/basic-sim/helper/core/arbiter-ecmp-helper.cc:86-99 | a node is in the list for (a, t) if and only if it is a neighbour of a on a shortest path to t |
| Ecmp.CandidateCount | simulator/contrib/basic-sim/helper/core/arbiter-ecmp-helper.cc:86-99 | a neighbour on a shortest path is listed once for each edge that leads to it, any other node not at all |
| Ecmp.CandidatesInEdgeOrder | simulator/contrib/basic-sim/helper/core/arbiter-ecmp-helper.cc:90-99 | the entries of a list come from different edges, in the order of the edges |
| Ecmp.CandidatesDiffer | simulator/contrib/basic-sim/helper/core/arbiter-ecmp-helper.cc:90-99 | without parallel edges no next hop is listed twice |
| Ecmp.NoCandidateIff | simulator/contrib/basic-sim/helper/core/arbiter-ecmp-helper.cc:86-99 | the list is empty if and only if a is t or t is unreachable |
| Ecmp.AnyCandidateWalkArrives | simulator/contrib/basic-sim/helper/core/arbiter-ecmp-helper.cc:86-99 | any walk taking any candidate at each hop can go on until it has made exactly the minimum number of hops, and then is at t |
| Ecmp.FirstCandidatesAgree | simulator/contrib/basic-sim/helper/core/arbiter-ecmp-helper.cc:90-99 | if the first candidates for two destinations serve both destinations, they are the same node |
| Walks.PathIsShortest | simulator/contrib/basic-sim/helper/core/arbiter-multicast-helper.cc:157-170 | following first candidates gives a walk with the minimum number of hops |
| Walks.PathSplits | simulator/contrib/basic-sim/helper/core/arbiter-multicast-helper.cc:157-170 | every node on it splits it into two shortest walks |
| Walks.WalksAgree | simulator/contrib/basic-sim/helper/core/arbiter-multicast-helper.cc:156-171 | two such walks from one source that meet at a node are identical up to that node |
| Multicast.OneParent | simulator/contrib/basic-sim/helper/core/arbiter-multicast-helper.cc:168 | whatever walks enter a node, they enter it over the same link, from a node one hop closer to the source; none enters the source |
| Multicast.RecordHop | simulator/contrib/basic-sim/helper/core/arbiter-multicast-helper.cc:160-168 | one hop extends the outgoing sets by its link, and the overwritten incoming interface keeps its value |
| Multicast.RecordWalk | simulator/contrib/basic-sim/helper/core/arbiter-multicast-helper.cc:157-170 | one walk extends the recorded links by exactly the links of the walk |
| MulticastRoutes.LinksFormTree | simulator/contrib/basic-sim/helper/core/arbiter-multicast-helper.cc:156-171 | the links of all walks of a request form a shortest-path tree rooted at the source: every node they enter is joined to the source by a walk along them, is entered over one link, and each link leads exactly one hop further from the source |
| MulticastRoutes.ArbiterMulticastHelper.RecordTree | simulator/contrib/basic-sim/helper/core/arbiter-multicast-helper.cc:150-171 | whatever the order of members, the containers record exactly the tree |
| MulticastRoutes.ArbiterMulticastHelper.SourceInterface | simulator/contrib/basic-sim/helper/core/arbiter-multicast-helper.cc:173-176 | rejects unless exactly one interface leaves the source |
| MulticastRoutes.ArbiterMulticastHelper.MakeRoute | simulator/contrib/basic-sim/helper/core/arbiter-multicast-helper.cc:178-187 | the route of a node: incoming from its parent (0 at the source), outgoing to all its children |
| MulticastRoutes.ArbiterMulticastHelper.Install | simulator/contrib/basic-sim/helper/core/arbiter-multicast-helper.cc:179-188 | every sending node of the tree gets its route appended, no other node changes |
| MulticastRoutes.ArbiterMulticastHelper.AddRequest | simulator/contrib/basic-sim/helper/core/arbiter-multicast-helper.cc:148-189 | a request is installed completely or, when rejected, not at all |
| MulticastRoutes.ArbiterMulticastHelper.CalGlobalMulticastState | simulator/contrib/basic-sim/helper/core/arbiter-multicast-helper.cc:144-190 | requests are served in order up to the first that is rejected |
| MulticastDelivery.SetupMulticast | simulator/contrib/basic-sim/helper/core/arbiter-multicast-helper.cc:5-34 | from the topology alone: either every request is served and the tables hold every node's routes for all requests, or the topology is too large or a request is rejected |
| MulticastDelivery.AcceptedIff | simulator/contrib/basic-sim/helper/core/arbiter-multicast-helper.cc:173-175 | a request is served if and only if some member is not the source and all walks to such members share their first hop |
| MulticastDelivery.LookupInstalled | simulator/contrib/basic-sim/model/core/arbiter-multicast.cc:49-84 | the first route found for a group is the one of that group's request |
| MulticastDelivery.EveryMemberReached | simulator/contrib/basic-sim/helper/core/arbiter-multicast-helper.cc:172-188 | copies made along installed routes follow every walk up to its member |
| MulticastDelivery.OneCopyEach | simulator/contrib/basic-sim/helper/core/arbiter-multicast-helper.cc:172-188 | no node gets two copies |
| MulticastDelivery.CopyOnWalk | simulator/contrib/basic-sim/helper/core/arbiter-multicast-helper.cc:172-188 | every copy lies on a walk to a member after a minimum number of hops, arrives on the installed interface, and stops only at a member |
| MulticastDelivery.RouteNamesSource | simulator/contrib/basic-sim/helper/core/arbiter-multicast-helper.cc:176-188 | the routes of a request carry its group and name the source's only outgoing interface as origin; the source's own route has incoming interface 0 |
| Integrator.IterateTime | simulator/src/satellite/model/sgp4unit.cpp:1110-1115 | after k steps the integrator stands exactly k times 720 minutes from epoch, on either side |
| Integrator.ResumedIff | simulator/src/satellite/model/sgp4unit.cpp:1050-1055 | the integration is resumed if and only if it stands between epoch and t, or at t |
| Integrator.ResumePoint | simulator/src/satellite/model/sgp4unit.cpp:1050-1055 | when the restart test fails, the cached state is a whole number of steps on the way from epoch to t |
| Integrator.Remaining | simulator/src/satellite/model/sgp4unit.cpp:1100-1109 | the exit test ends the loop at floor(abs(t)/720) steps, never beyond t |
| Integrator.DeepSpaceRecord.constructor | simulator/src/satellite/model/sgp4unit.cpp:906-911 | initialization leaves the integrator at epoch, under resonance with the elements' longitude and mean motion, and the invariant all queries keep holds |
| Integrator.DeepSpaceRecord.Move | simulator/src/satellite/model/sgp4unit.cpp:1110-1115 | one step changes the three cached fields together |
| Integrator.DeepSpaceRecord.Integrate | simulator/src/satellite/model/sgp4unit.cpp:1046-1116 | the loop terminates, never past t and less than a step from it, with the state an integration from epoch reaches, wherever the cache stood, and makes only the steps not made before |
| Integrator.DeepSpaceRecord.Dspace | simulator/src/satellite/model/sgp4unit.cpp:989-1134 | the answer to a query, and the cache it leaves, do not depend on earlier queries |
| IntegratorLaws.OneDayRates | simulator/src/satellite/model/sgp4unit.cpp:1067-1076 | the slope of the near-synchronous resonance force is its derivative along the longitude |
| IntegratorLaws.HalfDayRates | simulator/src/satellite/model/sgp4unit.cpp:1077-1096 | likewise for the half-day terms |
| IntegratorLaws.ResonanceRates | simulator/src/satellite/model/sgp4unit.cpp:1066-1096 | the rates are the sums of the resonance terms at the moved perigee, and the second rate is the slope times the rate of the longitude |
| IntegratorLaws.StepIsExpansion | simulator/src/satellite/model/sgp4unit.cpp:1110-1119 | a whole step of either sign is the expansion used within steps, taken at its full length |
| IntegratorLaws.SteadyAnswer | simulator/src/satellite/model/sgp4unit.cpp:1046-1130 | at every time the answer is exact for motions the expansion describes exactly: the mean motion under a steadily growing acceleration, the longitude under a constant one |
| IntegratorLaws.UniformMotion | simulator/src/satellite/model/sgp4unit.cpp:1046-1130 | without resonance terms the mean longitude grows uniformly, on either side of epoch |
| IntegratorLaws.SecularDrift | simulator/src/satellite/model/sgp4unit.cpp:1023-1028 | the other elements drift from their values at epoch, each at its own rate |
| Sgp4.SatRecord.constructor | simulator/src/satellite/model/sgp4unit.cpp:1583-1602 | a fresh record satisfies the invariant all queries keep |
| Sgp4.SatRecord.SolveKepler | simulator/src/satellite/model/sgp4unit.cpp:1921-1937 | at most ten limited Newton corrections; sine and cosine are those of the last round |
| Sgp4.SatRecord.Finish | simulator/src/satellite/model/sgp4unit.cpp:1903-2018 | fields that deep-space queries rewrite are written before they are read |
| Sgp4.SatRecord.Sgp4 | simulator/src/satellite/model/sgp4unit.cpp:1723-2019 | error code, position and velocity are a function of elements and time alone |
| OrbitLaws.SiderealTime | simulator/src/satellite/model/sgp4unit.cpp:1022 | the sidereal angle is that at epoch plus the Earth's rotation, up to whole turns |
| OrbitLaws.SecularAngles | simulator/src/satellite/model/sgp4unit.cpp:1771-1793 | node, perigee and mean anomaly move at their rates, and drag moves perigee and anomaly against each other by its own amount |
| OrbitLaws.DragSeries | simulator/src/satellite/model/sgp4unit.cpp:1778-1800 | the drag terms are power series in time, cut off for simplified orbits |
| OrbitLaws.SecularAtEpoch | simulator/src/satellite/model/sgp4unit.cpp:1771-1800 | at epoch nothing has drifted |
| OrbitLaws.ReducedAngles | simulator/src/satellite/model/sgp4unit.cpp:1849-1857 | drag moves the longitude only, and reduction changes the angles by whole turns |
| OrbitLaws.LimitedStep | simulator/src/satellite/model/sgp4unit.cpp:1929-1935 | a round takes the Newton step of Kepler's equation, but at most 0.95, in its direction |
| OrbitLaws.AnomalySolves | simulator/src/satellite/model/sgp4unit.cpp:1921-1937 | the eccentric anomaly found solves Kepler's equation up to 1e-12 times its slope, unless ten rounds were made or the slope is zero |
| OrbitLaws.FirstLaw | simulator/src/satellite/model/sgp4unit.cpp:1940-1959 | before the short periods the orbit is a conic with the Earth's centre in its focus |
| OrbitLaws.UnitAngle | simulator/src/satellite/model/sgp4unit.cpp:1956-1960 | the sine and cosine of the argument of latitude belong to an angle |
| OrbitLaws.MomentumAndEnergy | simulator/src/satellite/model/sgp4unit.cpp:1953-1955 | distance and speeds have the momentum and the energy of the orbit |
| StateLaws.ThirdLaw | simulator/src/satellite/model/sgp4unit.cpp:1833-1834 | axis and mean motion obey Kepler's third law: without drag the mean motion is unchanged |
| StateLaws.UprightSameOrbit | simulator/src/satellite/model/sgp4unit.cpp:1888-1893 | turning a negative inclination around changes no direction |
| StateLaws.EccentricityVector | simulator/src/satellite/model/sgp4unit.cpp:1915-1921 | the long-period terms shift the eccentricity vector and the starting angle by their share of the orbit's parameter |
| StateLaws.EccentricityKept | simulator/src/satellite/model/sgp4unit.cpp:1915-1917 | without them the vector has the length of the eccentricity, and the parameter is the semi-latus rectum |
| StateLaws.LongPeriodTerms | simulator/src/satellite/model/sgp4unit.cpp:1904-1914 | how the two long-period terms are related, and that the second stays bounded near 180 degrees |
| StateLaws.InclinationTerms | simulator/src/satellite/model/sgp4unit.cpp:1968-1974 | the inclination terms in the sine of the inclination |
| StateLaws.RoundEarth | simulator/src/satellite/model/sgp4unit.cpp:1961-1982 | without flattening the satellite is on the Kepler orbit |
| StateLaws.FlatEarth | simulator/src/satellite/model/sgp4unit.cpp:1961-1965 | the flattening enters through j2 / 2p, j2 / 2p^2 and twice the argument of latitude |
| StateLaws.PlaneMoves | simulator/src/satellite/model/sgp4unit.cpp:1977-1979 | node, inclination and perigee swing together; equatorial orbits keep their inclination, polar ones their plane |
| StateLaws.DistanceSwings | simulator/src/satellite/model/sgp4unit.cpp:1975-1982 | the radial speed swings as the time derivative of the distance |
| StateLaws.OrbitalPlane | simulator/src/satellite/model/sgp4unit.cpp:1985-1998 | the orientation vectors turn from the ascending node by the argument of latitude, about the pole of the orbit |
| StateLaws.StateVectors | simulator/src/satellite/model/sgp4unit.cpp:2000-2006 | the distance is mrt radii, and the velocity is mvt along and rvdot across the position |
| StateLaws.ReportedState | simulator/src/satellite/model/sgp4unit.cpp:1723-2019 | every state reported without error is such a pair of vectors |
| StateLaws.ReportedEnergy | simulator/src/satellite/model/sgp4unit.cpp:1903-2006 | around a round Earth reported distance and speed have the energy of the orbit, through Kepler's equation and all later stages |
| StateLaws.NearEarthAngles | simulator/src/satellite/model/sgp4unit.cpp:1771-1860 | near the Earth the angles are the secular ones moved by the drag, up to whole turns |
| StateLaws.DeepIgnoresInitial | simulator/src/satellite/model/sgp4unit.cpp:1904-1974 | a deep-space answer does not depend on the terms set at initialization |
| StateLaws.ErrorCodes | simulator/src/satellite/model/sgp4unit.cpp:1826-1848 | what the error codes of the mean elements say, and which eccentricity, axis and mean motion are used otherwise |
| Position.TemeToPefKeepsLength | simulator/src/satellite/model/satellite.cc:282-302 | the sidereal rotation keeps lengths |
| Position.PefToItrfKeepsLength | simulator/src/satellite/model/satellite.cc:256-280 | the polar motion matrix keeps lengths |
| Position.FrameKeepsLength | simulator/src/satellite/model/satellite.cc:304-311 | the frame change keeps the distance from the centre |
| FrameLaws.SiderealAxes | simulator/src/satellite/model/satellite.cc:282-302 | the frame turns eastwards by sidereal time: which directions become its axes |
| FrameLaws.PolarAxes | simulator/src/satellite/model/satellite.cc:256-280 | which directions the polar motion turns into the axes and the pole |
| FrameLaws.CrustDirections | simulator/src/satellite/model/satellite.cc:304-311 | where the meridian of sidereal time and the celestial pole lie on the Earth's crust |
| FrameLaws.VelocityIsRelative | simulator/src/satellite/model/satellite.cc:313-323 | the velocity is the one relative to the turning Earth, in the frame's axes |
| FrameLaws.Standstill | simulator/src/satellite/model/satellite.cc:313-323 | a point that turns with the Earth stands still; if the Earth stood still speeds would be kept |
| Position.OrientationOrthonormal | simulator/src/satellite/model/sgp4unit.cpp:1985-1998 | the two orientation vectors are unit vectors at right angles |
| Position.PositionAboveSurface | simulator/src/satellite/model/sgp4unit.cpp:2000-2015 | a state reported without error is at least one Earth radius from the centre |
| Position.ReportedPosition | simulator/src/satellite/model/satellite.cc:94-111 | a position is the zero vector or at least 6378135 m from the centre |
| Position.ZeroMeansError | simulator/src/satellite/model/satellite.cc:106-110 | the zero vector is reported exactly on error |
| FrameLaws.ReportedExactly | simulator/src/satellite/model/satellite.cc:94-132 | reported distance and speed are exactly the propagated ones in metres, the speed relative to the turning Earth |
| FrameLaws.EarthModel | simulator/src/satellite/model/sgp4unit.cpp:2128-2137 | the constants in use satisfy Kepler's third law at one Earth radius and give the third harmonic |
| Position.Satellite.GetPosition | simulator/src/satellite/model/satellite.cc:94-111 | the const query over a mutable record is a function of elements and date |
| Position.Satellite.GetVelocity | simulator/src/satellite/model/satellite.cc:113-132 | likewise for the velocity |
| Position.Ask | simulator/src/satellite/model/satellite.cc:94-132 | any sequence of position and velocity queries, at times in any order, gets the answers each query would get alone |
| Utilization.TrackExact | simulator/contrib/satellite-network/model/point-to-point-laser-net-device.cc:707-748 | a call accounts for the time since the last one exactly, across any number of interval ends |
| Utilization.NeverAborts | simulator/contrib/satellite-network/model/point-to-point-laser-net-device.cc:725-726 | the abort "Not all time is accounted for" is unreachable for calls in time order |
| Utilization.EntryCount | simulator/contrib/satellite-network/model/point-to-point-laser-net-device.cc:713-734 | there is exactly one entry per full interval passed |
| Utilization.RunExact | simulator/contrib/satellite-network/model/point-to-point-laser-net-device.cc:695-748 | for every run of alternating switches the entries and counters are the true busy times |
| Utilization.ReportExact | simulator/contrib/satellite-network/model/point-to-point-laser-net-device.cc:752-756 | a report at T has floor(T/interval) exact entries, and reporting again at T changes none |
| Utilization.FinalizeExactIff | simulator/contrib/satellite-network/model/point-to-point-laser-net-device.cc:752-756 | a report keeps the accounting exact if and only if the remembered state is the link's or no time has passed |
| Utilization.SecondReportExactIff | simulator/contrib/satellite-network/model/point-to-point-laser-net-device.cc:752-756 | of two reports with no switch between, the second is exact if and only if it is at the same instant |
| Utilization.LateSecondReport | simulator/contrib/satellite-network/model/point-to-point-laser-net-device.cc:752-756 | a concrete run in which the second report is wrong |
| LaserDevice.PointToPointLaserNetDevice.EnableUtilizationTracking | simulator/contrib/satellite-network/model/point-to-point-laser-net-device.cc:695-705 | the state after enabling at any time; the accounting is exact if and only if nothing was recorded before and the link has not changed since time 0 |
| LaserDevice.PointToPointLaserNetDevice.EndInterval | simulator/contrib/satellite-network/model/point-to-point-laser-net-device.cc:715-733 | one interval is closed and recorded; its times add up |
| LaserDevice.PointToPointLaserNetDevice.TrackUtilization | simulator/contrib/satellite-network/model/point-to-point-laser-net-device.cc:707-748 | the loop on the fields is the accounting function |
| LaserDevice.PointToPointLaserNetDevice.FinalizeUtilization | simulator/contrib/satellite-network/model/point-to-point-laser-net-device.cc:752-756 | the report of a device in use, and when it is right |
| LaserDevice.PointToPointLaserNetDevice.TransmitStart | simulator/contrib/satellite-network/model/point-to-point-laser-net-device.cc:241-270 | the link turns busy now, with one pending completion; the accounting stays exact |
| LaserDevice.PointToPointLaserNetDevice.TransmitComplete | simulator/contrib/satellite-network/model/point-to-point-laser-net-device.cc:272-305 | a pending completion finds the device BUSY with a packet; the link turns idle, and busy again at once when a packet waits; the accounting stays exact |
| LaserDevice.PointToPointLaserNetDevice.Send | simulator/contrib/satellite-network/model/point-to-point-laser-net-device.cc:527-578 | refused, dropped, queued or sent at once; the accounting stays exact |
| UtilizationCsv.WriteRows | simulator/contrib/satellite-network/model/topology-satellite-network.cc:455-475 | the rows expand to the array, tile its time without gaps at interval boundaries, and neighbours differ |
| GslDevice.FirstInFirstOut | simulator/contrib/satellite-network/model/gsl-net-device.cc:276-310 | over every run each accepted packet goes to its own destination in acceptance order, and the refused and dropped ones are those that met no link or no room, all judged from the events alone |
| GslDevice.DeviceCounts | simulator/contrib/satellite-network/model/gsl-net-device.cc:508-563 | the link is up once the device is attached, the packets inside are as many as a count of events says, and none waits at an idle device |
| GslDevice.GslNetDevice.AttachChannel | simulator/contrib/satellite-network/model/gsl-net-device.cc:313-328 | attaching brings the link up and changes nothing else |
| GslDevice.Conservation | simulator/contrib/satellite-network/model/gsl-net-device.cc:508-563 | over every run the packets offered are those refused, dropped, completed, in service and waiting, each once |
| GslDevice.Drains | simulator/contrib/satellite-network/model/gsl-net-device.cc:276-310 | with no further sends the device is READY after exactly queue length plus one completions |
| GslDevice.GslNetDevice.TransmitStart | simulator/contrib/satellite-network/model/gsl-net-device.cc:244-274 | READY becomes BUSY with one pending completion |
| GslDevice.GslNetDevice.Send | simulator/contrib/satellite-network/model/gsl-net-device.cc:508-563 | on two parallel queues, one step of the line of pairs; when it answers true |
| GslDevice.GslNetDevice.TransmitComplete | simulator/contrib/satellite-network/model/gsl-net-device.cc:276-310 | one step of the line of pairs; its assertions hold |
| JulianDates.PlusAdds | simulator/src/satellite/model/julian-date.cc:253-271 | adding a span of either sign adds its milliseconds, modulo the uint32_t day range, and stays normalized |
| JulianDates.MinusSubtracts | simulator/src/satellite/model/julian-date.cc:279-303 | likewise for subtraction with borrow |
| JulianDates.PlusMinusInverse | simulator/src/satellite/model/julian-date.cc:253-303 | the two operators undo each other |
| JulianDates.DifferenceAddsIff | simulator/src/satellite/model/julian-date.cc:311-318 | adding the difference of two dates to one gives the other if and only if they are at most 9223372036854 ms apart, the range of int64_t nanoseconds |
| JulianDates.FarDifference | simulator/src/satellite/model/julian-date.cc:311-318 | two dates whose difference does not lead from one to the other |
| JulianDates.ComparisonsAgree | simulator/src/satellite/model/julian-date.cc:320-366 | all comparisons are those of the total milliseconds |
| JulianDates.MillisecondsTruncate | simulator/src/satellite/model/julian-date.cc:253-303 | the milliseconds of a span are the whole ones in it, whichever its sign |
| Gregorian.DayNumberIsCivil | simulator/src/satellite/model/julian-date.cc:244-246 | in 1992 to 2099 the formula counts days of the full Gregorian calendar from 1 January 1970 |
| Gregorian.GregorianDate | simulator/src/satellite/model/julian-date.cc:414-456 | the month loop and the time-of-day splitting |
| Gregorian.FourYearRoundTripIff | simulator/src/satellite/model/julian-date.cc:415-456 | with every fourth year a leap year, a date of any year from 1992 on is read back as it was given if and only if its year is not 1992 and its day lies within the uint32_t range |
| Gregorian.EveryDayRead | simulator/src/satellite/model/julian-date.cc:415-456 | every day number, however it came about, is read as the date of that day, except those of 1992, which have no month |
| Gregorian.DateRoundTripIff | simulator/src/satellite/model/julian-date.cc:415-456 | a date is read back as it was given if and only if its year is not 1992 |
| Gregorian.FirstDayFails | simulator/src/satellite/model/julian-date.cc:425-440 | 1 January 1992 is read back without a month |
| LeapSeconds.TaiMinusUtcTrueIff | simulator/src/satellite/model/julian-date.cc:388-397 | the difference is the one the table stands for if and only if the day is not in the table; on such a day it is one second short |
| LeapSeconds.LeapStep | simulator/src/satellite/model/julian-date.cc:388-397 | from day to day the code's difference grows by one second exactly after the days of the table |
| LeapSeconds.July1992Fails | simulator/src/satellite/model/iers-data.cc:4638-4645 | with the table of the code the difference on 1 July 1992 is 26 s instead of 27 s |
| TimeScales.StoredTrueIff | simulator/src/satellite/model/julian-date.cc:465-510 | a TAI, TT or GPS date is stored as its true UTC if and only if no new difference comes into force on the day looked up or the day stored |
| TimeScales.StoredLate | simulator/src/satellite/model/julian-date.cc:465-510 | otherwise it is stored late, by exactly one second if no leap seconds fall on consecutive days |
| TimeScales.NoonStoredLate | simulator/src/satellite/model/julian-date.cc:465-510 | noon TAI of 1 July 1992 is stored one second late |
| TimeScales.ScaleRoundTripIff | simulator/src/satellite/model/julian-date.cc:464-510 | a TAI, TT or GPS instant converted to UTC and back is unchanged if and only if it is outside the leap window, and one second late inside |
| TimeScales.WindowFails | simulator/src/satellite/model/julian-date.cc:493-504 | one TAI and one GPS date inside the leap window |
| TimeScales.KnownInstants | simulator/src/satellite/model/julian-date.cc:485-510 | noon TT of 1 January 2000 is 11:58:55.816 UTC, and GPS time starts with 6 January 1980 UTC |
| TimeScales.Ut1RoundTripIff | simulator/src/satellite/model/julian-date.cc:399-406 | a UT1 date is stored as the UTC instant the table of corrections gives, and comes back unchanged, if and only if the corrections of its two days are the same |
| TimeScales.Ut1Fails | simulator/src/satellite/model/julian-date.cc:399-406 | the last millisecond of 1 January 1992 in UT1 comes back changed |
| TimeScales.PrintedAsGivenIff | simulator/src/satellite/model/julian-date.cc:115-128 | a date given in any scale is printed as given if and only if its year is not 1992 and its scale brings it back |
| TimeScales.PrintGiven | simulator/src/satellite/model/julian-date.cc:115-128 | the same for a date object that is set and then printed |
| TimeScales.SecondsSplit | simulator/src/satellite/model/julian-date.cc:241-242 | seconds with milliseconds are split without loss |
| TimeScales.JulianDate.constructor | simulator/src/satellite/model/julian-date.cc:68-74 | the default date |
| TimeScales.JulianDate.AddAssign | simulator/src/satellite/model/julian-date.cc:273-277 | in-place addition |
| TimeScales.JulianDate.SubtractAssign | simulator/src/satellite/model/julian-date.cc:305-309 | in-place subtraction |
| TimeScales.JulianDate.SetDate | simulator/src/satellite/model/julian-date.cc:217-251 | the stored date is the given one moved by the code's offset to UTC, and is its true UTC if and only if no new difference comes into force on the days concerned; which arguments are rejected |
| TimeScales.JulianDate.GetDateTimeInScale | simulator/src/satellite/model/julian-date.cc:118-119 | the fields printed are those of the stored instant in the date's scale |
| EpochCalendar.JdayAdds | simulator/src/satellite/model/sgp4ext.cpp:565-577 | in any year the Julian date advances by the days of the calendar and the fraction of the day |
| EpochCalendar.JdayIsDayNumber | simulator/src/satellite/model/sgp4ext.cpp:565-577 | at midnight it is the day number of a date plus 2440587.5 |
| EpochCalendar.Days2mdhms | simulator/src/satellite/model/sgp4ext.cpp:617-648 | the fields denote exactly the given real day of the year; they are a proper date if and only if the day is within the year |
| Forwarding.HopUsesItsChannelIff | simulator/contrib/satellite-network/helper/arbiter-single-forward-helper.cc:130-142 | over a laser link the two interfaces of an accepted entry are the two ends of the channel if and only if the own interface is not the second end of a channel from the node to itself |
| Forwarding.SelfChannelHop | simulator/contrib/satellite-network/helper/arbiter-single-forward-helper.cc:130-142 | an accepted hop from an interface to itself |
| Forwarding.GoodLinesPass | simulator/contrib/satellite-network/helper/arbiter-single-forward-helper.cc:91-144 | drops, hops between any two ground-satellite devices and hops along a channel from either end pass the checks |
| Forwarding.HopJoinsLikeDevices | simulator/contrib/satellite-network/helper/arbiter-single-forward-helper.cc:108-142 | an accepted hop joins two ground-satellite or two laser devices, never a loop-back |
| Forwarding.TableInvariant | simulator/contrib/satellite-network/helper/arbiter-single-forward-helper.cc:66-157 | after any loads an entry is untouched, a drop or a proper hop, and untouched exactly when no line was for its pair |
| Forwarding.SecondLoad | simulator/contrib/satellite-network/helper/arbiter-single-forward-helper.cc:66-157 | further lines replace the entries of their own pairs by their own last entries and keep all others |
| Forwarding.DecisionIsLastLine | simulator/contrib/satellite-network/model/arbiter-satnet.cc:41-79 | a decision on a loaded pair never aborts and does what the last line for the pair said |
| Forwarding.AbortIff | simulator/contrib/satellite-network/model/arbiter-satnet.cc:58-64 | a decision aborts if and only if no line was for its pair |
| Forwarding.ArbiterSingleForwardHelper.DecideNext | simulator/contrib/satellite-network/model/arbiter-satnet.cc:41-79 | the decision of a node from its table is that of the last line loaded for the pair |
| Forwarding.LoadAndDecide | simulator/contrib/satellite-network/helper/arbiter-single-forward-helper.cc:169-177 | the same from empty tables through the whole chain of loads |
| Forwarding.ArbiterSingleForwardHelper.constructor | simulator/contrib/satellite-network/helper/arbiter-single-forward-helper.cc:53-64 | all entries start untouched |
| Forwarding.ArbiterSingleForwardHelper.CheckLine | simulator/contrib/satellite-network/helper/arbiter-single-forward-helper.cc:91-144 | the checks pass exactly the lines that mean a drop or a proper hop |
| Forwarding.ArbiterSingleForwardHelper.SetSingleForwardState | simulator/contrib/satellite-network/model/arbiter-single-forward.cc:53-56 | one entry is replaced unless a value is -2 |
| Forwarding.ArbiterSingleForwardHelper.UpdateForwardingState | simulator/contrib/satellite-network/helper/arbiter-single-forward-helper.cc:66-179 | entries of pairs in the file become the last line of each pair and all others stay, the first bad line aborts, setting never does, and when the next load is planned |
| Forwarding.ArbiterSingleForwardHelper.RunLoads | simulator/contrib/satellite-network/helper/arbiter-single-forward-helper.cc:169-177 | files are loaded at all multiples of the interval before the end, time 0 always, only time 0 when static |

## Left out

- Files, string splitting, configuration, console output and CSV formatting: models start from parsed lines and values.
- The ns-3 event queue, packets, addresses, traces and MPI: pending completions are a field of the device, the drop-tail queue is a sequence bounded in packets, what a channel answers is a parameter.
- Floating-point rounding: `double` is `real`. Sine, cosine, square root, power, arctangent, remainder and division are parameters of which each law states what it uses: sin²+cos²=1, exact quotients, roots and powers, reduction by whole turns, half turns.
- The lunar-solar periodics (`dpper`) and all initialization formulas of SGP4: the periodics are a function parameter of the elements, the coefficients are fields.
- Construction of the neighbour-to-interface table: it is a parameter that must give different non-loop-back interfaces to different neighbours of a node.
- Members that cannot be reached from the source, for which the code reads a first candidate that does not exist; an interval of zero for tracking or for state updates, for which the code loops forever.
- The order of the outgoing interface list (ascending in the code): it is a set here. Group addresses are unbounded numbers. Interface addresses are pairs of node and interface.
- The incoming interface is not checked when a packet is forwarded (`LookupArbiter` accepts any), so copies are followed without that check and are shown to arrive on it anyway.
- JulianDates.DifferenceAddsIff: signed 64-bit overflow is taken to wrap around.
- TimeScales.ScaleRoundTripIff: GPS instants are those at which TAI is at least 19 s ahead of UTC; the leap table has at most 80000 entries and seconds together, the table of UT1 corrections at most 1000000.
- TimeScales.Ut1RoundTripIff: the table of UT1 corrections holds whole milliseconds below one second; of the code's own table only the first two days are entered.
- Position.Satellite.GetPosition: the record of a satellite is one object here and its integrator another; sidereal time, polar motion and Earth spin are given with the date.
- Forwarding.ArbiterSingleForwardHelper.CheckLine: a laser device is assumed to be one of the two ends of its channel.
- Hash-based choice among candidates, TCP/UDP/ping applications, helpers and result writers, `invjday`, `rv2coe`, `newtonnu`, geographic coordinates: wiring, or no exact property.
