# Verified models of the Plane.Watch pipeline

A Dafny model of the parts of the pipeline whose correctness is hardest to see from the code: how
positions are decoded, how frames are cut out of a byte stream, how records are merged, routed
and batched, and the caches, tables and lists underneath. Results hold for all inputs and all
runs. Those about the router's cache hold for every interleaving of its workers; what a reader of
its feeds may rely on differs between one worker and several, and is proved for both. `dafny
verify dfyconfig.toml` checks the project.

- **Compact Position Reporting** (lib/tracker/cpr.go). `NlTable`, `CprDecoder` and the object
  `CprLocation` follow the code. `CprEncoding` is the transponder's side, written from sections
  A.1.7.3 and A.1.7.4 of Appendix A to RTCA DO-260B. `CprRoundTrip` and `CprTheorems` prove that
  the decoder inverts it, and exactly when; `CprPairing` is about whole runs of the report
  buffers. `NlStandard` has the number of longitude zones by the formula of section A.1.7.2, for
  any function that its series brackets like the cosine, and checks every entry of the table
  against it; `CprStandard` is a transponder that uses that formula.
- **Beast framing** (lib/producer/beast.go). `StreamSplitter` is a reader in the manner of
  bufio.Scanner for any split function; `BeastFormat` holds the wire format and what follows from
  the laws of a Beast splitter; `BeastScan` is the code, and the proof that it keeps them.
  `BeastSplitPair` is about streams that are entered between the two bytes of an escape pair.
- **Merge and router** (lib/export/types.go, cmd/pw_router/worker.go). `PlaneMerge` and `Router`
  follow the code; `MergeLaws` shows that merging is a join and what the plausibility gate is
  worth, `SquawkOrder` when the squawk is not part of that join, `MergeUndated` what becomes of
  fields without a time. `RouterFeeds` is about the feeds of one worker that handles each message
  to completion. `LockedMerge` and `RouterConcurrency` show that any interleaving of workers is
  sequential for each cached aircraft. Workers publish after they unlock: `PublishOrder` follows
  every publication to its place on the feed, `RouterInterleavings` says what the feeds are worth
  then, exactly, `RouterTiles` what becomes of the tile, `RouterTopics` what is on every topic,
  and `RouterOvertaking` gives the run in which the low feed falls behind.
- **WebSocket batches** (cmd/pw_ws_broker/web.go). `PendingMap` is the slice with its index and
  the map they stand for, `WsProtocol` what any sequence of events makes a client send and
  remember, `WsDelivery` what each subscription brings, `WsClient` the command loop.
- **Navigation data** (lib/tracker/nav.go). `NavTracking` follows the code, `NavProvenance` says
  where every value shown came from.
- **Forgetful map and dedupe filter** (lib/dedupe). `ForgetfulMap` is the timed cache with its
  shared pool of marbles, `Dedupe` the filter and its behaviour over time.
- **Tile grid** (lib/tile_grid). `WorldGrid` holds the 75 rectangles and shows that they
  partition the world, `TileLookup` compares search and table with them.
- **Linked lists** (lib/tracker/frame-list.go, lib/middleware/ingest_tap.go): `FrameList` and
  `TapList`.

Objects that the code updates in place are classes here. Each method is proved against a function
of its inputs and the old state, and the results are about those functions; where a run is a
sequence of calls, a method `Replay`, `Run` or `Loop` connects the two. `Basics` holds what the
modules share.

Where the code does not do what one might expect, the model follows the code and says exactly
when:

- The heading test of the merge turns down plausible positions when heading - bearing is below
  -180, because math.Mod keeps the sign of its argument (`MergeLaws.GateDecides`,
  `MergeLaws.GateTurnsDownPlausible`).
- At exactly 87 degrees north or south the standard has two longitude zones and the table one, so
  an even report from there, when it is the earlier one, is decoded to twice its longitude
  (`CprStandard.SentZonesExact`, `CprStandard.EdgeDoubles`, `CprStandard.EdgeWitness`).
- The time of the last message, which the gate compares, can go back
  (`MergeUndated.ClockGoesBack`).
- Workers publish after unlocking, so an older low message of an aircraft can come after a newer
  one and stay the last, however stale (`RouterOvertaking.LowFeedUnbounded`). Once the workers
  are idle, that is the only way in which the low feed is not a bounded view
  (`RouterInterleavings.LowFeedIsView`).
- The tile of a cached aircraft can change without a low message (`RouterTiles.CachedTileExact`,
  `RouterFeeds.TileChangePossible`).
- A stream that is entered between the two bytes of an escape pair can lose the next frame, or
  yield a false one (`BeastSplitPair.BeastSplitPairExact`, `BeastSplitPair.BeastFrameLost`,
  `BeastSplitPair.BeastFakeWitness`). It loses the frames that begin inside the false one and no
  others (`BeastSplitPair.BeastRecovers`).
- The tile table gives the southern neighbour for positions less than a degree north of a tile's
  southern edge (`TileLookup.TableExact`, `TileLookup.TableWitness`), and tileUnknown at the
  north pole and at longitude 180.
- A BDS 4,0 reply is accepted for repeating the one before it however much older it is than that
  one: the window has no lower bound (`NavProvenance.AcceptanceExact`,
  `NavProvenance.OlderReplyAccepted`).
- `clear` on the slice of waiting locations keeps its length, so the flush after a new
  subscription list can hold null entries (`WsProtocol.NullSentExact`, `WsProtocol.NullIsSent`).
- The squawk depends on the order of updates with distinct times exactly when the newest squawk
  that the record would take is a 0 at most five seconds newer than another one that it would
  take (`SquawkOrder.SquawkOrderExact`).
- `Range` over the recent frames never shows the oldest one, so it misses it unless a newer one
  was refused (`FrameList.OldestMissed`, `FrameList.OnlyFrameMissed`).
- The comment on 4,0 replies says that they keep autopilot, LNAV and TCAS from the last TC29;
  when no modes were held before, the code takes autopilot and LNAV from the reply
  (`NavProvenance.KeptProvenance`).
- A surface decode without a reference position fails before the buffers are cleared
  (`CprPairing.DecodeClears`).
- The comment on the frame timing check speaks of 1 second; the code allows 10.

## Model

| member | source | states |
|---|---|---|
| CprTheorems.AirborneRoundTrip | lib/tracker/cpr.go:374-421 | for every pair of positions whose latitudes are less than half a zone step apart, an encoded pair is refused when the zone counts or the times do not match, and otherwise decodes to the latitude and time of the earlier report, and to its longitude if and only if the longitudes are aligned |
| CprTheorems.AirborneAccuracy | lib/tracker/cpr.go:374-421 | an aircraft that moved at most 0.0508 degrees of latitude and about half a longitude zone step is decoded to within half a quantum of where it was at the earlier report, across the antimeridian and at the poles too, or refused; never to another place |
| CprStandard.StandardAirborne | lib/tracker/cpr.go:374-436 | the same for reports of a transponder that counts longitude zones by the formula of the standard, not by the table: any pair but one whose even report is from exactly 87 degrees north or south is refused when its zone counts differ or it is too old, and otherwise decoded to within half a quantum |
| CprStandard.StandardSurface | lib/tracker/cpr.go:274-321 | the same for surface reports of such a transponder inside both windows |
| CprStandard.SameReport | lib/tracker/cpr.go:36-96 | but for that latitude such a transponder sends the same reports as one that uses the table of the decoder |
| CprStandard.SentZonesExact | lib/tracker/cpr.go:36-96 | for every latitude that a report can carry the table gives the zone count of the standard if and only if it is not 87 degrees north or south, which only even reports carry |
| CprStandard.EdgeDoubles | lib/tracker/cpr.go:429-436 | from 87 degrees an even report that is the earlier one is decoded to twice its longitude, which is right if and only if that is 0 |
| CprStandard.EdgeWitness | lib/tracker/cpr.go:429-436 | a pair sent from 90 degrees east and decoded to 180 |
| NlStandard.TableIsStandard | lib/tracker/cpr.go:36-96 | at every latitude that is not within 0.00000001 degrees of a transition latitude, table and formula agree if and only if it is not 87 degrees north or south |
| NlStandard.TransitionExact | lib/tracker/cpr.go:36-96 | each of the other 57 entries of the table: by the formula that many zones fit exactly below it |
| CprTheorems.SurfaceRoundTrip | lib/tracker/cpr.go:274-321 | from strictly inside the latitude window of the reference, surface reports decode to the latitude and time of the earlier report, and to its longitude in the quadrant of the reference if and only if the longitudes are aligned |
| CprTheorems.SurfaceAccuracy | lib/tracker/cpr.go:248-259 | with the positions as sent inside both windows of the reference, and moving at most 0.0127 degrees, the surface position is within half a 19-bit quantum of the earlier report |
| CprTheorems.SurfaceAccuracyTrue | lib/tracker/cpr.go:274-321 | the same for the true positions, when they lie half a quantum inside the windows |
| CprTheorems.SurfaceLatitudeExact | lib/tracker/cpr.go:323-372 | a latitude sent from strictly within 45 degrees of the reference is recovered if and only if the zone slip is a multiple of its zone count |
| CprTheorems.AirborneRange | lib/tracker/cpr.go:261-272 | for arbitrary 17-bit fields a successful airborne decode lies in [-90, 90] and (-180, 180] |
| CprTheorems.SurfaceRange | lib/tracker/cpr.go:261-272 | for arbitrary 17-bit fields a successful surface decode lies in [-90, 90] and [-180, 180), and its latitude check never fails |
| CprTheorems.SurfaceLatNearest | lib/tracker/cpr.go:323-372 | the surface latitude is the candidate nearest the reference among r and r - 90, or -90, 0 and 90 when r is 0, and every candidate strictly within 45 degrees is the one chosen |
| CprTheorems.SurfaceLonExact | lib/tracker/cpr.go:248-259 | the surface longitude is congruent to the zone value modulo 90 and within 45 degrees of the reference on the circle, and a longitude strictly inside that window is recovered |
| CprTheorems.NearestQuadrantUnique | lib/tracker/cpr.go:255-256 | of all longitudes with the same zone value exactly one lies in (ref - 45, ref + 45], and it is the one chosen |
| CprTheorems.FixExact | lib/tracker/cpr.go:193-246 | once both latitudes are recovered: which error there is, or whose position and time is returned, and when the longitude is right, both directions |
| CprRoundTrip.AirLatitudeExact | lib/tracker/cpr.go:180-191 | each decoded latitude is the one sent if and only if the zone slip of the pair is a multiple of its zone count, and both are if and only if it is zero |
| CprRoundTrip.LatMovement | lib/tracker/cpr.go:180-183 | movement of up to 0.0508 degrees (0.0127 on the surface) between the reports keeps the zone slip at zero |
| CprRoundTrip.RawLonRecovers | lib/tracker/cpr.go:223-228 | the longitude before its hemisphere is chosen is the one sent if and only if the slip is a multiple of the zone count used, or there is one zone |
| CprRoundTrip.LonMovement | lib/tracker/cpr.go:225-240 | movement in longitude within the bound for NL(NL-1) keeps the longitudes aligned |
| CprEncoding.ZoneRecovery | lib/tracker/cpr.go:180-191 | the zone index computed from the 17-bit fields is the true zone number displaced by the slip, for any two consecutive zone counts |
| CprEncoding.FieldIsUnreduced | lib/tracker/cpr.go:11-34 | the transmitted field (section A.1.7.3 of Appendix A to RTCA DO-260B) is the unreduced encoding modulo 2^17, and recovery is the formula of the standard |
| CprEncoding.RecoveredWithinHalfQuantum | lib/tracker/cpr.go:11-34 | the coordinate that a field stands for is within half a quantum of the one encoded |
| NlTable.NLCharacterised | lib/tracker/cpr.go:423-436 | the table search gives n if and only if |lat| lies between the transition latitudes of n + 1 and n |
| NlTable.NLIsEven | lib/tracker/cpr.go:424-427 | the number of zones is the same north and south |
| NlTable.NLNonIncreasing | lib/tracker/cpr.go:429-435 | the number of zones never grows towards a pole |
| NlTable.GetNumLongitudeZone | lib/tracker/cpr.go:424-436 | the downward search loop finds that number |
| CprDecoder.CprMod | lib/tracker/cpr.go:451-460 | the mod function is the mathematical remainder for either sign of its argument |
| CprDecoder.ZoneIndexRange | lib/tracker/cpr.go:225-228 | zone indices of 17-bit fields lie between minus the one and the other zone count, so the conversion to int32 is exact |
| CprDecoder.CprLocation.constructor | lib/tracker/cpr.go:11-34 | a new location has no reports and no reference |
| CprDecoder.CprLocation.CanDecode | lib/tracker/cpr.go:97-101 | both reports are there |
| CprDecoder.CprLocation.ClearBuffers | lib/tracker/cpr.go:103-118 | both buffers are empty afterwards |
| CprDecoder.CprLocation.SetEvenLocation | lib/tracker/cpr.go:120-133 | fields outside 17 bits are refused and change nothing; others replace the even report and leave the odd one |
| CprDecoder.CprLocation.SetOddLocation | lib/tracker/cpr.go:135-152 | the same for the odd report |
| CprDecoder.CprLocation.ComputeLatitudeIndex | lib/tracker/cpr.go:180-183 | the latitude index of the two buffered reports |
| CprDecoder.CprLocation.ComputeAirDLatRLat | lib/tracker/cpr.go:185-191 | both latitudes from that index |
| CprDecoder.CprLocation.ComputeLongitudeZone | lib/tracker/cpr.go:193-202 | an error if and only if the two zone counts differ |
| CprDecoder.CprLocation.CheckFrameTiming | lib/tracker/cpr.go:206-213 | an error if and only if the reports are more than 10 s apart in truncated milliseconds |
| CprDecoder.CprLocation.ComputeLatLon | lib/tracker/cpr.go:215-246 | the position and time of the odd report when it is strictly the earlier one, else of the even one |
| CprDecoder.CprLocation.SurfacePosQuadrantTwiddle | lib/tracker/cpr.go:323-372 | both latitudes are moved as the surface latitude function says, with the error exactly out of range |
| CprDecoder.CprLocation.SurfaceLongitudeTwiddle | lib/tracker/cpr.go:248-259 | the longitude nearest the reference, brought into [-180, 180) |
| CprDecoder.CprLocation.NormaliseLatLon | lib/tracker/cpr.go:261-272 | longitudes above 180 are moved down by 360, latitudes beyond the poles are an error |
| CprDecoder.CprLocation.FixPosition | lib/tracker/cpr.go:403-419 | zone check, time check and position in that order, as in the function about which the round trips are proved |
| CprDecoder.CprLocation.DecodeGlobalAir | lib/tracker/cpr.go:374-421 | the airborne decode function of the buffered pair, or an error without both; the buffers are untouched |
| CprDecoder.CprLocation.DecodeSurface | lib/tracker/cpr.go:274-321 | the surface decode function of the buffered pair and the reference; the buffers are untouched |
| CprDecoder.CprLocation.DecodePair | lib/tracker/cpr.go:154-177 | nothing without both reports; else the airborne or surface result, and the buffers are cleared unless a surface decode has no reference |
| CprPairing.BufferIsLatest | lib/tracker/cpr.go:120-152 | over any run, a buffer holds exactly the latest accepted report of its kind since the last clear |
| CprPairing.PositionProvenance | lib/tracker/cpr.go:154-177 | every position produced in any run comes from one even and one odd report held since the last clear, less than 10.001 s apart, carries the earlier of the two times, and clears the buffers |
| CprPairing.UsedAtMostOnce | lib/tracker/cpr.go:154-177 | of any two decodes that produce a position, the later one decodes two reports that both came in after the earlier one |
| CprPairing.DecodeClears | lib/tracker/cpr.go:166-175 | a decode clears the buffers if and only if it did not fail for want of a reference |
| CprPairing.Replay | lib/tracker/cpr.go:97-177 | the object itself runs exactly the machine of these results |
| StreamSplitter.ChunkingIndependence | lib/producer/beast.go:14-48 | for any split function that is stable under extension, any splitting of a stream and any schedule of calls gives the tokens of one pass |
| StreamSplitter.DrainExtends | lib/producer/beast.go:14-48 | draining a stream and then its continuation is draining both at once |
| BeastScan.BeastChunking | lib/producer/beast.go:51-116 | the Beast splitter gives the same tokens however the stream arrives |
| BeastScan.BeastRoundTrip | lib/producer/beast.go:62-112 | scanning a printed list of frames of types 0x31 to 0x34 returns, unescaped and in order, exactly the frames that start at least 50 bytes before the end, and keeps the bytes of the others |
| BeastScan.BeastFirstFrame | lib/producer/beast.go:62-112 | a message of any of the four types, by the layout of the wire, comes out byte for byte, 11, 16, 23 or 11 bytes long, and the frames behind it as if it had not been there |
| BeastScan.BeastResync | lib/producer/beast.go:56-88 | starting anywhere in a frame but inside an escape pair, no false frame comes out and every later complete one does |
| BeastFormat.Resynchronises | lib/producer/beast.go:56-88 | any run of escaped bytes before a frame boundary changes nothing about the tokens |
| BeastFormat.ResumesAfterCut | lib/producer/beast.go:56-88 | every cut of a frame that does not split a pair leaves such a run of bytes |
| BeastFormat.SplitPairFakesFrame | lib/producer/beast.go:81-87 | a cut inside a pair emits a false frame when the rest of the payload holds a whole one; the special case that does not need the frames behind it |
| BeastSplitPair.BeastSplitPairExact | lib/producer/beast.go:56-116 | a frame cut inside any of its pairs, with any frames behind it: with nothing but 0x1A left in the payload exactly the next frame is lost; with a message type as the first other byte a false frame of that type comes first if and only if 50 bytes are there from its 0x1A on, and nothing at all otherwise; in every other case all is as if the stream began at the next frame |
| BeastSplitPair.BeastFrameLost | lib/producer/beast.go:81-83 | a payload that ends in 0x1A, cut inside that pair: the first frame that ought to come out does not, and the others do |
| BeastSplitPair.BeastFakeWitness | lib/producer/beast.go:73-76 | a concrete stream whose first token reaches over several frames and equals none of them |
| BeastSplitPair.BeastRecovers | lib/producer/beast.go:56-116 | with a false frame there is exactly one: it is the un-escaped first bytes of the stream, and after it come exactly the frames that begin behind its last byte, as far as they are ready |
| BeastSplitPair.SplitPairExact | lib/producer/beast.go:56-116 | the same three outcomes for any splitter with these laws |
| BeastSplitPair.ScanIsPairSplitter | lib/producer/beast.go:51-116 | the splitter waits for eleven bytes, skips a 0x1A before an unknown byte alone, and takes it for a message before a message type once 50 bytes are there |
| BeastFormat.FramesThenTail | lib/producer/beast.go:91-112 | frames with enough bytes after them come out unchanged and leave no trace on what follows |
| BeastFormat.ReadyExact | lib/producer/beast.go:91-91 | frame k is returned if and only if at least 50 bytes are there from its start on |
| BeastFormat.EscapeAppend | lib/producer/beast.go:103-107 | escaping distributes over concatenation |
| BeastScan.ScanKeepsLaws | lib/producer/beast.go:51-116 | the splitter is in bounds, stable, returns whole frames, skips junk and skips pairs |
| BeastScan.ScanStable | lib/producer/beast.go:51-116 | progress made on a buffer is not changed by bytes that arrive later, for arbitrary bytes |
| BeastScan.ScanFrame | lib/producer/beast.go:62-112 | a printed frame followed by anything scans to that frame and its exact length |
| BeastScan.EscapeInverts | lib/producer/beast.go:98-111 | un-escaping inverts escaping, in content and in bytes consumed |
| BeastScan.IndexByte | lib/producer/beast.go:57-57 | the first occurrence, or -1 exactly when there is none |
| BeastScan.FillToken | lib/producer/beast.go:94-112 | every read stays in the 50-byte window, the token is filled to the message length, and the advance is the number of raw bytes it took |
| BeastScan.ScanBeast | lib/producer/beast.go:51-116 | advance and token are those of the scan function, and the advance never passes the end |
| MergeLaws.MergeOrderFree | lib/export/types.go:208-347 | past the gate, any permutation of updates with distinct field times gives the same ten dated fields, the same TrackedSince and the same count for every source tag |
| MergeLaws.FoldIsNewest | lib/export/types.go:231-333 | after any sequence of merges each dated field is the newest qualifying report of it |
| MergeLaws.ChannelOrderFree | lib/export/types.go:231-333 | one dated field does not depend on the order, for every field that keeps the newest report |
| MergeLaws.GroupsStayWhole | lib/export/types.go:315-333 | the navigation and the surveillance fields are those of one report, never a mixture, and no older than any report |
| MergeLaws.GroupsReported | lib/export/types.go:318-333 | a group counts as reported if and only if it is not entirely empty |
| MergeLaws.TagsCountUpdates | lib/export/types.go:217-225 | a source tag counts the updates merged from its feeder, modulo 2^32 |
| MergeLaws.EveryUpdateCounted | lib/export/types.go:217-225 | over all tags the counts add up to the number of updates |
| MergeLaws.TimesMergedPermutation | lib/export/types.go:217-225 | the counts do not depend on the order |
| MergeLaws.TrackedSinceIsEarliest | lib/export/types.go:227-229 | TrackedSince is the minimum over the record and all updates |
| MergeLaws.SquawkProvenance | lib/export/types.go:296-308 | the squawk comes from the record or from one update, which was newer than the squawk it replaced, and more than 5 s newer than that if it is 0 |
| SquawkOrder.SquawkOrderExact | lib/export/types.go:296-308 | for any record and any updates with distinct times: every order gives the same squawk if and only if the newest squawk that the record would take is not a 0 at most 5 s newer than another one that it would take |
| SquawkOrder.SquawkOrderFree | lib/export/types.go:296-308 | so, in particular, as long as no update reports 0 |
| SquawkOrder.SquawkOrderMatters | lib/export/types.go:297-303 | the order of two updates matters if and only if the record would take both and one is a 0 at most 5 s newer than the other; the first one then stays |
| MergeLaws.FlagsKept | lib/export/types.go:258-265 | merging never sets HasFlightStatus or HasOnGround |
| MergeLaws.GateExact | lib/export/types.go:426-432 | the heading test passes if and only if heading and bearing are less than 90 degrees apart on the circle and heading - bearing is at least -180 |
| MergeLaws.GateDecides | lib/export/types.go:349-460 | the whole gate: an update is turned down if and only if both positions and headings are known, the position changes, and it is older by either clock or fails the heading test |
| MergeLaws.GateTurnsDownPlausible | lib/export/types.go:349-460 | a position 65 degrees off the heading of the record that the gate turns down: heading 5, bearing 300, whatever the two records are otherwise |
| MergeLaws.GateSound | lib/export/types.go:349-460 | over any run of merges, a position that moves with headings known gets strictly newer and lies less than 90 degrees off the cached heading |
| MergeLaws.LocationNeverOlder | lib/export/types.go:392-403 | over any run of merges the location never gets older |
| MergeUndated.LastAccepted | lib/export/types.go:208-216 | after any run past the gate the record has the message time of the last accepted update, is neither new nor removed and has no signal strength; without an accepted update it is as it was |
| MergeUndated.MovesForward | lib/export/types.go:349-460 | with positions and headings known, no accepted update that moves the position is older by its message time than the update accepted last |
| MergeUndated.ClockGoesBack | lib/export/types.go:208-216 | that time goes back if and only if the update is older and moves no position, or position or heading are not known on both sides |
| MergeUndated.CachedLastMessage | lib/export/types.go:208-216 | in every interleaving the cached record of a free lock shows the last accepted update in lock order as its last message |
| MergeUndated.NamesExact | lib/export/types.go:266-272 | airframe and its type are the first that were known |
| MergeUndated.DescriptionsExact | lib/export/types.go:273-344 | tile, segments, each enrichment and the two extents are the last that were given |
| PlaneMerge.MergePlaneLocations | lib/export/types.go:208-347 | the field-by-field merge is the merge function past the gate, and returns the old record and an error otherwise |
| PlaneMerge.MergeKinematics | lib/export/types.go:231-257 | location, heading, velocity, altitude and vertical rate each take a newer reading and nothing else |
| PlaneMerge.MergeStates | lib/export/types.go:258-333 | flight status, on-ground, squawk, special and the two groups each take a newer report |
| PlaneMerge.MergeDescriptions | lib/export/types.go:266-294 | airframe is filled in once, enrichment and segments are replaced by what is not empty |
| PlaneMerge.MergeListed | lib/export/types.go:273-290 | the loop over the enrichment pointers replaces exactly the listed non-empty ones |
| PlaneMerge.MergeExtent | lib/export/types.go:335-344 | tile, width and length are replaced by what is not empty or zero |
| RouterFeeds.LowFeedIsBoundedStale | cmd/pw_router/worker.go:27-162 | with one message handled to completion before the next, after any run the cached record agrees with the last low message on velocity, flight status, on-ground, special and squawk, and is within k degrees of heading, 10k feet and 180k feet per minute of it, k being the accepted updates since |
| RouterFeeds.LowIsOnHigh | cmd/pw_router/worker.go:274-308 | with one message handled to completion before the next, each low or tile-low message is followed at once by the same record on the matching high topic |
| RouterTopics.TopicsExact | cmd/pw_router/worker.go:184-323 | in every run of one worker, exactly and in order: the high topic holds every record made known, the low topic those that are news, and the topics of a tile, if and only if updates are spread, those of its records |
| RouterTopics.WritePublished | cmd/pw_router/worker.go:240-323 | in every interleaving, once the worker is done: what a new or accepted update made known is on the high topic once, on the low topic once if it is news, on the topics of its tile in the same way if updates are spread, and nowhere else; a refused update is nowhere |
| RouterTopics.NewsExact | cmd/pw_router/worker.go:27-162 | what is news, by the numbers: more than 1 degree, 180 ft/min or 10 ft, any other velocity, status, special code or squawk that is newer, another tile with a newer location, or a report from the ground |
| RouterInterleavings.CacheFollowsLowWrites | cmd/pw_router/worker.go:213-254 | in every interleaving of workers and evictions and at every moment, the last low record in the order of the writes is such a bounded view of the cached record |
| RouterInterleavings.LowFeedExact | cmd/pw_router/worker.go:240-308 | in every interleaving, once the last low message of an aircraft is out, it is the last one on the low feed if and only if no worker published one that was written earlier after it; if one did, such an earlier record is the last |
| RouterInterleavings.LowFeedIsView | cmd/pw_router/worker.go:240-308 | so with all workers idle the low feed is the bounded view of the cache if the last low message was not overtaken |
| RouterInterleavings.LowHasItsHigh | cmd/pw_router/worker.go:274-308 | in every interleaving each low or tile-low message is followed, not necessarily next, by the same record on the matching high topic once its worker is done |
| RouterTiles.CachedTileExact | cmd/pw_router/worker.go:145-155 | in every interleaving of workers and evictions the cached tile is that of the last low record written if and only if no update skipped since named a tile, or the last that did named the same |
| RouterTiles.LowFeedTileExact | cmd/pw_router/worker.go:240-308 | the same for the last message on the low feed, with all workers idle and the last low message not overtaken |
| RouterOvertaking.LowFeedOvertaken | cmd/pw_router/worker.go:240-251 | for any two updates of a new aircraft of which the second is significant there is a run of two workers after which the cache holds their merge and the last low message is the first update |
| RouterOvertaking.LowFeedUnbounded | cmd/pw_router/worker.go:240-251 | after such a run with a changed flight status the last low message is not within any number of updates of the cache |
| PublishOrder.TraceAlways | cmd/pw_router/worker.go:240-254 | in every interleaving, what is on the feed from a write, followed by what its worker has still to publish, is exactly what the write had to publish: nothing is lost, doubled or reordered |
| PublishOrder.FollowsOnFeed | cmd/pw_router/worker.go:274-323 | the messages of one write keep their order on the feed |
| RouterFeeds.LowTileExact | cmd/pw_router/worker.go:145-155 | in every run of one worker the cached tile is that of the last low message if and only if no update skipped since named a tile, or the last that did named the same |
| RouterFeeds.TileChangesUnseen | cmd/pw_router/worker.go:145-155 | an insignificant update changes the cached tile if and only if it names another tile without a newer location |
| RouterFeeds.TileChangePossible | cmd/pw_router/worker.go:145-155 | there is such an update for every record in the air and every other tile |
| RouterFeeds.InsignificantStep | cmd/pw_router/worker.go:44-143 | one insignificant update moves the merged record by at most one threshold in each field |
| Router.Worker.HandleMsg | cmd/pw_router/worker.go:184-254 | cache and publications after a message, in every case: ignored, new, refused by the gate, significant, insignificant |
| Router.Worker.PublishBoth | cmd/pw_router/worker.go:274-308 | low then high, then the two tile topics when updates are spread |
| Router.Worker.HandleInsignificantUpdate | cmd/pw_router/worker.go:310-323 | the high topics only |
| LockedMerge.InvAlways | cmd/pw_router/worker.go:213-240 | the lock invariant holds in every reachable state of any number of workers |
| LockedMerge.MutualExclusion | cmd/pw_router/worker.go:213-240 | no two workers are between lock and unlock of one key |
| LockedMerge.EntriesAreSequential | cmd/pw_router/worker.go:213-240 | in every interleaving with evictions, the entry of a free key is the sequential fold, in lock order, of all updates since it was inserted |
| LockedMerge.SoloWriteExact | cmd/pw_router/worker.go:218-240 | what lock, load, merge and store do when nobody interferes, for each outcome of the merge |
| RouterConcurrency.RouterIsSequential | cmd/pw_router/worker.go:213-254 | in every interleaving the cached record is the merge of exactly the accepted updates in lock order since it was new, and every source tag counts its updates |
| RouterConcurrency.SourceTagsAddUp | cmd/pw_router/worker.go:222-240 | in every interleaving the source tags of a cached record that began untagged add up to one for its first update and one for each accepted since: none is lost |
| RouterConcurrency.RouterMutualExclusion | cmd/pw_router/worker.go:213-240 | per-ICAO mutual exclusion of the workers |
| RouterConcurrency.SoloWriteIsHandle | cmd/pw_router/worker.go:184-254 | an undisturbed worker does to the cache and the feed what the sequential handler does |
| RouterConcurrency.AcceptedFold | lib/export/types.go:208-211 | folding with the gate is folding the accepted updates without it |
| WsClient.Client.Loop | cmd/pw_ws_broker/web.go:555-819 | for every sequence of commands, live updates and ticks until the client leaves or a write fails: what is sent is what the events make it send, up to the failing write, and the slice and its index stand for the latest location per ICAO of what was recorded since the last flush or reset |
| WsClient.Client.Dispatch | cmd/pw_ws_broker/web.go:558-807 | each event writes exactly what the abstract output says, as far as writes succeed, and leaves the abstract state |
| WsClient.Client.Tick | cmd/pw_ws_broker/web.go:796-806 | a flush delivers exactly the pending map, each aircraft once, and empties it |
| WsClient.Client.SetSubscribedTiles | cmd/pw_ws_broker/web.go:579-677 | an invalid list gives one error, for its first unknown tile, and changes nothing; a valid one replaces the subscriptions and sends ack, the snapshot if any, then a completion whose count is the size of the snapshot, as far as writes succeed; the slice is as many nulls as it was long, with the snapshot appended |
| WsClient.Client.SendSnapshot | cmd/pw_ws_broker/web.go:630-677 | snapshot and completion, and the snapshot becomes the batch |
| WsClient.Client.SendAllSubscribed | cmd/pw_ws_broker/web.go:685-728 | delivers the latest of what waited and the matching global list, then a completion with the number of matches |
| WsClient.Client.Collect | cmd/pw_ws_broker/web.go:693-708 | what waits is brought up to date with the matching global list, and delivers the latest of both |
| WsClient.Client.GridPlanes | cmd/pw_ws_broker/web.go:729-748 | records every aircraft of a known tile, or sends one error |
| WsClient.Client.HandleLocation | cmd/pw_ws_broker/web.go:779-795 | a live location is dropped, batched or sent at once, exactly by the subscriptions and the tick setting |
| WsClient.Client.Subscribe | cmd/pw_ws_broker/web.go:563-570 | subscription and ack for a known tile, an error otherwise |
| WsClient.Client.Unsubscribe | cmd/pw_ws_broker/web.go:571-578 | ack or error by the old subscriptions, and the tile is gone |
| WsClient.Client.TickAdjust | cmd/pw_ws_broker/web.go:756-770 | the tick is never set below the configured one |
| WsClient.Client.ClearBatch | cmd/pw_ws_broker/web.go:627-628 | the entries become null but the slice keeps its length |
| WsClient.Client.RecordNew | cmd/pw_ws_broker/web.go:659-665 | the snapshot fills the index without duplicates |
| WsClient.Client.TakeSnapshot | cmd/pw_ws_broker/web.go:640-650 | the loop over the global list collects the snapshot |
| WsClient.Client.FindInvalid | cmd/pw_ws_broker/web.go:580-589 | an invalid tile is found if and only if there is one |
| WsProtocol.SnapshotExact | cmd/pw_ws_broker/web.go:640-650 | a location is in the snapshot if and only if it is in the global list, recent enough and subscribed to |
| WsProtocol.SnapshotOnePerIcao | cmd/pw_ws_broker/web.go:640-650 | a snapshot of a list keyed by ICAO has one entry per ICAO |
| WsDelivery.TickBrings | cmd/pw_ws_broker/web.go:779-806 | a client with one subscription, to a tile or to all at one speed, and nothing waiting: after any live locations the next tick sends the latest of each aircraft among those of that tile and speed, each once, and nothing else |
| WsDelivery.OneLocation | cmd/pw_ws_broker/web.go:779-833 | the next tick sends a live location if and only if it is of that tile, or the subscription is to all, and of that speed |
| WsDelivery.AtOnce | cmd/pw_ws_broker/web.go:779-795 | with ticking off it is sent at once under the same condition |
| WsDelivery.NoSubscription | cmd/pw_ws_broker/web.go:830-833 | without a subscription nothing is sent |
| WsDelivery.MoreKeys | cmd/pw_ws_broker/web.go:830-833 | several subscriptions bring what each of them does |
| WsDelivery.OneTileSnapshot | cmd/pw_ws_broker/web.go:579-677 | a list of one tile brings an acknowledgement, exactly the aircraft on that tile that are not older than the maximum age, if there are any, and their number |
| WsDelivery.OneTileSendAll | cmd/pw_ws_broker/web.go:685-728 | asking for everything brings what waits, brought up to date with those aircraft, and their number |
| WsProtocol.OnTileExact | cmd/pw_ws_broker/web.go:729-748 | exactly the aircraft of the global list on that tile |
| WsProtocol.FlushDelivers | cmd/pw_ws_broker/web.go:685-728 | in every run each tick and each send-all delivers exactly the latest location of each aircraft recorded since the last flush or reset, each once |
| WsProtocol.SliceDelivers | cmd/pw_ws_broker/web.go:781-788 | in every run the waiting slice stands for that map |
| WsProtocol.NullSentExact | cmd/pw_ws_broker/web.go:627-628 | what is sent holds a null entry if and only if it is a flush, and a valid list was applied to a slice that was not empty since the flush before |
| WsProtocol.NullsExact | cmd/pw_ws_broker/web.go:627-628 | the waiting slice holds a null entry under just that condition |
| WsProtocol.NullsStep | cmd/pw_ws_broker/web.go:579-628 | how many nulls wait after each event: as many as the slice was long when a valid list came in, none after a flush |
| WsProtocol.NullIsSent | cmd/pw_ws_broker/web.go:796-806 | a run of four events that sends a single null |
| PendingMap.LatestIsLast | cmd/pw_ws_broker/web.go:781-788 | the map that the batch stands for holds, for exactly the ICAOs recorded, the last location recorded |
| PendingMap.PendingDelivered | cmd/pw_ws_broker/web.go:796-806 | the non-null entries of an indexed slice are that map, each once |
| PendingMap.Upsert | cmd/pw_ws_broker/web.go:783-788 | one entry per ICAO: replaced in place or appended |
| PendingMap.IndexFindsEntry | cmd/pw_ws_broker/web.go:783-788 | the index finds the entry that a search of the slice would find |
| PendingMap.PutDelivers | cmd/pw_ws_broker/web.go:783-788 | putting a location into a slice that delivers a map makes it deliver the map with that location |
| NavProvenance.McpProvenance | lib/tracker/nav.go:219-337 | after any run the MCP altitude is what was last given by a TC29 without an FMS altitude or by a repeated 4,0 reply with no TC29 altitude current |
| NavProvenance.FmsProvenance | lib/tracker/nav.go:219-337 | the FMS altitude is what was last given by a TC29 or by a 4,0 reply that agreed within 32 ft with a current TC29 or repeated the one before it within 60 s |
| NavProvenance.QnhProvenance | lib/tracker/nav.go:219-337 | the same for the pressure setting, from a TC29 or a repeated reply without TC29 |
| NavProvenance.HeadingProvenance | lib/tracker/nav.go:239-241 | the selected heading comes from TC29 alone |
| NavProvenance.TimeProvenance | lib/tracker/nav.go:249-249 | the age of the data is that of the last TC29 or accepted reply |
| NavProvenance.CarriedProvenance | lib/tracker/nav.go:242-248 | after any run VNAV, altitude hold and approach are those last given by a TC29 or by a repeated 4,0 reply with no TC29 altitude current |
| NavProvenance.KeptProvenance | lib/tracker/nav.go:319-329 | autopilot, LNAV and TCAS are those of the last TC29 that gave modes, and without one those of the first 4,0 reply that did, with TCAS off |
| NavProvenance.OneModesEvent | lib/tracker/nav.go:242-329 | one event replaces exactly the flags it gives, and the others stay |
| NavProvenance.ModesHeld | lib/tracker/nav.go:242-329 | modes are held if and only if some event gave them |
| NavProvenance.AcceptanceExact | lib/tracker/nav.go:290-302 | in any run, currency, agreement and repetition as the plane remembers them hold if and only if the events say so |
| NavProvenance.OlderReplyAccepted | lib/tracker/nav.go:300-302 | a reply that is older than the one it repeats by any time above 60 s is accepted, and its values are held |
| NavProvenance.OneEvent | lib/tracker/nav.go:221-333 | of the values and their age, one event replaces exactly what it gives and nothing else |
| NavProvenance.Tc29Governs | lib/tracker/nav.go:309-330 | while a TC29 altitude is current a 4,0 reply changes nothing but the FMS altitude, and that only when it agrees or repeats |
| NavProvenance.ShownExact | lib/tracker/nav.go:211-213 | navigation data is shown if and only if some is held and the last report that refreshed it is at most 60 s older than the last message |
| NavProvenance.Replay | lib/tracker/nav.go:219-337 | the object itself runs exactly this machine |
| NavTracking.Plane.SetTargetState | lib/tracker/nav.go:219-251 | the whole state after a TC29 message, and whether a value changed |
| NavTracking.Plane.SetBds40 | lib/tracker/nav.go:272-333 | the whole state after a BDS 4,0 reply, and whether a value changed |
| NavTracking.Near | lib/tracker/nav.go:455-461 | within the tolerance on either side |
| ForgetfulMap.OnShared | lib/dedupe/forgetfulmap/map.go:37-50 | whatever is done to one of several maps on one pool, that map stays the plain timestamped map it stands for and no other map changes |
| ForgetfulMap.MarblesDistinct | lib/dedupe/forgetfulmap/map.go:219-240 | no two entries of any of the maps share a marble, and no marble is in a map and in the pool |
| ForgetfulMap.ForgetfulSyncMap.Store | lib/dedupe/forgetfulmap/map.go:221-231 | the key maps to the value and the time, every other entry is as before |
| ForgetfulMap.ForgetfulSyncMap.Delete | lib/dedupe/forgetfulmap/map.go:234-240 | the key is gone, every other entry is as before |
| ForgetfulMap.ForgetfulSyncMap.Sweep | lib/dedupe/forgetfulmap/map.go:134-163 | exactly the entries older than the limit are gone, in whatever order they are visited, and the counter is how many stay |
| ForgetfulMap.ForgetfulSyncMap.Load | lib/dedupe/forgetfulmap/map.go:207-218 | the value of the key, or nothing |
| ForgetfulMap.ForgetfulSyncMap.HasKey | lib/dedupe/forgetfulmap/map.go:167-178 | whether the key is there |
| ForgetfulMap.ForgetfulSyncMap.AddKey | lib/dedupe/forgetfulmap/map.go:181-204 | a key that stands for nothing is not added; any other is stored without a value |
| ForgetfulMap.VisitKeeps | lib/dedupe/forgetfulmap/map.go:139-157 | one visit of a sweep forgets nothing that is to be remembered |
| ForgetfulMap.MarbleBag.Get | lib/dedupe/forgetfulmap/map.go:41-50 | any marble that was put back, or a new one |
| Dedupe.SuppressedExact | lib/dedupe/dedupe.go:65-99 | in any run a frame passes if and only if every earlier frame with its bytes that passed has been followed by a sweep more than 9 s later |
| Dedupe.PassesApart | lib/dedupe/dedupe.go:65-99 | two passes of the same bytes are more than 9 s apart |
| Dedupe.NeverTwice | lib/dedupe/dedupe.go:65-99 | of two frames with the same bytes, whatever their kinds, at most 9 s apart not both pass |
| Dedupe.FirstPasses | lib/dedupe/dedupe.go:65-99 | the first frame with its bytes passes |
| Dedupe.SuppressedFollowsPass | lib/dedupe/dedupe.go:65-99 | with a sweep every 3 s a suppressed frame follows a pass of its bytes by at most 12 s, and for any interval by 9 s and that interval |
| Dedupe.EmptyPasses | lib/dedupe/dedupe.go:86-90 | frames without bytes or of other kinds always pass |
| Dedupe.BareFramePasses | lib/dedupe/dedupe.go:65-99 | a frame of a known kind without bytes, or of any other kind, passes |
| Dedupe.RemembersPass | lib/dedupe/forgetfulmap/map.go:134-204 | over any run the list remembers a key if and only if a pass of it is not yet forgotten, with the time of that pass |
| Dedupe.Filter.constructor | lib/dedupe/dedupe.go:41-51 | a new filter remembers nothing |
| Dedupe.Filter.Handle | lib/dedupe/dedupe.go:65-99 | a nil event or frame gives nothing; a frame is passed on if and only if its key is not remembered, and is remembered then |
| Dedupe.Run | lib/dedupe/dedupe.go:65-99 | the filter on its list and pool passes exactly the frames of these results |
| WorldGrid.Partition | lib/tile_grid/tiles.go:3-454 | every position on earth lies in exactly one of the 75 tiles |
| WorldGrid.TilesDisjoint | lib/tile_grid/tiles.go:3-454 | no two tiles overlap anywhere |
| WorldGrid.Grid | lib/tile_grid/tiles.go:3-454 | every rectangle is proper and lies on the globe |
| TileLookup.SearchDeterministic | lib/tile_grid/grid.go:46-64 | the map-order search can give one answer only, and gives tileUnknown exactly on longitude 180 |
| TileLookup.LookupTileManual | lib/tile_grid/grid.go:46-64 | the search, in any order, gives a tile that contains the position, or says that there is none, or the empty name out of range |
| TileLookup.PreCalculated.constructor | lib/tile_grid/grid.go:25-31 | the table holds for every square degree the tile of its south-western corner |
| TileLookup.PreCalculated.LookupTile | lib/tile_grid/grid.go:33-44 | the table entry of the square degree of the position, tileUnknown outside -90 <= lat < 90 and -180 <= lon < 180 |
| TileLookup.TableExact | lib/tile_grid/grid.go:37-44 | the table gives the tile of the position if and only if that tile starts at the south pole or floor(lat) is above its southern edge; otherwise the tile that borders on it in the south |
| TileLookup.TableAgreesWithRectangles | lib/tile_grid/grid.go:66-71 | InGridLocation confirms the answer of the table if and only if the same condition holds |
| TileLookup.TableWitness | lib/tile_grid/grid.go:37-44 | at 9.5 north, 60 east the rectangle is that of tile 31 and the table says tile 34 |
| TileLookup.KnownPlaces | lib/tile_grid/grid_test.go:123-148 | the three places that the tests name are in tiles 35, 74 and 38 by table and rectangles |
| FrameList.LossyFrameList.Push | lib/tracker/frame-list.go:31-55 | the list gets the frame at its head and loses the oldest one exactly when it exceeds the capacity |
| FrameList.LossyFrameList.Insert | lib/tracker/frame-list.go:39-54 | head, tail, links and count after linking in a new head |
| FrameList.LossyFrameList.Unshift | lib/tracker/frame-list.go:57-82 | takes the oldest frame, or nothing from an empty list, even though the head may point back at a popped node |
| FrameList.LossyFrameList.Pop | lib/tracker/frame-list.go:84-105 | takes the newest frame, or nothing from an empty list |
| FrameList.LossyFrameList.Len | lib/tracker/frame-list.go:107-109 | the number of frames |
| FrameList.LossyFrameList.Range | lib/tracker/frame-list.go:111-121 | shows the frames from the newest on until one is refused, and never the oldest |
| FrameList.OldestMissed | lib/tracker/frame-list.go:111-121 | compared with a traversal to the end, nothing is missed if and only if the list is empty or a frame other than the oldest is refused; otherwise the oldest frame alone is |
| FrameList.OnlyFrameMissed | lib/tracker/frame-list.go:111-121 | a list of one frame, of which nothing is shown |
| FrameList.Bounded | lib/tracker/frame-list.go:31-105 | after any calls the length is at most the capacity |
| FrameList.KeepsNewest | lib/tracker/frame-list.go:31-55 | after any number of pushes the list holds the newest frames, up to the capacity |
| FrameList.Replay | lib/tracker/frame-list.go:31-105 | the linked list runs exactly this machine |
| TapList.IngestTap.Append | lib/middleware/ingest_tap.go:167-176 | the tap is added at the end, with head, tail and both link directions consistent |
| TapList.IngestTap.Remove | lib/middleware/ingest_tap.go:178-202 | exactly the first equal tap is taken out, because unlinking it ends the loop |
| TapList.IngestTap.Unlink | lib/middleware/ingest_tap.go:181-199 | taking any node out keeps head, tail and both link directions consistent |
| TapList.IngestTap.Send | lib/middleware/ingest_tap.go:68-77 | an event goes to the queues of the matching taps, in the order of the list |
| TapList.DestinationsExact | lib/middleware/ingest_tap.go:68-77 | an event goes to a queue once for every tap there whose feeder and aircraft, where it asks for one, are those of the event |
| TapList.Condition.Match | lib/middleware/ingest_tap.go:204-227 | feeder and aircraft, where the condition asks for them, are those of the event |
| TapList.RemovesOne | lib/middleware/ingest_tap.go:178-202 | removing takes away one equal tap if there is one, and nothing else |
| TapList.AddRemoveCancels | lib/middleware/ingest_tap.go:109-114 | adding and removing a tap leaves every event with the same queues, though not in the same order when an equal tap was there before |

## Left out

- Floating point rounding: float64 values are exact reals, so results hold up to rounding. The
  zone indices of the position decoder are integers small enough to be exact in either.
- Time is a whole number of nanoseconds and is passed in; a sweep uses one time for all entries.
- Locks are taken as correct: a method that holds a mutex throughout is one step, and so is one
  operation of a sync.Map or of the pool. Delete racing with Store on a shared pool, and the
  lists under concurrent callers, are not modelled.
- The pool may hand out any marble that was put back, or a new one; the garbage collector's
  freedom to drop pooled marbles adds no behaviour to that.
- CprEncoding.FieldIsUnreduced: the encoder is not part of the repository; it is written from the standard, and the lines cited are the fields that the decoder stores.
- NlTable.NLCharacterised: is about the table as it stands; NlStandard.TransitionExact compares its entries with the formula of the standard, to within the rounding of the table.
- NlStandard.TableIsStandard: the cosine is a parameter with the property that determines it, and pi is a number between two decimals of 20 digits.
- CprDecoder.CprLocation.FixPosition: the steps that the airborne and the surface decode share are written once.
- BeastScan.BeastRoundTrip: frames that start less than 50 bytes before the end of a stream stay unread, as in the code; the 64 KB buffer limit of bufio.Scanner and its end-of-file calls are not modelled.
- MergeLaws.GateSound: the bearing is any function with values in [0, 360); the trigonometry is not modelled.
- MergeLaws.MergeOrderFree: says nothing about tile, descriptive fields and last message time, which do depend on the order, nor about squawk, for which SquawkOrder.SquawkOrderExact says when it does.
- PlaneMerge.MergePlaneLocations: source tags are values; the map that a cached record shares with copies being published is not modelled, nor are their mutexes.
- RouterFeeds.LowFeedIsBoundedStale: is about one worker, RouterInterleavings.LowFeedIsView about any number; neither gives a bound for the location, because the code has none, and headings differ as numbers, not on the circle, as in the code.
- RouterFeeds.LowIsOnHigh: is about one worker; with several the high message need not be the next, as RouterInterleavings.LowHasItsHigh says.
- RouterOvertaking.LowFeedOvertaken: publishes on the two main topics only, without spreading updates over tiles.
- BeastFormat.SplitPairFakesFrame: gives one way only; BeastSplitPair.BeastSplitPairExact gives the condition.
- CprTheorems.SurfaceAccuracy: asks for the windows of the positions as sent, CprTheorems.SurfaceAccuracyTrue for those of the true ones.
- Router.Worker.HandleMsg: starts from the decoded update; JSON, the analytics stream, counters and failed publications are left out, as is handleRemovedUpdate, which nothing calls.
- WsClient.Client.Loop: tile lists in replies are sets, their order is not modelled; a failed write is a budget of writes that runs out; what the reader goroutine answers itself, subscription gauges and the accounting on exit are left out.
- WsClient.Client.Dispatch: location history, search results and unknown commands are one kind of reply, which touches neither subscriptions nor batch.
- NavTracking.Plane.SetBds40: readings are taken as inferred; the setters for BDS 5,0 and 6,0 replies overwrite fields without a rule of acceptance and are left out.
- ForgetfulMap.ForgetfulSyncMap.Sweep: uses the default rule for forgetting; custom rules, eviction callbacks and the timer are left out.
- ForgetfulMap.ForgetfulSyncMap.HasKey: stands for HasKeyStr too, and AddKey for AddKeyStr; a Go string is its bytes.
- Dedupe.Filter.Handle: a frame carries the bytes by which it is compared; how the frame decoders produce them is not part of this model.
- TileLookup.LookupTileManual: names are the number of the tile, with one value each for tileUnknown and the empty name.
- FrameList.LossyFrameList.Pop: an empty list gives None where the code gives nil.
- TapList.IngestTap.Send: yields the queues in order; what is sent, and the NATS request that adds or removes a tap, are left out.
- The Mode S, Beast and SBS1 frame decoders, the tracker's other setters and getters, feeder
  lookup, mapping, sinks, command lines, metrics and logging.
