# Satellite simulator: link manager and ingestion, modelled in Dafny

This project models the core of LTstrange/satellite-simulator, a Bevy (Rust)
simulator of satellite constellations, and proves properties of that model.

**Inter-satellite link manager** (`simulator/src/core/communication.rs`, module
`LinkManager`):
- Every satellite keeps a `Connections` list of peers.
- A satellite may carry a `TryConnect` marker.
- Each fixed tick registers five systems. The source does not chain them; the model runs them in this order:
  1. mark a fair share of the under-capacity satellites;
  2. let every marked satellite propose links to its nearest eligible peers;
  3. apply the proposals, re-checking each target's capacity;
  4. find the links stretched beyond the connection distance, scanning each link
     from its lower-id end;
  5. remove those links at both ends.
- A separate system empties every list when a `DisconnectAll` event arrives.
- The state is the class `Constellation`. Its fields `connections` (one list of
  peer ids per satellite) and `tryConnect` (the marked satellites) are updated in
  place by one method per system.
- Each method is proved against a pure specification function of the state
  before it: `SelectTryConnect`, `Proposals`, `ApplyConnects`, `Evictions`,
  `ApplyDisconnects`, `DisconnectAll` and, for the whole tick, `TickState`.
- The link-graph invariant `LinkGraph` is preserved by every step:
  - every peer is a satellite;
  - no satellite is linked to itself;
  - no list is longer than `connection_number`;
  - `b` occurs in `a`'s list as often as `a` occurs in `b`'s.
- `LinkScenarios` derives whole-tick outcomes on small constellations from the
  general lemmas.

**Earlier link manager** (`src/satellite/communication.rs`, module `LegacyLinks`):
- It enumerates every unordered pair of satellites.
- It proposes at most eleven pairs whose ends both have no link and lie closer
  than 2000 units.
- It applies each proposal at both ends without checking capacity again.

**Ingestion**:
- `Elements`: the six-number `from_slice` validator, and the lossless split of an
  element set into its `Orbit` and the satellite's mean anomaly.
- `CoreIngest`: the all-or-nothing dataset load of `simulator/src/core/mod.rs`.
- `Spawner`: the spawn queue of `simulator/src/satellite/mod.rs`.
- `RemoteMethods`: the remote `add_satellite` / `add_satellites` methods of
  `simulator/src/io/mod.rs`.
- `BrpPackages`: the apogee/perigee conversion of `brp_packages/src/lib.rs`.

**Modelling choices**:
- Satellites are the integers `0 .. n-1`. Their order stands for Bevy's `Entity`
  order.
- Positions are seen only through a squared-distance function `distSq(b, a)`.
- `f32` values are `real`.
- Lists are sequences, so duplicate peers stay visible.
- The random shuffle of step 1 is an input, required to be a permutation of the
  candidates.
- `sort_unstable_by_key` is modelled by an insertion sort that keeps equal keys
  in input order. `Sequences.SortBySortedIsIdentity` shows that every
  degree-sorted order is reachable by choosing that input.

Where the code and the stated design differ, the model follows the code:
- The dataset path (`from_raw_sate_data`) accepts any eccentricity. Only the
  six-number path (`from_slice`) rejects `e < 0` or `e >= 1`. See
  `CoreIngest.DatasetAcceptsAnyEccentricity`.
- Loading a dataset, and an `add_satellites` batch, is all or nothing. One bad
  record rejects the whole batch; records are not rejected one at a time. See
  `CoreIngest.SetupAllOrNothing` and `RemoteMethods.AddSatellitesSpec`.

## Model

| member | source | states |
|---|---|---|
| Sequences.SortBy | simulator/src/core/communication.rs:95 | the sorted list is a permutation of the input, ordered by the key |
| Sequences.SortBySortedIsIdentity | simulator/src/core/communication.rs:95 | an input already in key order comes back unchanged, so any tie order an unstable sort may give is covered |
| LinkManager.SymmetricMembership | simulator/src/core/communication.rs:204-208 | in a symmetric graph `b` is a peer of `a` iff `a` is a peer of `b` |
| LinkManager.UnfullBelow | simulator/src/core/communication.rs:78-88 | the candidate list holds exactly the unmarked satellites with fewer than `connection_number` links, in ascending id order |
| LinkManager.MarkCount | simulator/src/core/communication.rs:91-92 | the number to mark, `candidates / (connection_number + 1)`, never exceeds the candidates |
| LinkManager.SelectTryConnect | simulator/src/core/communication.rs:78-98 | step 1: the candidates in the given shuffle, sorted by degree, cut to `MarkCount`; its properties are `MarkFairness` |
| LinkManager.MarkFairness | simulator/src/core/communication.rs:78-98 | step 1 marks exactly `⌊candidates / (connection_number + 1)⌋` distinct candidates, and each marked one has no more links than any candidate left unmarked |
| LinkManager.InRange | simulator/src/core/communication.rs:135-139 | a target is kept iff its squared distance is strictly below the limit, and nothing is added |
| LinkManager.NearestPeers | simulator/src/core/communication.rs:124-144 | the peer list of one marked satellite: in-range, unmarked, under-capacity targets sorted by distance and cut to its free slots; its properties are the three `NearestPeers…` lemmas |
| LinkManager.Nearest | simulator/src/core/communication.rs:124-144 | `NearestPeers` for every satellite that is not above capacity, and the empty list otherwise |
| LinkManager.NearestPeersTargets | simulator/src/core/communication.rs:124-149 | a marked satellite proposes to at most `connection_number - degree` distinct, unmarked, under-capacity peers other than itself, each strictly within range |
| LinkManager.NearestPeersNearest | simulator/src/core/communication.rs:135-144 | the chosen peers are at least as near as every qualifying peer left out, and all qualifying peers are chosen when fewer than the free slots were chosen |
| LinkManager.NearestPeersSpec | simulator/src/core/communication.rs:124-149 | the conjunction of the two lemmas above |
| LinkManager.LinksFrom | simulator/src/core/communication.rs:144-149 | one `ConnectTwo { from: a, to: b }` per chosen peer, in peer order |
| LinkManager.Gather | simulator/src/core/communication.rs:133-149 | the events of the marked satellites, each sending one event per entry of its peer list, proposers in id order; its properties are `GatherMembers` and `GatherCounts` |
| LinkManager.Proposals | simulator/src/core/communication.rs:101-153 | every event of step 2; its properties are `ProposalsSpec` and `ProposalsWellFormed` |
| LinkManager.GatherMembers | simulator/src/core/communication.rs:133-149 | every event comes from a marked satellite and goes to a member of its nearest-peer list |
| LinkManager.GatherCounts | simulator/src/core/communication.rs:133-149 | each marked satellite sends exactly as many events as its list has peers, and unmarked satellites send none |
| LinkManager.ProposalsSpec | simulator/src/core/communication.rs:101-153 | every proposal goes from a marked satellite to an unmarked, under-capacity satellite strictly within range and different from it; a marked satellite sends at most its free slots |
| LinkManager.ProposalsWellFormed | simulator/src/core/communication.rs:198-209 | the proposals meet what the two `assert!`s of `handle_connection` need: proposers are never targets and no proposer exceeds its free slots |
| LinkManager.WellFormedReordered | simulator/src/core/communication.rs:133-149 | well-formedness does not depend on event order: a permutation of a well-formed list is well formed |
| LinkManager.ReorderedProposalsKeepLinkGraph | simulator/src/core/communication.rs:133-210 | whatever order the proposers are visited in, the proposals are well formed and applying them keeps a valid link graph |
| LinkManager.AddPeer | simulator/src/core/communication.rs:204 | one push adds exactly one copy of `b` to `a`'s list and changes nothing else |
| LinkManager.Connect | simulator/src/core/communication.rs:198-210 | one `ConnectTwo`: skipped when the target is full, otherwise both pushes; the number of lists is kept; its properties are `ConnectSpec`, `ConnectKeepsShape` and `ConnectLengths` |
| LinkManager.ConnectSpec | simulator/src/core/communication.rs:198-210 | a proposal to a full target changes nothing; otherwise `from` is appended to `to`'s list, `to` to `from`'s list, and every other list is unchanged |
| LinkManager.ConnectKeepsShape | simulator/src/core/communication.rs:204-208 | one applied or dropped proposal keeps the lists symmetric, self-free and within the table |
| LinkManager.AddBothKeepsSymmetric | simulator/src/core/communication.rs:204-208 | pushing `f` onto `t`'s list and `t` onto `f`'s list keeps every pair counted equally at both ends |
| LinkManager.ConnectLengths | simulator/src/core/communication.rs:201-209 | an accepted proposal grows each end by one; a dropped one changes no length |
| LinkManager.ApplyConnects | simulator/src/core/communication.rs:193-211 | the events applied one by one in order; the number of lists is kept; its properties are the `ApplyConnects…` lemmas |
| LinkManager.ProposerFits | simulator/src/core/communication.rs:201-209 | at each step of a well-formed event list, if the target still has room then so does the proposer, so the second `assert!` cannot fail once the first push happened |
| LinkManager.ApplyConnectsKeepsShape | simulator/src/core/communication.rs:198-210 | applying a list of proposals keeps the lists symmetric, self-free and within the table |
| LinkManager.ApplyConnectsLengths | simulator/src/core/communication.rs:201-209 | a satellite that is never a target grows by at most the events it sends; one that never proposes stays within capacity |
| LinkManager.ApplyConnectsKeepsLinkGraph | simulator/src/core/communication.rs:198-210 | applying well-formed proposals to a valid link graph gives a valid link graph, so the capacity `assert!`s at lines 205 and 209 hold |
| LinkManager.Evict | simulator/src/core/communication.rs:166-176 | the event for one stored link: one `DisconnectTwo` iff scanned from its lower-id end and strictly beyond range, else none; its properties are `ScanPeersSpec` |
| LinkManager.ScanPeers | simulator/src/core/communication.rs:163-183 | the events of one satellite's list, in list order; `ScanPeersSpec` states which links are reported |
| LinkManager.Evictions | simulator/src/core/communication.rs:155-188 | the events of every list, satellites in id order; `EvictionsSpec` states which links are reported |
| LinkManager.ScanPeersSpec | simulator/src/core/communication.rs:163-183 | scanning one list reports a peer iff it is not below the scanning satellite and its squared distance strictly exceeds the limit |
| LinkManager.EvictionsBelowSpec | simulator/src/core/communication.rs:161-185 | the same, for the lists of the satellites below `n` |
| LinkManager.EvictionsSpec | simulator/src/core/communication.rs:155-188 | a `DisconnectTwo` is written iff the link is stored at its lower-id end and its squared distance strictly exceeds `connection_distance²` |
| LinkManager.ScanPeersNone | simulator/src/core/communication.rs:163-183 | a list with no stretched link yields no event |
| LinkManager.NoEvictions | simulator/src/core/communication.rs:161-187 | with no stretched link stored at its lower-id end, the batch is empty |
| LinkManager.ThresholdPair | simulator/src/core/communication.rs:138 | a pair exactly at the connection distance is neither proposed nor disconnected |
| LinkManager.Without | simulator/src/core/communication.rs:220 | `retain` removes every copy of the peer and keeps every other entry with its count |
| LinkManager.RemovePeer | simulator/src/core/communication.rs:219-223 | only `b`'s copies in `a`'s list disappear, every other count in that list is kept, and every other list is unchanged |
| LinkManager.Disconnect | simulator/src/core/communication.rs:218-224 | one `DisconnectTwo`: `to` leaves `from`'s list, then `from` leaves `to`'s list; the number of lists is kept; its properties are `DisconnectAt` and `DisconnectKeepsLinkGraph` |
| LinkManager.RemoveBothKeepsSymmetric | simulator/src/core/communication.rs:219-223 | the two `retain`s of one event keep every pair counted equally at both ends |
| LinkManager.DisconnectAt | simulator/src/core/communication.rs:218-224 | after one event, `x` is a peer of `a` iff it was and the event does not name the pair `a`–`x` in either direction |
| LinkManager.DisconnectKeepsLinkGraph | simulator/src/core/communication.rs:218-224 | removing one link at both ends keeps a valid link graph, whether or not the link was present |
| LinkManager.ApplyDisconnects | simulator/src/core/communication.rs:214-225 | the events applied one by one in order; the number of lists is kept; its properties are `ApplyDisconnectsSpec` and `ApplyDisconnectsKeepsLinkGraph` |
| LinkManager.ApplyDisconnectsSpec | simulator/src/core/communication.rs:218-224 | after the batch a peer remains iff it was there and no event named the pair in either direction; absent links are tolerated |
| LinkManager.ApplyDisconnectsKeepsLinkGraph | simulator/src/core/communication.rs:218-224 | removing a batch of links keeps a valid link graph |
| LinkManager.DisconnectAll | simulator/src/core/communication.rs:232-237 | every list is empty afterwards, and the number of satellites is kept |
| LinkManager.DisconnectAllIdempotent | simulator/src/core/communication.rs:232-237 | resetting twice equals resetting once, and the reset graph is valid |
| LinkManager.ProposalIds | simulator/src/core/communication.rs:133-149 | every proposal names two distinct satellites |
| LinkManager.EvictionIds | simulator/src/core/communication.rs:161-183 | every eviction found after the proposals are applied names two satellites |
| LinkManager.TickState | simulator/src/core/communication.rs:19-28 | the lists after the five steps in listed order; the number of lists is kept; its properties are `TickKeepsLinkGraph` and the scenario lemmas |
| LinkManager.TickStateOf | simulator/src/core/communication.rs:19-28 | a tick is the composition of its five steps |
| LinkManager.EvictionsLeaveShortLinks | simulator/src/core/communication.rs:155-225 | removing the batch of stretched links from a valid graph gives a valid graph in which no link stored at its lower-id end exceeds the limit |
| LinkManager.TickKeepsLinkGraph | simulator/src/core/communication.rs:19-28 | after a tick the lists are a valid link graph, and no link stored at its lower-id end is longer than the connection distance |
| LinkManager.Constellation.constructor | simulator/src/core/communication.rs:41-44 | spawned satellites start with empty lists and no marker |
| LinkManager.Constellation.MarkSatellitesTryConnect | simulator/src/core/communication.rs:61-99 | the marker set grows by exactly the selected satellites; the lists are unchanged and the invariant is kept |
| LinkManager.Constellation.InsertTryConnect | simulator/src/core/communication.rs:96-98 | each chosen satellite receives the marker |
| LinkManager.Constellation.ConnectNearest | simulator/src/core/communication.rs:101-153 | the events written are exactly `Proposals` of the state before, and every marker is removed |
| LinkManager.Constellation.ProposeFromMarked | simulator/src/core/communication.rs:133-152 | the loop over marked satellites writes exactly `Gather` of their peer lists, in id order |
| LinkManager.Constellation.WriteConnectTwo | simulator/src/core/communication.rs:144-149 | the inner loop appends one event per peer, in order |
| LinkManager.Constellation.HandleConnection | simulator/src/core/communication.rs:193-211 | the new lists are `ApplyConnects` of the old, both `assert!`s hold at every step, and the invariant is kept |
| LinkManager.Constellation.ConnectTwo | simulator/src/core/communication.rs:198-210 | one event: a full target leaves the lists unchanged, otherwise both pushes happen and both capacity `assert!`s hold; the lists become `Connect` of the old |
| LinkManager.Constellation.DisconnectFarthest | simulator/src/core/communication.rs:155-188 | the batch is `Evictions` of the lists: a link is reported iff stored at its lower-id end and strictly beyond range |
| LinkManager.Constellation.ScanLinks | simulator/src/core/communication.rs:163-183 | the inner loop over one satellite's list appends exactly `ScanPeers` of that list to the batch |
| LinkManager.Constellation.HandleDisconnection | simulator/src/core/communication.rs:214-225 | the new lists are `ApplyDisconnects` of the old, and the invariant is kept |
| LinkManager.Constellation.DisconnectTwo | simulator/src/core/communication.rs:218-224 | one event: both `retain`s leave the lists at `Disconnect` of the old, markers untouched |
| LinkManager.Constellation.HandleDisconnectAll | simulator/src/core/communication.rs:227-239 | no event changes nothing; any event empties every list and removes every marker |
| LinkManager.Constellation.Tick | simulator/src/core/communication.rs:19-28 | the five systems in order leave the lists at `TickState`, remove every marker and leave no stretched link |
| LinkScenarios.OneMarked | simulator/src/core/communication.rs:78-98 | two or three unlinked satellites with capacity 1: the selection is exactly one satellite |
| LinkScenarios.SingleSelection | simulator/src/core/communication.rs:78-98 | when the mark count is one, the selection is a single under-capacity, unmarked satellite |
| LinkScenarios.OnePeer | simulator/src/core/communication.rs:124-149 | that satellite's nearest-peer list holds exactly one other satellite |
| LinkScenarios.OneRoomOnePeer | simulator/src/core/communication.rs:124-149 | a marked satellite with one free slot and one qualifying peer in range proposes to exactly one peer |
| LinkScenarios.GatherSingle | simulator/src/core/communication.rs:133-149 | one marked satellite with one peer sends exactly one event |
| LinkScenarios.OneProposal | simulator/src/core/communication.rs:101-153 | step 2 then writes exactly one proposal |
| LinkScenarios.LinkOneAndScan | simulator/src/core/communication.rs:198-210 | that proposal links the pair, and nothing is stretched |
| LinkScenarios.TickAfterOneProposal | simulator/src/core/communication.rs:19-28 | the tick ends with exactly that pair linked |
| LinkScenarios.TickOfOneProposal | simulator/src/core/communication.rs:19-28 | a tick that marks one satellite, which proposes one link that is accepted and not stretched, ends with exactly that link applied |
| LinkScenarios.OnePairForms | simulator/src/core/communication.rs:19-28 | from two or three unlinked satellites all within range, one tick links exactly one pair, whatever the shuffle and distances |
| LinkScenarios.PairIsLinkGraph | simulator/src/core/communication.rs:42-44 | two satellites linked to each other form a valid graph |
| LinkScenarios.PairIsFull | simulator/src/core/communication.rs:78-88 | a linked pair with capacity 1 has no candidates |
| LinkScenarios.PairIsEvicted | simulator/src/core/communication.rs:155-225 | a stretched pair yields one `DisconnectTwo`, and both lists end empty |
| LinkScenarios.StretchedPairBreaks | simulator/src/core/communication.rs:19-28 | a linked pair that drifted out of range is unlinked by the next tick |
| LinkScenarios.NothingProposed | simulator/src/core/communication.rs:133-152 | with no marker, nothing is proposed |
| LegacyLinks.PairsSpec | src/satellite/communication.rs:41-43 | the pair stream holds exactly the pairs `i < j`, in strictly increasing order, so no pair repeats and none is a self-pair |
| LegacyLinks.Pairs | src/satellite/communication.rs:41-43 | the pairs `iter_combinations` yields; every pair is `i < j < n`; `PairsSpec` states the rest |
| LegacyLinks.Eligible | src/satellite/communication.rs:47-50 | a pair qualifies iff both ends have fewer than `CONNECTION_NUM` links and their squared distance is below 2000² |
| LegacyLinks.EligibleEvents | src/satellite/communication.rs:43-54 | one event per eligible pair of the stream, in stream order; `EligibleEventsSpec` states it |
| LegacyLinks.EligibleEventsSpec | src/satellite/communication.rs:43-54 | an event is written for a pair iff it is in the stream and eligible, in stream order |
| LegacyLinks.EligibleEventsMembers | src/satellite/communication.rs:43-54 | every event written joins a pair from the stream that is eligible |
| LegacyLinks.ProposedOfPrefix | src/satellite/communication.rs:41-55 | stopping the walk after `k` pairs, either at the end of the stream or with eleven events, yields exactly the proposals |
| LegacyLinks.ProposedSpec | src/satellite/communication.rs:37-56 | at most 11 proposals; each joins `a < b` with both ends below `CONNECTION_NUM` links and squared distance below 2000²; no pair twice; fewer than 11 means every eligible pair is proposed |
| LegacyLinks.Proposed | src/satellite/communication.rs:37-56 | the events `connect_nearest` writes; every event joins `a < b`, both satellites, and is eligible |
| LegacyLinks.AppendIsConnect | src/satellite/communication.rs:62-67 | an unchecked append is a connect whose capacity test always passes |
| LegacyLinks.Append | src/satellite/communication.rs:62-67 | one unchecked `ConnectTwo`: `b` pushed onto `a`'s list, then `a` onto `b`'s; the number of lists is kept |
| LegacyLinks.AppendAll | src/satellite/communication.rs:58-68 | the events applied one by one in order; the number of lists is kept; its properties are `AppendAllKeepsShape` and `AppendAllLengths` |
| LegacyLinks.AppendAllKeepsShape | src/satellite/communication.rs:62-67 | the appends keep the lists symmetric, self-free and within the table |
| LegacyLinks.AppendAllLengths | src/satellite/communication.rs:62-67 | each proposal adds exactly one entry at each end, so a list grows by the number of proposals naming its satellite |
| LegacyLinks.CapacityOnlyIfNamedOnce | src/satellite/communication.rs:62-67 | a satellite ends within one link iff its links so far plus the proposals naming it number at most one |
| LegacyLinks.AppendAllCheckedKeepsLinkGraph | src/satellite/communication.rs:62-67 | with a capacity test at apply time, any proposals keep a valid link graph of capacity 1 |
| LegacyLinks.AppendCheckedKeepsLinkGraph | src/satellite/communication.rs:62-67 | one proposal applied with the capacity test keeps a valid link graph of capacity 1 |
| LegacyLinks.ThreeCloseProposals | src/satellite/communication.rs:41-55 | three unlinked satellites pairwise in range produce the proposals (0,1), (0,2), (1,2) |
| LegacyLinks.ThreeCloseOverCapacity | src/satellite/communication.rs:62-67 | applied as written, those proposals give satellite 0 two links, above `CONNECTION_NUM` |
| LegacyLinks.ThreeCloseChecked | src/satellite/communication.rs:62-67 | with the capacity test only the pair (0,1) is linked |
| LegacyLinks.LegacyConstellation.Setup | src/satellite/communication.rs:27-33 | every satellite starts with an empty list |
| LegacyLinks.LegacyConstellation.ConnectNearest | src/satellite/communication.rs:37-56 | the counter loop with its early `break` writes exactly `Proposed` of the lists |
| LegacyLinks.LegacyConstellation.WalkPairs | src/satellite/communication.rs:41-55 | the walk stops after `k` pairs with the eligible events of that prefix, either having seen every pair or holding eleven events |
| LegacyLinks.LegacyConstellation.HandleConnection | src/satellite/communication.rs:58-68 | the new lists are `AppendAll` of the old, and symmetry is kept |
| LegacyLinks.LegacyConstellation.HandleConnectionChecked | src/satellite/communication.rs:58-68 | with the capacity test the new lists are `AppendAllChecked` of the old, and the one-link bound is kept |
| LegacyLinks.LegacyConstellation.ConnectBoth | src/satellite/communication.rs:62-67 | one proposal pushes each end onto the other's list, unchecked |
| LegacyLinks.LegacyConstellation.ConnectBothChecked | src/satellite/communication.rs:62-67 | the corrected one-event step of the first finding: both pushes happen iff both ends are below `CONNECTION_NUM` |
| LegacyLinks.LegacyConstellation.TickChecked | src/satellite/communication.rs:12 | a tick with the capacity test keeps the one-link bound |
| LegacyLinks.LegacyConstellation.Tick | src/satellite/communication.rs:12 | a tick as written leaves the lists at `AppendAll` of its own proposals |
| Elements.FromSlice | simulator/src/core/mod.rs:85-98 | fails with "Invalid eccentricity" iff `e < 0` or `e >= 1`; on success the fields are the six slots in order |
| Elements.ToSlice | simulator/src/core/mod.rs:39-46 | the six fields in declaration order, the slot layout `from_slice` reads (lines 86-93) |
| Elements.FromSliceRoundTrip | simulator/src/satellite/mod.rs:66-79 | reading back the slots of an element set gives it back iff its eccentricity is in `[0, 1)`, and the error otherwise |
| Elements.FromSliceInjective | simulator/src/core/mod.rs:86-93 | no slot is dropped: accepted slices with equal records are equal |
| Elements.SepOutMeanAnomaly | simulator/src/core/mod.rs:71-82 | the five orbit elements and the mean anomaly; `SplitThenJoin` and `JoinThenSplit` show it loses nothing |
| Elements.FromOrbitAndSatellite | simulator/src/satellite/mod.rs:55-64 | the five elements from the orbit and the anomaly from the satellite; `SameOrbitDiffersOnlyInAnomaly` states what it keeps |
| Elements.SplitThenJoin | simulator/src/core/mod.rs:71-82 | splitting off the mean anomaly and recombining gives the original elements |
| Elements.JoinThenSplit | simulator/src/satellite/mod.rs:55-64 | recombining an orbit with a satellite and splitting gives back the orbit and the satellite's anomaly |
| Elements.SameOrbitDiffersOnlyInAnomaly | simulator/src/satellite/mod.rs:55-64 | satellites of one orbit share its five elements, and their element sets are equal iff their anomalies are |
| CoreIngest.NumSeconds | simulator/src/core/mod.rs:65-67 | whole seconds truncated toward zero, within one second of the duration |
| CoreIngest.NumSecondsOdd | simulator/src/core/mod.rs:65-67 | truncation is symmetric about zero |
| CoreIngest.NumSecondsTruncates | simulator/src/core/mod.rs:65-67 | a duration just below zero counts as zero seconds, unlike Euclidean division |
| CoreIngest.Convert | simulator/src/core/mod.rs:55-62 | the unit conversions of each field, with the eccentricity copied unchecked; `DatasetAcceptsAnyEccentricity` uses it |
| CoreIngest.FromRawSateData | simulator/src/core/mod.rs:51-69 | fails iff the epoch does not parse, with the parser's error; otherwise keeps the converted orbit and advances only the mean anomaly |
| CoreIngest.DatasetAcceptsAnyEccentricity | simulator/src/core/mod.rs:55-62 | a record with `e = 1.5` is accepted, although `from_slice` would reject it |
| CoreIngest.CollectRecords | simulator/src/core/mod.rs:120-128 | every record converted in order, stopping at the first failure; `CollectRecordsSpec` states it |
| CoreIngest.CollectRecordsSpec | simulator/src/core/mod.rs:120-128 | the load succeeds iff every epoch parses, keeping order and ids; otherwise it fails with the first bad record's error |
| CoreIngest.Setup | simulator/src/core/mod.rs:117-131 | no dataset gives the empty list, an unreadable dataset gives the reader's error, and a readable one is collected, succeeding iff every epoch parses |
| CoreIngest.SetupAllOrNothing | simulator/src/core/mod.rs:120-128 | one record with a bad epoch makes the whole setup fail |
| Spawner.SetupData | simulator/src/satellite/mod.rs:109-127 | no dataset gives the empty list, an unreadable dataset gives the reader's error, and a readable one is converted, succeeding iff every epoch parses |
| Spawner.ConvertAll | simulator/src/satellite/mod.rs:114-124 | every record converted in order, the first unparseable epoch ending in `EpochPanic`; `ConvertAllMatchesCollect` relates it to `CollectRecords` |
| Spawner.Flatten | simulator/src/satellite/mod.rs:155-163 | the satellites of the events, event by event, in order; `ReceiveSpawnEvent` appends exactly this |
| Spawner.ConvertAllMatchesCollect | simulator/src/satellite/mod.rs:114-124 | this setup accepts the same datasets as the core one and produces the same list |
| Spawner.SatelliteSpawner.constructor | simulator/src/satellite/mod.rs:146-150 | the queue starts as the given data |
| Spawner.SatelliteSpawner.ReceiveSpawnEvent | simulator/src/satellite/mod.rs:155-163 | each event's satellites are appended in order after the queued ones |
| Spawner.SatelliteSpawner.SpawnQueued | simulator/src/satellite/mod.rs:165-179 | one orbit per queued entry, in queue order, and the queue is left empty |
| Spawner.Setup | simulator/src/satellite/mod.rs:129-150 | setup spawns every dataset entry and also queues every entry |
| Spawner.StartupThenUpdate | simulator/src/satellite/mod.rs:129-150 | Startup plus the first Update spawns `data + data + events` |
| Spawner.DoubleSpawn | simulator/src/satellite/mod.rs:129-150 | a one-record dataset has its orbit spawned twice |
| Spawner.SetupQueueOnly | simulator/src/satellite/mod.rs:146-150 | the queue is the only spawning path |
| Spawner.StartupThenUpdateQueueOnly | simulator/src/satellite/mod.rs:146-150 | then each supplied satellite is spawned exactly as often as supplied |
| RemoteMethods.Parse | simulator/src/io/mod.rs:30-36 | a decoding failure becomes `INVALID_PARAMS` with the decoder's message; a success passes the value through |
| RemoteMethods.ParseSome | simulator/src/io/mod.rs:39-48 | missing parameters give `INVALID_PARAMS` with "Params not provided"; success iff present and decodable |
| RemoteMethods.Validate | simulator/src/io/mod.rs:67-71 | an entry is accepted iff `from_slice` accepts it; the error is `INVALID_PARAMS` carrying `from_slice`'s message |
| RemoteMethods.ValidateAll | simulator/src/io/mod.rs:94-104 | every entry validated in order, stopping at the first invalid one; `ValidateAllSpec` states it |
| RemoteMethods.AddSatellite | simulator/src/io/mod.rs:61-77 | an event is sent iff the reply is `Ok` |
| RemoteMethods.AddSatelliteSpec | simulator/src/io/mod.rs:61-77 | succeeds iff parameters are present, decode and have `0 <= e < 1`; then it sends one event with the single `(id, elements)` pair; otherwise it sends nothing and replies `INVALID_PARAMS` |
| RemoteMethods.ValidateAllSpec | simulator/src/io/mod.rs:94-104 | the batch is accepted iff every entry is valid, keeping length, order and ids |
| RemoteMethods.AddSatellites | simulator/src/io/mod.rs:88-107 | an event is sent iff the reply is `Ok` |
| RemoteMethods.AddSatellitesSpec | simulator/src/io/mod.rs:88-107 | one event iff parameters decode and every entry is valid, listing the entries in input order with their ids; one invalid entry sends nothing |
| RemoteMethods.AddSatellitesOfOne | simulator/src/io/mod.rs:88-107 | a batch of one behaves as `add_satellite` on that entry |
| BrpPackages.AsSlice | brp_packages/src/lib.rs:18-34 | slot 1 satisfies `e · (apogee + perigee) = apogee − perigee`, and the four angles pass through unchanged in slots 2 to 5 |
| BrpPackages.CircularOrbit | brp_packages/src/lib.rs:22 | `apogee == perigee` gives eccentricity 0 |
| BrpPackages.EllipticWhenApogeeAbovePerigee | brp_packages/src/lib.rs:22 | `apogee >= perigee > 0` gives `0 <= e < 1`, so `from_slice` accepts the array and keeps every slot |
| BrpPackages.MeanMotionFromSemiMajorAxis | brp_packages/src/lib.rs:23-25 | the mean-motion slot depends only on `(apogee + perigee) / 2` |

## Left out

- Kepler solver and anomaly conversion (`simulator/src/utils.rs`): floating-point Newton iteration with trigonometry.
- Position propagation, ellipse geometry and quaternion rotation: squared distances are a parameter `distSq` instead.
- Rendering, camera, UI widgets, FPS display, gizmo drawing and the Earth mesh: presentation only.
- Networking and framing (`src/io`, `src/control.rs`), Python bindings, config loading: I/O and concurrency.
- The HTTP transport of the remote methods is left out; JSON decoding is an input value. The remote-method module is commented out of `simulator/src/main.rs`.
- Floats: `f32` is modelled as `real`, with no rounding, infinities or NaN.
- Mean-anomaly advance `% 2π`, degree/rev-per-day conversions, timestamp parsing and `Utc::now()`: float or library code, given as parameters (`Units`, `parseTime`, `now`).
- Bevy scheduling: the source registers the five systems of each tick as an unchained tuple (simulator/src/core/communication.rs:19-28), so Bevy guarantees no order between them and applies deferred `Commands` (marker changes) only at its own sync points. The model runs them in listed order, with each marker change visible to the next step; other interleavings are not modelled.
  - `handle_disconnect_all` is ordered only after the marking step, so it is a separate method rather than part of `Tick`.
  - The legacy `connect_nearest` and `handle_connection` are likewise an unchained pair (src/satellite/communication.rs:12), taken in listed order.
- Entity lookups (`get_mut(..).unwrap()`) panic on a missing entity. The model requires every event to name a satellite instead.
- The legacy pair stream is taken in ascending id order; Bevy's query order is not specified.
- `LinkManager.Gather`: the proposers are visited in ascending id order. The source visits them in query order (simulator/src/core/communication.rs:133), which Bevy leaves open. That order decides which proposal `handle_connection` drops when a target fills up: with capacity 1 and marked satellites 0 and 2 both nearest to 1, the model always links 0 and 1, while the source may link 2 and 1. `ReorderedProposalsKeepLinkGraph` shows that the link-graph invariant holds for every such order.
- `LinkManager.NearestPeers`: the in-range targets reach the sort in ascending id order, so equal distances are always broken by the lower id. The source's `sort_unstable_by` (line 141) runs over query-ordered targets, so any tie order is possible. `NearestPeersNearest` states the nearest-first and completeness properties, which hold for every tie order.
- `LinkManager.TickState`: because of the two fixed orders above, it describes one of the outcomes the source allows. `LinkManager.Constellation.Tick` is proved against it, and the same holds for the scenario lemmas of `LinkScenarios`.
- `LinkManager.Constellation.HandleConnection`: requires `WellFormed` events, under which the two `assert!`s of the source hold. Some other event lists would panic; the requires holds at the only caller, since `ProposalsWellFormed` shows that `connect_nearest` only produces well-formed lists, and `WellFormedReordered` shows that any reordering of them is well formed too.
- `LinkManager.Nearest`: a marked satellite above capacity would underflow `connection_num - len` in the source. The model sends no proposal for it; marking never selects such a satellite.
- `LinkManager.Constellation.HandleDisconnectAll`: takes the number of queued `DisconnectAll` events rather than the events, which carry no data.
- `Elements.FromSlice`: a NaN eccentricity passes the source's check (both comparisons are false). Reals have no NaN, so this case is not modelled.
- `BrpPackages.AsSlice`: requires `apogee + perigee ≠ 0`. There the `f32` source divides by zero and produces an infinite or NaN eccentricity.
- `BrpPackages.AsSlice`: `sqrt(μ / a³)` is a parameter `meanMotionOf` applied to the semi-major axis, because `powf`/`sqrt` are float code. μ = 398600.4418 km³/s² is part of that parameter.
- `Spawner.SatelliteSpawner`: mesh and material handles, and the `assert_ne!` on them, are not modelled.
- `Spawner.SetupData`: the `unwrap` on an unparseable epoch is modelled as an `EpochPanic` result.
- `RemoteMethods.BrpError`: the `data` field is always `None` and is not modelled.

## Findings

| source | as written | input that shows it | evidently intended | confidence | as-written member | corrected member |
|---|---|---|---|---|---|---|
| src/satellite/communication.rs:62-67 | `handle_connection` appends every proposal at both ends without re-checking `CONNECTION_NUM`, while `connect_nearest` judges eligibility on the lists from the start of the tick | three unlinked satellites pairwise closer than 2000 units: proposals (0,1), (0,2), (1,2); satellite 0 ends with two links | at most `CONNECTION_NUM` = 1 link per satellite (the later link manager re-checks at simulator/src/core/communication.rs:201-203) | medium, not executed | LegacyLinks.ThreeCloseOverCapacity | LegacyLinks.LegacyConstellation.HandleConnectionChecked |
| simulator/src/satellite/mod.rs:129-150 | `setup` spawns an orbit for every dataset entry and also queues the same entries, which `spawn_satellites` spawns again on the first `Update` | a dataset with one record `x`: orbits `[x, x]` are spawned | every dataset satellite spawned once | medium, not executed | Spawner.DoubleSpawn | Spawner.StartupThenUpdateQueueOnly |
