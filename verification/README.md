# minisatip: bookkeeping that stays consistent

minisatip is a SAT>IP server. Its clients come and go, tune, add and drop pids and change channels; the server
keeps several shared, mutable tables in step through all of it. This project models those tables and proves what
each operation keeps, over every run.

Every operation that the original performs by changing arrays, fields or buffers is a method over arrays, fields
or buffers here, with the original's loops. Each such method is proved equal to a function on values; the
theorems are then lemmas about those functions. The modules, by component:

- **PMT election** (`ElectionSpec`, `ElectionOrder`, `ElectionOutcome`, `ElectionOwners`, `ElectionMeaning`, `ElectionExample`,
  `Election`, `StreamMatch`): which programs of an adapter own its pids. Candidates are sorted, duplicates
  dropped, losers stopped, winners claim in rank order. Proved: who runs, who owns what, that the earliest subscriber
  wins, and that repeating the election changes nothing.
- **CAPMT table** (`CapmtSpec`, `CapmtRead`, `CapmtTable`, `CapmtRuns`, `CapmtLazy`, `CapmtTold`, `Capmt`): programs packed into the
  entries sent to a CAM (section 8.4.3.4 of EN 50221), with lazy leaves, kept loops and suppressed re-sends. The CAM is what
  it last accepted for each entry, and a reader of the standard's format says what that tells it.
- **DDCI mapping and packets** (`DdciMap`, `Ddci`, `DdciTs`, `DdciShared`): pids of several adapters share one CAM pid
  space, and their packets one FIFO.
- **DDCI PMT regeneration** (`PmtSection`, `PmtParser`, `PmtWriter`, `PmtRoundTrip`, `PmtReparse`, `PmtRegister`,
  `PmtEmission`, `PmtExample`): the program map section (section 2.4.4.8 of ISO/IEC 13818-1) is written with renamed
  pids and parsed again. Parse after generate is pid renaming, and the version byte makes the reader follow every
  change.
- **SAT>IP client** (`Rtsp`, `RtspRuns`, `Holes`, `PidText`, `PidDeltas`, `PidCuts`, `PidRequests`): the interleaved stream
  reader (section 10.12 of RFC 2326), the removal of holes after a multi-datagram read, and the pending pid lists
  against the server's set, down to the text of the request and its parsing.
- **Control words** (`CwTable`, `CwRuns`, `CwAges`, `CwMeaning`, `CwCache`): a pool of keys with one pointer per PMT; the key
  sent last, or for the parity to come, is the one used.
- **Section filters** (`FilterTable`, `Filters`): chains threaded through a fixed pool.
- **Adapter pids** (`PidTable`, `PidSort`, `PidRuns`, `PidRelease`, `PidOrder`, `Pids`): the slot table against the demux, the
  order of subscribers the election goes by, and the in-place sort.
- **MMI text** (`MmiText`): every byte string becomes bounded UTF-8 (section 4 of RFC 3629).
- `Bytes`, `Wrappers`, `PmtData`: bytes, optional values, and what a parsed PMT carries.

## Where the code does not do what one would expect

Each of these is kept as the code has it, shown by a concrete input or an exact condition, and proved for all
other inputs:

- A subscribed audio/video pid that an elected PMT lists can end an election without an owner: a tied holder that
  no longer lists the pid is released after the lister's turn. `ElectionExample.StaleClaimLosesPid` is such an
  adapter; `ElectionOwners.AvPidIsWellOwned` has the exact condition, on the claims before the election.
- A pid request longer than its buffer is cut, and the pending lists are emptied all the same, so that server and client
  differ. `PidCuts.FullSwapLosesPids` is such a request; `PidCuts.DeltasSettleIff` and `PidCuts.FullSettlesIff` have
  the exact conditions, `PidCuts.ShortDeltasFit` a bound known beforehand.
- An ECM pid that the full CA list of 20 entries dropped is not mapped, and the CAM is told its number on the source
  adapter. `PmtExample.LastEcmIsNotMapped` is such a section; `PmtRegister.ProcessRegistersIff` has the exact condition.
- A service without PCR is written with the PCR pid that its slot last held, and is seen with a stream on it.
  `PmtExample.StalePcrAddsAStream` is such a service; `PmtReparse.ReparseIsRenaming` has the exact condition.
- A call of the interleaved reader that reads nothing takes no frame, although complete ones may be buffered:
  `RtspRuns.CallTakesAFrameIff`. Destinations that keep up have a fixed bound: `RtspRuns.BoundedRoomDelivers`.
- The full pid list stops at "all pids", and a server that does not know "all" is told 0 to 20 instead.
  `PidDeltas.AllFirstLosesAPid` is such a list; `PidDeltas.FullListIsExactIff` has the exact condition.
- DDCI's lookup cannot tell pid 0 from "not mapped", so packets of pid 0 do not come back: `DdciShared.PidZeroIsLost` is
  such a mapping, `DdciTs.ReturnsToItsAdapter` and `DdciShared.EachGetsItsOwn` hold for all other pids.
- Releasing a CAM's programs sets every byte of its table to 0xFF (src/ca.cpp:803-823), which leaves the content hash
  marked as valid; the model keeps it as a hash value that no content has.

## Model

| member | source | states |
|---|---|---|
| StreamMatch.SameDescriptors | src/pmt.cpp:1103-1119 | true exactly when the two descriptor lists are equal as multisets, for all inputs |
| StreamMatch.SameStreamPids | src/pmt.cpp:1127-1144 | true exactly when descriptors are equal as multisets and streams are equal as multisets modulo the order of their own descriptors; hence an equivalence relation |
| StreamMatch.UnusedPartner | src/pmt.cpp:1127-1144 | finds the first right-hand stream not yet used that equals the given one, or reports that none is left |
| StreamMatch.NoPartner | src/pmt.cpp:1127-1144 | a left element whose equals are all used up refutes multiset equality, so greedy marking never answers "different" wrongly |
| ElectionOrder.OutranksIsStrictWeakOrder | src/pmt.cpp:1057-1062 | rank is irreflexive, asymmetric, transitive and ties are transitive, so a full tie never displaces a holder |
| ElectionMeaning.OutranksIff | src/pmt.cpp:1039-1062 | a PMT outranks another exactly when its PMT pid was subscribed earlier, or not later and the rounded-down percentage of its pids with a client is higher; pids without an order come last |
| ElectionMeaning.CandidateIff | src/pmt.cpp:1079-1087 | a live PMT is a candidate exactly when an audio/video pid of it is watched, and its own pid is or it runs already |
| ElectionMeaning.OneOfEachIsElected | src/pmt.cpp:1223-1265 | of the candidates that carry the same descriptors and streams exactly one is elected, one that no other of them goes before |
| ElectionMeaning.EarliestIsFirst | src/pmt.cpp:1245-1251 | on the elected list nobody behind was subscribed earlier, nor as early and more complete |
| ElectionMeaning.EarliestSubscriberWins | src/pmt.cpp:1283-1323 | a watched slot free of live holders that stay goes to the first elected PMT that lists it: of all elected listers none goes before that one, by subscription order, then completeness |
| ElectionMeaning.OwnersMoveOnlyToListers | src/pmt.cpp:1267-1323 | the owner of a slot changes only to an elected PMT that lists its watched pid, or to nobody; and where no elected PMT lists it, to nobody only when its live holder was stopped |
| ElectionMeaning.HoldsAvIff | src/pmt.cpp:1090-1099 | a PMT holds an audio/video pid exactly when it owns a watched slot that serves one of its audio/video streams |
| ElectionOrder.SortIsSortedPermutation | src/pmt.cpp:1247-1251 | the sort yields a rank-ordered permutation of the candidates |
| ElectionOrder.SortCommutesWithFilter | src/pmt.cpp:1245-1251 | stability: leaving members out before or after sorting is the same |
| ElectionOrder.DedupeKeepsBestOfEach | src/pmt.cpp:1252-1265 | no two kept members carry the same streams, and every candidate has a kept copy it does not outrank |
| ElectionOrder.DedupeIgnoresDropped | src/pmt.cpp:1252-1265 | members that duplicate removal drops do not influence it |
| ElectionOrder.ElectedIsSorted | src/pmt.cpp:1223-1265 | the elected list consists of distinct live candidates in rank order |
| ElectionOutcome.TurnSpares | src/pmt.cpp:1283-1323 | a member's turn neither takes from nor gives to a PMT it does not outrank |
| ElectionOutcome.PassState | src/pmt.cpp:1283-1332 | after the claim pass a member is RUNNING exactly when it holds a subscribed audio/video pid, else STOPPED; no other state moves |
| ElectionOutcome.RunningIffElectedAndHolding | src/pmt.cpp:1212-1333 | after an election a listed PMT is RUNNING exactly when it is elected and owns a subscribed audio/video pid of its own; every other listed PMT is STOPPED |
| ElectionOutcome.FullPassLeavesNothing | src/pmt.cpp:1281-1332 | if all members end up holding, no member has anything left to take |
| ElectionOutcome.SecondElectedIsTheSame | src/pmt.cpp:1212-1333 | if every elected PMT holds, the next election elects the same list |
| ElectionOutcome.ElectionFixpoint | src/pmt.cpp:1212-1333 | if every elected PMT ends up holding, a second election with unchanged subscriptions changes no claim and no state |
| ElectionOwners.PassIsTrace | src/pmt.cpp:1283-1323 | the claim pass, seen from one pid slot, is a run of take and release steps in rank order, whoever lists the pid as what |
| ElectionOwners.ExpelledIs | src/pmt.cpp:1283-1323 | the members the claim pass will stop, worked out by rank from the claims and states before it, are those it does stop |
| ElectionOwners.AvPidIsWellOwned | src/pmt.cpp:1239-1333 | a subscribed pid that elected listers class as audio/video ends with an owner no elected lister outranks, unless the claims before the election show a stale holder that ties with an earlier lister and will be stopped; and exactly then it does not |
| ElectionOwners.WithoutTieNothingIsLost | src/pmt.cpp:1283-1323 | without a stale holder that ties with an earlier lister the pid is well owned, whoever is stopped |
| ElectionOwners.ListedClaimsAreNeverLost | src/pmt.cpp:1283-1323 | a claim held before the election by a PMT that still lists the pid leads to a proper owner |
| ElectionExample.StaleClaimLosesPid | src/pmt.cpp:1294-1323 | a concrete adapter on which a pid listed by an elected PMT ends without an owner, because a tied stale holder was released after the lister's turn |
| Election.BuildLookup | src/pmt.cpp:1214-1222 | the pid lookup gives for every pid the last ACTIVE slot carrying it |
| Election.CompletenessPct | src/pmt.cpp:1039-1053 | percent of stream and ECM pids that have a client |
| Election.Adapter.StopAndRelease | src/pmt.cpp:1021-1025 | stopping a PMT releases exactly its claims |
| Election.Adapter.IsCandidate | src/pmt.cpp:1079-1087 | candidacy: own pid subscribed or already running, and a subscribed audio/video pid |
| Election.Adapter.CollectCandidates | src/pmt.cpp:1228-1238 | the candidates are exactly those of the specification, in list order |
| Election.Adapter.DropDuplicates | src/pmt.cpp:1252-1265 | the in-place flags select exactly the duplicate-free list and mark it as best |
| Election.Adapter.StopUnelected | src/pmt.cpp:1267-1279 | every started PMT that was not elected is stopped and loses its claims, nothing else changes |
| Election.Adapter.ClaimStreams | src/pmt.cpp:1288-1314 | a member takes exactly the subscribed slots it lists that are free or held by someone it outranks |
| Election.Adapter.OwnsAv | src/pmt.cpp:1090-1099 | true exactly when the PMT owns a subscribed audio/video pid of its own |
| Election.Adapter.TakeTurn | src/pmt.cpp:1283-1332 | one member's turn: claim, then run, or stop and release |
| Election.Adapter.PmtPidUpdatedPids | src/pmt.cpp:1212-1333 | the loops over the arrays compute exactly the specified election, claims, states and best flags |
| CapmtTable.CompactionKeepsPrograms | src/ca.cpp:792-799 | closing the gaps keeps the programs, their order and their number, and puts no program twice |
| CapmtTable.MaskedCapmt | src/ca.cpp:974-984 | version and list management do not reach the content hash, everything else does |
| CapmtTable.SameMaskSameBody | src/ca.cpp:974-984 | equal hashed content means equal program loops |
| CapmtTable.AddKeepsInv | src/ca.cpp:1055-1140 | a joining program gets one place, and no program sits in two |
| CapmtTable.RemoveKeepsInv | src/ca.cpp:1351-1367 | a leaving program is in no entry any more, and the table stays consistent |
| CapmtTable.SendKeepsInv | src/ca.cpp:987-1045 | a send, also a failed one, keeps the table consistent and a valid hash equal to that of the last accepted content |
| CapmtTable.ProcessKeepsInv | src/ca.cpp:1240-1347 | a registration or update keeps the invariant, whether or not the write succeeds |
| CapmtTable.DelKeepsInv | src/ca.cpp:1388-1420 | an unregistration keeps the invariant, whether or not the write succeeds |
| CapmtTable.DeliveredContainsEveryLoop | src/ca.cpp:936-1045 | a delivered entry's last accepted CAPMT contains the current loop of each program the entry carries |
| CapmtTable.SuccessfulSendDelivers | src/ca.cpp:987-1045 | a send that returns success, written or suppressed, leaves its entry delivered |
| CapmtRead.LoopReadsBack | src/ca.cpp:900-932 | a reader of CA_PMT stream loops (section 8.4.3.4 of EN 50221) finds in a written loop exactly the audio/video streams sent with their types and pids, the command, and for each the handled CA entries with CAID, ECM pid and private data, in order |
| CapmtRead.LoopsConcat | src/ca.cpp:936-970 | loops written one behind the other read as the streams of the one followed by those of the other |
| CapmtRead.HeaderReads | src/ca.cpp:936-970 | the header of a CAPMT tells list management, program number, version and an empty program loop, and what follows it is read as the streams |
| CapmtTold.SendTells | src/ca.cpp:987-1045 | a send that reports success leaves the CAM told of exactly the entry's programs, kept ones included, under the entry's number; a forced one with the list management asked for and the next version; a suppressed one changes nothing |
| CapmtTold.PlacementRules | src/ca.cpp:1055-1140 | a program goes where it already is, else to a place that keeps its loop, else to an empty entry, else with several programs allowed to the entry with the fewest programs, among these with the fewest kept places, the first of several |
| CapmtTold.ProcessTells | src/ca.cpp:1240-1347 | a registration with room whose write succeeds succeeds; then the CAM's last CAPMT for the program's entry reads as the entry's number and programs, this one's streams among them; one without room changes nothing, and a failed new one leaves the program out |
| CapmtTold.FirstProgramIsOnly | src/ca.cpp:1278-1347 | the first program of a table without programs is sent alone, under its own service number, with OK_DESCRAMBLING and list management ONLY, or UPDATE when the entry had that number before |
| CapmtTold.LaterProgramIsUpdate | src/ca.cpp:1278-1347 | a program placed in an entry while another entry is active is sent as UPDATE under the number its entry had |
| CapmtTold.LastLeaveIsTold | src/ca.cpp:1388-1420 | the last program of an entry leaves with a CAPMT that is UPDATE under the entry's number and the next version and names the program's streams as NOT_SELECTED |
| CapmtTold.PartnersLeaveSilently | src/ca.cpp:1388-1420 | an unregistration writes nothing to entries without the program nor to its own while another program is left there; the program is in neither |
| CapmtTold.RunIsReadable | src/ca.cpp:776-1420 | over every run from a released table, with writes that fit, all loops kept in the table can be read back, which the theorems above assume |
| CapmtRuns.ProcessDelivers | src/ca.cpp:1240-1347 | whenever dvbca_process_pmt returns 0 the program is in an entry whose last accepted CAPMT carries the current stream loop of every program of that entry |
| CapmtRuns.RunKeepsInv | src/ca.cpp:987-1420 | over every run from a released table: no program in two places, no entry above its limit, and a valid hash is that of the last accepted content |
| CapmtRuns.ProcessSids | src/ca.cpp:1278-1316 | a registration does not renumber an entry that carries a program, and makes all numbers differ |
| CapmtRuns.NumbersStayDistinct | src/ca.cpp:1278-1316 | from the first registration on, all entries carry pairwise different program numbers, over every run |
| CapmtRuns.NumberIsStable | src/ca.cpp:1278-1367 | while an entry carries a program its number never changes, over every run |
| CapmtLazy.CalmSendIsSuppressed | src/ca.cpp:987-1045 | with unchanged loops a send that is not forced writes nothing, changes nothing and reports success |
| CapmtLazy.LazyLeavesAreUnseen | src/ca.cpp:987-1140 | for one entry, whatever the others do and whether or not their writes succeed: events that leave it to itself cause no write to it, no new version and no new number |
| CapmtLazy.AcceptedIsCalm | src/ca.cpp:1008-1045 | an accepted CAPMT whose loops each fit the kept size leaves its entry with exactly the accepted loops kept |
| CapmtLazy.AcceptedThenUnseen | src/ca.cpp:987-1140 | accepted with loops of the kept size, then any events that leave the entry to itself: the CAM's last CAPMT for it stays the accepted one |
| CapmtLazy.BackTakesKeptPlace | src/ca.cpp:1070-1092 | a returning program with identical loop gets a place that still keeps that loop |
| CapmtLazy.ZapsAreUnseen | src/ca.cpp:776-1140 | accepted, then any zapping: programs leaving without emptying the entry and coming back with unchanged loops cause no write to it and no version change, whatever the other entries carry |
| Capmt.PmtAddCaDescriptor | src/pmt.cpp:2458-2487 | appends the CA descriptors this CA handles, up to the first that does not fit |
| Capmt.CapmtAddPmt | src/ca.cpp:900-932 | writes the stream loop behind the position counter, up to the first stream without room, and nothing before it |
| Capmt.NothingIsTruncated | src/ca.cpp:900-970 | the loops of a CAPMT smaller than the buffer are written whole |
| Capmt.CreateCapmt | src/ca.cpp:936-970 | the buffer holds header and the loops of all places, live or kept, each in the room left by those before it; all of them whole when they fit |
| Capmt.CaDevice.SendCapmt | src/ca.cpp:987-1045 | for an entry that fits the buffer the new table, the accepted content and the return code are those of the specified send |
| Capmt.CaDevice.AddPmtToCapmt | src/ca.cpp:1055-1140 | the program goes to the specified place: already in, kept place, empty entry, least loaded entry |
| Capmt.CaDevice.FindLeastLoaded | src/ca.cpp:1104-1128 | the first entry below the limit with the fewest programs and among these the fewest kept places |
| Capmt.CaDevice.RemovePmtFromDevice | src/ca.cpp:1351-1367 | the program leaves its place, the kept loop of a shared entry stays |
| Capmt.CaDevice.ChooseNumbers | src/ca.cpp:1278-1316 | program numbers and list management are those of the specification |
| Capmt.CaDevice.DvbcaProcessPmt | src/ca.cpp:1240-1347 | registration and update change the table exactly as specified and return the specified code |
| Capmt.CaDevice.DvbcaDelPmt | src/ca.cpp:1388-1420 | unregistration changes the table exactly as specified |
| Capmt.CaDevice.CaReleasePmts | src/ca.cpp:803-823 | all programs leave and what was sent is forgotten |
| MmiText.ValidSequenceAt | src/ca.cpp:3022-3043 | the length of a valid multi-byte sequence at a position, 0 for an invalid one |
| MmiText.MmiSanitizeUtf8 | src/ca.cpp:3005-3067 | the loop computes the specified sanitized text of at most 255 bytes |
| MmiText.HeadIsValidIffGrammar | src/ca.cpp:3022-3043 | the byte tests accept a sequence exactly when the UTF-8 grammar of section 4 of RFC 3629 does |
| MmiText.SanitizedIsBoundedUtf8 | src/ca.cpp:3005-3067 | for every byte string the result is bounded, well-formed UTF-8 without C0 controls except newline and without DEL |
| MmiText.FixpointIffBoundedUtf8 | src/ca.cpp:3005-3067 | a text comes back unchanged exactly when it is bounded, clean and well formed |
| MmiText.SanitizeIsIdempotent | src/ca.cpp:3005-3067 | sanitizing twice equals sanitizing once |
| MmiText.CapCutsAtCharacters | src/ca.cpp:3044-3066 | the cap removes whole characters from the end only, and only one that does not fit |
| MmiText.SanitizedSaysTheSame | src/ca.cpp:3005-3067 | with room for it the result, decoded, is what the bytes say: valid characters without controls and DEL, a newline for a stray 0x8A, nothing for the other stray bytes below 0xA0, and for those above their Latin-1 character |
| DdciMap.AddKeepsInv | src/ddci.cpp:97-143 | charging a PMT keeps valid DDCI pids unique across adapters and the subscriptions in step with the entries |
| DdciMap.DischargeKeepsInv | src/ddci.cpp:244-299 | uncharging a PMT keeps the invariant; entries without users go with their subscriptions |
| DdciMap.DropOrphanKeepsInv | src/ddci.cpp:218-242 | dropping an adapter's EMM pids with its last PMT keeps the invariant |
| DdciMap.AddCharges | src/ddci.cpp:97-143 | an entry once made keeps its DDCI pid, and the only new charge is the one asked for |
| DdciMap.MapServiceCharges | src/ddci.cpp:551-601 | mapping a service charges every pid it needs that got a DDCI pid |
| DdciMap.DischargeCharges | src/ddci.cpp:244-299 | uncharging removes exactly this PMT's charges of the given entries and touches no other PMT's |
| DdciMap.ProcessPmtCharges | src/ddci.cpp:511-617 | after an add or update the entries of the adapter charged to the PMT are exactly its PMT, stream and ECM pids as far as a DDCI pid was left, plus those of pids 1, 20 and EMM pids it was charged with before or just now; survivors keep their DDCI pid, other PMTs their charges |
| DdciMap.MapServiceSubscribes | src/ddci.cpp:551-601 | a registration subscribes on the source adapter the pids 1 and 20 and the new ECM pids but no stream pid; the PMT pid stays out of the stream to the CAM, every other new pid goes into it |
| DdciMap.DelPmtLeaves | src/ddci.cpp:218-265 | an unregistration keeps shared entries and, while another PMT of the adapter is mapped, its EMM pids; with the last PMT nothing of the adapter stays mapped, and other adapters are not touched |
| DdciMap.CatMaps | src/ddci.cpp:1498-1535 | a CAT one of whose EMM pids is a DDCI pid in use changes nothing; any other replaces the adapter's EMM pids, maps, charges and subscribes each of them, and nothing else |
| Ddci.DdciDevice.FindDdciPidFrom | src/ddci.cpp:85-96 | the first DDCI pid from the given one on that no entry uses, -1 when there is none |
| Ddci.DdciDevice.AddPidMapping | src/ddci.cpp:97-143 | the mapping, subscriptions and result of the specified charge |
| Ddci.DdciDevice.Uncharge | src/ddci.cpp:244-299 | the loop over the mapping performs exactly the specified discharge |
| Ddci.DdciDevice.UnmapRemovedPids | src/ddci.cpp:269-299 | exactly the charges of pids the PMT dropped go |
| Ddci.DdciDevice.DropOrphans | src/ddci.cpp:218-242 | EMM pids of an adapter go when no other entry of it is left |
| Ddci.DdciDevice.DelPmtMapping | src/ddci.cpp:244-265 | the specified removal of a PMT from the mapping |
| Ddci.DdciDevice.FindSlot | src/ddci.cpp:512-532 | the PMT's own slot, else the first free one, else none |
| Ddci.DdciDevice.DdciProcessPmt | src/ddci.cpp:511-617 | retry exactly when no slot is free; otherwise the specified mapping, one slot per PMT, `channels` equal to the occupied slots, and the PCR's DDCI pid noted |
| Ddci.DdciDevice.DdciDelPmt | src/ddci.cpp:621-684 | the PMT holds no slot afterwards, `channels` follows, and its mapping is removed as specified |
| Ddci.DdciDevice.DdciProcessCat | src/ddci.cpp:1465-1542 | a CAT maps all its EMM pids or none, once |
| DdciTs.SetPidReplacesOnlyThePid | src/ddci.cpp:685-690 | rewriting the pid of a packet changes its 13 pid bits only and can be undone |
| DdciTs.BuildLookups | src/ddci.cpp:1196-1206 | the two lookup arrays agree with the mapping in both directions |
| DdciTs.ReturnsToItsAdapter | src/ddci.cpp:1175-1286 | a packet sent under its DDCI pid and returned gets its own pid back, all other header bits as returned; pid 0 is the one exception |
| DdciTs.NoOtherAdapterTakesIt | src/ddci.cpp:1134-1156 | no other adapter sharing the device accepts the returned packet |
| DdciTs.RunOpsKeepsInv | src/ddci.cpp:85-299 | over every run of PMT adds, updates, removals and CATs, valid DDCI pids are unique across all adapters |
| DdciTs.SendToCam | src/ddci.cpp:1216-1281 | exactly the mapped packets with a sync byte are written under their DDCI pids, and exactly their slots are nulled |
| DdciTs.MappedGoOut | src/ddci.cpp:1196-1240 | a packet goes to the CAM exactly when it has a sync byte and its pid is mapped for rewriting to a DDCI pid other than 0, and goes under that pid |
| DdciTs.PushTsToAdapter | src/ddci.cpp:1134-1173 | the loop over the adapter buffer performs the specified delivery |
| DdciTs.PushDeliversInOrder | src/ddci.cpp:1134-1173 | popped packets are a prefix of the FIFO, this adapter's stand in order in the free slots, slots with data are untouched, free slots not reached hold null packets, the data length is the old one or one more than the last slot filled, and the pass stops only at an empty FIFO or a full buffer |
| DdciTs.PassRestoresPackets | src/ddci.cpp:1175-1286 | when the CAM returns what was written, the adapter gets its own packets back bit for bit and in order, those of pid 0 excepted |
| DdciShared.EachGetsItsOwn | src/ddci.cpp:1134-1286 | whatever the interleaving of several adapters' packets, PSI and null packets in the shared FIFO, each adapter gets exactly its own packets back, bit for bit and in the order it sent them, those of pid 0 excepted |
| DdciShared.PassDeliversItsOwn | src/ddci.cpp:1134-1173 | one pass pops a beginning of the shared FIFO and leaves the adapter's own packets of it, in order, within the data length it returns; apart from null packets and the data that stayed there is nothing else in it |
| DdciShared.PidZeroIsLost | src/ddci.cpp:1134-1156 | a concrete mapping of two adapters on which pid 0 of the second goes to the CAM and does not come back |
| PmtParser.IsAc3 | src/pmt.cpp:2002-2012 | true exactly when a descriptor of the loop carries an AC-3 tag |
| PmtParser.Pmt.CaidExists | src/pmt.cpp:1993-2001 | true exactly when CAID and pid are in the CA list |
| PmtParser.Pmt.AddCaEntry | src/pmt.cpp:2014-2054 | a new CA entry is appended unless known, too many, or too short |
| PmtParser.Pmt.AddDescriptors | src/pmt.cpp:2069-2121 | the descriptor loop keeps each descriptor once and notes CA descriptors |
| PmtParser.Pmt.AddStreams | src/pmt.cpp:2213-2252 | the stream loop reads exactly the specified streams, up to a cut-off one |
| PmtParser.Pmt.ProcessPmt | src/pmt.cpp:2134-2290 | a new version replaces the whole content by what the section says; anything else is left alone |
| PmtRoundTrip.DdciIsInjective | src/ddci.cpp:917-923 | mapped pids of one adapter have different DDCI pids |
| PmtRoundTrip.ParseListed | src/pmt.cpp:2069-2121 | parsing a written descriptor loop reads those descriptors back in order |
| PmtRoundTrip.RenameSeparates | src/ddci.cpp:1009-1026 | renaming ECM pids keeps different descriptors different, so nothing merges |
| PmtRoundTrip.FoldProgram | src/ddci.cpp:953-972 | the written program CA list reads back as the CA list with its pids renamed |
| PmtRoundTrip.StreamsRead | src/ddci.cpp:974-1030 | the written stream loop reads back as the renamed streams, no stream cut, the CA list unchanged |
| PmtRoundTrip.ParseWithSlotPcr | src/ddci.cpp:925-1048 | for a well-formed registered PMT that fits, parsing the regenerated section gives the same streams and CA list with every pid and every ECM pid replaced by its DDCI pid, for any CRC; a PCR pid in the slot that is none of theirs adds one stream |
| PmtRoundTrip.ParseAfterGenerate | src/ddci.cpp:925-1048 | with the PCR among the PMT's streams, parse after generate is exactly pid renaming |
| PmtReparse.ParsedIsWellFormed | src/pmt.cpp:2134-2290 | whatever the bytes, a parsed PMT whose loop is not cut is well formed and lists its PCR pid |
| PmtReparse.StreamFlagsAre | src/pmt.cpp:2214-2252 | a parsed stream is video exactly for stream types 2, 15, 27 and 36, and audio exactly for 3, 4, 17 and 129 or as a private stream with an AC-3 descriptor |
| PmtReparse.CutIff | src/pmt.cpp:2214-2247 | the stream loop is cut exactly when the descriptors of one of its streams run past the section |
| PmtReparse.ReparseIsRenaming | src/ddci.cpp:925-1048 | for every section whose stream loop is not cut and whose PMT is registered and fits one section: parse, regenerate, parse again is pid renaming if and only if the slot's PCR pid is no foreign one; else one stream on that pid is added |
| PmtReparse.NamedPcrIsOwn | src/pmt.cpp:2254-2255 | a section that names a PCR pid (not 0 or 8191) adds no foreign stream, whatever the slot held before |
| PmtRegister.UnneededIsMappedIff | src/ddci.cpp:269-299 | after a registration a pid the PMT does not need is mapped if and only if it was mapped before and another PMT or the CAT keeps it |
| PmtRegister.ProcessRegistersIff | src/ddci.cpp:551-606 | registering a parsed PMT maps every pid it mentions if and only if the ECM pids inside its descriptors are among those it needs or stay mapped from before |
| PmtRegister.NothingDroppedIsCovered | src/pmt.cpp:2014-2054 | a CA list that dropped nothing, in particular one below 20 entries, meets that condition in any mapping |
| PmtRegister.CiSeesRenamedPmt | src/ddci.cpp:457-617 | a received PMT, uncut, with its ECM pids covered and one section long, registered in any reachable mapping with pids to spare, is seen on the CI adapter with its pids renamed, exactly so when the slot's PCR pid is no foreign one |
| PmtExample.LastEcmIsNotMapped | src/pmt.cpp:2023-2026 | a concrete section with 21 ECM pids whose last one stays without a DDCI pid after registration |
| PmtExample.StalePcrAddsAStream | src/ddci.cpp:588-599 | a concrete service without PCR that is seen with the PCR stream of the slot's former service |
| PmtWriter.WriteCas | src/ddci.cpp:953-972 | writes the CA entries that fit, in order, and counts their length |
| PmtWriter.WriteDescriptor | src/ddci.cpp:1010-1026 | writes one descriptor, the ECM pid of a CA descriptor replaced and its flag bits kept |
| PmtWriter.WriteStreams | src/ddci.cpp:974-1030 | writes the wanted streams up to the first that does not fit |
| PmtWriter.EsLenIsLoopLength | src/ddci.cpp:990-994 | the announced ES info length is the length of the loop written |
| PmtWriter.ChannelSlot.CreatePmt | src/ddci.cpp:925-1048 | the buffer holds exactly the specified section and CRC; the version is bumped exactly when the CRC changed |
| PmtEmission.NothingIsTruncated | src/ddci.cpp:953-999 | with room for the whole section no CA entry and no wanted stream is left out |
| PmtEmission.WantedAre | src/ddci.cpp:974-989 | which streams are emitted: all for a CA that takes one program at a time, otherwise exactly the requested ones, none more often than listed |
| PmtEmission.VersionTracksContent | src/ddci.cpp:1034-1045 | the version stands still exactly when the content does, otherwise it moves on by one modulo 16 |
| PmtEmission.ReceiverIsCurrent | src/pmt.cpp:2171-2174 | after every run of writes the CI adapter, which skips versions it knows, holds the parse of the last one |
| PmtEmission.UpdatesAreSeen | src/ddci.cpp:1034-1045 | in every run two successive versions differ exactly when the contents do |
| PmtEmission.EmittedIsRenamed | src/ddci.cpp:925-1048 | what one call writes into a large enough buffer parses to the wanted streams and the CA list, renamed, and one more stream for a slot PCR pid that is none of theirs |
| Rtsp.TcpReader.MakeRoom | src/satipc.cpp:1219-1226 | compaction moves the unconsumed bytes to the front and loses none |
| Rtsp.TcpReader.NextStep | src/satipc.cpp:1260-1370 | the decision at the current position: wait, take a frame, take a reply, or skip a byte |
| Rtsp.TcpReader.Scan | src/satipc.cpp:1259-1371 | the loop takes exactly the specified bytes and fills the destination with their payloads |
| Rtsp.TcpReader.Read | src/satipc.cpp:1192-1378 | one call changes the buffer and the destination exactly as specified |
| RtspRuns.ScanTakesFrames | src/satipc.cpp:1259-1371 | on well-formed frames a scan takes whole frames, in order, and leaves the rest |
| RtspRuns.FrameOnWire | src/satipc.cpp:1259-1310 | a complete frame, by its bytes: taken whole when its payload has room, and of channel 0 what follows the 12-byte RTP header comes out |
| RtspRuns.OthersOnWire | src/satipc.cpp:1259-1370 | an incomplete frame waits, an RTSP reply is taken when complete, any other byte is skipped |
| RtspRuns.RoomToRead | src/satipc.cpp:1219-1232 | the socket finds room unless unconsumed bytes fill the whole buffer |
| RtspRuns.CountIsMaximal | src/satipc.cpp:1259-1300 | a scan stops only at the end, at an incomplete frame, or at one the destination has no room for |
| RtspRuns.CallKeepsPlace | src/satipc.cpp:1192-1378 | one call, across compaction and partial frames, moves on by whole frames and loses nothing |
| RtspRuns.NothingIsLost | src/satipc.cpp:1192-1378 | for any frames, any split into reads and any destination sizes: the output is the payload of the first k frames and all bytes read since are in the buffer |
| RtspRuns.OutputIsPayloadPrefix | src/satipc.cpp:1160-1189 | the concatenated output is always a prefix of the concatenated payloads |
| RtspRuns.AllIsDelivered | src/satipc.cpp:1192-1378 | once the last bytes are read into a call with room, every payload is out, however the stream was split |
| RtspRuns.CallTakesAFrameIff | src/satipc.cpp:1233-1300 | a call takes a frame if and only if it reads something or finds the buffer full, the next frame is complete, and its payload fits |
| RtspRuns.BoundedRoomKeepsUp | src/satipc.cpp:1192-1378 | into destinations with room for what arrives and one frame more, no complete frame ever stays behind, over every run |
| RtspRuns.BoundedRoomDelivers | src/satipc.cpp:1192-1378 | into such destinations, whose size does not grow with the stream, every payload is out once all bytes are read |
| Holes.AcceptedLength | src/satipc.cpp:1078-1117 | the payload length taken of a datagram: none for runts, keep-alives and ignored packets |
| Holes.FindHoles | src/satipc.cpp:1075-1129 | every slot not full of TS packets has its hole right behind its whole packets |
| Holes.SqueezeSlot | src/satipc.cpp:1135-1153 | closing one hole moves everything behind it up and nothing before it |
| Holes.SqueezeHoles | src/satipc.cpp:1131-1155 | after removing holes from the last slot to the first the buffer is the in-order concatenation of the whole packets of each datagram |
| Holes.SatipcRead | src/satipc.cpp:1000-1155 | the buffer starts with the 188-aligned prefixes of all datagrams in order, and rb is their total length |
| Holes.PacketsSurvive | src/satipc.cpp:1131-1155 | cut into packets again the buffer holds exactly the packets of all datagrams in order |
| PidText.PrintedIntParses | src/utils.cpp:102-124 | a printed number reads back |
| PidText.ParseIntReads | src/utils.cpp:102-124 | any text: blanks, signs, digits, rest; without digits or beyond 32 bits the default, else the number, whatever follows it |
| PidText.SplitAtGaps | src/utils.cpp:67-91 | tokens end at the separator and at every character below 33, any number of them in a row |
| PidText.SplitJoin | src/utils.cpp:67-91 | splitting undoes joining for tokens without separators, blanks and control characters |
| PidText.ListParses | src/dvb.cpp:222-248 | a written pid list, "all" included, reads back as its pids |
| PidDeltas.DeltaTextIsHandled | src/dvb.cpp:354-369 | told the pending lists, the server adds the ones and drops the others |
| PidDeltas.FullTextIsHandled | src/dvb.cpp:354-369 | told the full list, the server holds exactly the pids written |
| PidDeltas.FullListIsExactIff | src/satipc.cpp:1756-1772 | after the full list the server holds the adapter's pids if and only if "all pids" is absent or listed last and is not spelled out as 0 to 20 |
| PidDeltas.AllFirstLosesAPid | src/adapter.cpp:2255-2264 | a concrete list on which the server ends without one of the adapter's pids |
| PidDeltas.SetPidKeepsExact | src/satipc.cpp:1410-1434 | adding a pid keeps the pending lists equal to the difference of the two sets |
| PidDeltas.DelPidKeepsExact | src/satipc.cpp:1436-1459 | deleting a pid keeps the pending lists equal to the difference of the two sets |
| PidDeltas.RequestSettles | src/satipc.cpp:1742-1794 | a delivered request that fits its buffer, in either form, makes the server's set the client's |
| PidDeltas.RequestForm | src/satipc.cpp:1742-1794 | a request starts with the full list exactly when that is asked for or forced, or nothing is pending, or the adapter's list is empty or starts with all pids; else it is the deltas |
| PidCuts.DeltasSettleIff | src/satipc.cpp:1774-1793 | a request with deltas makes the server's set the client's if and only if its text and last comma fit the buffer |
| PidCuts.FullSettlesIff | src/satipc.cpp:1766-1773 | a request with the full list makes the server's set the client's if and only if it fits the buffer |
| PidCuts.ShortDeltasFit | src/satipc.cpp:1774-1793 | known before the request: five characters for each pending pid and 17 for the keys are enough |
| PidCuts.TableFits | src/adapter.cpp:2246-2271 | the list of a whole pid table fits its 1000 bytes, and a request with it takes at most 645 characters |
| PidCuts.FullSwapLosesPids | src/utils.h:139-151 | a concrete link on which all 128 pids change: the request of 1295 characters is cut, the lists are emptied and the sets differ |
| PidDeltas.PendingIsTheDifference | src/satipc.cpp:1410-1459 | in every run whose requests fit, server set plus pending adds minus pending deletes is the client's set; the lists are disjoint, duplicate-free and fit their arrays |
| PidRequests.PidClient.SetPid | src/satipc.cpp:1410-1434 | the arrays change as specified, a cancelled delete by swapping in the last entry |
| PidRequests.PidClient.DelFilters | src/satipc.cpp:1436-1459 | the arrays change as specified, a cancelled add by swapping in the last entry |
| PidRequests.PidClient.GetPids | src/satipc.cpp:1742-1794 | the request text, cut as the buffer cuts it, is the specified one and the lists are empty afterwards |
| PidRequests.GetAdapterPids | src/adapter.cpp:2246-2271 | the adapter's list as text, cut at the first "all pids" |
| PidRequests.SplitText | src/utils.cpp:67-91 | the index loops yield exactly the tokens of the specification |
| PidRequests.ReadPidsList | src/dvb.cpp:222-248 | the loop yields exactly the pids of the specification |
| PidRequests.Transponder.DetectPids | src/dvb.cpp:284-369 | the server's pid set after a query is the specified one |
| CwTable.FirstKnown | src/pmt.cpp:844-849 | the first slot that already holds the key for this PMT and parity, or proof that there is none |
| CwTable.FirstReusable | src/pmt.cpp:851-854 | the first slot that may take a new key: never one in use |
| CwTable.Newest | src/pmt.cpp:747-778 | the latest unexpired key of the PMT and parity, the first of several |
| CwTable.FirstValid | src/pmt.cpp:747-761 | the first unexpired key of the PMT and parity that decrypts the packets at hand |
| CwTable.Used | src/pmt.cpp:593-597 | one more than the last enabled slot, 0 when none is |
| CwTable.SendKeepsInv | src/pmt.cpp:826-910 | a new key never overwrites one some PMT decrypts with, and the pool stays consistent |
| CwTable.UpdateKeepsInv | src/pmt.cpp:721-817 | a search changes dates only and leaves the PMT with a key of its own or none |
| CwTable.ClearIs | src/pmt.cpp:580-598 | clearing disables exactly the keys of that PMT and parity |
| CwTable.DelKeepsInv | src/pmt.cpp:1618-1665 | deleting a PMT leaves it no key and no enabled key behind |
| CwRuns.RunKeepsInv | src/pmt.cpp:580-910 | in every interleaving a key in use belongs to its PMT, enabled keys lie below ncws, and only live PMTs have enabled keys |
| CwRuns.ActiveKeyStays | src/pmt.cpp:819-854 | until a PMT searches again or is deleted it points at the same slot with the same word, even when that key is disabled or expired |
| CwRuns.UnvalidatedPicksNewest | src/pmt.cpp:746-794 | a search without packets returns the newest unexpired key of the PMT and parity, and none exactly when there is none |
| CwRuns.ValidatedPicksWorking | src/pmt.cpp:746-808 | a search with packets returns the first key that decrypts, and keys used before end within the grace time |
| CwRuns.NewPmtHasNoKeys | src/pmt.cpp:1574-1619 | a reused PMT id inherits no key |
| CwRuns.LateKeyStaysBehind | src/pmt.cpp:883-894 | a key sent for the parity in use while no search is due does not displace the key in use |
| CwAges.SendStores | src/pmt.cpp:856-910 | a key that is taken stores the word cut to its algorithm's length, expires when told or after 45 seconds, and is dated now, or a second before the key in use when it is late for the parity on air |
| CwAges.LastSentIsPicked | src/pmt.cpp:746-817 | the key sent last for a PMT and parity is the one a later search without packets takes, over every run without another such send, while it has not expired |
| CwAges.SearchLeaves | src/pmt.cpp:786-794 | after a search with packets exactly a key for the parity in use is late; after one without the next search is due and no key is late |
| CwMeaning.SendAnswers | src/pmt.cpp:826-910 | a key is taken exactly when its PMT lives, its algorithm is known, the word is not there and some slot is empty or of the algorithm, unused and off or expired; it lies in the first such slot, a PMT without key is told to search, and a refusal changes nothing |
| CwMeaning.SearchIs | src/pmt.cpp:731-790 | a search takes place exactly when called for, or without a key and with packets; it notes when, stays called for without packets, and changes no other PMT |
| CwMeaning.SearchDates | src/pmt.cpp:791-808 | the key found is dated at first use, a proven one ends the other used keys of PMT and parity ten seconds later, and nothing else of any key changes |
| CwMeaning.PacketIs | src/pmt.cpp:974-996 | a scrambled packet makes its parity the PMT's, and exactly a change of parity calls for a search |
| CwMeaning.NextKeyTakesOver | src/pmt.cpp:746-996 | a key sent for the other parity is the one used from the first packet of that parity on, even if that search has no packets to test |
| CwCache.Cache.CwInUse | src/pmt.cpp:821-824 | true exactly when a live PMT points at the slot |
| CwCache.Cache.SendCw | src/pmt.cpp:826-910 | slots, ncws, PMT and return code are those of the specification |
| CwCache.Cache.Search | src/pmt.cpp:746-778 | the loop over the slots finds the specified key |
| CwCache.Cache.UpdateCw | src/pmt.cpp:721-817 | the cache after a search is the specified one |
| CwCache.Cache.DisableCw | src/pmt.cpp:646-651 | the PMT's next search is due |
| CwCache.Cache.SeePacket | src/pmt.cpp:979-996 | the cache after a scrambled packet is the specified one |
| CwCache.Cache.ClearCwForPmt | src/pmt.cpp:580-598 | the cache after clearing is the specified one, ncws included |
| CwCache.Cache.PmtDel | src/pmt.cpp:1618-1665 | the cache after deleting a PMT is the specified one |
| FilterTable.MasterOfOpenEnd | src/pmt.cpp:275-282 | the new filter gets the master of the chain it joins, or is its own master |
| FilterTable.AddKeepsChains | src/pmt.cpp:258-300 | adding on any free slot appends the filter to the one chain of its adapter and pid and leaves all other chains alone |
| FilterTable.DelHead | src/pmt.cpp:331-349 | deleting the head makes the next filter master of all |
| FilterTable.DelInner | src/pmt.cpp:350-356 | deleting another filter links its predecessor to its successor and changes nothing else |
| FilterTable.DelKeepsChains | src/pmt.cpp:312-370 | deleting head, middle or tail takes exactly that filter out of its chain and leaves all other chains alone |
| FilterTable.DelElsewhere | src/pmt.cpp:327-370 | the deleted filter is off, without pid and flags; other filters keep their pid and flags, and filters of other pids are not touched at all |
| FilterTable.WalkVisitsAll | src/pmt.cpp:372-393 | the walk from a pid's master meets each of its enabled filters exactly once and stops |
| Filters.FilterPool.AddFilterMask | src/pmt.cpp:258-300 | refuses a bad pid or a full pool and otherwise adds as specified, the chains kept |
| Filters.FilterPool.DelFilter | src/pmt.cpp:312-370 | deletes as specified, the chains kept |
| Filters.FilterPool.GetPidFilter | src/pmt.cpp:372-381 | the head of the pid's chain, -1 when it is empty |
| Filters.FilterPool.ActiveFilters | src/pmt.cpp:382-393 | the walk counts exactly the chain's filters that have one of the flags |
| Filters.FilterPool.ResetMaster | src/pmt.cpp:302-310 | exactly the enabled filters of the pid get the new master |
| PidTable.MarkAddKeepsInv | src/adapter.cpp:1238-1279 | requesting a pid never gives it a second slot |
| PidOrder.JoinIs | src/adapter.cpp:1238-1283 | a pid is noted exactly when it is one and has a slot or finds a free one; only that slot changes, a slot about to close is wanted again, and only the first client gives an order |
| PidOrder.OrderIffClient | src/adapter.cpp:1164-1172 | a pid has an order exactly when a client stream holds it |
| PidOrder.RunKeepsOrder | src/adapter.cpp:1148-1279 | over every run, while the counter does not wrap, a pid has an order exactly while a client holds it, and no two pids have the same |
| PidOrder.EarlierIsSmaller | src/adapter.cpp:1238-1279 | first come, first in order: a pid whose clients never ceased since before another's first one has the smaller order for as long as both have clients |
| PidTable.CloseSlotKeepsInv | src/adapter.cpp:968-991 | closing a slot keeps the open set and its count in step with the handles |
| PidTable.OpenSlotKeepsInv | src/adapter.cpp:998-1033 | opening a slot, also a refused one, keeps the open set and its count in step with the handles |
| PidRuns.OpenSlotIs | src/adapter.cpp:1005-1032 | a pid the demux takes is counted and raises the most ever open; one it refuses stays NEW and sets the limit below that, but not below 16 |
| PidRuns.UpdateSettles | src/adapter.cpp:968-1043 | after a pass that goes through only INACTIVE and ACTIVE slots remain, and the open set is exactly the pids wanted before it |
| PidRuns.UpdateGoesThroughIff | src/adapter.cpp:968-1040 | a pass goes through if and only if at every NEW slot the pids left open and those opened before it are within the limit and the demux takes the pid or has it open |
| PidRuns.MarkAddHolds | src/adapter.cpp:1238-1279 | a successful request makes the stream hold that pid firmly and changes nobody else's |
| PidRuns.SyncHolds | src/adapter.cpp:1337-1361 | after a successful sync a stream holds exactly the pids it wants and every other stream what it held |
| PidRuns.SyncAnswers | src/adapter.cpp:1337-1361 | a sync succeeds exactly when the stream then holds every pid it wants, and fails only for a pid that is none or has no slot and finds none |
| PidRelease.LeaveIs | src/adapter.cpp:1173-1203 | a stream's leave marks the slot deleted exactly when it was the last one and no filter keeps the pid; its order ends with its last client, and no other slot changes |
| PidRelease.LeaveAllIs | src/adapter.cpp:1180-1187 | a leave for no stream in particular drops all of them and marks the slot deleted, whatever filters need |
| PidRelease.LeaveThenPass | src/adapter.cpp:968-1203 | after a leave and a pass that goes through, the pid is open exactly when a stream still holds it or a filter keeps it |
| PidRelease.LeaveAllThenPass | src/adapter.cpp:968-1236 | after a stream left all its pids and a pass went through, of the pids held before exactly those are open that a stream holds or a filter keeps |
| PidRelease.SyncThenPass | src/adapter.cpp:968-1361 | after a sync, also a failed one, and a pass that goes through, of the pids held before exactly those are open that a stream holds or a filter keeps |
| PidRelease.RunKeepsIdle | src/adapter.cpp:939-1361 | over every run no slot marked deleted has a stream, which is what the three theorems above assume |
| PidRuns.RunKeepsInv | src/adapter.cpp:939-1050 | over every run of requests, deletes, syncs and passes: the open set is that of the slots with a handle, active_pids its size, no pid in two live slots |
| PidSort.PotentialAfterSwap | src/adapter.cpp:1558-1570 | every swap lowers the sum of weight times position, so sorting ends |
| PidSort.BusyComeFirst | src/adapter.cpp:1546-1570 | live slots come before free ones, and among them those with more packets first |
| PidSort.BubbleIsSorted | src/adapter.cpp:1548-1572 | live slots come first and by falling packet count |
| PidSort.BubbleIsStable | src/adapter.cpp:1548-1572 | no slot is lost and slots of the same weight keep their order |
| PidSort.StableSortIsUnique | src/adapter.cpp:1548-1572 | order and stability leave only one possible result |
| PidSort.BubbleKeepsInv | src/adapter.cpp:1548-1572 | sorting keeps the table consistent with the demux |
| Pids.AdapterPids.FindPid | src/adapter.cpp:1148-1162 | the first live slot of the pid over the whole table, -1 when there is none |
| Pids.AdapterPids.MarkPidAdd | src/adapter.cpp:1238-1279 | slots, order counter and result are the specified ones |
| Pids.AdapterPids.MarkPidDeleted | src/adapter.cpp:1173-1203 | the slot is left as specified |
| Pids.AdapterPids.MarkPidsDeleted | src/adapter.cpp:1205-1236 | every slot is left as specified |
| Pids.AdapterPids.SyncPids | src/adapter.cpp:1337-1361 | the table and result are those of the specified sync |
| Pids.AdapterPids.CloseDeleted | src/adapter.cpp:968-991 | all DELETED slots are closed and freed, from the last to the first |
| Pids.AdapterPids.OpenNew | src/adapter.cpp:993-1040 | NEW slots are opened in order until a limit or a refusal |
| Pids.AdapterPids.UpdatePids | src/adapter.cpp:939-1045 | one pass changes the table as specified and tells whether it went through |
| Pids.AdapterPids.SortPids | src/adapter.cpp:1548-1572 | the array ends sorted, stable and complete |

## Left out

- Sockets, ioctls, demux and frontend devices, file storage, SRT, HTTP, SSDP, logging: input and output only. A device
  is a set of open pids, a success flag or a function parameter.
- Locks, threads and re-entrant calls: each entry point is one atomic step; the nested pid updates and elections
  that filter flags and pid passes trigger are not followed.
- Cryptography and CRC: decryption tests and `crc32` are function parameters. Where content equality is needed the
  CRC is taken to be collision-free, and so is the CAPMT content hash.
- The clock: one reading stands for all those of one call.
- RTSP replies inside the interleaved stream: recognised by a function parameter that gives the length of a complete
  reply. The original can step up to four bytes past the end of the data there.
- Rtsp.TcpReader.Scan: requires that it meets no RTP frame shorter than its 12-byte header, for the reason given next.
- Rtsp.TcpReader.Read: requires that the scan meets no RTP frame shorter than its 12-byte header; the original would
  then move the destination position backwards. `RtspRuns.ScanTakesFrames` shows that well-formed streams meet none.
- The ignore_packets flag of the interleaved reader: frames are always delivered.
- Capmt.CaDevice.SendCapmt: requires that the entry's whole CAPMT fits the 8192-byte buffer, as do DvbcaProcessPmt for the
  entry the program joins and DvbcaDelPmt for the one it empties. What a full buffer cuts off is modelled in
  `Capmt.CreateCapmt` and in the PMT writer.
- Capmt.CaDevice.CaReleasePmts: the tables masks it clears and the control words it disables are not part of it.
- PmtParser.Pmt.ProcessPmt: bytes behind the section read as zero; the claims, masks and states that process_pmt also
  resets, and handover_claims_from_lower_priority, are not part of it.
- PmtWriter.ChannelSlot.CreatePmt: does not describe the zero bytes behind the returned length. Program descriptors
  other than CA are not regenerated by the original, so the round trip states streams and CA list only.
- PmtReparse.ReparseIsRenaming: requires that the last stream of the received section is not cut off and that the
  regenerated section has at most 4098 bytes with its CRC, the most its length field can say.
- PidRequests.PidClient.SetPid: requires a free array entry unless it cancels a delete, as the original does without
  checking, and DelFilters likewise; `PidDeltas.PendingIsTheDifference` shows that alternating sets and deletes never
  need more.
- PidDeltas.RequestSettles: tuning parameters in front of the pid parameters are not part of the text; what they leave
  of the 1000-byte buffer is the size.
- PidRequests.Transponder.DetectPids: a query with "freq=" first clears the whole transponder in the original; such
  queries carry the full list, which replaces the set in any case. Other parameters are left out.
- Ddci.DdciDevice.DdciProcessCat: the EMM pids are a parameter; the descriptor loop of the CAT is not parsed.
- DdciTs.SendToCam: the PSI sections and the null packet that end a write are not part of its result; in the shared FIFO
  they are among the other packets.
- Ddci.DdciDevice.DdciDelPmt: the device is given; which device is picked when several map the same PMT pid is not
  modelled. Nor is the choice of a device for a new PMT.
- DDCI pid space exhaustion: entries without a DDCI pid are modelled in the mapping and excluded by precondition from
  the packet path, where the original would index an array with -1.
- PAT, SDT and EIT generation, TS packetising and section assembly, and the enigma CI link of the CAPMT path.
- Records with many fields (SPid, SPMT) appear with the fields an operation uses, some as parallel arrays.
- Election.Adapter.ClaimStreams: the is_decrypted mark and tables_add_pid of a claim are left out.
- Election.Adapter.PmtPidUpdatedPids: stop_pmt and start_pmt are state changes only; tables_add_pid and the is_decrypted
  mark are left out. PMTs on the list are neither STOPPING nor CACHED when it starts.
- Filters.FilterPool.AddFilterMask: section masks, callbacks and the pid requests of the flags are left out. It hands out
  the first free slot; the segmented pool of the original may hand out another free one, and
  `FilterTable.AddKeepsChains` holds for any.
- Pids.AdapterPids.MarkPidsDeleted: the branch for a list of pids, which calls mark_pid_deleted for each, is left out.
- Pids.AdapterPids.UpdatePids: the return code, the PMT hooks and the pids=all emulation are left out; a closed pid counts
  as closed even when the device reports an error. Whether a filter keeps a pid is a parameter.
- CwCache.Cache.SendCw: initialisation vectors, key schedules and the hardware descrambler are left out.
- CwAges.LastSentIsPicked: requires that the clock does not run backwards, and CwMeaning.NextKeyTakesOver likewise.
- PidOrder.RunKeepsOrder: requires that the 32-bit order counter does not wrap in the run, and EarlierIsSmaller likewise; after
  a wrap the original gives small orders again.
- ElectionMeaning.EarliestSubscriberWins: requires that the elected PMTs that list the pid all list it as audio or video; what
  happens otherwise is `ElectionOwners.PassIsTrace`.
- CapmtRead.LoopReadsBack: requires that pids, CAIDs and lengths fit the fields they are written to, as those of a parsed PMT do.
- Option parsing, status pages, signal scaling, DiSEqC and Unicable messages, netceiver: no shared state worth a proof.
