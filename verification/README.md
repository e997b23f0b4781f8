# DNS and DHCP server: verified model

This project models the stateful heart of a combined authoritative DNS and DHCP server and proves what it
promises over whole runs: that addresses are handed out exclusively and offers are honoured, that split-horizon
views do not leak, that a secondary built by zone transfer answers like its primary, that the DHCP wire formats
are inverses of each other, and that the ring, cache, rotation and hash structures agree with the simple histories
they stand for.

| file | what it holds |
|---|---|
| `Lease.dfy` | `allocate`: the loops, the four-rule policy they compute, exact exhaustion |
| `LeaseEngine.dfy` | the lease table as a state machine of events: invariant, honoured offers, exclusive grants, invisible sweeps |
| `LeaseLimits.dfy` | exactly where those promises end: shared reservations, the owner's DISCOVER, declined addresses |
| `LeaseOutcomes.dfy` | what every message does to the table and how it is answered, row by row |
| `LeaseServer.dfy` | the serving loop as a class that updates its table and is proved to take the machine's steps |
| `Names.dfy`, `Store.dfy`, `StoreLookup.dfy` | names as label sequences, the lookup specification, and the loops of `lookup` proved against it |
| `LookupMeaning.dfy` | what a lookup answers, said of the stored records alone: response code, authority, records, case |
| `Wildcards.dfy` | what the wildcard walk finds, and when that is what RFC 4592 asks for |
| `Loading.dfy` | building the store from rows: indexing, sorting, longest-suffix choice |
| `SplitHorizon.dfy`, `CnameChain.dfy` | noninterference between views; the CNAME chase as a bounded closure |
| `Axfr.dfy`, `Secondary.dfy`, `Replication.dfy` | zone dump, reassembly, conversion to rows, and the end-to-end theorem |
| `Dhcp4.dfy`, `Dhcp6.dfy`, `Dhcp4Reply.dfy`, `Dhcp6Reply.dfy` | both wire formats, option merging, and both replies read back through the parsers |
| `Dhcp4Layout.dfy`, `Dhcp6Layout.dfy` | both formats by byte positions, the v4 option region by its grammar |
| `DhcpWire.dfy` | the v4 serving loop from datagram to datagram: the lease promises as clients read them |
| `Series.dfy`, `Cache.dfy`, `LoadBalance.dfy`, `Nsec3.dfy` | per-second ring, TTL cache, round-robin, hash increment |
| `RotationFairness.dfy` | when the shared rotation counter is fair to one name |
| `DynDns.dfy`, `DynDnsServing.dfy` | dynamic address updates: string search against label search, reload, serials, and the way to the client's answer |
| `Wrappers.dfy`, `Text.dfy`, `Seqs.dfy`, `Bytes.dfy`, `OptionLists.dfy` | option and result types, ASCII folding, sequence and big-endian lemmas, coded option lists |

Loops of the source are `method`s proved equal to specification functions; the state the source updates in place
is held by the classes `Server`, `Ring`, `DnsCache` and `Database`. The theorems are lemmas about the specification
functions.

Where the code and its comments or the standards differ, the model follows the code, shows the input that differs and
proves exactly when it does not:

- A declined row does not hold its address (`src/dhcp/lease.rs:129-131`), although `src/models.rs:533` says it is
  kept out of the pool. `DeclinedAddressIsGrantedAgain` is the run, `DeclinedIsGrantedIff` says to whom a declined
  address can be granted while its row lives. `KeptOutOfPoolIff` says for which configurations no run hands it out as
  a pool address, and `QuarantineIff` for which no run grants it to another client.
- A DISCOVER from a client with an active lease replaces the row by a short offer (`src/dhcp/server.rs:299-310`).
  `DiscoverCutsTheLeaseShort` shows another client being granted the address the second that offer ends,
  `GrantsAreExclusive` that it is not granted earlier, and `ExclusiveDespiteDiscoverIff` for which configurations
  no run breaks exclusive grants even so.
- A reservation is returned without looking at current holders: exclusive grants need that no two clients are led to
  the same reserved address (`ExclusiveIffReservationsExclusive`). Honoured offers, the table's invariant and
  invisible sweeps do not need it.
- Whether a name exists ignores views (`src/store.rs:273-276`). `ForeignOwnerNamesShow` is an input on which records
  of another view show; `NoninterferenceIff` says exactly when they do not. For the same reason a secondary keeps all
  answers if and only if every owner shows something to the transferring view (`AnswersSurviveIffVisible`).
- The wildcard rule is the deepest matching wildcard (`OwnerIsDeepestWildcard`), not the closest encloser of RFC 4592;
  `WildcardReachesPastTheEncloser` is an input that differs, `AgreesWithRfc4592Iff` the exact condition on the stored
  names, name by name, and `AgreesEverywhereIff` zone by zone.
- `merge_options` replaces the first slot of a code and `set_option` lets the last one win.
  `DuplicateScopeCodeBeatsReservation` is the smallest input on which a reservation loses, `ReservationWinsIff` the
  exact condition.
- A dynamic update for a host such as `@.zone` is written to the apex (`AtHostLandsOnTheApex`); `RelativeNameReloads`
  gives the exact condition. The update also looks at disabled zones (`DisabledZoneDisagrees`,
  `ReaderAndWriterAgreeIff`) and reports success for a disabled record, which is not served
  (`DisabledRecordIsNotServed`, `UpdateReachesTheClientIff`).
- Options come from a client's first reservation, the address from its first reservation that parses
  (`UnparsableReservationSplits`, `SameReservationIff`).
- All names draw from one rotation counter. `AlternatingNamesNeverRotate` shows two names that never rotate,
  `StrideIsFairIff` and `WrapIsFairIff` when a name is served fairly.

## Model

| member | source | states |
|---|---|---|
| `LeaseAllocation.Allocate` | src/dhcp/lease.rs:32-126 | the imperative allocation computes the declared policy on every input, valid range or not |
| `LeaseAllocation.CollectUsed` | src/dhcp/lease.rs:63-81 | the two loops gather exactly the reserved numbers and those held by other clients |
| `LeaseAllocation.FindReservation` | src/dhcp/lease.rs:42-49 | returns the first parseable reservation of the client, skipping unparseable ones |
| `LeaseAllocation.FindOwn` | src/dhcp/lease.rs:83-93 | returns the first own held lease in list order that lies in the pool and is not off limits |
| `LeaseAllocation.ScanPool` | src/dhcp/lease.rs:105-126 | the scan terminates within 128-bit arithmetic and returns the least free number it may look at |
| `LeaseAllocation.AllocationIsJustified` | src/dhcp/lease.rs:32-126 | every granted address is the client's reservation, or a pool address that nobody else holds or has reserved |
| `LeaseAllocation.AllocationPriority` | src/dhcp/lease.rs:22-103 | reservation, else own held address, else free wish, else the lowest free pool address: each exactly when the earlier ones do not apply |
| `LeaseAllocation.AllocationFailsOnlyWhenFull` | src/dhcp/lease.rs:105-126 | on a valid range a client without a reservation is refused if and only if the first min(pool size, 65536 for v6) numbers are all used and neither its lease nor its wish is available; never when fewer numbers than that are used (pigeonhole) |
| `LeaseAllocation.UsedMeans` | src/dhcp/lease.rs:63-81 | a number is off limits if and only if it is reserved, or another client has an active or offered lease of it that is not over |
| `LeaseAllocation.PoolMeans` | src/dhcp/lease.rs:88 | the pool runs from the first to the last address, both included |
| `LeaseAllocation.InvalidRangeGrantsNothing` | src/dhcp/lease.rs:51-61 | a range that does not parse, is of the other family or runs backwards grants nothing but reservations |
| `LeaseAllocation.FirstOwnIsFirst` | src/dhcp/lease.rs:83-93 | of several own leases that may be kept the first listed one is |
| `LeaseAllocation.ScannedNumberKeepsItsValue` | src/dhcp/lease.rs:149-161 | turning a pool number back into an address never truncates |
| `LeaseEngine.ChoiceIsSafe` | src/dhcp/lease.rs:32-126 | on a good table the choice is eligible for the client, is the address the client already holds if it holds one, and is held by nobody else unless both are led to the same reservation |
| `LeaseEngine.OwnLeaseIsKept` | src/dhcp/lease.rs:83-93 | a client that holds an address is given that one whatever it asks for |
| `LeaseEngine.ListingDoesNotMatter` | src/db.rs:2187-2215 | allocation gives the same result for every order in which the rows may be listed |
| `LeaseEngine.HandleEffect` | src/dhcp/server.rs:279-374 | every message either writes the chosen address for its sender and grants it, or touches only rows of its sender and grants nothing |
| `LeaseOutcomes.DiscoverOutcome` | src/dhcp/server.rs:288-312 | a DISCOVER writes the chosen v4 address for min(lease, 120) seconds and offers it, or changes nothing and is not answered |
| `LeaseOutcomes.RequestOutcome` | src/dhcp/server.rs:313-351 | a REQUEST is answered NAK if and only if there is no v4 choice or the client insists on another address by option 50 or ciaddr, with the table unchanged; else the choice is written for the lease time and ACKed |
| `LeaseOutcomes.InformOutcome` | src/dhcp/server.rs:358-369 | an INFORM is acknowledged and changes nothing |
| `LeaseOutcomes.ReleaseOutcome` | src/dhcp/server.rs:416-454 | after a RELEASE (in v6 also a DECLINE) an address is in the table if and only if it was there under another client's identifier, with its row unchanged; no reply |
| `LeaseOutcomes.DeclineOutcome` | src/dhcp/server.rs:416-454 | a v4 DECLINE marks exactly the sender's rows declined with their expiry kept; no reply |
| `LeaseOutcomes.V6Outcome` | src/dhcp/server.rs:548-580 | SOLICIT and REQUEST write and grant the choice for the short hold and the lease time, or change nothing and are not answered |
| `LeaseOutcomes.OtherVersionIsIgnored` | src/dhcp/server.rs:370-372 | messages of the other version change nothing and are not answered |
| `LeaseOutcomes.HousekeepingOutcome` | src/db.rs:2258-2268 | a sweep removes exactly the rows that expired before it, a deletion exactly its row |
| `LeaseEngine.StepKeepsInv` | src/dhcp/server.rs:255-374 | for every configuration, every message, sweep and admin deletion keeps: each client holds at most one address, and held addresses are eligible for their holder |
| `LeaseEngine.ReachableTablesAreGood` | src/dhcp/server.rs:220-242 | that invariant holds after every prefix of every run from the empty table |
| `LeaseEngine.HeldRowsAreUntouched` | src/db.rs:2244-2253 | no step by another client, and no sweep, changes a held row or grants its address, if nobody else is led to the holder's reservation |
| `LeaseEngine.OwnStepsKeepTheHold` | src/dhcp/server.rs:288-351 | the holder's own DISCOVER, REQUEST and INFORM keep its row, with the short hold only after a DISCOVER |
| `LeaseEngine.HoldPersists` | src/dhcp/server.rs:255-374 | over any stretch of harmless events an address stays held by its owner until the deadline |
| `LeaseEngine.OffersAreHonoured` | src/dhcp/server.rs:288-351 | in every run of every configuration, a client's REQUEST within the offer hold is ACKed with the offered address, whatever other clients, sweeps and its own other messages do in between |
| `LeaseEngine.GrantsAreExclusive` | src/dhcp/server.rs:255-374 | in every run, an address ACKed to a client that shares no reservation is offered or ACKed to no other until the lease ends, or the offer hold counted from the owner's own DISCOVER |
| `LeaseLimits.SharedReservationBreaksExclusivity` | src/dhcp/lease.rs:42-49 | two clients led to one reserved address are both ACKed it |
| `LeaseLimits.ExclusiveIffReservationsExclusive` | src/dhcp/lease.rs:42-49 | with owners that send no DISCOVER, all runs grant exclusively if and only if no two clients are led to the same reserved address (or leases last no time) |
| `LeaseLimits.ExclusiveDespiteDiscoverIff` | src/dhcp/server.rs:299-310 | with owners that may send DISCOVERs, all runs grant exclusively if and only if, besides, leases are no longer than the offer hold or the pool has nothing unreserved to grant |
| `LeaseLimits.DiscoverCutsTheLeaseShort` | src/dhcp/server.rs:299-310 | for every configuration, every address two clients may obtain and every moment of the lease, after the owner's DISCOVER the other is ACKed the address exactly when the offer hold ends |
| `LeaseLimits.OnlyReservationsAreGranted` | src/dhcp/lease.rs:105-126 | a pool without unreserved numbers in reach of the scan only ever grants reservations, over whole runs |
| `LeaseLimits.ReleasedAddressIsGranted` | src/dhcp/server.rs:352-354 | for every address two clients may obtain: leased, released, and ACKed to the other within the same second |
| `LeaseLimits.DeclinedAddressIsGrantedAgain` | src/dhcp/server.rs:355-357 | for every address two clients may obtain: leased, declined, and ACKed to the other within the same second |
| `LeaseLimits.DeclinedIsGrantedIff` | src/dhcp/lease.rs:129-131 | whatever its expiry, a declined v4 address is granted to a client by some message if and only if the client is eligible for it and holds no address |
| `LeaseLimits.KeptOutOfPoolIff` | src/models.rs:533 | declined addresses are not granted as pool addresses before that lease would have ended, in all runs, if and only if leases last no time or the pool has nothing unreserved in reach of the scan |
| `LeaseLimits.QuarantineIff` | src/models.rs:533 | no other client is granted a declined address before that lease would have ended, in all runs, if and only if leases last no time, or no two clients share a reservation and the pool has nothing unreserved in reach |
| `LeaseEngine.ChoiceSeesOnlyHeldRows` | src/dhcp/lease.rs:73-93 | tables that agree on held rows lead to the same choice |
| `LeaseEngine.SweepsAreInvisibleFrom` | src/db.rs:2266-2268 | simulation: two runs from tables alike in held rows, one with sweeps and one without, give the same replies |
| `LeaseEngine.SweepsAreInvisible` | src/main.rs:488-505 | inserting sweeps anywhere in a run changes no reply |
| `LeaseServer.Server.ListLeases` | src/db.rs:2187-2215 | lists each row of the table exactly once |
| `LeaseServer.Server.PruneExpired` | src/db.rs:2266-2268 | removes exactly the strictly expired rows, as the machine's sweep |
| `LeaseServer.Server.ReleaseLeases` | src/dhcp/server.rs:416-454 | a RELEASE removes all rows of the client and no others |
| `LeaseServer.Server.DeclineLeases` | src/dhcp/server.rs:416-454 | a DECLINE marks all rows of the client declined and no others |
| `LeaseServer.Server.AllocateFor` | src/dhcp/server.rs:279-291 | listing the rows and allocating gives the machine's choice |
| `LeaseServer.Server.ReplyV4` | src/dhcp/server.rs:288-374 | the v4 branches update the table and reply as the machine does |
| `LeaseServer.Server.ReplyV6` | src/dhcp/server.rs:513-604 | the v6 branches update the table and reply as the machine does |
| `LeaseServer.Server.Serve` | src/dhcp/server.rs:255-374 | one message takes exactly one step of the machine |
| `LeaseServer.Server.ServeAll` | src/dhcp/server.rs:220-242 | the serving loop's table and replies over any run of events are the machine's, so the run theorems apply to it |
| `Names.LoadedOwnersAreOwnerKeys` | src/models.rs:742-752 | every record name loads to a folded owner inside its zone |
| `Names.RelativeNameRoundTrip` | src/dns/secondary.rs:64-72 | making an owner relative to the zone and qualifying it again gives the same owner |
| `Names.RelativeToMeans` | src/dns/secondary.rs:64-72 | a secondary writes the zone itself as "@", a name below it by its own labels, any other in full |
| `StoreLookup.CollectVisible` | src/store.rs:337-347 | the sorted set of types and the loop over it gather the visible records of every type, in type order |
| `StoreLookup.FindRecords` | src/store.rs:273-286 | the records of the exact owner, else of the wildcard of the nearest proper ancestor that has one, else nothing exactly when none has |
| `StoreLookup.FollowCnames` | src/store.rs:363-406 | the loop over `current`, `chase`, `depth` computes the bounded chase |
| `StoreLookup.LookupStore` | src/store.rs:290-410 | the imperative lookup meets the lookup specification for every store, name, type and client |
| `StoreLookup.GatherIsConcat` | src/store.rs:337-347 | visiting only the types that occur, in ascending order, gives what visiting all types would |
| `LookupMeaning.NotAuthoritativeIff` | src/store.rs:303-311 | a lookup is not authoritative if and only if no zone covers the name, and then holds nothing |
| `LookupMeaning.NxDomainIff` | src/store.rs:324-333 | the response code is NXDOMAIN if and only if the question is not the apex SOA, the name is not stored and no proper ancestor has a wildcard |
| `LookupMeaning.NoDataIff` | src/store.rs:335-410 | the outcome is NODATA if and only if the answering owner shows neither the type nor a CNAME, for ANY nothing at all |
| `LookupMeaning.AuthorityIsTheSoa` | src/store.rs:412-430 | a negative answer holds no record and exactly the zone's SOA with ttl max(1, minimum) as authority; a positive one no authority |
| `LookupMeaning.ApexSoaAnswer` | src/store.rs:319-321 | the apex SOA is answered with the zone's serial and minimum |
| `LookupMeaning.AnyAnswersShown` | src/store.rs:337-353 | ANY is answered with each record the answering owner shows exactly once, as a multiset, under the name asked for |
| `LookupMeaning.TypeAnswersShown` | src/store.rs:354-361 | a type the answering owner shows is answered with exactly those records in stored order |
| `LookupMeaning.CnameAnswersFirst` | src/store.rs:363-372 | a name that shows CNAMEs but not the type is answered with all of them first |
| `LookupMeaning.LookupIgnoresCase` | src/store.rs:103-107 | names that differ only in case get the same answer up to owner names |
| `LookupMeaning.SameIdMeans` | src/dhcp/lease.rs:44 | texts are taken for the same if and only if they differ at most in the case of ASCII letters |
| `LookupMeaning.SameKeyMeans` | src/store.rs:103-107 | names are taken for the same if and only if their labels are |
| `Wildcards.OwnerIsDeepestWildcard` | src/store.rs:273-286 | a name not stored is answered by the wildcard of its nearest proper ancestor that has one, and by nothing if and only if none has |
| `Wildcards.AgreesWithRfc4592Iff` | src/store.rs:273-286 | code and RFC 4592 agree on a name if and only if it is stored, or does not exist and its closest encloser has a stored wildcard or no ancestor from there up has one (at the root: no root wildcard is stored) |
| `Wildcards.AgreesInsideZoneIff` | src/store.rs:273-286 | inside a zone with a name the same without the root case |
| `Wildcards.AgreesEverywhereIff` | src/store.rs:273-286 | code and RFC 4592 agree on every name of a loaded zone if and only if every name that exists in it has records, the apex included, and it stores no wildcard |
| `Wildcards.WildcardReachesPastTheEncloser` | src/store.rs:273-286 | with `*.z` and `x.z` stored, `y.x.z` is answered by `*.z`, where RFC 4592 finds nothing |
| `SplitHorizon.ResolveMembers` | src/store.rs:259-270 | a record is shown exactly when it has the type and is tagged with the view, or is tagged for all views and no record of that type is tagged with the view |
| `SplitHorizon.ResolveSeesOnlyVisible` | src/store.rs:259-270 | removing all records of other views changes nothing |
| `SplitHorizon.OtherViewsDoNotInterfere` | src/store.rs:290-410 | two stores that differ only in records of other views, and in owners which the other side answers by a wildcard that shows nothing, give a client identical answers, authority, rcode and outcome, for every name and type, ANY and chases included |
| `SplitHorizon.NoninterferenceIff` | src/store.rs:273-286 | zones that differ only in records of other views answer a view alike for all names and types if and only if each owner stored on one side only is answered on the other by a wildcard that shows nothing to the view |
| `SplitHorizon.ForeignOwnerNamesShow` | src/store.rs:273-276 | a record of another view alone turns NXDOMAIN into NODATA |
| `SplitHorizon.AnswersAreVisible` | src/store.rs:290-410 | every answered record is the SOA or is shown to the client's view at the owner it was found under |
| `SplitHorizon.DumpMembers` | src/store.rs:337-347 | a full dump holds exactly the records its own type's resolution shows |
| `CnameChain.AnswersAreAChain` | src/store.rs:363-406 | with single CNAMEs the answer is a chain from the query name, each owner the previous target, of at most nine CNAMEs even on loops, followed by what stands at its end |
| `CnameChain.ShortChainsAreFollowed` | src/store.rs:363-406 | every in-zone chain of one to eight CNAMEs that ends in records of the type yields that final RRset |
| `CnameChain.ChaseFollowsTheLast` | src/store.rs:369-378 | where an owner has several CNAMEs the chase goes on with the last |
| `Loading.IndexRecords` | src/store.rs:203-232 | the index holds under each owner the parseable enabled rows of that owner, in row order, and no other owner |
| `Loading.StoredIffRow` | src/store.rs:203-232 | a record is stored under an owner if and only if an enabled row of a supported type parses to it, with the row's view and its TTL or else the zone's |
| `Loading.SupportedTypes` | src/models.rs:720-726 | the twenty types a row may have |
| `Loading.LoadStore` | src/store.rs:115-242 | exactly the enabled zones are loaded, one each, then sorted by descending label count, and views by priority |
| `Loading.EnabledMeans` | src/store.rs:143-145 | exactly the enabled zones are loaded |
| `Seqs.SortIsStable` | src/store.rs:138 | sorting keeps elements of equal key in their order |
| `Loading.LoadedZonesAreWellFormed` | src/store.rs:203-232 | loaded zones hold only folded owners under their apex and only supported types |
| `Loading.ZoneChoiceIsLongestSuffix` | src/store.rs:237-255 | first match after sorting is the zone with the longest covering suffix, and none if and only if none covers |
| `Loading.FirstViewHasLowestPriority` | src/store.rs:245-250 | the client's view is a matching one of least priority number |
| `Loading.InViewIff` | src/store.rs:36-52 | a client is in a view by its address or its geo data |
| `Loading.NoViewMeansNone` | src/store.rs:297-300 | a client of no view has the reserved identifier |
| `Axfr.Transfer` | src/store.rs:435-471 | a transfer is served if and only if a zone has exactly that apex, and is SOA, body, SOA of that zone |
| `Axfr.DumpOwners` | src/store.rs:453-467 | the body is the visible records of each owner in turn |
| `Axfr.BodyHoldsEachRRsetOnce` | src/store.rs:435-471 | for every owner and type the body's records are that visible RRset once, and nothing for names not stored |
| `Axfr.DumpAgreesWithLookup` | src/store.rs:354-361 | for every stored owner and type with visible records the body's records are exactly the answers to that query |
| `Secondary.Receive` | src/dns/axfr.rs:76-97 | the receive loop computes the reassembly of the messages, with its errors |
| `Secondary.AcceptedIff` | src/dns/axfr.rs:76-97 | a transfer is accepted if and only if it opens with an SOA and some prefix of its messages ends in a closing SOA within the record limit, and then with exactly the first such prefix |
| `Secondary.AnySplitReassembles` | src/dns/axfr.rs:76-97 | a bracketed stream is recovered from every split into messages whose first is not empty |
| `Secondary.Digest` | src/dns/secondary.rs:40-87 | the loop keeps the first SOA and one relative row for each other supported record, in order |
| `Secondary.RowMeans` | src/dns/secondary.rs:56-82 | a transferred record is stored unless it is an SOA or of an unsupported type: relative name, type, TTL and text, for all views, enabled |
| `Secondary.Pull` | src/dns/secondary.rs:29-89 | receiving, digesting and replacing the stored rows gives the pulled zone or the error |
| `Replication.ReplicationPreservesAnswers` | src/dns/secondary.rs:29-89 | end to end: for every split, row order, name and type, the secondary gives the primary's outcome, rcode, authority and answer multiset |
| `Replication.Refresh` | src/dns/secondary.rs:29-89 | loading, dumping, pulling and reloading composed: it fails only on too many records, and the copy answers every question alike if and only if every owner shows something to the transferring view |
| `Replication.TransferSucceeds` | src/dns/axfr.rs:76-97 | the transfer of a well-formed zone is accepted, with the primary's serial |
| `Replication.ReplicaIsCopy` | src/db.rs:1850-1887 | the reloaded zone holds, per owner, exactly what the primary shows to the transferring view |
| `Replication.CopyMirrors` | src/store.rs:259-270 | such a copy resolves every owner and type alike for any view |
| `Replication.MirrorsAnswer` | src/store.rs:290-410 | zones that resolve alike answer alike through wildcards, ANY and chases |
| `Replication.OwnersSurviveIffVisible` | src/store.rs:435-471 | all owners survive a transfer if and only if each shows something to the transferring view |
| `Replication.AnswersSurviveIffVisible` | src/store.rs:435-471 | all answers survive a transfer if and only if each owner shows something to the transferring view |
| `Replication.InvisibleOwnersVanish` | src/store.rs:273-286 | an owner that shows nothing answers NODATA on the primary and never NODATA on the secondary |
| `Dhcp6.Parse` | src/dhcp/v6.rs:101-114 | the parser computes the decoding, errors included |
| `Dhcp6.Build` | src/dhcp/v6.rs:117-125 | the builder computes the encoding |
| `Dhcp6.PushOption` | src/dhcp/v6.rs:186-191 | appends code, length and the value cut to 65535 bytes |
| `Dhcp6.ParseOptionsLoop` | src/dhcp/v6.rs:194-213 | the index loop stays in bounds, terminates and computes the option list or the error |
| `Dhcp6.ParseUndoesEncode` | src/dhcp/v6.rs:194-213 | encoded options parse back to themselves cut to 65535 bytes, after any prefix |
| `Dhcp6.DecodeUndoesEncode` | src/dhcp/v6.rs:101-125 | parse(build(m)) is m with values cut, and is m if and only if every value fits |
| `Dhcp6.EncodeUndoesDecode` | src/dhcp/v6.rs:101-125 | build(parse(b)) is b for every accepted b |
| `Dhcp6.IaNaRoundTrip` | src/dhcp/v6.rs:162-247 | an encoded IA_NA parses to the same IAID, T1, T2 and address list of any length |
| `Dhcp6.BuildIaNa` | src/dhcp/v6.rs:162-175 | the loop over addresses computes the IA_NA encoding |
| `Dhcp6.ReadIaNa` | src/dhcp/v6.rs:215-234 | the loop over sub-options computes the IA_NA parse, errors included |
| `Dhcp6Layout.TypesByNumber` | src/dhcp/v6.rs:32-46 | the message types by number |
| `Dhcp6Layout.HeaderByPosition` | src/dhcp/v6.rs:101-114 | type byte, three transaction bytes, then the options |
| `Dhcp6Layout.OptionsByPosition` | src/dhcp/v6.rs:194-213 | code and length most significant byte first, the value, then the other options |
| `Dhcp6Layout.RefusedIff` | src/dhcp/v6.rs:101-114 | a frame is refused if and only if no message with fitting options builds to it |
| `Dhcp6Layout.IaNaByPosition` | src/dhcp/v6.rs:215-234 | IAID, T1 and T2 at bytes 0, 4 and 8, most significant first |
| `Dhcp6Layout.AddressByPosition` | src/dhcp/v6.rs:236-247 | sixteen address bytes, preferred and valid lifetime; refused if and only if under 24 bytes |
| `Dhcp6Layout.IaNaRefusedIff` | src/dhcp/v6.rs:215-234 | an association is refused if and only if it is short, its options do not parse or an address option is short; its addresses are the address options in order, others skipped |
| `Dhcp4.Parse` | src/dhcp/v4.rs:114-151 | the parser computes the decoding, errors included |
| `Dhcp4.Build` | src/dhcp/v4.rs:154-186 | the builder computes the encoding |
| `Dhcp4.ParseOptionsLoop` | src/dhcp/v4.rs:257-282 | the index loop stays in bounds, terminates and computes the option list or the error |
| `Dhcp4.ParseUndoesEncode` | src/dhcp/v4.rs:257-282 | encoded options parse back to their carried form, after any prefix |
| `Dhcp4.ParsedOptionsAreCarried` | src/dhcp/v4.rs:257-282 | parsed options have codes 1..254 and at most 255 bytes |
| `Dhcp4.DecodeUndoesEncode` | src/dhcp/v4.rs:114-186 | parse(build(m)) is m with its options in carried form, for every message |
| `Dhcp4.RoundTripIffCarried` | src/dhcp/v4.rs:114-186 | parse(build(m)) is m if and only if all codes lie in 1..254 and all values fit 255 bytes |
| `Dhcp4.ReparsingIsStable` | src/dhcp/v4.rs:114-186 | re-parsing build(parse(b)) gives the same message for every accepted b |
| `Dhcp4Layout.FieldsByPosition` | src/dhcp/v4.rs:114-151 | every header field of an accepted frame by byte position, numbers most significant byte first, and the cookie |
| `Dhcp4Layout.PrintedParses` | src/dhcp/v4.rs:257-282 | any mix of pads and options parses to the options up to END or the end, and fails if an option is cut short |
| `Dhcp4Layout.EveryRegionIsPrinted` | src/dhcp/v4.rs:257-282 | every byte string is such a mix followed by the end, an END byte, or an option cut short |
| `Dhcp4Layout.RefusedIff` | src/dhcp/v4.rs:114-151 | a frame is refused if and only if it is short, has another cookie, or its region ends in an option cut short |
| `Dhcp4Layout.BuiltFrame` | src/dhcp/v4.rs:154-186 | the region built holds the options with codes 1..254 in order, cut to 255 bytes, then END |
| `OptionLists.SetOptionInPlace` | src/dhcp/v4.rs:241-247 | overwrites the first option of the code or appends it |
| `OptionLists.OptionAfterSet` | src/dhcp/v6.rs:128-142 | reading an option after setting one gives the new value for that code and the old one for any other |
| `Dhcp4Reply.MergeOptions` | src/dhcp/server.rs:868-881 | the merge loop computes the merged list |
| `Dhcp4Reply.MergeServesPrevailing` | src/dhcp/server.rs:868-881 | for every scope and reservation list, what is served under a code is the scope's last value behind its first entry, else the reservation's last entry; without one, the scope's |
| `Dhcp4Reply.ReservationWinsIff` | src/dhcp/server.rs:868-881 | a reservation's value is served if and only if the scope lists no different value that encodes behind its first entry of the code |
| `Dhcp4Reply.DuplicateScopeCodeBeatsReservation` | src/dhcp/server.rs:874 | with a repeated scope code the scope's second value is served instead of the reservation's |
| `Dhcp4Reply.OptionAfterApply` | src/dhcp/server.rs:955-965 | after adding the merged list each code carries the served value, else what was there |
| `Dhcp4Reply.BuildReply` | src/dhcp/server.rs:908-990 | the reply builder produces the encoding of the specified reply |
| `Dhcp4Reply.ReplyThroughTheWire` | src/dhcp/server.rs:908-990 | a parsed non-NAK reply echoes the request and carries for every code exactly the expected option: the server's own 53, 54, 51 and 1, the served value elsewhere, nothing else |
| `Dhcp4Reply.NakThroughTheWire` | src/dhcp/server.rs:908-990 | a parsed NAK echoes the request and carries only 53 and 54 and no address |
| `Dhcp4Reply.OwnOptionsOnTheWire` | src/dhcp/server.rs:939-954 | options 53, 54, 51 and 1 of an OFFER or ACK by value, for every merged list |
| `Dhcp4Reply.NextServerIsLastNamed` | src/dhcp/server.rs:979-983 | `siaddr` is the address of the last option 66 that spells one |
| `Dhcp4Reply.NextServerIsOwn` | src/dhcp/server.rs:931 | without one it is the server's own |
| `Dhcp4Reply.FileByteIsLastFilled` | src/dhcp/server.rs:974-978 | each byte of `file` is that of the last option 67 long enough to reach it |
| `Dhcp4Reply.FileByteIsZero` | src/dhcp/server.rs:935 | where none reaches it is zero |
| `Dhcp4Reply.ReservationReachesTheClient` | src/dhcp/server.rs:868-990 | end to end, for every scope and reservation a client reads the prevailing value under every code it may configure, and the reservation's under exactly that condition |
| `Dhcp6Reply.BuildReply` | src/dhcp/server.rs:996-1036 | the v6 reply builder produces the encoding of the specified reply |
| `Dhcp6Reply.ReplyThroughTheWire` | src/dhcp/server.rs:996-1036 | a parsed v6 reply carries the request's transaction and client identity, the server's, an IA_NA with exactly the granted address, preferred and valid for the lease, T1 lease / 2, T2 lease / 5 * 4, under the IAID of the request's first IA_NA if that parses and else 1, the last encodable DNS server and search list options, each code once, and nothing else |
| `Dhcp6Reply.TimersAreOrdered` | src/dhcp/server.rs:1013-1024 | T1 <= T2 <= preferred <= valid, and T2 is left open exactly for leases under five seconds |
| `Dhcp6Reply.LastValueMeans` | src/dhcp/server.rs:1027-1034 | of several configured values of a code the last that encodes is sent |
| `DhcpWire.AddressComesFromFirstUsable` | src/dhcp/lease.rs:42-49 | the reserved address is that of the client's first reservation that parses |
| `DhcpWire.SameReservationIff` | src/dhcp/server.rs:885-897 | address and options come from the same reservation if and only if the client has none or the address of its first one parses |
| `DhcpWire.UnparsableReservationSplits` | src/dhcp/server.rs:885-897 | a first reservation that does not parse lends its options to the address of a second one |
| `DhcpWire.SameClientIff` | src/dhcp/server.rs:248-253 | two messages have the same identity if and only if their non-empty options 61 are equal, or neither has one and the first min(hlen, 16) hardware bytes are equal, or the one's option 61 is the other's single hardware byte |
| `DhcpWire.ActionByType` | src/dhcp/server.rs:287-371 | which type byte makes which message, and that all others are ignored |
| `DhcpWire.NoTypeIsIgnored` | src/dhcp/server.rs:261-264 | a message without option 53 is ignored |
| `DhcpWire.WishIsOption50` | src/dhcp/v4.rs:204-206 | the wish is option 50 if it has four bytes, most significant first |
| `DhcpWire.SentReads` | src/dhcp/server.rs:287-372 | at every step of a run of datagrams, a client can read an ACK or OFFER for a real address in what is sent if and only if the lease machine granted it that address |
| `DhcpWire.ReadOptions` | src/dhcp/server.rs:885-990 | with a grant the client reads the scope's lease time, server and mask, and under every code it may configure what prevails between the scope and its first reservation |
| `DhcpWire.ReadRefusalIff` | src/dhcp/server.rs:313-369 | at every step of a run, a client can read a NAK if and only if it sent a REQUEST and there is no v4 choice or it insists on another address; after an INFORM it reads an ACK without address; other types are not answered |
| `DhcpWire.ReadGrantsAreExclusive` | src/dhcp/server.rs:220-374 | in every run of datagrams, once a client can read an ACK for an address no client with other identity bytes can read an OFFER or ACK for it until the lease or the hold since the owner's DISCOVER ends |
| `DhcpWire.ReadOffersAreHonoured` | src/dhcp/server.rs:220-374 | in every run of datagrams, a client that can read an OFFER and within the hold sends a request with the same identity bytes for it can read its ACK |
| `DhcpWire.MergeFor` | src/dhcp/server.rs:885-897 | the loop merges the options of the client's first reservation |
| `DhcpWire.ServeArrival` | src/dhcp/server.rs:255-374 | parsing, stepping and building one datagram is one step of the machine and its reply on the wire |
| `DhcpWire.ServeDatagrams` | src/dhcp/server.rs:220-242 | the loop's table and datagrams over any run are those the theorems speak of |
| `Series.Ring.Bump` | src/stats.rs:100-111 | the ring still represents the history extended by this second, across any gap |
| `Series.Ring.Recent` | src/stats.rs:114-128 | the output is the exact per-second counts of the whole history for the last 60 seconds |
| `Series.Ring.Qps` | src/stats.rs:130-139 | the rate is the exact number of events in the window divided by its length |
| `Series.CountIsMultiplicity` | src/stats.rs:100-111 | a count is how often the second occurs in the history |
| `Series.TotalCountsEachBump` | src/stats.rs:130-139 | a total counts each bump in the window once |
| `Cache.DnsCache.constructor` | src/dns/cache.rs:48-57 | an empty cache with capacity and maximal lifetime at least one |
| `Cache.DnsCache.Get` | src/dns/cache.rs:67-83 | answers exactly what the history of accepted stores says is live, and counts one hit or one miss |
| `Cache.DnsCache.Put` | src/dns/cache.rs:88-126 | accepts a store exactly when it is no SERVFAIL and fewer than the cap are live, evicting only dead entries |
| `Cache.DnsCache.Stats` | src/dns/cache.rs:129-136 | hits and misses add up to the gets since clearing; the size is the number of live stores, at most the cap |
| `Cache.DnsCache.Clear` | src/dns/cache.rs:138-142 | empties history and counters |
| `Cache.DnsCache.RunAll` | src/dns/cache.rs:47-142 | over any run of puts, gets and clears, each get is answered with the last accepted put under its key since the last clear if and only if that lives, and the counters are the gets and answered gets since the last clear |
| `Cache.TtlOf` | src/dns/cache.rs:100-106 | a lifetime lies between max(1, minimum) and the maximum |
| `Cache.TtlIsLifetime` | src/dns/cache.rs:100-106 | the lifetime is the smallest TTL of all records, or 30 without records, where the bounds allow it, else the nearer bound |
| `Cache.LivesForItsSmallestTtl` | src/dns/cache.rs:100-106 | an answer whose smallest TTL lies within the bounds lives exactly that long |
| `Cache.LedgerIsLastStore` | src/dns/cache.rs:88-142 | over any run of operations the recorded entry of a key is the last accepted store since clearing, or absent when there is none |
| `Cache.LiveMeans` | src/dns/cache.rs:110 | an entry is live until its expiry |
| `Cache.GetsAreThoseSinceClear` | src/dns/cache.rs:138-142 | the gets counted are those after the last clear |
| `Cache.HitsAreAnsweredGets` | src/dns/cache.rs:67-83 | the hits counted are the answered gets after the last clear |
| `Cache.GetAnswersFromTheLastStore` | src/dns/cache.rs:67-83 | a get is answered with that store's data if and only if its lifetime is not over |
| `LoadBalance.ApplyLoadBalance` | src/dns/resolve.rs:217-247 | in place, round robin computes the balanced list, every mode permutes, and each index keeps its record type |
| `LoadBalance.FamilyRotation` | src/dns/resolve.rs:217-247 | one family is rotated by the counter modulo its size and nothing else moves |
| `LoadBalance.RoundRobinRotates` | src/dns/resolve.rs:217-247 | the result is a permutation that keeps types and other records in place and rotates both address families |
| `LoadBalance.RoundRobinIsFair` | src/state.rs:200-202 | over n consecutive counter values each of n addresses comes first exactly once |
| `RotationFairness.StrideIsFairIff` | src/state.rs:200-202 | a name that draws every s-th counter value sees each of its n addresses first once in n queries if and only if s and n share no factor |
| `RotationFairness.EachComesFirst` | src/dns/resolve.rs:217-247 | n queries that put no address first twice put each of n addresses first |
| `RotationFairness.AlternatingNamesNeverRotate` | src/state.rs:200-202 | two names of two addresses asked in turn each always see the same address first |
| `RotationFairness.WrapIsFairIff` | src/state.rs:200-202 | n consecutive draws of the 64-bit counter are fair if and only if it does not wrap among them or n divides 2 to the 64 |
| `Nsec3.IncrementHash` | src/dns/dnssec.rs:258-268 | the in-place carry loop computes the successor hash |
| `Nsec3.SuccessorAddsOne` | src/dns/dnssec.rs:258-268 | the successor is the big-endian value plus one modulo 256 to the length |
| `Nsec3.OrderIsNumeric` | src/dns/dnssec.rs:186-198 | canonical byte order of equally long hashes is the order of their values |
| `Nsec3.NothingLiesBetween` | src/dns/dnssec.rs:186-198 | no hash of that length lies strictly between an owner hash and its next hash, except at the all-ones wrap-around |
| `DynDns.CoversIsSuffix` | src/db.rs:1076-1078 | the string test is the label-suffix test |
| `DynDns.FindZone` | src/db.rs:1075-1087 | the loop over zones computes the best zone |
| `DynDns.BestZoneIsLongest` | src/db.rs:1075-1087 | it is a covering zone of greatest length, the first among equals, and none if and only if none covers |
| `DynDns.ReaderAndWriterAgreeIff` | src/store.rs:237-255 | the store's sorted first match and the update's string search mean the same zone if and only if no zone covers the host or the longest one is enabled |
| `DynDns.DisabledZoneDisagrees` | src/db.rs:1074-1087 | with zone a enabled and b.a disabled, the update of x.b.a goes to b.a and the store does not answer from there |
| `DynDns.RelativeNameReloads` | src/models.rs:742-752 | the relative name an update writes loads to the owner a query for the host looks up if and only if the host is the zone or its relative part is nonempty, not "@", and unchanged by trimming |
| `DynDns.AtHostLandsOnTheApex` | src/models.rs:742-752 | a host whose relative part is "@" is written to the apex |
| `DynDns.SerialMovesWithRecords` | src/db.rs:765-773 | records change exactly on Created and Updated; then the best zone's serial rises by one and nothing else about any zone changes; otherwise nothing changes |
| `DynDns.UpdateIsIdempotent` | src/db.rs:1065-1123 | repeating an update changes nothing and reports Unchanged, or NoZone again |
| `DynDns.Database.SetDynAddress` | src/db.rs:1065-1123 | the in-place update computes the specified tables and result |
| `DynDns.AddressIsWritten` | src/db.rs:1091-1122 | after an update that found a zone, that zone has a record named for the host, of type A or AAAA as the address is, in the view, with the address |
| `DynDns.TrimSpaceMeans` | src/db.rs:1072 | trimming takes white space off both ends and nothing else |
| `DynDns.TrimDotsMeans` | src/db.rs:1072 | and dots off the end and nothing else |
| `DynDns.HostOfIsTrimmed` | src/db.rs:1072 | a host name is folded and does not end in a dot |
| `DynDnsServing.RowIsServedIff` | src/store.rs:203-232 | a question is answered with an address if and only if some row loads to it under the owner that answers for the name and the client's view sees that row there |
| `DynDnsServing.RecordIsServedIff` | src/store.rs:203-232 | the same of the table records of a zone, in whatever order their rows are read back |
| `DynDnsServing.UpdateReachesTheClientIff` | src/db.rs:1065-1123 | update, tables, loading and lookup composed, for every update: the client is answered with the address if and only if some enabled record of the zone carries it, its owner answers for the host, and the client's view sees it |
| `DynDnsServing.WrittenServesIff` | src/db.rs:1101-1122 | under a good host name the record that the update created, changed or left is one of these if and only if it is enabled and the view sees it |
| `DynDnsServing.NewAddressReachesTheClientIff` | src/db.rs:1101-1122 | an address new to the zone reaches the client if and only if that record is enabled and the view sees it |
| `DynDnsServing.DisabledRecordIsNotServed` | src/db.rs:1112-1117 | with one disabled record the update reports Updated and the address is served to nobody |

## Left out

- Concurrent serving loops: the lease theorems are for one loop and one scope with a fixed configuration and a clock that does not run back; two loops on one scope interleave their reads and writes.
- Lease timestamps are integers; the sweep's comparison of RFC 3339 text is modelled as `expires < now`, and dates that do not format are not modelled.
- Scope selection, reply destination, host name and PTR registration, sockets and interfaces.
- The text syntax of DHCP options: an option is a code with its encoded bytes or an encoding failure.
- Names are sequences of labels with ASCII folding; escapes and punycode are not modelled. Rdata is opaque except a CNAME target, and an SOA is its serial and minimum.
- Rdata text: that a record's text parses back to it is an assumption of the replication theorem (`TextRoundTrips`), since printing and parsing belong to a foreign library.
- Replication with two visible CNAMEs at one owner: the chase follows the last one in row order, and the order of equal rows read back from the database is not fixed, so the theorem asks for at most one.
- Client networks and geo data are predicates of a view; address-prefix matching and the geo database are not modelled.
- DNSSEC signatures, TSIG, zone polling, upstream resolution, DoH, the web interface and block lists.
- LoadBalance.Shuffle: the random mode is an arbitrary permutation; its distribution is not modelled.
- Series.Ring.Bump: asks for seconds that do not decrease, because the source's subtraction underflows otherwise; counters are unbounded.
- Cache.DnsCache.Put: asks for max(min_ttl, 1) <= max_ttl, because the source's clamp panics otherwise. Saving and loading the cache are not modelled.
- DynDns.Database.SetDynAddress: trims ASCII white space only, and reads matching rows in table order.
- DynDnsServing.NewAddressReachesTheClientIff: is about an address that no record of the zone carries yet; `UpdateReachesTheClientIff` has no such condition.
- DhcpWire.ServeDatagrams: v4 only, one scope that every datagram is matched to; receiving, sending and the 1500-byte receive buffer are not modelled.
